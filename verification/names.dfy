/** Turning model and judge names into directory-name fragments. */
module Names {
  import opened Text

  /**
   * `value.replace("/", "__").replace(":", "_").replace(" ", "_")`: the name
   * with path separators, colons and spaces replaced by underscores.
   */
  function SanitizeName(value: string): (r: string)
    ensures '/' !in r && ':' !in r && ' ' !in r
    ensures '/' !in value && ':' !in value && ' ' !in value ==> r == value
  {
    ReplaceChar(ReplaceChar(ReplaceChar(value, '/', "__"), ':', "_"), ' ', "_")
  }

  /** What one character of the input becomes. */
  function SafeChar(c: char): string {
    if c == '/' then "__" else if c == ':' || c == ' ' then "_" else [c]
  }

  /** The three passes act as one left-to-right pass replacing each character on its own. */
  lemma {:induction false} SanitizeIsPerCharacter(value: string)
    ensures SanitizeName(value) == if value == [] then [] else SafeChar(value[0]) + SanitizeName(value[1..])
  {
    if value != [] {
      var c := value[0];
      var t := value[1..];
      assert value == [c] + t;
      ReplaceCharAppend([c], t, '/', "__");
      ReplaceCharAppend(ReplaceChar([c], '/', "__"), ReplaceChar(t, '/', "__"), ':', "_");
      ReplaceCharAppend(ReplaceChar(ReplaceChar([c], '/', "__"), ':', "_"),
                        ReplaceChar(ReplaceChar(t, '/', "__"), ':', "_"), ' ', "_");
      assert ReplaceChar([c], '/', "__") == if c == '/' then "__" else [c];
    }
  }

  lemma {:induction false} ReplaceCharAppend(a: string, b: string, c: char, rep: string)
    ensures ReplaceChar(a + b, c, rep) == ReplaceChar(a, c, rep) + ReplaceChar(b, c, rep)
    decreases |a|
  {
    if a == [] {
      assert a + b == b;
    } else {
      assert (a + b)[1..] == a[1..] + b;
      ReplaceCharAppend(a[1..], b, c, rep);
    }
  }

  /** Number of occurrences of `c` in `s`. */
  function Occurrences(s: string, c: char): nat {
    if s == [] then 0 else (if s[0] == c then 1 else 0) + Occurrences(s[1..], c)
  }

  /** Each `/` grows by one character; every other character keeps its length. */
  lemma {:induction false} SanitizeLength(value: string)
    ensures |SanitizeName(value)| == |value| + Occurrences(value, '/')
    decreases |value|
  {
    SanitizeIsPerCharacter(value);
    if value != [] {
      SanitizeLength(value[1..]);
    }
  }

  /** Sanitizing a sanitized name changes nothing. */
  lemma SanitizeIdempotent(value: string)
    ensures SanitizeName(SanitizeName(value)) == SanitizeName(value)
  {
  }
}
