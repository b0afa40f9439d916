/**
 * The handful of Python `str` operations the pipeline relies on:
 * `strip`, `startswith`/`endswith`, `find`/`rfind` and `replace`.
 */
module Text {

  /** Python's `str.isspace` for one character: the characters `str.strip()` removes. */
  predicate IsSpace(c: char) {
    var n := c as int;
    || (9 <= n <= 13) || (28 <= n <= 32) || n == 0x85 || n == 0xA0 || n == 0x1680
    || (0x2000 <= n <= 0x200A) || n == 0x2028 || n == 0x2029 || n == 0x202F
    || n == 0x205F || n == 0x3000
  }

  /** Neither end of `s` is whitespace. */
  predicate Trimmed(s: string) {
    s == [] || (!IsSpace(s[0]) && !IsSpace(s[|s| - 1]))
  }

  function LStrip(s: string): (r: string)
    ensures |r| <= |s| && r == s[|s| - |r|..]
    ensures r == [] || !IsSpace(r[0])
    ensures forall k :: 0 <= k < |s| - |r| ==> IsSpace(s[k])
  {
    if |s| > 0 && IsSpace(s[0]) then
      var t := s[1..];
      var r := LStrip(t);
      assert forall k :: 1 <= k < |s| ==> s[k] == t[k - 1];
      assert t[|t| - |r|..] == s[|s| - |r|..];
      r
    else s
  }

  function RStrip(s: string): (r: string)
    ensures |r| <= |s| && r == s[..|r|]
    ensures r == [] || !IsSpace(r[|r| - 1])
    ensures forall k :: |r| <= k < |s| ==> IsSpace(s[k])
  {
    if |s| > 0 && IsSpace(s[|s| - 1]) then
      var t := s[..|s| - 1];
      var r := RStrip(t);
      assert forall k :: 0 <= k < |t| ==> s[k] == t[k];
      assert t[..|r|] == s[..|r|];
      r
    else s
  }

  /** `s.strip()`: the longest infix of `s` that does not start or end with whitespace. */
  function Strip(s: string): (r: string)
    ensures Trimmed(r)
    ensures exists a :: InfixAt(s, r, a) && SpaceOutside(s, a, a + |r|)
    ensures Trimmed(s) ==> r == s
  {
    var l := LStrip(s);
    var r := RStrip(l);
    assert Trimmed(r) by {
      assert r == [] || r[0] == l[0];
    }
    assert Trimmed(s) ==> r == s by {
      if Trimmed(s) {
        TrimmedStripsNothing(s);
      }
    }
    StripShape(s, l, r);
    r
  }

  /** Neither one-sided strip changes a trimmed text. */
  lemma TrimmedStripsNothing(s: string)
    requires Trimmed(s)
    ensures LStrip(s) == s && RStrip(s) == s
  {
  }

  /**
   * Where the stripped text sits: a prefix `r` of a suffix `l` of `s`, with
   * only whitespace cut on either side, lies at `|s| - |l|` with only
   * whitespace outside it.
   */
  lemma StripShape(s: string, l: string, r: string)
    requires |l| <= |s| && l == s[|s| - |l|..]
    requires forall k :: 0 <= k < |s| - |l| ==> IsSpace(s[k])
    requires |r| <= |l| && r == l[..|r|]
    requires forall k :: |r| <= k < |l| ==> IsSpace(l[k])
    ensures InfixAt(s, r, |s| - |l|) && SpaceOutside(s, |s| - |l|, |s| - |l| + |r|)
  {
    var a := |s| - |l|;
    assert s[a..a + |r|] == r;
    assert forall k :: a + |r| <= k < |s| ==> s[k] == l[k - a];
  }

  /** `r` occurs in `s` starting at index `a`. */
  predicate InfixAt(s: string, r: string, a: int) {
    0 <= a && a + |r| <= |s| && s[a..a + |r|] == r
  }

  /** Every character of `s` outside `[a, b)` is whitespace. */
  predicate SpaceOutside(s: string, a: int, b: int) {
    && (forall k :: 0 <= k < a && k < |s| ==> IsSpace(s[k]))
    && (forall k :: b <= k < |s| && 0 <= k ==> IsSpace(s[k]))
  }

  /** Stripping twice is stripping once. */
  lemma StripIdempotent(s: string)
    ensures Strip(Strip(s)) == Strip(s)
  {
  }

  predicate StartsWith(s: string, p: string) {
    |p| <= |s| && s[..|p|] == p
  }

  predicate EndsWith(s: string, p: string) {
    |p| <= |s| && s[|s| - |p|..] == p
  }

  /** `pat` occurs in `s` at index `i`. */
  predicate IsAt(s: string, pat: string, i: int) {
    0 <= i && i + |pat| <= |s| && s[i..i + |pat|] == pat
  }

  /** Python's `pat in s`. */
  predicate Contains(s: string, pat: string) {
    exists i :: 0 <= i <= |s| && IsAt(s, pat, i)
  }

  /** Python's `s.find(pat, from)`: the lowest index at or after `from` where `pat` occurs, or -1. */
  function Find(s: string, pat: string, from: nat): (r: int)
    ensures r == -1 || (from <= r && IsAt(s, pat, r))
    decreases |s| - from
  {
    if from + |pat| > |s| then -1
    else if s[from..from + |pat|] == pat then from
    else Find(s, pat, from + 1)
  }

  /** `find` returns the first occurrence at or after `from`, and -1 only when there is none. */
  lemma {:induction false} FindIsFirst(s: string, pat: string, from: nat)
    ensures var r := Find(s, pat, from);
      && (r == -1 ==> forall i :: from <= i ==> !IsAt(s, pat, i))
      && (r != -1 ==> forall i :: from <= i < r ==> !IsAt(s, pat, i))
    decreases |s| - from
  {
    if from + |pat| <= |s| && s[from..from + |pat|] != pat {
      FindIsFirst(s, pat, from + 1);
    }
  }

  /** `s.find(c)` for a one-character pattern: the first index holding `c`, or -1. */
  function FindChar(s: string, c: char): (r: int)
    ensures r == -1 || (0 <= r < |s| && s[r] == c)
    ensures r == -1 ==> c !in s
    ensures r != -1 ==> forall i :: 0 <= i < r ==> s[i] != c
  {
    if s == [] then -1
    else if s[0] == c then 0
    else var k := FindChar(s[1..], c); if k == -1 then -1 else k + 1
  }

  /** `s.rfind(c)` for a one-character pattern: the last index holding `c`, or -1. */
  function RFindChar(s: string, c: char): (r: int)
    ensures r == -1 || (0 <= r < |s| && s[r] == c)
    ensures r == -1 ==> c !in s
    ensures r != -1 ==> forall i :: r < i < |s| ==> s[i] != c
  {
    if s == [] then -1
    else if s[|s| - 1] == c then |s| - 1
    else RFindChar(s[..|s| - 1], c)
  }

  /** An occurrence of `pat` in an infix of `s` is an occurrence in `s`. */
  lemma ContainsInfix(s: string, a: nat, b: nat, pat: string)
    requires a <= b <= |s|
    requires Contains(s[a..b], pat)
    ensures Contains(s, pat)
  {
    var i :| 0 <= i <= |s[a..b]| && IsAt(s[a..b], pat, i);
    assert forall k :: 0 <= k < |pat| ==> pat[k] == s[a..b][i + k] == s[a + i + k];
    assert s[a + i..a + i + |pat|] == pat;
    assert 0 <= a + i <= |s| && IsAt(s, pat, a + i);
  }

  /** A pattern absent from `s` is absent from `s.strip()`. */
  lemma StripKeepsAbsent(s: string, pat: string)
    requires !Contains(s, pat)
    ensures !Contains(Strip(s), pat)
  {
    var r := Strip(s);
    var a :| InfixAt(s, r, a);
    if Contains(r, pat) {
      ContainsInfix(s, a, a + |r|, pat);
    }
  }

  /**
   * `s.replace(tok, "")`: delete the occurrences of `tok` found scanning left
   * to right, each one resuming after the previous deletion. Replacing the
   * empty string by the empty string leaves `s` as it is.
   */
  function RemoveAll(s: string, tok: string): (r: string)
    ensures |r| <= |s|
    ensures !Contains(s, tok) ==> r == s
    ensures |tok| > 0 && Contains(s, tok) ==> |r| <= |s| - |tok|
    decreases |s|
  {
    if |tok| == 0 || |s| < |tok| then s
    else if s[..|tok|] == tok then
      assert IsAt(s, tok, 0);
      RemoveAll(s[|tok|..], tok)
    else
      NoneInTail(s, tok);
      [s[0]] + RemoveAll(s[1..], tok)
  }

  /**
   * `replace(tok, "")` keeps everything before the first occurrence of `tok`,
   * drops that occurrence and carries on after it; with no occurrence the
   * text is kept whole.
   */
  lemma {:induction false} RemoveAllAtFirst(s: string, tok: string)
    requires |tok| > 0
    ensures Find(s, tok, 0) == -1 ==> RemoveAll(s, tok) == s
    ensures Find(s, tok, 0) != -1 ==>
              RemoveAll(s, tok) == s[..Find(s, tok, 0)] + RemoveAll(s[Find(s, tok, 0) + |tok|..], tok)
    decreases |s|
  {
    if |s| < |tok| {
      assert Find(s, tok, 0) == -1;
    } else if s[..|tok|] == tok {
      assert s[0..0 + |tok|] == s[..|tok|];
      assert Find(s, tok, 0) == 0;
      assert s[..0] + RemoveAll(s[|tok|..], tok) == RemoveAll(s, tok);
    } else {
      var t := s[1..];
      var i := Find(s, tok, 0);
      assert i == (if Find(t, tok, 0) == -1 then -1 else Find(t, tok, 0) + 1) by {
        assert s[0..0 + |tok|] == s[..|tok|];
        assert Find(s, tok, 0) == Find(s, tok, 1);
        FindShift(s, tok, 1);
      }
      assert RemoveAll(s, tok) == [s[0]] + RemoveAll(t, tok);
      if i != -1 {
        var j := Find(t, tok, 0);
        var rest := RemoveAll(t[j + |tok|..], tok);
        assert RemoveAll(t, tok) == t[..j] + rest by { RemoveAllAtFirst(t, tok); }
        SliceShift(s, i, |tok|);
        JoinHead(s, i, RemoveAll(t, tok), rest);
      } else {
        assert RemoveAll(t, tok) == t by { RemoveAllAtFirst(t, tok); }
      }
    }
  }

  /** Searching `s` from `from >= 1` is searching its tail from `from - 1`, one index further on. */
  lemma {:induction false} FindShift(s: string, pat: string, from: nat)
    requires 1 <= from && |s| > 0
    ensures Find(s, pat, from) == (if Find(s[1..], pat, from - 1) == -1 then -1 else Find(s[1..], pat, from - 1) + 1)
    decreases |s| - from
  {
    var t := s[1..];
    if from + |pat| > |s| {
      assert Find(s, pat, from) == -1;
      assert Find(t, pat, from - 1) == -1;
    } else {
      TailSlice(s, from, from + |pat|);
      if s[from..from + |pat|] == pat {
        assert Find(s, pat, from) == from;
        assert Find(t, pat, from - 1) == from - 1;
      } else {
        assert Find(s, pat, from) == Find(s, pat, from + 1);
        assert Find(t, pat, from - 1) == Find(t, pat, from);
        FindShift(s, pat, from + 1);
      }
    }
  }

  /** A slice of the tail is the slice of `s` one index further on. */
  lemma TailSlice(s: string, a: nat, b: nat)
    requires 1 <= a <= b <= |s|
    ensures s[1..][a - 1..b - 1] == s[a..b]
  {
    assert forall k :: 0 <= k < b - a ==> s[1..][a - 1..b - 1][k] == s[a + k] == s[a..b][k];
  }

  /** Putting the first character back in front of a prefix of the tail. */
  lemma JoinHead(s: string, i: nat, rt: string, rest: string)
    requires 1 <= i <= |s|
    requires rt == s[1..][..i - 1] + rest
    ensures [s[0]] + rt == s[..i] + rest
  {
    assert [s[0]] + s[1..][..i - 1] == s[..i];
  }

  /** Cutting the first character and then slicing at `i - 1` is slicing at `i`. */
  lemma SliceShift(s: string, i: nat, n: nat)
    requires 1 <= i && i + n <= |s|
    ensures s[1..][i - 1 + n..] == s[i + n..]
    ensures [s[0]] + s[1..][..i - 1] == s[..i]
  {
  }

  /** An occurrence in the tail is one in `s`; one in `s` not at index 0 is one in the tail. */
  lemma NoneInTail(s: string, tok: string)
    requires |s| > 0
    ensures !Contains(s, tok) ==> !Contains(s[1..], tok)
    ensures Contains(s, tok) && !IsAt(s, tok, 0) ==> Contains(s[1..], tok)
  {
    if Contains(s[1..], tok) {
      assert s[1..|s|] == s[1..];
      ContainsInfix(s, 1, |s|, tok);
    }
    if Contains(s, tok) && !IsAt(s, tok, 0) {
      var i :| 0 <= i <= |s| && IsAt(s, tok, i);
      assert i >= 1;
      assert s[1..][i - 1..i - 1 + |tok|] == s[i..i + |tok|];
      assert IsAt(s[1..], tok, i - 1);
    }
  }

  /** `s.replace(c, rep)` for a one-character pattern. */
  function ReplaceChar(s: string, c: char, rep: string): (r: string)
    ensures c !in s ==> r == s
    ensures c !in rep ==> c !in r
    ensures forall d :: d in r ==> d in s || d in rep
  {
    if s == [] then []
    else (if s[0] == c then rep else [s[0]]) + ReplaceChar(s[1..], c, rep)
  }
}
