/**
 * Cleaning of raw LLM replies before they are used as answers or parsed as
 * JSON: dropping markdown code fences, provider wrapper tokens and hidden
 * `<think>` blocks, and the tolerant JSON reader built on top.
 */
module Fences {
  import opened Wrappers
  import opened JsonValues
  import opened Text

  const JsonFence: string := "```json"
  const Fence: string := "```"
  const ThinkOpen: string := "<think>"
  const ThinkClose: string := "</think>"

  /** Provider wrapper tokens removed from every reply, in the order they are removed. */
  const WrapperTokens: seq<string> :=
    ["<|begin_of_box|>", "<|end_of_box|>", "<|start_header_id|>", "<|end_header_id|>"]

  /** Strip the text, drop one leading fence (```` ```json ```` first, then ```` ``` ````) and one trailing fence. */
  function DropFences(s: string): (r: string)
    ensures |r| <= |Strip(s)|
    ensures !StartsWith(Strip(s), Fence) && !EndsWith(Strip(s), Fence) ==> r == Strip(s)
    ensures var c0 := Strip(s);
            var rest := c0[|LeadingFence(c0)|..];
            && c0 == LeadingFence(c0) + rest
            && (EndsWith(rest, Fence) ==> rest == r + Fence)
            && (!EndsWith(rest, Fence) ==> rest == r)
  {
    var c0 := Strip(s);
    LeadingFenceSplit(c0);
    DropSuffix(DropPrefix(DropPrefix(c0, JsonFence), Fence), Fence)
  }

  /** What the two prefix drops leave is the text after `LeadingFence`. */
  lemma LeadingFenceSplit(c: string)
    ensures c[|LeadingFence(c)|..] == DropPrefix(DropPrefix(c, JsonFence), Fence)
    ensures c == LeadingFence(c) + c[|LeadingFence(c)|..]
    ensures !StartsWith(c, Fence) ==> DropPrefix(DropPrefix(c, JsonFence), Fence) == c
  {
    JsonFenceIsFence(c);
    var p := LeadingFence(c);
    assert c == p + c[|p|..];
    if StartsWith(c, JsonFence) && StartsWith(c[7..], Fence) {
      assert c[10..] == c[7..][3..];
    }
  }

  /**
   * The opening fence `_clean_json_text` cuts: ```` ```json ```` possibly
   * followed by a second ```` ``` ````, or a bare ```` ``` ````, or nothing
   * when the text does not open with a fence.
   */
  function LeadingFence(c: string): (p: string)
    ensures StartsWith(c, p)
    ensures p == [] <==> !StartsWith(c, Fence)
    ensures StartsWith(c, JsonFence) ==> StartsWith(p, JsonFence)
    ensures p == [] || p == Fence || p == JsonFence || p == JsonFence + Fence
  {
    JsonFenceIsFence(c);
    if StartsWith(c, JsonFence) then
      if StartsWith(c[7..], Fence) then
        assert c[..10] == c[..7] + c[7..][..3];
        JsonFence + Fence
      else JsonFence
    else if StartsWith(c, Fence) then Fence
    else []
  }

  /** `c[len(p):]` when `c.startswith(p)`: the text after the prefix. */
  function DropPrefix(c: string, p: string): (r: string)
    ensures |r| <= |c|
    ensures !StartsWith(c, p) ==> r == c
    ensures StartsWith(c, p) ==> c == p + r
  {
    if StartsWith(c, p) then c[|p|..] else c
  }

  /** `c[:-len(p)]` when `c.endswith(p)`: the text before the suffix. */
  function DropSuffix(c: string, p: string): (r: string)
    ensures |r| <= |c|
    ensures !EndsWith(c, p) ==> r == c
    ensures EndsWith(c, p) ==> c == r + p
  {
    if EndsWith(c, p) then c[..|c| - |p|] else c
  }

  /** A text that does not start with ```` ``` ```` does not start with ```` ```json ```` either. */
  lemma JsonFenceIsFence(c: string)
    ensures StartsWith(c, JsonFence) ==> StartsWith(c, Fence)
  {
    if StartsWith(c, JsonFence) {
      assert c[..3] == c[..7][..3];
      assert JsonFence[..3] == Fence;
    }
  }

  /**
   * The shared fence cleaner: the text with surrounding whitespace and one
   * layer of markdown code fences removed, whitespace-trimmed again.
   */
  function CleanJsonText(response: string): (r: string)
    ensures Trimmed(r)
    ensures |r| <= |response|
    ensures !StartsWith(Strip(response), Fence) && !EndsWith(Strip(response), Fence) ==>
              r == Strip(response)
  {
    StripIdempotent(response);
    Strip(DropFences(response))
  }

  /** Delete the wrapper tokens one after another, as the four `replace` calls do. */
  function RemoveWrappers(s: string, toks: seq<string>): (r: string)
    ensures |r| <= |s|
    ensures (forall i :: 0 <= i < |toks| ==> !Contains(s, toks[i])) ==> r == s
    decreases |toks|
  {
    if toks == [] then s
    else
      var s1 := RemoveAll(s, toks[0]);
      RemoveWrappers(s1, toks[1..])
  }

  /**
   * The loop reading: the text after the last token is the text left by
   * all earlier tokens with every occurrence of the last one deleted.
   */
  lemma {:induction false} RemoveWrappersLast(s: string, toks: seq<string>)
    requires toks != []
    ensures RemoveWrappers(s, toks) == RemoveAll(RemoveWrappers(s, toks[..|toks| - 1]), toks[|toks| - 1])
    decreases |toks|
  {
    var s1 := RemoveAll(s, toks[0]);
    if |toks| == 1 {
      assert toks[1..] == [];
    } else {
      RemoveWrappersLast(s1, toks[1..]);
      assert toks[1..][..|toks[1..]| - 1] == toks[..|toks| - 1][1..];
      assert toks[1..][|toks[1..]| - 1] == toks[|toks| - 1];
    }
  }

  /**
   * Remove every `start ... end` span: each round deletes the first `start`
   * and the first `end` after it (inclusive), until one of them is missing.
   * With both tags empty the source loops forever, so one must be non-empty.
   */
  function StripTagBlock(text: string, start: string, end: string): (r: string)
    requires |start| + |end| > 0
    ensures BlockFree(text, start, end) ==> r == text
    ensures BlockFree(r, start, end)
    ensures |r| <= |text|
    ensures !BlockFree(text, start, end) ==> |r| <= |text| - (|start| + |end|)
    decreases |text|
  {
    var si := Find(text, start, 0);
    if si == -1 then text
    else
      var ei := Find(text, end, si + |start|);
      if ei == -1 then text
      else
        var next := text[..si] + text[ei + |end|..];
        assert |next| <= |text| - (|start| + |end|);
        assert !BlockFree(text, start, end);
        StripTagBlock(next, start, end)
  }

  /** No `end` follows the first `start` (or there is no `start` at all): the loop's exit condition. */
  predicate BlockFree(text: string, start: string, end: string) {
    var si := Find(text, start, 0);
    si == -1 || Find(text, end, si + |start|) == -1
  }

  /**
   * One round of the loop: when the first `start` has an `end` after it,
   * the result is that of the text with the span between them, tags
   * included, cut out and everything around it kept.
   */
  lemma {:induction false} StripTagBlockAtFirst(text: string, start: string, end: string)
    requires |start| + |end| > 0
    requires Find(text, start, 0) != -1
    requires Find(text, end, Find(text, start, 0) + |start|) != -1
    ensures var si := Find(text, start, 0);
            var ei := Find(text, end, si + |start|);
            && si + |start| <= ei && ei + |end| <= |text|
            && StripTagBlock(text, start, end) == StripTagBlock(text[..si] + text[ei + |end|..], start, end)
  {
  }

  /** A text without a complete block is left alone, so stripping blocks twice is stripping once. */
  lemma StripTagBlockIdempotent(text: string, start: string, end: string)
    requires |start| + |end| > 0
    ensures StripTagBlock(StripTagBlock(text, start, end), start, end) == StripTagBlock(text, start, end)
  {
  }

  /** The reply post-processing applied to every chat completion. */
  function StripMarkdownFences(response: string): (r: string)
    ensures Trimmed(r)
  {
    var cleaned := CleanJsonText(response);
    var unwrapped := RemoveWrappers(cleaned, WrapperTokens);
    Strip(StripTagBlock(unwrapped, ThinkOpen, ThinkClose))
  }

  /** A reply with no fences, wrapper tokens or `<think>` tag only loses its surrounding whitespace. */
  lemma {:induction false} PlainReplyIsStripped(response: string)
    requires !StartsWith(Strip(response), Fence) && !EndsWith(Strip(response), Fence)
    requires forall i :: 0 <= i < |WrapperTokens| ==> !Contains(response, WrapperTokens[i])
    requires !Contains(response, ThinkOpen)
    ensures StripMarkdownFences(response) == Strip(response)
  {
    var cleaned := CleanJsonText(response);
    assert cleaned == Strip(response);
    forall i | 0 <= i < |WrapperTokens|
      ensures !Contains(cleaned, WrapperTokens[i])
    {
      StripKeepsAbsent(response, WrapperTokens[i]);
    }
    assert RemoveWrappers(cleaned, WrapperTokens) == cleaned;
    StripKeepsAbsent(response, ThinkOpen);
    assert Find(cleaned, ThinkOpen, 0) == -1;
    StripIdempotent(response);
  }

  /** A body that is a brace-delimited span. */
  predicate Braced(b: string) {
    |b| >= 2 && b[0] == '{' && b[|b| - 1] == '}'
  }

  /** ```` ```json{...}``` ```` loses exactly its fences. */
  lemma {:induction false} FencedJsonUnwrapped(body: string)
    requires Braced(body)
    ensures CleanJsonText(JsonFence + body + Fence) == body
  {
    var s := JsonFence + body + Fence;
    FencedDropFences(body);
    assert CleanJsonText(s) == Strip(DropFences(s));
    BracedTrimmed(body);
  }

  /** Braces are not whitespace, so a braced body is already trimmed. */
  lemma BracedTrimmed(b: string)
    requires Braced(b)
    ensures Trimmed(b) && Strip(b) == b
  {
    assert (b[0] as int) == 123 && (b[|b| - 1] as int) == 125;
  }

  /** The fence-dropping step on ```` ```json{...}``` ````: the body is what is left. */
  lemma {:induction false} FencedDropFences(body: string)
    requires Braced(body)
    ensures DropFences(JsonFence + body + Fence) == body
  {
    var s := JsonFence + body + Fence;
    FencedTrimmed(body);
    OpeningJsonFence(body);
    NoSecondFence(body);
    ClosingFence(body);
    assert DropFences(s) == DropSuffix(DropPrefix(DropPrefix(s, JsonFence), Fence), Fence);
  }

  /** Backquotes are not whitespace, so a fenced reply is already trimmed. */
  lemma FencedTrimmed(body: string)
    ensures Strip(JsonFence + body + Fence) == JsonFence + body + Fence
  {
    var s := JsonFence + body + Fence;
    assert (s[0] as int) == 96 && (s[|s| - 1] as int) == 96;
    assert Trimmed(s);
  }

  lemma OpeningJsonFence(body: string)
    ensures DropPrefix(JsonFence + body + Fence, JsonFence) == body + Fence
  {
    var s := JsonFence + body + Fence;
    assert s[..7] == JsonFence;
    assert s[7..] == body + Fence;
  }

  lemma NoSecondFence(body: string)
    requires Braced(body)
    ensures DropPrefix(body + Fence, Fence) == body + Fence
  {
    assert (body + Fence)[0] == '{';
  }

  lemma ClosingFence(body: string)
    ensures DropSuffix(body + Fence, Fence) == body
  {
    var c := body + Fence;
    assert c[|c| - 3..] == Fence;
    assert c[..|c| - 3] == body;
  }

  /** ```` ```json{...}``` ```` with no wrapper tokens or `<think>` tag is reduced to `{...}`. */
  lemma {:induction false} FencedReplyUnwrapped(body: string)
    requires Braced(body)
    requires forall i :: 0 <= i < |WrapperTokens| ==> !Contains(body, WrapperTokens[i])
    requires !Contains(body, ThinkOpen)
    ensures StripMarkdownFences(JsonFence + body + Fence) == body
  {
    var s := JsonFence + body + Fence;
    FencedJsonUnwrapped(body);
    var cleaned := CleanJsonText(s);
    assert cleaned == body;
    var unwrapped := RemoveWrappers(cleaned, WrapperTokens);
    assert unwrapped == body;
    assert Find(unwrapped, ThinkOpen, 0) == -1;
    assert StripTagBlock(unwrapped, ThinkOpen, ThinkClose) == body;
    assert Trimmed(body);
  }

  /** How a reply was turned into a value. */
  datatype ParseSource = WholeText | BraceSpan(first: nat, last: nat) | Fallback

  /**
   * The tolerant reader: the parse of the cleaned text, else the parse of the
   * span from the first `{` to the last `}`, else an empty object.
   */
  function ParseJsonResponse(py: Python, response: string): (r: (Json, ParseSource))
    ensures py.loads(CleanJsonText(response)).Some? ==> r.1 == WholeText
    ensures ParsedFrom(py, CleanJsonText(response), r)
  {
    ParseCleaned(py, CleanJsonText(response))
  }

  /** How `r` was obtained from the cleaned text, case by case. */
  predicate ParsedFrom(py: Python, cleaned: string, r: (Json, ParseSource)) {
    match r.1
    case WholeText => py.loads(cleaned) == Some(r.0)
    case BraceSpan(first, last) =>
      && py.loads(cleaned).None?
      && first < last < |cleaned| && cleaned[first] == '{' && cleaned[last] == '}'
      && (forall i :: 0 <= i < first ==> cleaned[i] != '{')
      && (forall i :: last < i < |cleaned| ==> cleaned[i] != '}')
      && py.loads(cleaned[first..last + 1]) == Some(r.0)
    case Fallback =>
      && py.loads(cleaned).None?
      && !SpanParses(py, cleaned)
      && r.0 == JObj([])
  }

  /**
   * The text has a `{` before a later `}`, and the span from the first `{`
   * to the last `}` parses.
   */
  predicate SpanParses(py: Python, cleaned: string) {
    var first := FindChar(cleaned, '{');
    var last := RFindChar(cleaned, '}');
    first != -1 && last != -1 && last > first && py.loads(cleaned[first..last + 1]).Some?
  }

  function ParseCleaned(py: Python, cleaned: string): (r: (Json, ParseSource))
    ensures py.loads(cleaned).Some? ==> r.1 == WholeText
    ensures ParsedFrom(py, cleaned, r)
  {
    match py.loads(cleaned)
    case Some(v) => (v, WholeText)
    case None =>
      var first := FindChar(cleaned, '{');
      var last := RFindChar(cleaned, '}');
      if first != -1 && last != -1 && last > first then
        match py.loads(cleaned[first..last + 1])
        case Some(v) => (v, BraceSpan(first, last))
        case None => (JObj([]), Fallback)
      else (JObj([]), Fallback)
  }
}
