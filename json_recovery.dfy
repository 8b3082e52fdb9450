/**
 * Recovering a JSON value from the text a model replies with
 * (`parseJsonFromAiText`, `tryParseJson` and `extractLikelyJson`, which
 * content.js and popup.js carry in identical form). `JSON.parse` is the
 * parameter `parse`: it yields `None` where `JSON.parse` throws.
 */
module JsonRecovery {
  import opened Wrappers
  import opened Strings
  import opened Json

  const Fence: string := "```"

  /** The message for a blank reply. */
  const EmptyReply: string := "AI 返回为空"

  /** The message content.js gives when no stage parses. */
  const ContentParseFailure: string := "无法解析 AI 返回的 JSON"

  /** The message popup.js gives when no stage parses. */
  const PopupParseFailure: string := "无法解析 AI 返回的 JSON，请尝试重新解析或补充简历文本"

  /** `s.replace(/```json\s*\/gi, "")`: every fence opening "```json" (the
      letters in any case) is removed together with the white space after it. */
  function RemoveJsonFences(s: string): string
    decreases |s|
  {
    if s == [] then []
    else if StartsWith(s, Fence) && |s| >= 7 && Lower(s[3..7]) == "json" then
      TrimStartSpec(s[7..]);
      RemoveJsonFences(TrimStart(s[7..]))
    else [s[0]] + RemoveJsonFences(s[1..])
  }

  /** `s.replace(/```\s*\/g, "")`: every "```" is removed together with the
      white space after it. */
  function RemoveFences(s: string): string
    decreases |s|
  {
    if s == [] then []
    else if StartsWith(s, Fence) then
      TrimStartSpec(s[3..]);
      RemoveFences(TrimStart(s[3..]))
    else [s[0]] + RemoveFences(s[1..])
  }

  /** The second stage: the reply without code fences, trimmed. */
  function StripFences(trimmed: string): string {
    Trim(RemoveFences(RemoveJsonFences(trimmed)))
  }

  /** A text without backticks holds no fence, so removing fences keeps it. */
  lemma {:induction false} NoFences(s: string)
    requires '`' !in s
    ensures RemoveJsonFences(s) == s && RemoveFences(s) == s
    decreases |s|
  {
    if s != [] {
      assert s[0] != '`';
      assert !StartsWith(s, Fence);
      assert '`' !in s[1..];
      NoFences(s[1..]);
    }
  }

  /** Fence removal passes over a text without backticks. */
  lemma {:induction false} NoFencesPrefix(a: string, b: string)
    requires '`' !in a
    ensures RemoveJsonFences(a + b) == a + RemoveJsonFences(b)
    ensures RemoveFences(a + b) == a + RemoveFences(b)
    decreases |a|
  {
    if a != [] {
      var s := a + b;
      assert s[0] == a[0] && s[0] != '`';
      assert !StartsWith(s, Fence);
      assert s[1..] == a[1..] + b;
      assert '`' !in a[1..];
      NoFencesPrefix(a[1..], b);
    } else {
      assert a + b == b;
    }
  }

  /** A reply that is one fenced block "```json", a line break, the JSON text
      and a closing fence on its own line is stripped down to the JSON text. */
  lemma StripFencedBlock(j: string)
    requires j != [] && IsTrimmed(j) && '`' !in j
    ensures Trim(FencedBlock(j)) == FencedBlock(j)
    ensures StripFences(FencedBlock(j)) == j
  {
    var text := FencedBlock(j);
    assert text[0] == '`' && text[|text| - 1] == '`';
    TrimOfTrimmed(text);
    OpeningFenceRemoved(j);
    ClosingFenceRemoved(j);
    TrimLineBreak(j);
  }

  lemma OpeningFenceRemoved(j: string)
    requires j != [] && IsTrimmed(j) && '`' !in j
    ensures RemoveJsonFences(FencedBlock(j)) == j + "\n```"
  {
    var rest := j + "\n```";
    assert FencedBlock(j) == "```json" + ("\n" + rest);
    JsonFenceHead("\n" + rest);
    LineBreakSkipped(rest);
    NoFencesPrefix(j, "\n```");
    ClosingFenceKept();
  }

  /** An opening "```json" is dropped with the white space after it. */
  lemma JsonFenceHead(tail: string)
    ensures RemoveJsonFences("```json" + tail) == RemoveJsonFences(TrimStart(tail))
  {
    var s := "```json" + tail;
    assert s[..3] == Fence;
    assert s[3..7] == "json";
    assert s[7..] == tail;
  }

  /** One leading line break is white space. */
  lemma LineBreakSkipped(rest: string)
    requires rest != [] && !IsSpace(rest[0])
    ensures TrimStart("\n" + rest) == rest
  {
    assert ("\n" + rest)[1..] == rest;
  }

  /** A line break and a closing fence hold no "```json". */
  lemma ClosingFenceKept()
    ensures RemoveJsonFences("\n```") == "\n```"
  {
    var s := "\n```";
    assert !StartsWith(s, Fence);
    assert s[1..] == Fence;
    assert Fence[..3] == Fence;
    assert !(|Fence| >= 7);
    assert Fence[1..] == "``";
    assert RemoveJsonFences("``") == "``";
  }

  lemma ClosingFenceRemoved(j: string)
    requires '`' !in j
    ensures RemoveFences(j + "\n```") == j + "\n"
  {
    NoFencesPrefix(j + "\n", Fence);
    assert j + "\n```" == (j + "\n") + Fence;
    assert RemoveFences(Fence) == RemoveFences(TrimStart([]));
  }

  lemma TrimLineBreak(j: string)
    requires j != [] && IsTrimmed(j)
    ensures Trim(j + "\n") == j
  {
    assert (j + "\n")[0] == j[0];
    assert TrimStart(j + "\n") == j + "\n";
    assert (j + "\n")[..|j + "\n"| - 1] == j;
    TrimEndOfTrimmed(j);
  }

  /** "```json", a line break, `j`, a line break and "```". */
  function FencedBlock(j: string): string {
    Fence + "json\n" + j + "\n" + Fence
  }

  /** The span from the first `open` to the last `close`, when both occur in
      that order. */
  function Span(text: string, open: char, close: char): (r: Option<string>)
    ensures r.Some? ==> 2 <= |r.value| <= |text| && r.value[0] == open && r.value[|r.value| - 1] == close
  {
    var first := IndexOf(text, open);
    var last := LastIndexOf(text, close);
    if first != -1 && last != -1 && last > first then Some(text[first..last + 1]) else None
  }

  /** Text from an opening bracket to the matching kind of closing one. */
  predicate Bracketed(r: string) {
    2 <= |r| && ((r[0] == '{' && r[|r| - 1] == '}') || (r[0] == '[' && r[|r| - 1] == ']'))
  }

  /** `extractLikelyJson`: the object span or the array span, whichever opening
      bracket comes first, the one that exists when only one does, else the
      whole text. */
  function ExtractLikelyJson(text: string): (r: string)
    ensures r == text || Bracketed(r)
    ensures |r| <= |text|
  {
    var obj := Span(text, '{', '}');
    var arr := Span(text, '[', ']');
    PickSpan(obj, arr, IndexOf(text, '{') < IndexOf(text, '['), text)
  }

  /** Both spans: the one whose bracket opens first; one span: that one;
      none: the text. */
  function PickSpan(obj: Option<string>, arr: Option<string>, objFirst: bool, text: string): (r: string)
    requires obj.Some? ==> Bracketed(obj.value) && |obj.value| <= |text|
    requires arr.Some? ==> Bracketed(arr.value) && |arr.value| <= |text|
    ensures r == text || Bracketed(r)
    ensures |r| <= |text|
  {
    if obj.Some? && arr.Some? then (if objFirst then obj.value else arr.value)
    else if obj.Some? then obj.value
    else if arr.Some? then arr.value
    else text
  }

  /** The first occurrence of `c` in `a + b`, when `a` does not hold it and `b`
      starts with it. */
  lemma IndexOfAfter(a: string, b: string, c: char)
    requires c !in a && b != [] && b[0] == c
    ensures IndexOf(a + b, c) == |a|
  {
    assert (a + b)[|a|] == c;
  }

  /** The last occurrence of `c` in `a + b`, when `a` ends with it and `b`
      does not hold it. */
  lemma LastIndexOfBefore(a: string, b: string, c: char)
    requires c !in b && a != [] && a[|a| - 1] == c
    ensures LastIndexOf(a + b, c) == |a| - 1
  {
    assert (a + b)[|a| - 1] == c;
  }

  /** The span of a bracket pair embedded in prose is the embedded text. */
  lemma SpanEmbedded(before: string, j: string, after: string, open: char, close: char)
    requires open !in before && close !in after
    requires 2 <= |j| && j[0] == open && j[|j| - 1] == close
    ensures IndexOf(before + j + after, open) == |before|
    ensures Span(before + j + after, open, close) == Some(j)
  {
    var text := before + j + after;
    EmbeddedFirst(before, j, after, open);
    EmbeddedLast(before, j, after, close);
    assert text[|before|..|before| + |j|] == j;
  }

  /** The embedded text's first character is the first `open`. */
  lemma EmbeddedFirst(before: string, j: string, after: string, open: char)
    requires open !in before && j != [] && j[0] == open
    ensures IndexOf(before + j + after, open) == |before|
  {
    assert before + j + after == before + (j + after);
    IndexOfAfter(before, j + after, open);
  }

  /** The embedded text's last character is the last `close`. */
  lemma EmbeddedLast(before: string, j: string, after: string, close: char)
    requires close !in after && j != [] && j[|j| - 1] == close
    ensures LastIndexOf(before + j + after, close) == |before| + |j| - 1
  {
    assert (before + j)[|before + j| - 1] == close;
    LastIndexOfBefore(before + j, after, close);
  }

  /** A bracket that prose before an embedded text lacks, and that the text
      does not start with, first occurs after the text's start, if at all. */
  lemma OtherBracketLater(before: string, j: string, after: string, other: char)
    requires other !in before && j != [] && j[0] != other
    ensures IndexOf(before + j + after, other) == -1 || IndexOf(before + j + after, other) > |before|
  {
    assert (before + j + after)[|before|] == j[0];
  }

  /** A JSON object or array embedded in prose is extracted exactly, when the
      prose before it opens no bracket and the prose after it does not close
      one of its kind. */
  lemma ExtractEmbedded(before: string, j: string, after: string, open: char, close: char)
    requires (open == '{' && close == '}') || (open == '[' && close == ']')
    requires '{' !in before && '[' !in before && close !in after
    requires 2 <= |j| && j[0] == open && j[|j| - 1] == close
    ensures ExtractLikelyJson(before + j + after) == j
  {
    SpanEmbedded(before, j, after, open, close);
    OtherBracketLater(before, j, after, if open == '{' then '[' else '{');
  }

  /** The texts tried in order: the trimmed reply, the reply without fences,
      the likely JSON span of the latter. */
  function Stages(trimmed: string): (r: seq<string>)
    ensures |r| == 3
  {
    var noFences := StripFences(trimmed);
    [trimmed, noFences, ExtractLikelyJson(noFences)]
  }

  /** `parseJsonFromAiText`: the value of the first stage that parses; an error
      for a blank reply or when no stage parses. `failure` is the message of
      the latter, which differs between content.js and popup.js. */
  function ParseJsonFromAiText(text: string, parse: string -> Option<Json>, failure: string): (r: Result<Json>)
    ensures Trim(text) == [] ==> r == Err(EmptyReply)
    ensures Trim(text) != [] && (forall i :: 0 <= i < 3 ==> parse(Stages(Trim(text))[i]).None?) ==> r == Err(failure)
    ensures r.Ok? ==> exists i :: 0 <= i < 3 && parse(Stages(Trim(text))[i]) == Some(r.value)
                                 && forall k :: 0 <= k < i ==> parse(Stages(Trim(text))[k]).None?
  {
    var trimmed := Trim(text);
    if trimmed == [] then Err(EmptyReply)
    else
      var stages := Stages(trimmed);
      if parse(stages[0]).Some? then Ok(parse(stages[0]).value)
      else if parse(stages[1]).Some? then Ok(parse(stages[1]).value)
      else if parse(stages[2]).Some? then Ok(parse(stages[2]).value)
      else Err(failure)
  }

  /** A reply whose trimmed text parses is taken as it stands. */
  lemma ParseDirect(text: string, parse: string -> Option<Json>, failure: string)
    requires Trim(text) != [] && parse(Trim(text)).Some?
    ensures ParseJsonFromAiText(text, parse, failure) == Ok(parse(Trim(text)).value)
  {
  }

  /** A reply fenced as a "```json" code block yields the JSON inside it, when
      the fenced text itself does not parse. */
  lemma ParseFencedBlock(j: string, v: Json, parse: string -> Option<Json>, failure: string)
    requires j != [] && IsTrimmed(j) && '`' !in j
    requires parse(FencedBlock(j)) == None && parse(j) == Some(v)
    ensures ParseJsonFromAiText(FencedBlock(j), parse, failure) == Ok(v)
  {
    StripFencedBlock(j);
  }
}
