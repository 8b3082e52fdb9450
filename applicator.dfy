/**
 * Writing a value into a scanned field and reading it back (`fillOne`,
 * `safeCheck`, `selectByText`, `setValueWithEvents`, `parseRefillValue`,
 * `readRuntimeValue`, `normalizeValueForPreview`).
 *
 * Each write changes the states of elements of a `Page`. Every method here is
 * specified by a function on the element sequence (`Checked`, `Selected`,
 * `CheckTargets`, `Fill`, `CurrentValue`), and the lemmas state what those
 * functions promise.
 */
module Applicator {
  import opened Wrappers
  import opened Strings
  import opened Json
  import opened Fuzzy
  import opened Dom

  /* ---------- Typed lists of choices ---------- */

  /** The separators of a typed list of choices: newline, comma, full-width comma. */
  predicate IsListSep(c: char) {
    c == '\n' || c == ',' || c == '\U{FF0C}'
  }

  /** The trimmed pieces that are not empty, in order. */
  function TrimmedPieces(parts: seq<string>): seq<string> {
    if parts == [] then []
    else (if Trim(parts[0]) != [] then [Trim(parts[0])] else []) + TrimmedPieces(parts[1..])
  }

  /** A typed list split at the separators, each piece trimmed, the empty ones dropped. */
  function SplitList(text: string): seq<string> {
    TrimmedPieces(SplitOn(text, IsListSep))
  }

  /** A choice of a typed list: non-empty, no white space at its ends, no separator. */
  predicate IsChoice(p: string) {
    p != [] && IsTrimmed(p) && forall k :: 0 <= k < |p| ==> !IsListSep(p[k])
  }

  predicate SeparatorFree(p: string) {
    forall k :: 0 <= k < |p| ==> !IsListSep(p[k])
  }

  /** Every choice of a split list is non-empty, has no white space at its ends
      and holds no separator. */
  lemma SplitListSpec(text: string)
    ensures forall i :: 0 <= i < |SplitList(text)| ==> IsChoice(SplitList(text)[i])
  {
    TrimmedPiecesSpec(SplitOn(text, IsListSep));
  }

  lemma TrimPiece(p: string)
    requires SeparatorFree(p) && Trim(p) != []
    ensures IsChoice(Trim(p))
  {
    TrimSpec(p);
    var t := Trim(p);
    var a, b :| 0 <= a <= b <= |p| && t == p[a..b];
    assert forall k :: 0 <= k < |t| ==> t[k] == p[a + k];
  }

  lemma {:induction false} TrimmedPiecesSpec(parts: seq<string>)
    requires forall i :: 0 <= i < |parts| ==> SeparatorFree(parts[i])
    ensures forall i :: 0 <= i < |TrimmedPieces(parts)| ==> IsChoice(TrimmedPieces(parts)[i])
  {
    if parts != [] {
      TrimmedPiecesSpec(parts[1..]);
      if Trim(parts[0]) != [] {
        TrimPiece(parts[0]);
      }
    }
  }

  /** Pieces that are already trimmed and non-empty are kept as they are. */
  lemma {:induction false} TrimmedPiecesOfTrimmed(parts: seq<string>)
    requires forall i :: 0 <= i < |parts| ==> parts[i] != [] && IsTrimmed(parts[i])
    ensures TrimmedPieces(parts) == parts
  {
    if parts != [] {
      TrimOfTrimmed(parts[0]);
      TrimmedPiecesOfTrimmed(parts[1..]);
      assert [parts[0]] + parts[1..] == parts;
    }
  }

  /** Splitting undoes joining by ",": choices that are non-empty, trimmed and
      free of separators come back one for one. */
  lemma SplitListJoin(choices: seq<string>)
    requires choices != []
    requires forall i :: 0 <= i < |choices| ==> IsChoice(choices[i])
    ensures SplitList(Join(choices, ",")) == choices
  {
    SplitOnJoin(choices, ',', IsListSep);
    TrimmedPiecesOfTrimmed(choices);
  }

  /** `value.map(v => String(v))`. */
  function StringsOf(items: seq<Json>): seq<string> {
    seq(|items|, i requires 0 <= i < |items| => ToStr(items[i]))
  }

  /* ---------- parseRefillValue ---------- */

  /** `parseRefillValue`: the value typed for a refill, as `fillOne` takes it.
      For a checkbox group it is a list: none for a blank text, the items of a
      bracketed text that parses as a JSON array, otherwise the split list.
      For every other kind it is the trimmed text. */
  function ParseRefillValue(kind: FieldKind, raw: string, parse: string -> Option<Json>): (r: Json)
    ensures kind == CheckboxGroup ==> r.JArray? && forall i :: 0 <= i < |r.items| ==> r.items[i].JString?
    ensures kind != CheckboxGroup ==> r.JString?
  {
    var text := Trim(raw);
    if kind != CheckboxGroup then JString(text)
    else if text == [] then JArray([])
    else if StartsWith(text, "[") && EndsWith(text, "]") && parse(text).Some? && parse(text).value.JArray? then
      StringArray(StringsOf(parse(text).value.items))
    else StringArray(SplitList(text))
  }

  /** For a field that is not a checkbox group the refill value is the text
      without white space at its ends, and it is blank exactly when the typed
      text is. */
  lemma ParseRefillScalar(kind: FieldKind, raw: string, parse: string -> Option<Json>)
    requires kind != CheckboxGroup
    ensures IsTrimmed(ParseRefillValue(kind, raw, parse).s)
    ensures ParseRefillValue(kind, raw, parse).s == [] <==> AllSpace(raw)
  {
    TrimSpec(raw);
    TrimEmptyIffAllSpace(raw);
  }

  /** A list typed as choices joined by "," is read back as those choices,
      provided it does not start with a bracket. */
  lemma RefillListRoundTrip(choices: seq<string>, parse: string -> Option<Json>)
    requires choices != []
    requires forall i :: 0 <= i < |choices| ==> IsChoice(choices[i])
    requires !StartsWith(choices[0], "[")
    ensures ParseRefillValue(CheckboxGroup, Join(choices, ","), parse) == StringArray(choices)
  {
    var text := Join(choices, ",");
    JoinTrimmed(choices, ",");
    TrimOfTrimmed(text);
    JoinStart(choices, ",");
    RefillListPlain(text, parse);
    SplitListJoin(choices);
  }

  /** A joined list starts with its first part. */
  lemma JoinStart(parts: seq<string>, sep: string)
    requires parts != [] && parts[0] != []
    ensures Join(parts, sep) != [] && Join(parts, sep)[0] == parts[0][0]
  {
    if |parts| > 1 {
      assert Join(parts, sep) == parts[0] + (sep + Join(parts[1..], sep));
    }
  }

  /** A trimmed, non-blank list text that does not start with a bracket is
      split. */
  lemma RefillListPlain(text: string, parse: string -> Option<Json>)
    requires text != [] && Trim(text) == text && text[0] != '['
    ensures ParseRefillValue(CheckboxGroup, text, parse) == StringArray(SplitList(text))
  {
    assert !StartsWith(text, "[");
  }

  /** The preview of a list of choices (its JSON text) is read back as that
      list, given that `JSON.parse` inverts `JSON.stringify` on it. */
  lemma RefillPreviewRoundTrip(choices: seq<string>, parse: string -> Option<Json>)
    requires parse(Stringify(StringArray(choices))) == Some(StringArray(choices))
    ensures ParseRefillValue(CheckboxGroup, PreviewText(Some(StringArray(choices))), parse) == StringArray(choices)
  {
    var a := StringArray(choices);
    var text := Stringify(a);
    StringifyArrayBracketed(a.items);
    TrimOfTrimmed(text);
    assert StringsOf(a.items) == choices;
  }

  /* ---------- normalizeValueForPreview ---------- */

  /** `normalizeValueForPreview`: an array as its JSON text, a missing value or
      null as "", anything else as `String(value)`. */
  function PreviewText(value: Option<Json>): (r: string)
    ensures value.None? || value == Some(JNull) ==> r == []
    ensures value.Some? && value.value.JString? ==> r == value.value.s
    ensures value.Some? && value.value.JArray? ==> StartsWith(r, "[") && EndsWith(r, "]")
  {
    if value.Some? && value.value.JArray? then
      StringifyArrayBracketed(value.value.items);
      Stringify(value.value)
    else if value.None? || value.value.JNull? then []
    else ToStr(value.value)
  }

  /* ---------- safeCheck ---------- */

  /** The elements after `safeCheck(el, target)`: a click when the checked state
      differs from the target, nothing otherwise. */
  function Checked(els: seq<Element>, i: nat, target: bool): (r: seq<Element>)
    requires i < |els|
    ensures SameControls(els, r)
    ensures els[i].state.checked == target || els[i].control.cancelsClick ==> r == els
    ensures els[i].state.checked != target && !els[i].control.cancelsClick
            && (IsCheckbox(els[i].control) || (target && IsRadio(els[i].control))) ==>
              r[i].state.checked == target
    ensures forall j :: 0 <= j < |els| && j != i && !SameRadioGroup(els[i].control, els[j].control) ==>
              r[j] == els[j]
  {
    if els[i].state.checked != target then AfterClick(els, i) else els
  }

  /** `safeCheck`: clicks element `i` only when its checked state differs from
      `target`, and reports whether it ends in the target state. */
  method SafeCheck(page: Page, i: nat, target: bool) returns (ok: bool)
    requires i < |page.elements|
    modifies page
    ensures page.elements == Checked(old(page.elements), i, target)
    ensures ok <==> page.elements[i].state.checked == target
  {
    if page.elements[i].state.checked != target {
      page.Click(i);
    }
    ok := page.elements[i].state.checked == target;
  }

  /* ---------- selectByText ---------- */

  function OptionTexts(options: seq<SelectOption>): (r: seq<string>)
    ensures |r| == |options|
    ensures forall k :: 0 <= k < |options| ==> r[k] == options[k].text
  {
    seq(|options|, k requires 0 <= k < |options| => options[k].text)
  }

  /** The elements after `selectByText(el, desired)` and its answer: the option
      `BestOption` picks among the option texts has its value written to the
      select; nothing changes when no option matches. */
  function Selected(els: seq<Element>, i: nat, desired: string): (r: (seq<Element>, bool))
    requires i < |els|
    ensures SameControls(els, r.0)
    ensures !r.1 ==> r.0 == els
    ensures r.1 <==> exists k :: 0 <= k < |els[i].control.options| && IsFuzzyMatch(els[i].control.options[k].text, desired)
  {
    var options := els[i].control.options;
    match BestOption(OptionTexts(options), desired)
    case None => (els, false)
    case Some(b) => (WithSelectValue(els, i, options[b].value), true)
  }

  /** After a successful `selectByText` the selected option has the value of
      the option `BestOption` picks, and only the selection of that select
      changed. */
  lemma SelectedOption(els: seq<Element>, i: nat, desired: string)
    requires i < |els|
    requires Selected(els, i, desired).1
    ensures var options := els[i].control.options;
      var b := BestOption(OptionTexts(options), desired).value;
      var s := Selected(els, i, desired).0[i].state.selectedIndex;
      && 0 <= s <= b && options[s].value == options[b].value
      && Selected(els, i, desired).0 == els[i := els[i].(state := els[i].state.(selectedIndex := s))]
  {
  }

  /** `selectByText`: picks the option as `pickBestOption` does and selects it
      by its value. */
  method SelectByText(page: Page, i: nat, desired: string) returns (ok: bool)
    requires i < |page.elements|
    modifies page
    ensures (page.elements, ok) == Selected(old(page.elements), i, desired)
  {
    var options := page.elements[i].control.options;
    var best := PickBestOption(OptionTexts(options), desired);
    if best.None? {
      return false;
    }
    page.SetSelectValue(i, options[best.value].value);
    ok := true;
  }

  /* ---------- Checking the options of a checkbox group ---------- */

  /** `desired.some(d => isFuzzyMatch(text, d))`. */
  function AnyMatch(text: string, desired: seq<string>): (r: bool)
    ensures r <==> exists d :: 0 <= d < |desired| && IsFuzzyMatch(text, desired[d])
  {
    if desired == [] then false
    else
      assert forall d :: 0 < d < |desired| ==> desired[d] == desired[1..][d - 1];
      IsFuzzyMatch(text, desired[0]) || AnyMatch(text, desired[1..])
  }

  predicate OptionsIn(options: seq<RuntimeOption>, els: seq<Element>) {
    forall k :: 0 <= k < |options| ==> options[k].el < |els|
  }

  /** An option of a checkbox group as the option loop sees it: its element,
      and whether its trimmed label fuzzily matches one of the desired choices. */
  datatype Target = Target(el: nat, wanted: bool)

  function Targets(options: seq<RuntimeOption>, desired: seq<string>): seq<Target> {
    seq(|options|, k requires 0 <= k < |options| =>
      Target(options[k].el, AnyMatch(Trim(options[k].labelText), desired)))
  }

  predicate TargetsIn(ts: seq<Target>, els: seq<Element>) {
    forall k :: 0 <= k < |ts| ==> ts[k].el < |els|
  }

  /** The elements after the option loop of `fillOne` for a checkbox group,
      and whether any `safeCheck` of it succeeded. */
  function CheckTargets(els: seq<Element>, ts: seq<Target>): (r: (seq<Element>, bool))
    requires TargetsIn(ts, els)
    ensures SameControls(els, r.0)
    decreases |ts|
  {
    if ts == [] then (els, false)
    else
      var prev := CheckTargets(els, ts[..|ts| - 1]);
      var t := ts[|ts| - 1];
      if !t.wanted then prev
      else
        var after := Checked(prev.0, t.el, true);
        (after, prev.1 || after[t.el].state.checked)
  }

  /** Element `j` is the element of a wanted option. */
  predicate Targeted(ts: seq<Target>, j: nat) {
    exists k :: 0 <= k < |ts| && ts[k].el == j && ts[k].wanted
  }

  predicate AllCheckboxes(ts: seq<Target>, els: seq<Element>) {
    forall k :: 0 <= k < |ts| ==> ts[k].el < |els| && IsCheckbox(els[ts[k].el].control)
  }

  /** A checkbox after `safeCheck(el, true)`: checked, unless it was unchecked
      and its click is cancelled. */
  function Ticked(e: Element): (r: Element)
    ensures r.control == e.control
    ensures r.state.checked <==> e.state.checked || !e.control.cancelsClick
  {
    e.(state := e.state.(checked := e.state.checked || !e.control.cancelsClick))
  }

  /** `safeCheck(el, true)` on a checkbox changes that checkbox only, and leaves
      it as `Ticked` says. */
  lemma CheckCheckbox(els: seq<Element>, i: nat)
    requires i < |els| && IsCheckbox(els[i].control)
    ensures Checked(els, i, true) == els[i := Ticked(els[i])]
  {
    if !els[i].state.checked && !els[i].control.cancelsClick {
      assert AfterClick(els, i) == els[i := els[i].(state := els[i].state.(checked := true))];
    }
  }

  /** One more option in the loop: a wanted one ticks its element. */
  lemma CheckTargetsStep(els: seq<Element>, ts: seq<Target>)
    requires ts != [] && AllCheckboxes(ts, els)
    ensures var prev := CheckTargets(els, ts[..|ts| - 1]);
      var t := ts[|ts| - 1];
      CheckTargets(els, ts)
        == if t.wanted
           then (prev.0[t.el := Ticked(prev.0[t.el])], prev.1 || Ticked(prev.0[t.el]).state.checked)
           else prev
  {
    var prev := CheckTargets(els, ts[..|ts| - 1]);
    var t := ts[|ts| - 1];
    if t.wanted {
      CheckCheckbox(prev.0, t.el);
    }
  }

  /** The elements targeted by one more option. */
  lemma TargetedSnoc(ts: seq<Target>, j: nat)
    requires ts != []
    ensures Targeted(ts, j) <==>
      Targeted(ts[..|ts| - 1], j) || (ts[|ts| - 1].el == j && ts[|ts| - 1].wanted)
  {
    var init := ts[..|ts| - 1];
    if Targeted(init, j) {
      var k :| 0 <= k < |init| && init[k].el == j && init[k].wanted;
      assert ts[k] == init[k];
    }
    if Targeted(ts, j) {
      var k :| 0 <= k < |ts| && ts[k].el == j && ts[k].wanted;
      if k < |init| {
        assert init[k] == ts[k];
      }
    }
  }

  /** What the option loop leaves: the element of every wanted option is
      `Ticked`, every other element is as it was. */
  lemma {:induction false} CheckTargetsEffect(els: seq<Element>, ts: seq<Target>)
    requires AllCheckboxes(ts, els)
    ensures forall j :: 0 <= j < |els| ==>
      CheckTargets(els, ts).0[j] == if Targeted(ts, j) then Ticked(els[j]) else els[j]
    decreases |ts|
  {
    if ts != [] {
      var init := ts[..|ts| - 1];
      assert AllCheckboxes(init, els);
      CheckTargetsEffect(els, init);
      CheckTargetsStep(els, ts);
      forall j | 0 <= j < |els|
        ensures CheckTargets(els, ts).0[j] == if Targeted(ts, j) then Ticked(els[j]) else els[j]
      {
        TargetedSnoc(ts, j);
      }
    }
  }

  /** Some wanted option's element is checked, or takes the click. */
  predicate AnyTicked(els: seq<Element>, ts: seq<Target>)
    requires TargetsIn(ts, els)
  {
    exists k :: 0 <= k < |ts| && ts[k].wanted && Ticked(els[ts[k].el]).state.checked
  }

  lemma AnyTickedSnoc(els: seq<Element>, ts: seq<Target>)
    requires ts != [] && TargetsIn(ts, els)
    ensures var t := ts[|ts| - 1];
      AnyTicked(els, ts) <==> AnyTicked(els, ts[..|ts| - 1]) || (t.wanted && Ticked(els[t.el]).state.checked)
  {
    var init := ts[..|ts| - 1];
    if AnyTicked(els, init) {
      var k :| 0 <= k < |init| && init[k].wanted && Ticked(els[init[k].el]).state.checked;
      assert ts[k] == init[k];
    }
    if AnyTicked(els, ts) {
      var k :| 0 <= k < |ts| && ts[k].wanted && Ticked(els[ts[k].el]).state.checked;
      if k < |init| {
        assert init[k] == ts[k];
      }
    }
  }

  /** The loop reports success exactly when some wanted option's element was
      checked already or takes the click. */
  lemma {:induction false} CheckTargetsFilled(els: seq<Element>, ts: seq<Target>)
    requires AllCheckboxes(ts, els)
    ensures CheckTargets(els, ts).1 <==> AnyTicked(els, ts)
    decreases |ts|
  {
    if ts != [] {
      var n := |ts| - 1;
      var init := ts[..n];
      var t := ts[n];
      assert AllCheckboxes(init, els);
      CheckTargetsFilled(els, init);
      CheckTargetsStep(els, ts);
      AnyTickedSnoc(els, ts);
      if t.wanted {
        TickedAfter(els, init, t.el);
      }
    }
  }

  /** Whether an element ends up checked by a click is the same before and
      after the option loop. */
  lemma TickedAfter(els: seq<Element>, ts: seq<Target>, j: nat)
    requires AllCheckboxes(ts, els) && j < |els|
    ensures Ticked(CheckTargets(els, ts).0[j]).state.checked == Ticked(els[j]).state.checked
  {
    CheckTargetsEffect(els, ts);
  }

  /** The option loop of `fillOne` for a checkbox group: every option whose
      trimmed label fuzzily matches one of the desired texts is checked with
      `safeCheck`; the answer is whether any of those succeeded. */
  method CheckWanted(page: Page, options: seq<RuntimeOption>, desired: seq<string>) returns (any: bool)
    requires OptionsIn(options, page.elements)
    modifies page
    ensures (page.elements, any) == CheckTargets(old(page.elements), Targets(options, desired))
  {
    ghost var ts := Targets(options, desired);
    any := false;
    var i := 0;
    while i < |options|
      invariant 0 <= i <= |options|
      invariant SameControls(old(page.elements), page.elements)
      invariant (page.elements, any) == CheckTargets(old(page.elements), ts[..i])
    {
      any := CheckNext(page, options, desired, i, old(page.elements), any);
      i := i + 1;
    }
    assert ts[..|options|] == ts;
  }

  /** One turn of the option loop, stated against the loop so far. */
  method CheckNext(page: Page, options: seq<RuntimeOption>, desired: seq<string>, i: nat,
                   ghost els0: seq<Element>, any: bool) returns (next: bool)
    requires i < |options| && OptionsIn(options, els0) && SameControls(els0, page.elements)
    requires (page.elements, any) == CheckTargets(els0, Targets(options, desired)[..i])
    modifies page
    ensures SameControls(els0, page.elements)
    ensures (page.elements, next) == CheckTargets(els0, Targets(options, desired)[..i + 1])
  {
    ghost var ts := Targets(options, desired);
    assert ts[..i + 1][..i] == ts[..i];
    assert ts[..i + 1][i] == Target(options[i].el, AnyMatch(Trim(options[i].labelText), desired));
    var opt := options[i];
    var optionText := Trim(opt.labelText);
    next := any;
    if AnyMatch(optionText, desired) {
      var ok := SafeCheck(page, opt.el, true);
      if ok {
        next := true;
      }
    }
  }

  /* ---------- fillOne ---------- */

  /** What `fillOne` answers: filled, or not filled with a message. */
  datatype FillOutcome = FillOutcome(filled: bool, message: string)

  const Done := FillOutcome(true, [])

  function Fail(message: string): FillOutcome {
    FillOutcome(false, message)
  }

  /** The options of a group handle (none for a single element). */
  function OptionsOf(h: RuntimeHandle): seq<RuntimeOption> {
    if h.Group? then h.options else []
  }

  function OptionLabels(options: seq<RuntimeOption>): (r: seq<string>)
    ensures |r| == |options|
    ensures forall k :: 0 <= k < |options| ==> r[k] == options[k].labelText
  {
    seq(|options|, k requires 0 <= k < |options| => options[k].labelText)
  }

  /** The choices wanted for a checkbox group: the items of an array as texts,
      otherwise the text of the value split as a typed list. */
  function DesiredList(value: Option<Json>): seq<string> {
    if value.Some? && value.value.JArray? then StringsOf(value.value.items)
    else SplitList(TextOrEmpty(value))
  }

  /** The elements after `fillOne(runtime, value)` and its outcome. `value` is
      the value of the AI's fill item or a refill value (`None` when missing). */
  function Fill(els: seq<Element>, h: Option<RuntimeHandle>, value: Option<Json>): (r: (seq<Element>, FillOutcome))
    requires h.Some? ==> ValidHandle(h.value, els)
    ensures SameControls(els, r.0)
    ensures r.1.filled <==> r.1.message == []
    ensures h.None? || h.value.kind == File ==> !r.1.filled && r.0 == els
    ensures !r.1.filled && h.Some? && h.value.kind != CheckboxGroup ==> r.0 == els
  {
    if h.None? then (els, Fail("字段不存在"))
    else
      var rt := h.value;
      match rt.kind
      case File => (els, Fail("文件上传字段无法自动填写"))
      case CheckboxGroup =>
        var desired := DesiredList(value);
        if desired == [] then (els, Fail("AI 未给出勾选项"))
        else
          var checked := CheckTargets(els, Targets(OptionsOf(rt), desired));
          (checked.0, if checked.1 then Done else Fail("未找到可匹配的多选项"))
      case RadioGroup =>
        var desired := Trim(TextOrEmpty(value));
        if desired == [] then (els, Fail("AI 未给出选择项"))
        else
          var options := OptionsOf(rt);
          var best := BestOption(OptionLabels(options), desired);
          if best.None? then (els, Fail("未找到可匹配的单选项"))
          else
            var after := Checked(els, options[best.value].el, true);
            if after[options[best.value].el].state.checked then (after, Done) else (after, Fail("点击单选项失败"))
      case Select =>
        var desired := Trim(TextOrEmpty(value));
        if desired == [] then (els, Fail("AI 未给出选择值"))
        else
          var selected := Selected(els, rt.el, desired);
          (selected.0, if selected.1 then Done else Fail("未找到可匹配的下拉选项"))
      case ContentEditable =>
        var desired := TextOrEmpty(value);
        if desired == [] then (els, Fail("AI 未给出填写内容"))
        else (WithTextContent(els, rt.el, desired), Done)
      case _ =>
        var desired := TextOrEmpty(value);
        if desired == [] then (els, Fail("AI 未给出填写内容"))
        else (WithValue(els, rt.el, desired), Done)
  }

  /** `setValueWithEvents`: writes the `value` property of element `i`. */
  method SetValueWithEvents(page: Page, i: nat, v: string) returns (ok: bool)
    requires i < |page.elements|
    modifies page
    ensures page.elements == WithValue(old(page.elements), i, v)
    ensures ok
  {
    page.SetValue(i, v);
    ok := true;
  }

  /** `fillOne`: writes `value` into the field behind handle `h`. */
  method FillOne(page: Page, h: Option<RuntimeHandle>, value: Option<Json>) returns (r: FillOutcome)
    requires h.Some? ==> ValidHandle(h.value, page.elements)
    modifies page
    ensures (page.elements, r) == Fill(old(page.elements), h, value)
  {
    if h.None? {
      return Fail("字段不存在");
    }
    var rt := h.value;
    if rt.kind == File {
      return Fail("文件上传字段无法自动填写");
    }
    if rt.kind == CheckboxGroup {
      var desired := DesiredList(value);
      if desired == [] {
        return Fail("AI 未给出勾选项");
      }
      var any := CheckWanted(page, OptionsOf(rt), desired);
      return if any then Done else Fail("未找到可匹配的多选项");
    }
    if rt.kind == RadioGroup {
      var desired := Trim(TextOrEmpty(value));
      if desired == [] {
        return Fail("AI 未给出选择项");
      }
      var options := OptionsOf(rt);
      var best := PickBestOption(OptionLabels(options), desired);
      if best.None? {
        return Fail("未找到可匹配的单选项");
      }
      var ok := SafeCheck(page, options[best.value].el, true);
      return if ok then Done else Fail("点击单选项失败");
    }
    if rt.kind == Select {
      var desired := Trim(TextOrEmpty(value));
      if desired == [] {
        return Fail("AI 未给出选择值");
      }
      var ok := SelectByText(page, rt.el, desired);
      return if ok then Done else Fail("未找到可匹配的下拉选项");
    }
    if rt.kind == ContentEditable {
      var desired := TextOrEmpty(value);
      if desired == [] {
        return Fail("AI 未给出填写内容");
      }
      page.SetTextContent(rt.el, desired);
      return Done;
    }
    var desired := TextOrEmpty(value);
    if desired == [] {
      return Fail("AI 未给出填写内容");
    }
    var ok := SetValueWithEvents(page, rt.el, desired);
    return if ok then Done else Fail("写入失败");
  }

  /* ---------- readRuntimeValue ---------- */

  /** The text of a group option: its label, else its value. */
  function ChoiceText(o: RuntimeOption): string {
    if o.labelText != [] then o.labelText else o.value
  }

  /** The non-empty texts of the checked options, in order. */
  function CheckedTexts(options: seq<RuntimeOption>, els: seq<Element>): (r: seq<string>)
    requires OptionsIn(options, els)
    ensures forall i :: 0 <= i < |r| ==> r[i] != []
  {
    if options == [] then []
    else
      var o := options[|options| - 1];
      CheckedTexts(options[..|options| - 1], els)
        + (if els[o.el].state.checked && ChoiceText(o) != [] then [ChoiceText(o)] else [])
  }

  /** The text of the first checked option, "" when none is checked. */
  function FirstCheckedText(options: seq<RuntimeOption>, els: seq<Element>): string
    requires OptionsIn(options, els)
  {
    if options == [] then []
    else if els[options[0].el].state.checked then ChoiceText(options[0])
    else FirstCheckedText(options[1..], els)
  }

  /** The trimmed text of the selected option, "" when none is selected. */
  function SelectedText(e: Element): string {
    var s := e.state.selectedIndex;
    if 0 <= s < |e.control.options| then Trim(e.control.options[s].text) else []
  }

  /** What `readRuntimeValue` answers for a field: the list of checked choices
      of a checkbox group, the first checked choice of a radio group, the text
      of the selected option, the text of a contenteditable element, or the
      value of any other element; texts are trimmed. */
  function CurrentValue(h: RuntimeHandle, els: seq<Element>): (r: Json)
    requires ValidHandle(h, els)
    ensures h.kind == CheckboxGroup <==> r.JArray?
    ensures r.JArray? ==> forall i :: 0 <= i < |r.items| ==> r.items[i].JString? && r.items[i].s != []
    ensures !r.JArray? ==> r.JString?
  {
    match h.kind
    case CheckboxGroup => StringArray(CheckedTexts(OptionsOf(h), els))
    case RadioGroup => JString(FirstCheckedText(OptionsOf(h), els))
    case Select => JString(SelectedText(els[h.el]))
    case ContentEditable => JString(Trim(els[h.el].state.textContent))
    case _ => JString(Trim(els[h.el].state.value))
  }

  /** The loop of `readRuntimeValue` over a checkbox group. */
  method ReadCheckedTexts(options: seq<RuntimeOption>, els: seq<Element>) returns (selected: seq<string>)
    requires OptionsIn(options, els)
    ensures selected == CheckedTexts(options, els)
  {
    selected := [];
    var i := 0;
    while i < |options|
      invariant 0 <= i <= |options|
      invariant OptionsIn(options[..i], els)
      invariant selected == CheckedTexts(options[..i], els)
    {
      assert options[..i + 1][..i] == options[..i];
      var o := options[i];
      if els[o.el].state.checked && ChoiceText(o) != [] {
        selected := selected + [ChoiceText(o)];
      }
      i := i + 1;
    }
    assert options[..|options|] == options;
  }

  /** The loop of `readRuntimeValue` over a radio group. */
  method ReadFirstChecked(options: seq<RuntimeOption>, els: seq<Element>) returns (text: string)
    requires OptionsIn(options, els)
    ensures text == FirstCheckedText(options, els)
  {
    var i := 0;
    while i < |options|
      invariant 0 <= i <= |options|
      invariant OptionsIn(options[i..], els)
      invariant FirstCheckedText(options[i..], els) == FirstCheckedText(options, els)
    {
      if els[options[i].el].state.checked {
        return ChoiceText(options[i]);
      }
      assert options[i..][1..] == options[i + 1..];
      i := i + 1;
    }
    return [];
  }

  /** `readRuntimeValue`: reads the current value of the field behind `h`. */
  method ReadRuntimeValue(page: Page, h: RuntimeHandle) returns (v: Json)
    requires ValidHandle(h, page.elements)
    ensures v == CurrentValue(h, page.elements)
  {
    if h.kind == CheckboxGroup || h.kind == RadioGroup {
      v := ReadGroupValue(page.elements, h);
    } else {
      v := ReadSingleValue(page.elements, h);
    }
  }

  /** `readRuntimeValue` for a radio or checkbox group. */
  method ReadGroupValue(els: seq<Element>, h: RuntimeHandle) returns (v: Json)
    requires ValidHandle(h, els) && (h.kind == CheckboxGroup || h.kind == RadioGroup)
    ensures v == CurrentValue(h, els)
  {
    assert OptionsIn(OptionsOf(h), els);
    if h.kind == CheckboxGroup {
      var selected := ReadCheckedTexts(OptionsOf(h), els);
      return StringArray(selected);
    }
    var text := ReadFirstChecked(OptionsOf(h), els);
    return JString(text);
  }

  /** `readRuntimeValue` for a field of one element. */
  method ReadSingleValue(els: seq<Element>, h: RuntimeHandle) returns (v: Json)
    requires ValidHandle(h, els) && h.kind != CheckboxGroup && h.kind != RadioGroup
    ensures v == CurrentValue(h, els)
  {
    if h.kind == Select {
      return JString(SelectedText(els[h.el]));
    }
    if h.kind == ContentEditable {
      return JString(Trim(els[h.el].state.textContent));
    }
    return JString(Trim(els[h.el].state.value));
  }

  /* ---------- What a fill promises ---------- */

  /** Option `o` of a checkbox group is to be checked: its trimmed label
      fuzzily matches one of the desired choices. */
  predicate Wanted(o: RuntimeOption, desired: seq<string>) {
    AnyMatch(Trim(o.labelText), desired)
  }

  /** `Fill` on a checkbox group, unfolded. */
  lemma FillCheckboxUnfold(els: seq<Element>, h: RuntimeHandle, value: Option<Json>)
    requires ValidHandle(h, els) && h.kind == CheckboxGroup
    ensures DesiredList(value) == [] ==> Fill(els, Some(h), value) == (els, Fail("AI 未给出勾选项"))
    ensures DesiredList(value) != [] ==>
      var checked := CheckTargets(els, Targets(OptionsOf(h), DesiredList(value)));
      Fill(els, Some(h), value) == (checked.0, if checked.1 then Done else Fail("未找到可匹配的多选项"))
  {
  }

  /** With the options' targets: some wanted option's element takes the
      click exactly when some wanted option's element ends up checked. */
  lemma WantedChecked(els: seq<Element>, options: seq<RuntimeOption>, desired: seq<string>)
    requires OptionsIn(options, els) && AllCheckboxes(Targets(options, desired), els)
    ensures AnyTicked(els, Targets(options, desired)) <==>
      exists k :: 0 <= k < |options| && Wanted(options[k], desired)
                  && CheckTargets(els, Targets(options, desired)).0[options[k].el].state.checked
  {
    var ts := Targets(options, desired);
    var fin := CheckTargets(els, ts);
    if AnyTicked(els, ts) {
      var k :| 0 <= k < |ts| && ts[k].wanted && Ticked(els[ts[k].el]).state.checked;
      assert Targeted(ts, ts[k].el);
      CheckTargetsAt(els, ts, ts[k].el);
      assert Wanted(options[k], desired) && fin.0[options[k].el].state.checked;
    }
    if k :| 0 <= k < |options| && Wanted(options[k], desired) && fin.0[options[k].el].state.checked {
      assert ts[k].el == options[k].el && ts[k].wanted;
      assert Targeted(ts, options[k].el);
      CheckTargetsAt(els, ts, options[k].el);
      assert Ticked(els[ts[k].el]).state.checked;
    }
  }

  /** One element after the option loop. */
  lemma CheckTargetsAt(els: seq<Element>, ts: seq<Target>, j: nat)
    requires AllCheckboxes(ts, els) && j < |els|
    ensures CheckTargets(els, ts).0[j] == if Targeted(ts, j) then Ticked(els[j]) else els[j]
  {
    CheckTargetsEffect(els, ts);
  }

  /** A checkbox group is filled exactly when some choice is desired and the
      element of an option matching a desired choice ends up checked; with no
      desired choice nothing changes. */
  lemma FillCheckboxGroup(els: seq<Element>, h: RuntimeHandle, value: Option<Json>)
    requires ValidHandle(h, els) && h.kind == CheckboxGroup
    ensures DesiredList(value) == [] ==>
      !Fill(els, Some(h), value).1.filled && Fill(els, Some(h), value).0 == els
    ensures DesiredList(value) != [] ==>
      (Fill(els, Some(h), value).1.filled <==>
         exists k :: 0 <= k < |OptionsOf(h)| && Wanted(OptionsOf(h)[k], DesiredList(value))
                     && Fill(els, Some(h), value).0[OptionsOf(h)[k].el].state.checked)
  {
    var desired := DesiredList(value);
    FillCheckboxUnfold(els, h, value);
    if desired != [] {
      var ts := Targets(OptionsOf(h), desired);
      assert AllCheckboxes(ts, els);
      CheckTargetsFilled(els, ts);
      WantedChecked(els, OptionsOf(h), desired);
    }
  }

  /** The elements of the matching options of a checkbox group are checked
      unless their click is cancelled, and every other element is left as it
      was. */
  lemma FillCheckboxTicks(els: seq<Element>, h: RuntimeHandle, value: Option<Json>)
    requires ValidHandle(h, els) && h.kind == CheckboxGroup
    ensures DesiredList(value) != [] ==> forall j :: 0 <= j < |els| ==>
      Fill(els, Some(h), value).0[j]
        == if Targeted(Targets(OptionsOf(h), DesiredList(value)), j) then Ticked(els[j]) else els[j]
  {
    var desired := DesiredList(value);
    FillCheckboxUnfold(els, h, value);
    if desired != [] {
      var ts := Targets(OptionsOf(h), desired);
      assert AllCheckboxes(ts, els);
      CheckTargetsEffect(els, ts);
    }
  }

  /** A radio group is filled exactly when its text value is not blank and some
      option label matches it; the option `BestOption` picks is then checked. */
  lemma FillRadioGroup(els: seq<Element>, h: RuntimeHandle, value: Option<Json>)
    requires ValidHandle(h, els) && h.kind == RadioGroup
    ensures var r := Fill(els, Some(h), value);
      var desired := Trim(TextOrEmpty(value));
      && (r.1.filled <==> exists k :: 0 <= k < |OptionsOf(h)| && IsFuzzyMatch(OptionsOf(h)[k].labelText, desired)
                                      && !(els[OptionsOf(h)[BestOption(OptionLabels(OptionsOf(h)), desired).value].el].control.cancelsClick
                                           && !els[OptionsOf(h)[BestOption(OptionLabels(OptionsOf(h)), desired).value].el].state.checked))
      && (r.1.filled ==> r.0[OptionsOf(h)[BestOption(OptionLabels(OptionsOf(h)), desired).value].el].state.checked)
  {
    var desired := Trim(TextOrEmpty(value));
    var options := OptionsOf(h);
    if desired == [] {
      BlankMatchesNothing(desired);
    } else {
      var best := BestOption(OptionLabels(options), desired);
      if best.Some? {
        RadioTick(els, options[best.value].el);
      }
    }
  }

  /** A blank text fuzzily matches no label. */
  lemma BlankMatchesNothing(desired: string)
    requires desired == []
    ensures forall l :: !IsFuzzyMatch(l, desired)
  {
    FuzzyMatchBasics(desired, desired);
    forall l ensures !IsFuzzyMatch(l, desired) {
      FuzzyMatchBasics(desired, l);
    }
  }

  /** `safeCheck(el, true)` on a radio button leaves it checked unless it was
      unchecked and its click is cancelled. */
  lemma RadioTick(els: seq<Element>, i: nat)
    requires i < |els| && IsRadio(els[i].control)
    ensures Checked(els, i, true)[i].state.checked <==> !(els[i].control.cancelsClick && !els[i].state.checked)
  {
  }

  /** Filling a text-like field with a non-blank text and reading it back gives
      that text trimmed; a blank text leaves the field as it was. */
  lemma FillTextReadBack(els: seq<Element>, h: RuntimeHandle, text: string)
    requires ValidHandle(h, els)
    requires h.kind == Text || h.kind == Textarea || h.kind == ContentEditable
    ensures var r := Fill(els, Some(h), Some(JString(text)));
      && (r.1.filled <==> text != [])
      && (text != [] ==> ValidHandle(h, r.0) && CurrentValue(h, r.0) == JString(Trim(text)))
      && (text == [] ==> r.0 == els)
  {
    var r := Fill(els, Some(h), Some(JString(text)));
    ValidHandleKept(h, els, r.0);
  }

  /** Filling a select with a value that some option text matches selects an
      option carrying the value of the option `BestOption` picks; reading it back
      gives the trimmed text of the selected option, and when option values are
      distinct that is the picked option, whose text matches the value. */
  lemma FillSelectReadBack(els: seq<Element>, h: RuntimeHandle, value: Option<Json>)
    requires ValidHandle(h, els) && h.kind == Select
    ensures var r := Fill(els, Some(h), value);
      var options := els[h.el].control.options;
      var desired := Trim(TextOrEmpty(value));
      && (r.1.filled <==> exists k :: 0 <= k < |options| && IsFuzzyMatch(options[k].text, desired))
      && (r.1.filled ==>
            var b := BestOption(OptionTexts(options), desired).value;
            var s := r.0[h.el].state.selectedIndex;
            && 0 <= s <= b && options[s].value == options[b].value
            && ValidHandle(h, r.0) && CurrentValue(h, r.0) == JString(Trim(options[s].text))
            && ((forall p, q :: 0 <= p < q < |options| ==> options[p].value != options[q].value) ==>
                  s == b && IsFuzzyMatch(options[s].text, desired)))
  {
    var desired := Trim(TextOrEmpty(value));
    var r := Fill(els, Some(h), value);
    if desired != [] && Selected(els, h.el, desired).1 {
      SelectedOption(els, h.el, desired);
      ValidHandleKept(h, els, r.0);
    } else if desired == [] {
      assert forall l :: !IsFuzzyMatch(l, desired) by {
        forall l ensures !IsFuzzyMatch(l, desired) {
          FuzzyMatchBasics(desired, l);
        }
      }
    }
  }
}
