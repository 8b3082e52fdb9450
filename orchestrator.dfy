/**
 * The content script's message handlers (content.js): the fill run with its
 * busy guard and its fallback to the field memory, the refill and the
 * read-back of one field, and the snapshot of the page's values for the
 * memory. The model's reply and `JSON.parse` are parameters.
 */
module Orchestrator {
  import opened Wrappers
  import opened Strings
  import opened Json
  import opened Dom
  import opened Memory
  import MemoryStore
  import Sorting
  import Fuzzy
  import opened Scanner
  import opened Applicator
  import opened JsonRecovery

  const BusyMessage: string := "正在执行中，请稍后再试"
  const NoResumeMessage: string := "简历数据为空：请先在侧边栏解析并保存简历"
  const NoFieldsMessage: string := "未识别到可填写的字段，请确认当前页面包含表单"
  const MissingIdMessage: string := "缺少 fieldId"
  const UnknownFieldMessage: string := "找不到字段：可能需要重新填充"
  const RefillFailedMessage: string := "重填失败"

  /** The prefix of the reason of a field the memory filled. */
  const MemoryTag: string := "记忆库补全："

  /** One line of the fill report. */
  datatype ReportItem = ReportItem(
    fieldId: string, fieldLabel: string, value: string, reason: Json, filled: bool, message: string)

  /** One value of the page offered to the memory. */
  datatype SnapshotItem = SnapshotItem(key: string, labelText: string, value: string, kind: FieldKind)

  /** What a handler answers. */
  datatype Response =
    | Failure(message: string)
    | FillReport(fieldCount: nat, filledCount: nat, items: seq<ReportItem>)
    | Refilled
    | FieldValue(value: Json)
    | Snapshot(count: nat, entries: seq<SnapshotItem>)

  /* ---------- the model's fill items ---------- */

  /** `mapping.fills` when it is an array, else no items. */
  function FillsOf(mapping: Json): seq<Json> {
    if mapping.JObject? then
      var f := Get(mapping.members, "fills");
      if f.Some? && f.value.JArray? then f.value.items else []
    else []
  }

  /** The id an item is filed under: `String(item.fieldId)` for an object
      whose `fieldId` is truthy; other items are skipped. */
  function FillKey(item: Json): Option<string> {
    if item.JObject? then
      var id := Get(item.members, "fieldId");
      if id.Some? && Truthy(id.value) then Some(ToStr(id.value)) else None
    else None
  }

  /** `fillById` after the loop over the items. */
  function FillById(fills: seq<Json>): map<string, seq<Member>> {
    if fills == [] then map[]
    else
      var prev := FillById(fills[..|fills| - 1]);
      var item := fills[|fills| - 1];
      var k := FillKey(item);
      if k.Some? then prev[k.value := item.members] else prev
  }

  /** Item `k` carries `id`. */
  predicate Carries(fills: seq<Json>, k: int, id: string) {
    0 <= k < |fills| && FillKey(fills[k]) == Some(id)
  }

  /** An id is filed exactly when some item carries it. */
  lemma {:induction false} FillByIdKeys(fills: seq<Json>, id: string)
    ensures id in FillById(fills) <==> exists k :: Carries(fills, k, id)
    decreases |fills|
  {
    if fills != [] {
      var n := |fills| - 1;
      var init := fills[..n];
      FillByIdKeys(init, id);
      if Carries(fills, n, id) {
        assert id in FillById(fills);
      } else {
        assert id in FillById(fills) <==> id in FillById(init);
        if k :| Carries(init, k, id) {
          assert Carries(fills, k, id);
        }
        if k :| Carries(fills, k, id) {
          assert Carries(init, k, id);
        }
      }
    }
  }

  /** A filed id holds the last item that carries it. */
  lemma {:induction false} FillByIdLast(fills: seq<Json>, id: string)
    requires id in FillById(fills)
    ensures exists k :: Carries(fills, k, id) && FillById(fills)[id] == fills[k].members
                        && forall j :: k < j < |fills| ==> !Carries(fills, j, id)
    decreases |fills|
  {
    var n := |fills| - 1;
    var init := fills[..n];
    if Carries(fills, n, id) {
      assert FillById(fills)[id] == fills[n].members;
    } else {
      assert id in FillById(init);
      FillByIdLast(init, id);
      var k :| Carries(init, k, id) && FillById(init)[id] == init[k].members
               && forall j :: k < j < |init| ==> !Carries(init, j, id);
      assert Carries(fills, k, id);
      forall j | k < j < |fills|
        ensures !Carries(fills, j, id)
      {
        if j < n {
          assert !Carries(init, j, id);
        }
      }
    }
  }

  /** The loop that files the items by id. */
  method BuildFillById(fills: seq<Json>) returns (byId: map<string, seq<Member>>)
    ensures byId == FillById(fills)
  {
    byId := map[];
    for i := 0 to |fills|
      invariant byId == FillById(fills[..i])
    {
      assert fills[..i + 1][..i] == fills[..i];
      var item := fills[i];
      if !item.JObject? {
        continue;
      }
      var id := Get(item.members, "fieldId");
      if id.None? || !Truthy(id.value) {
        continue;
      }
      byId := byId[ToStr(id.value) := item.members];
    }
    assert fills[..|fills|] == fills;
  }

  /* ---------- one field ---------- */

  /** `fill?.value`. */
  function FillValue(fill: Option<seq<Member>>): Option<Json> {
    if fill.Some? then Get(fill.value, "value") else None
  }

  /** `fill?.reason || ""`. */
  function AiReason(fill: Option<seq<Member>>): Json {
    var r := if fill.Some? then Get(fill.value, "reason") else None;
    if r.Some? && Truthy(r.value) then r.value else JString("")
  }

  /** The label of a report line: label, else name, else placeholder, else
      the kind. */
  function FieldLabel(field: FieldDescriptor): (r: string)
    ensures r != []
  {
    if field.labelText != [] then field.labelText
    else if field.name != [] then field.name
    else if field.placeholder != [] then field.placeholder
    else KindName(field.kind)
  }

  /** `mem.label || mem.key`. */
  function MemoryName(m: MemoryItem): string {
    if m.labelText != [] then m.labelText else m.key
  }

  function Lookup(rmap: map<string, RuntimeHandle>, id: string): Option<RuntimeHandle> {
    if id in rmap then Some(rmap[id]) else None
  }

  /** Every handle of the runtime map names elements of the page. */
  predicate MapValid(rmap: map<string, RuntimeHandle>, els: seq<Element>) {
    forall id :: id in rmap ==> ValidHandle(rmap[id], els)
  }

  lemma MapValidKept(rmap: map<string, RuntimeHandle>, a: seq<Element>, b: seq<Element>)
    requires MapValid(rmap, a) && SameControls(a, b)
    ensures MapValid(rmap, b)
  {
    forall id | id in rmap
      ensures ValidHandle(rmap[id], b)
    {
      ValidHandleKept(rmap[id], a, b);
    }
  }

  /** The index `buildMemoryIndex(memory)` builds. */
  function IndexFor(memory: Store): MemoryIndex {
    MemoryIndex(ExactIndex(memory), Sorting.SortDesc(LongItems(memory), KeyLength))
  }

  /** One turn of the field loop of `handleStartFill`: the model's value is
      written; when that fails and the memory holds a value for the field, the
      memory value, parsed as a refill, is written instead, and when that
      succeeds the line reports it with a memory reason. */
  function FillField(els: seq<Element>, field: FieldDescriptor, h: Option<RuntimeHandle>,
                     fill: Option<seq<Member>>, index: MemoryIndex, parse: string -> Option<Json>)
    : (r: (seq<Element>, ReportItem))
    requires h.Some? ==> ValidHandle(h.value, els)
    ensures SameControls(els, r.0)
    ensures r.1.fieldId == field.fieldId && r.1.fieldLabel == FieldLabel(field)
    ensures r.1.filled <==> r.1.message == []
  {
    var value := FillValue(fill);
    var first := Fill(els, h, value);
    var item := ReportItem(field.fieldId, FieldLabel(field), PreviewText(value), AiReason(fill),
                           first.1.filled, first.1.message);
    var mem := MemoryLookup(field, index);
    if first.1.filled || mem.None? || mem.value.value == [] then (first.0, item)
    else
      assert h.Some? ==> ValidHandle(h.value, first.0) by {
        if h.Some? { ValidHandleKept(h.value, els, first.0); }
      }
      var kind := if h.Some? then h.value.kind else Text;
      var second := Fill(first.0, h, Some(ParseRefillValue(kind, mem.value.value, parse)));
      if second.1.filled then
        (second.0, ReportItem(field.fieldId, FieldLabel(field), PreviewText(Some(JString(mem.value.value))),
                              JString(MemoryTag + MemoryName(mem.value)), true, second.1.message))
      else (second.0, item)
  }

  /** The memory is consulted only for a field the model's value did not fill;
      a line whose reason is not the model's was filled by the memory value
      after the model's value failed, and carries the memory reason; a field
      is filled exactly when one of the two writes filled it. */
  lemma FillFieldSpec(els: seq<Element>, field: FieldDescriptor, h: Option<RuntimeHandle>,
                      fill: Option<seq<Member>>, index: MemoryIndex, parse: string -> Option<Json>)
    requires h.Some? ==> ValidHandle(h.value, els)
    ensures var r := FillField(els, field, h, fill, index, parse);
      var first := Fill(els, h, FillValue(fill));
      var mem := MemoryLookup(field, index);
      && (first.1.filled ==>
            r == (first.0, ReportItem(field.fieldId, FieldLabel(field), PreviewText(FillValue(fill)), AiReason(fill), true, [])))
      && (r.1.reason != AiReason(fill) ==>
            && !first.1.filled && r.1.filled
            && mem.Some? && mem.value.value != []
            && r.1.reason == JString(MemoryTag + MemoryName(mem.value))
            && r.1.value == mem.value.value)
      && (!r.1.filled ==> r.1.reason == AiReason(fill) && r.1.message == first.1.message && r.1.message != [])
      && (mem.None? || mem.value.value == [] ==> r.1.filled == first.1.filled)
  {
  }

  /** `fillById.get(fieldId)`. */
  function FillOf(byId: map<string, seq<Member>>, id: string): Option<seq<Member>> {
    if id in byId then Some(byId[id]) else None
  }

  /** The field loop of `handleStartFill` over the first fields. */
  function FillFields(els: seq<Element>, fields: seq<FieldDescriptor>, rmap: map<string, RuntimeHandle>,
                      byId: map<string, seq<Member>>, index: MemoryIndex, parse: string -> Option<Json>)
    : (r: (seq<Element>, seq<ReportItem>))
    requires MapValid(rmap, els)
    ensures SameControls(els, r.0)
    ensures |r.1| == |fields|
  {
    if fields == [] then (els, [])
    else
      var prev := FillFields(els, fields[..|fields| - 1], rmap, byId, index, parse);
      MapValidKept(rmap, els, prev.0);
      var field := fields[|fields| - 1];
      var step := FillField(prev.0, field, Lookup(rmap, field.fieldId), FillOf(byId, field.fieldId), index, parse);
      (step.0, prev.1 + [step.1])
  }

  /** Line `k` of the report is about field `k`. */
  lemma {:induction false} FillFieldsLines(els: seq<Element>, fields: seq<FieldDescriptor>,
                                           rmap: map<string, RuntimeHandle>, byId: map<string, seq<Member>>,
                                           index: MemoryIndex, parse: string -> Option<Json>)
    requires MapValid(rmap, els)
    ensures forall k :: 0 <= k < |fields| ==>
      && FillFields(els, fields, rmap, byId, index, parse).1[k].fieldId == fields[k].fieldId
      && FillFields(els, fields, rmap, byId, index, parse).1[k].fieldLabel == FieldLabel(fields[k])
    decreases |fields|
  {
    if fields != [] {
      var n := |fields| - 1;
      FillFieldsLines(els, fields[..n], rmap, byId, index, parse);
      var prev := FillFields(els, fields[..n], rmap, byId, index, parse);
      MapValidKept(rmap, els, prev.0);
      var step := FillField(prev.0, fields[n], Lookup(rmap, fields[n].fieldId), FillOf(byId, fields[n].fieldId), index, parse);
      assert FillFields(els, fields, rmap, byId, index, parse).1 == prev.1 + [step.1];
    }
  }

  /** The number of report lines that say filled. */
  function CountFilled(items: seq<ReportItem>): (r: nat)
    ensures r <= |items|
    ensures r == |items| <==> forall k :: 0 <= k < |items| ==> items[k].filled
    ensures r == 0 <==> forall k :: 0 <= k < |items| ==> !items[k].filled
  {
    if items == [] then 0
    else
      var init := items[..|items| - 1];
      assert forall k :: 0 <= k < |init| ==> init[k] == items[k];
      CountFilled(init) + (if items[|items| - 1].filled then 1 else 0)
  }

  /* ---------- the runtime map ---------- */

  /** `fieldRuntimeMap` after it is cleared and refilled from `runtime`. */
  function RuntimeMap(runtime: seq<RuntimeHandle>): map<string, RuntimeHandle> {
    if runtime == [] then map[]
    else RuntimeMap(runtime[..|runtime| - 1])[runtime[|runtime| - 1].fieldId := runtime[|runtime| - 1]]
  }

  /** With distinct ids, every handle is found under its own id, and only
      their ids are mapped. */
  lemma {:induction false} RuntimeMapAt(runtime: seq<RuntimeHandle>)
    requires forall i, j :: 0 <= i < j < |runtime| ==> runtime[i].fieldId != runtime[j].fieldId
    ensures forall k :: 0 <= k < |runtime| ==>
      runtime[k].fieldId in RuntimeMap(runtime) && RuntimeMap(runtime)[runtime[k].fieldId] == runtime[k]
    ensures forall id :: id in RuntimeMap(runtime) ==> exists k :: 0 <= k < |runtime| && runtime[k].fieldId == id
    decreases |runtime|
  {
    if runtime != [] {
      var init := runtime[..|runtime| - 1];
      RuntimeMapAt(init);
      assert forall k :: 0 <= k < |init| ==> init[k] == runtime[k];
    }
  }

  lemma {:induction false} RuntimeMapValid(runtime: seq<RuntimeHandle>, els: seq<Element>)
    requires forall k :: 0 <= k < |runtime| ==> ValidHandle(runtime[k], els)
    ensures MapValid(RuntimeMap(runtime), els)
    decreases |runtime|
  {
    if runtime != [] {
      var init := runtime[..|runtime| - 1];
      assert forall k :: 0 <= k < |init| ==> init[k] == runtime[k];
      RuntimeMapValid(init, els);
    }
  }

  /** The scanned handles are valid, and the map built from them too. */
  lemma ScanValid(els: seq<Element>, forms: seq<Form>)
    ensures forall k :: 0 <= k < |AllRuntime(ScannedItems(els, forms))| ==>
      ValidHandle(AllRuntime(ScannedItems(els, forms))[k], els)
    ensures MapValid(RuntimeMap(AllRuntime(ScannedItems(els, forms))), els)
  {
    ScannedItemsConsistent(els, forms);
    HandlesValid(ScannedItems(els, forms), els);
    RuntimeMapValid(AllRuntime(ScannedItems(els, forms)), els);
  }

  /* ---------- the fill run ---------- */

  /** `resumeStructured` is present and an object (or array). */
  predicate ResumeOk(resume: Option<Json>) {
    resume.Some? && (resume.value.JObject? || resume.value.JArray?)
  }

  /** The body of `handleStartFill` once the busy guard is passed: the page
      after the run and the answer. A thrown error becomes a failure with its
      message. */
  function StartFill(els: seq<Element>, forms: seq<Form>, resume: Option<Json>, memory: Store,
                     reply: Result<string>, parse: string -> Option<Json>): (seq<Element>, Response)
  {
    if !ResumeOk(resume) then (els, Failure(NoResumeMessage))
    else
      var items := ScannedItems(els, forms);
      ScanValid(els, forms);
      FillScanned(els, AllFields(items), RuntimeMap(AllRuntime(items)), IndexFor(memory), reply, parse)
  }

  /** The run once the page is scanned and the runtime map is built. */
  function FillScanned(els: seq<Element>, fields: seq<FieldDescriptor>, rmap: map<string, RuntimeHandle>,
                       index: MemoryIndex, reply: Result<string>, parse: string -> Option<Json>)
    : (seq<Element>, Response)
    requires MapValid(rmap, els)
  {
    if fields == [] then (els, Failure(NoFieldsMessage))
    else if reply.Err? then (els, Failure(reply.message))
    else
      var mapping := ParseJsonFromAiText(reply.value, parse, ContentParseFailure);
      if mapping.Err? then (els, Failure(mapping.message))
      else
        var run := FillFields(els, fields, rmap, FillById(FillsOf(mapping.value)), index, parse);
        (run.0, FillReport(|fields|, CountFilled(run.1), run.1))
  }

  /** A run that fails leaves the page as it was; a run that reports has one
      line per scanned field, in field order with ids f_1..f_n, and counts the
      lines that say filled. */
  lemma StartFillReport(els: seq<Element>, forms: seq<Form>, resume: Option<Json>, memory: Store,
                        reply: Result<string>, parse: string -> Option<Json>)
    ensures var r := StartFill(els, forms, resume, memory, reply, parse);
      && (r.1.Failure? ==> r.0 == els)
      && (r.1.Failure? || r.1.FillReport?)
      && (r.1.FillReport? ==>
            && ResumeOk(resume)
            && r.1.fieldCount == |AllFields(ScannedItems(els, forms))| > 0
            && |r.1.items| == r.1.fieldCount
            && r.1.filledCount == CountFilled(r.1.items) <= r.1.fieldCount
            && SameControls(els, r.0)
            && forall k :: 0 <= k < |r.1.items| ==> r.1.items[k].fieldId == FieldId(k + 1))
  {
    if ResumeOk(resume) {
      var items := ScannedItems(els, forms);
      ScanValid(els, forms);
      FieldsAlign(items);
      FillScannedReport(els, AllFields(items), RuntimeMap(AllRuntime(items)), IndexFor(memory), reply, parse);
    }
  }

  /** The same, once the page is scanned: a report line per field, each
      carrying its field's id and label. */
  lemma FillScannedReport(els: seq<Element>, fields: seq<FieldDescriptor>, rmap: map<string, RuntimeHandle>,
                          index: MemoryIndex, reply: Result<string>, parse: string -> Option<Json>)
    requires MapValid(rmap, els)
    ensures var r := FillScanned(els, fields, rmap, index, reply, parse);
      && (r.1.Failure? ==> r.0 == els)
      && (r.1.Failure? || r.1.FillReport?)
      && (r.1.FillReport? ==>
            && fields != [] && reply.Ok?
            && r.1.fieldCount == |fields| == |r.1.items|
            && r.1.filledCount == CountFilled(r.1.items)
            && SameControls(els, r.0)
            && forall k :: 0 <= k < |fields| ==>
                 r.1.items[k].fieldId == fields[k].fieldId && r.1.items[k].fieldLabel == FieldLabel(fields[k]))
  {
    if fields != [] && reply.Ok? {
      var mapping := ParseJsonFromAiText(reply.value, parse, ContentParseFailure);
      if mapping.Ok? {
        FillFieldsLines(els, fields, rmap, FillById(FillsOf(mapping.value)), index, parse);
      }
    }
  }

  /* ---------- refill and read-back ---------- */

  /** `handleRefill(fieldId, rawValue)`: the page after it and the answer. */
  function Refill(els: seq<Element>, rmap: map<string, RuntimeHandle>, fieldId: string, raw: string,
                  parse: string -> Option<Json>): (r: (seq<Element>, Response))
    requires MapValid(rmap, els)
    ensures SameControls(els, r.0)
  {
    if fieldId == [] then (els, Failure(MissingIdMessage))
    else if fieldId !in rmap then (els, Failure(UnknownFieldMessage))
    else
      var h := rmap[fieldId];
      var out := Fill(els, Some(h), Some(ParseRefillValue(h.kind, raw, parse)));
      if !out.1.filled then (out.0, Failure(if out.1.message != [] then out.1.message else RefillFailedMessage))
      else (out.0, Refilled)
  }

  /** `handleGetFieldValue(fieldId)`. */
  function GetFieldValue(els: seq<Element>, rmap: map<string, RuntimeHandle>, fieldId: string): Response
    requires MapValid(rmap, els)
  {
    if fieldId == [] then Failure(MissingIdMessage)
    else if fieldId !in rmap then Failure(UnknownFieldMessage)
    else FieldValue(CurrentValue(rmap[fieldId], els))
  }

  /** A refill either succeeds or fails with a message that is not empty. */
  lemma RefillAnswers(els: seq<Element>, rmap: map<string, RuntimeHandle>, fieldId: string, raw: string,
                      parse: string -> Option<Json>)
    requires MapValid(rmap, els)
    ensures var r := Refill(els, rmap, fieldId, raw, parse);
      && (r.1 == Refilled || (r.1.Failure? && r.1.message != []))
      && (r.1.Failure? && fieldId !in rmap ==> r.0 == els)
  {
  }

  /** Refilling a text-like field with text that is not blank succeeds, and
      reading the field back gives that text trimmed. */
  lemma RefillThenRead(els: seq<Element>, rmap: map<string, RuntimeHandle>, fieldId: string, raw: string,
                       parse: string -> Option<Json>)
    requires MapValid(rmap, els)
    requires fieldId in rmap && fieldId != []
    requires rmap[fieldId].kind == Text || rmap[fieldId].kind == Textarea || rmap[fieldId].kind == ContentEditable
    requires Trim(raw) != []
    ensures var r := Refill(els, rmap, fieldId, raw, parse);
      && r.1 == Refilled
      && MapValid(rmap, r.0)
      && GetFieldValue(r.0, rmap, fieldId) == FieldValue(JString(Trim(raw)))
  {
    var h := rmap[fieldId];
    FillTextReadBack(els, h, Trim(raw));
    Fuzzy.TrimIdempotent(raw);
    var r := Refill(els, rmap, fieldId, raw, parse);
    MapValidKept(rmap, els, r.0);
  }

  /* ---------- the memory snapshot ---------- */

  /** The text a field is remembered under: `normalizeText` of its label,
      else its name, else its placeholder, else its id. */
  function SnapshotLabel(field: FieldDescriptor): string {
    NormalizeText(
      if field.labelText != [] then field.labelText
      else if field.name != [] then field.name
      else if field.placeholder != [] then field.placeholder
      else field.id)
  }

  /** The text a current value is remembered as: a list as the JSON text of
      its trimmed non-empty items, anything else trimmed; `None` when that
      leaves nothing. */
  function SnapshotValue(v: Json): Option<string> {
    if v.JArray? then
      var texts := TrimmedPieces(StringsOf(v.items));
      if texts == [] then None else Some(Stringify(StringArray(texts)))
    else
      var text := Trim(TextOrEmpty(Some(v)));
      if text == [] then None else Some(text)
  }

  /** One turn of the snapshot loop: file fields, fields without a label or
      key, and blank values are skipped. */
  function SnapshotEntry(field: FieldDescriptor, h: RuntimeHandle, els: seq<Element>): Option<SnapshotItem>
    requires ValidHandle(h, els)
  {
    if h.kind == File then None
    else
      var labelText := SnapshotLabel(field);
      var key := NormalizeMemoryKey(labelText);
      if labelText == [] || key == [] then None
      else
        var value := SnapshotValue(CurrentValue(h, els));
        if value.None? then None else Some(SnapshotItem(key, labelText, value.value, h.kind))
  }

  /** The snapshot items of the first fields and their handles. */
  function SnapshotOf(els: seq<Element>, fields: seq<FieldDescriptor>, runtime: seq<RuntimeHandle>)
    : (r: seq<SnapshotItem>)
    requires |fields| == |runtime|
    requires forall k :: 0 <= k < |runtime| ==> ValidHandle(runtime[k], els)
    ensures |r| <= |fields|
  {
    if fields == [] then []
    else
      var n := |fields| - 1;
      var prev := SnapshotOf(els, fields[..n], runtime[..n]);
      var e := SnapshotEntry(fields[n], runtime[n], els);
      if e.Some? then prev + [e.value] else prev
  }

  /** The snapshot of a freshly scanned page. */
  function PageSnapshot(els: seq<Element>, forms: seq<Form>): seq<SnapshotItem> {
    var items := ScannedItems(els, forms);
    FieldsAlign(items);
    ScanValid(els, forms);
    SnapshotOf(els, AllFields(items), AllRuntime(items))
  }

  /** What the memory can take from a snapshot item: its key is non-empty and
      already normalised, its label is normalised text, its value is not
      blank, it is not a file field, and writing it into the memory stores it
      under its own key. */
  predicate Rememberable(it: SnapshotItem) {
    && it.key != [] && NormalizeMemoryKey(it.key) == it.key
    && it.labelText != [] && IsTrimmed(it.labelText)
    && Trim(it.value) == it.value && it.value != []
    && it.kind != File
    && MemoryStore.Prepare(MemoryStore.UpsertItem(it.key, it.labelText, it.value)).writable
    && MemoryStore.Prepare(MemoryStore.UpsertItem(it.key, it.labelText, it.value)).key == it.key
  }

  lemma SnapshotValueTrimmed(v: Json)
    requires SnapshotValue(v).Some?
    ensures Trim(SnapshotValue(v).value) == SnapshotValue(v).value && SnapshotValue(v).value != []
  {
    if v.JArray? {
      var texts := TrimmedPieces(StringsOf(v.items));
      StringifyArrayBracketed(StringArray(texts).items);
      TrimOfTrimmed(SnapshotValue(v).value);
    } else {
      Fuzzy.TrimIdempotent(TextOrEmpty(Some(v)));
    }
  }

  lemma EntryRememberable(field: FieldDescriptor, h: RuntimeHandle, els: seq<Element>)
    requires ValidHandle(h, els) && SnapshotEntry(field, h, els).Some?
    ensures Rememberable(SnapshotEntry(field, h, els).value)
  {
    var it := SnapshotEntry(field, h, els).value;
    var labelText := SnapshotLabel(field);
    NormalizeMemoryKeyIdempotent(labelText);
    NormalizedKeyTrimmed(labelText);
    SnapshotValueTrimmed(CurrentValue(h, els));
    MemoryStore.PrepareSpec(MemoryStore.UpsertItem(it.key, it.labelText, it.value));
  }

  /** Every item of a snapshot can be remembered as it stands. */
  lemma {:induction false} SnapshotRememberable(els: seq<Element>, fields: seq<FieldDescriptor>,
                                               runtime: seq<RuntimeHandle>)
    requires |fields| == |runtime|
    requires forall k :: 0 <= k < |runtime| ==> ValidHandle(runtime[k], els)
    ensures forall k :: 0 <= k < |SnapshotOf(els, fields, runtime)| ==> Rememberable(SnapshotOf(els, fields, runtime)[k])
    decreases |fields|
  {
    if fields != [] {
      var n := |fields| - 1;
      SnapshotRememberable(els, fields[..n], runtime[..n]);
      if SnapshotEntry(fields[n], runtime[n], els).Some? {
        EntryRememberable(fields[n], runtime[n], els);
      }
    }
  }

  /** Every item of the snapshot of a page can be remembered as it stands. */
  lemma PageSnapshotRememberable(els: seq<Element>, forms: seq<Form>)
    ensures forall k :: 0 <= k < |PageSnapshot(els, forms)| ==> Rememberable(PageSnapshot(els, forms)[k])
  {
    var items := ScannedItems(els, forms);
    FieldsAlign(items);
    ScanValid(els, forms);
    SnapshotRememberable(els, AllFields(items), AllRuntime(items));
  }

  /* ---------- the content script ---------- */

  class ContentScript {
    const page: Page
    var isWorking: bool
    var fieldRuntimeMap: map<string, RuntimeHandle>
    var lastFieldCount: nat
    var lastFilledCount: nat

    /** The runtime map names elements of the page. */
    predicate Valid()
      reads this, page
    {
      MapValid(fieldRuntimeMap, page.elements)
    }

    constructor (page: Page)
      ensures this.page == page && !isWorking && fieldRuntimeMap == map[]
      ensures lastFieldCount == 0 && lastFilledCount == 0
      ensures Valid()
    {
      this.page := page;
      isWorking := false;
      fieldRuntimeMap := map[];
      lastFieldCount := 0;
      lastFilledCount := 0;
    }

    /** `handleStartFill`: refused while a run is in progress; otherwise the
        run, after which `isWorking` is false again. */
    method HandleStartFill(resume: Option<Json>, memory: Store, reply: Result<string>,
                           parse: string -> Option<Json>) returns (r: Response)
      requires Valid()
      modifies this, page
      ensures Valid()
      ensures old(isWorking) ==>
        && r == Failure(BusyMessage) && isWorking
        && fieldRuntimeMap == old(fieldRuntimeMap) && page.elements == old(page.elements)
        && lastFieldCount == old(lastFieldCount) && lastFilledCount == old(lastFilledCount)
      ensures !old(isWorking) ==>
        && !isWorking
        && (page.elements, r) == StartFill(old(page.elements), page.forms, resume, memory, reply, parse)
      ensures !old(isWorking) && ResumeOk(resume) ==>
        && fieldRuntimeMap == RuntimeMap(AllRuntime(ScannedItems(old(page.elements), page.forms)))
        && lastFieldCount == |AllFields(ScannedItems(old(page.elements), page.forms))|
      ensures !old(isWorking) && !ResumeOk(resume) ==>
        fieldRuntimeMap == old(fieldRuntimeMap) && lastFieldCount == old(lastFieldCount)
      ensures r.FillReport? ==> lastFilledCount == r.filledCount
      ensures !r.FillReport? ==> lastFilledCount == old(lastFilledCount)
    {
      if isWorking {
        return Failure(BusyMessage);
      }
      isWorking := true;
      r := RunFill(resume, memory, reply, parse);
      isWorking := false;
    }

    /** The `try` block of `handleStartFill`. */
    method RunFill(resume: Option<Json>, memory: Store, reply: Result<string>, parse: string -> Option<Json>)
      returns (r: Response)
      requires Valid()
      modifies this, page
      ensures Valid() && isWorking == old(isWorking)
      ensures (page.elements, r) == StartFill(old(page.elements), page.forms, resume, memory, reply, parse)
      ensures ResumeOk(resume) ==>
        && fieldRuntimeMap == RuntimeMap(AllRuntime(ScannedItems(old(page.elements), page.forms)))
        && lastFieldCount == |AllFields(ScannedItems(old(page.elements), page.forms))|
      ensures !ResumeOk(resume) ==> fieldRuntimeMap == old(fieldRuntimeMap) && lastFieldCount == old(lastFieldCount)
      ensures r.FillReport? ==> lastFilledCount == r.filledCount
      ensures !r.FillReport? ==> lastFilledCount == old(lastFilledCount)
    {
      if !(resume.Some? && (resume.value.JObject? || resume.value.JArray?)) {
        return Failure(NoResumeMessage);
      }
      var index := BuildMemoryIndex(memory);
      assert index == IndexFor(memory);
      var fields, runtime := ScanFields(page.elements, page.forms);
      ScanValid(page.elements, page.forms);
      lastFieldCount := |fields|;
      InstallRuntimeMap(runtime);
      r := FillRun(fields, index, reply, parse);
    }

    /** The rest of the `try` block once the runtime map is built. */
    method FillRun(fields: seq<FieldDescriptor>, index: MemoryIndex, reply: Result<string>,
                   parse: string -> Option<Json>) returns (r: Response)
      requires Valid()
      modifies this, page
      ensures Valid()
      ensures isWorking == old(isWorking) && fieldRuntimeMap == old(fieldRuntimeMap)
      ensures (page.elements, r) == FillScanned(old(page.elements), fields, fieldRuntimeMap, index, reply, parse)
      ensures lastFieldCount == old(lastFieldCount)
      ensures r.FillReport? ==> lastFilledCount == r.filledCount
      ensures !r.FillReport? ==> lastFilledCount == old(lastFilledCount)
    {
      if |fields| == 0 {
        return Failure(NoFieldsMessage);
      }
      if reply.Err? {
        return Failure(reply.message);
      }
      var mapping := ParseJsonFromAiText(reply.value, parse, ContentParseFailure);
      if mapping.Err? {
        return Failure(mapping.message);
      }
      var byId := BuildFillById(FillsOf(mapping.value));
      var results, filledCount := FillAll(fields, byId, index, parse);
      lastFilledCount := filledCount;
      r := FillReport(|fields|, filledCount, results);
    }

    /** `fieldRuntimeMap.clear()` followed by one entry per scanned handle. */
    method InstallRuntimeMap(runtime: seq<RuntimeHandle>)
      modifies this
      ensures fieldRuntimeMap == RuntimeMap(runtime)
      ensures isWorking == old(isWorking) && lastFieldCount == old(lastFieldCount)
      ensures lastFilledCount == old(lastFilledCount)
    {
      fieldRuntimeMap := map[];
      for k := 0 to |runtime|
        invariant fieldRuntimeMap == RuntimeMap(runtime[..k])
        invariant isWorking == old(isWorking) && lastFieldCount == old(lastFieldCount)
        invariant lastFilledCount == old(lastFilledCount)
      {
        assert runtime[..k + 1][..k] == runtime[..k];
        fieldRuntimeMap := fieldRuntimeMap[runtime[k].fieldId := runtime[k]];
      }
      assert runtime[..|runtime|] == runtime;
    }

    /** The field loop of `handleStartFill` with its count of filled lines. */
    method FillAll(fields: seq<FieldDescriptor>, byId: map<string, seq<Member>>, index: MemoryIndex,
                   parse: string -> Option<Json>) returns (results: seq<ReportItem>, filledCount: nat)
      requires Valid()
      modifies page
      ensures Valid()
      ensures (page.elements, results) == FillFields(old(page.elements), fields, fieldRuntimeMap, byId, index, parse)
      ensures filledCount == CountFilled(results)
    {
      ghost var els0 := page.elements;
      filledCount := 0;
      results := [];
      for i := 0 to |fields|
        invariant Valid()
        invariant (page.elements, results) == FillFields(els0, fields[..i], fieldRuntimeMap, byId, index, parse)
        invariant filledCount == CountFilled(results)
      {
        var item := FillNext(els0, fields, i, byId, index, parse, results);
        CountFilledSnoc(results, item);
        if item.filled {
          filledCount := filledCount + 1;
        }
        results := results + [item];
      }
      assert fields[..|fields|] == fields;
    }

    /** One turn of the field loop, stated against the loop so far. */
    method FillNext(ghost els0: seq<Element>, fields: seq<FieldDescriptor>, i: nat, byId: map<string, seq<Member>>,
                    index: MemoryIndex, parse: string -> Option<Json>, ghost results: seq<ReportItem>)
      returns (item: ReportItem)
      requires Valid() && MapValid(fieldRuntimeMap, els0) && i < |fields|
      requires (page.elements, results) == FillFields(els0, fields[..i], fieldRuntimeMap, byId, index, parse)
      modifies page
      ensures Valid()
      ensures (page.elements, results + [item]) == FillFields(els0, fields[..i + 1], fieldRuntimeMap, byId, index, parse)
    {
      ghost var prev := page.elements;
      item := FillFieldStep(fields[i], FillOf(byId, fields[i].fieldId), index, parse);
      FillFieldsSnoc(els0, fields, i, fieldRuntimeMap, byId, index, parse, prev, results);
    }

    /** The body of the field loop of `handleStartFill`. */
    method FillFieldStep(field: FieldDescriptor, fill: Option<seq<Member>>, index: MemoryIndex,
                         parse: string -> Option<Json>) returns (item: ReportItem)
      requires Valid()
      modifies page
      ensures Valid()
      ensures (page.elements, item) ==
        FillField(old(page.elements), field, Lookup(fieldRuntimeMap, field.fieldId), fill, index, parse)
    {
      var value := FillValue(fill);
      var h := Lookup(fieldRuntimeMap, field.fieldId);
      var out := FillOne(page, h, value);
      var finalValue := PreviewText(value);
      var finalReason := AiReason(fill);
      if !out.filled {
        var mem := FindMemoryForField(field, index);
        if mem.Some? && mem.value.value != [] {
          var memValue := ParseRefillValue(if h.Some? then h.value.kind else Text, mem.value.value, parse);
          if h.Some? {
            ValidHandleKept(h.value, old(page.elements), page.elements);
          }
          var out2 := FillOne(page, h, Some(memValue));
          if out2.filled {
            out := out2;
            finalValue := PreviewText(Some(JString(mem.value.value)));
            finalReason := JString(MemoryTag + MemoryName(mem.value));
          }
        }
      }
      item := ReportItem(field.fieldId, FieldLabel(field), finalValue, finalReason, out.filled, out.message);
      MapValidKept(fieldRuntimeMap, old(page.elements), page.elements);
    }

    /** `handleRefill(fieldId, rawValue)`. */
    method HandleRefill(fieldId: string, raw: string, parse: string -> Option<Json>) returns (r: Response)
      requires Valid()
      modifies page
      ensures Valid()
      ensures (page.elements, r) == Refill(old(page.elements), fieldRuntimeMap, fieldId, raw, parse)
    {
      if fieldId == [] {
        return Failure(MissingIdMessage);
      }
      if fieldId !in fieldRuntimeMap {
        return Failure(UnknownFieldMessage);
      }
      var h := fieldRuntimeMap[fieldId];
      var value := ParseRefillValue(h.kind, raw, parse);
      var out := FillOne(page, Some(h), Some(value));
      MapValidKept(fieldRuntimeMap, old(page.elements), page.elements);
      if !out.filled {
        return Failure(if out.message != [] then out.message else RefillFailedMessage);
      }
      return Refilled;
    }

    /** `handleGetFieldValue(fieldId)`. */
    method HandleGetFieldValue(fieldId: string) returns (r: Response)
      requires Valid()
      ensures r == GetFieldValue(page.elements, fieldRuntimeMap, fieldId)
    {
      if fieldId == [] {
        return Failure(MissingIdMessage);
      }
      if fieldId !in fieldRuntimeMap {
        return Failure(UnknownFieldMessage);
      }
      var v := ReadRuntimeValue(page, fieldRuntimeMap[fieldId]);
      return FieldValue(v);
    }

    /** `handleSnapshotPageMemory`: scans the page afresh and offers every
        labelled, non-blank value to the memory. */
    method HandleSnapshotPageMemory() returns (r: Response)
      ensures r.Snapshot?
      ensures r.entries == PageSnapshot(page.elements, page.forms)
      ensures r.count == |r.entries|
    {
      var fields, runtime := ScanFields(page.elements, page.forms);
      var items := SnapshotAll(fields, runtime);
      return Snapshot(|items|, items);
    }

    /** The snapshot loop over the scanned fields. */
    method SnapshotAll(fields: seq<FieldDescriptor>, runtime: seq<RuntimeHandle>) returns (items: seq<SnapshotItem>)
      requires |fields| == |runtime|
      requires forall j :: 0 <= j < |runtime| ==> ValidHandle(runtime[j], page.elements)
      ensures items == SnapshotOf(page.elements, fields, runtime)
    {
      items := [];
      for k := 0 to |runtime|
        invariant items == SnapshotOf(page.elements, fields[..k], runtime[..k])
      {
        items := SnapshotNext(fields, runtime, k, items);
      }
      assert fields[..|fields|] == fields && runtime[..|runtime|] == runtime;
    }

    /** One turn of the snapshot loop, stated against the loop so far. */
    method SnapshotNext(fields: seq<FieldDescriptor>, runtime: seq<RuntimeHandle>, k: nat, items: seq<SnapshotItem>)
      returns (next: seq<SnapshotItem>)
      requires k < |fields| == |runtime|
      requires forall j :: 0 <= j < |runtime| ==> ValidHandle(runtime[j], page.elements)
      requires items == SnapshotOf(page.elements, fields[..k], runtime[..k])
      ensures next == SnapshotOf(page.elements, fields[..k + 1], runtime[..k + 1])
    {
      assert fields[..k + 1][..k] == fields[..k] && runtime[..k + 1][..k] == runtime[..k];
      var e := SnapshotStep(fields[k], runtime[k]);
      next := if e.Some? then items + [e.value] else items;
    }

    /** The body of the snapshot loop. */
    method SnapshotStep(field: FieldDescriptor, h: RuntimeHandle) returns (e: Option<SnapshotItem>)
      requires ValidHandle(h, page.elements)
      ensures e == SnapshotEntry(field, h, page.elements)
    {
      if h.kind == File {
        return None;
      }
      var labelText := SnapshotLabel(field);
      if labelText == [] {
        return None;
      }
      var key := NormalizeMemoryKey(labelText);
      if key == [] {
        return None;
      }
      var v := ReadRuntimeValue(page, h);
      var value := SnapshotValue(v);
      if value.None? {
        return None;
      }
      return Some(SnapshotItem(key, labelText, value.value, h.kind));
    }
  }

  /** One more turn of the field loop. */
  lemma FillFieldsSnoc(els: seq<Element>, fields: seq<FieldDescriptor>, i: nat, rmap: map<string, RuntimeHandle>,
                       byId: map<string, seq<Member>>, index: MemoryIndex, parse: string -> Option<Json>,
                       prev: seq<Element>, results: seq<ReportItem>)
    requires MapValid(rmap, els) && i < |fields|
    requires (prev, results) == FillFields(els, fields[..i], rmap, byId, index, parse)
    ensures MapValid(rmap, prev)
    ensures FillFields(els, fields[..i + 1], rmap, byId, index, parse) ==
      var step := FillField(prev, fields[i], Lookup(rmap, fields[i].fieldId), FillOf(byId, fields[i].fieldId), index, parse);
      (step.0, results + [step.1])
  {
    MapValidKept(rmap, els, prev);
    assert fields[..i + 1][..i] == fields[..i];
  }

  lemma CountFilledSnoc(items: seq<ReportItem>, item: ReportItem)
    ensures CountFilled(items + [item]) == CountFilled(items) + (if item.filled then 1 else 0)
  {
    assert (items + [item])[..|items|] == items;
  }
}
