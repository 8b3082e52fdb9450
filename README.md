# Resume form-filler: a Dafny model of its matching, keying and bookkeeping core

The system is a browser extension that fills job-application forms from a
structured résumé. It has two parts:

- A side panel (`popup.js`):
  - sends the résumé text to a chat model and recovers JSON from the reply;
  - shows the résumé as a table of JSON-pointer rows;
  - keeps a "field memory" of values the user typed before.
- A content script (`content.js`):
  - scans the page for fillable controls;
  - describes them to the model;
  - writes the model's answers into the page, falling back to the field memory;
  - can later refill one field, read one field back, or snapshot the whole page into the memory.

This project models that core in Dafny. The DOM is replaced by plain records. The model, `JSON.parse`, the clock and storage become parameters. Each piece is proved against a specification.

Modules, one file each:

- `Strings`: the JavaScript string operations the code relies on: `trim`, the `\s` class, `includes`, `indexOf`/`lastIndexOf`, global replace, `split` on a character class, `join`, decimal printing, and `normalizeText`.
- `Json`: parsed JSON values, plus JavaScript truthiness, `String(x)`, property lookup and `JSON.stringify`.
- `Sorting`: `Array.prototype.sort` with a numeric comparator, which is stable and largest-first here.
- `Fuzzy`: `isFuzzyMatch` and `pickBestOption`.
- `Memory`: `normalizeMemoryKey`, `buildMemoryIndex` and `findMemoryForField`.
- `MemoryStore`: the panel's `upsertFieldMemoryBulk` and `deleteFieldMemory`.
- `Dom`:
  - element records: a fixed `Control` part and a live `State` part;
  - field kinds and runtime handles;
  - a `Page` class whose `elements` change in place.
- `Labels`: the label cascades `getFieldLabel`, `getGroupLabel` and `getOptionLabel`.
- `Scanner`: `collectControls`, `pickLikelyFormRoot` and `scanFields`, which number fields `f_1..f_n` and pair each description with a runtime handle.
- `Applicator`:
  - writes values into the page: `fillOne`, `safeCheck`, `selectByText`, `setValueWithEvents`;
  - reads values back: `readRuntimeValue`;
  - `parseRefillValue` and `normalizeValueForPreview`.
- `JsonRecovery`: `parseJsonFromAiText` and `extractLikelyJson`. These are duplicated in both scripts; the only difference is the failure message.
- `JsonPointer`: segment escaping as in section 4 of RFC 6901, plus `pointerToLabel`, `flattenJson` and `setByJsonPointer`.
- `Orchestrator`: the content script's message handlers, as a `ContentScript` class with the fields `isWorking`, `fieldRuntimeMap`, `lastFieldCount` and `lastFilledCount`.
- `Popup`: `limitTextForPrompt`, `isModelConfigured` and `parseAndStoreResume`, as a `ResumePanel` class with the fields `isParsingResume`, `resumeStructured` and `resumeRawText`.

How the side effects are modelled:

- **`JSON.parse`** is a parameter `parse: string -> Option<Json>`.
- **The model call** is a parameter `ask` that returns the reply text or an error. The content script gets the reply as a `Result<string>`.
- **`Date.now()`** becomes a `now: int` parameter.
- **The stored memory** is an insertion-ordered sequence of key/entry pairs. It is passed in and returned.

## Model

| member | source | states |
|---|---|---|
| Fuzzy.FuzzyMatchBasics | content.js:868-874 | fuzzy matching is symmetric; a blank text (after trimming) matches nothing; a non-blank text matches itself |
| Fuzzy.FuzzyMatchTrim | content.js:868-874 | only the trimmed texts matter: matching `a` and `b` is matching their trims |
| Fuzzy.FuzzyMatchContainment | content.js:868-874 | non-blank texts match exactly when their trims are equal or one trim contains the other |
| Fuzzy.BestOption | content.js:849-866 | a blank desired text picks nothing; otherwise the pick is a non-empty label that fuzzily matches; nothing is picked iff no label matches; an exactly equal label is preferred even when a fuzzy match comes earlier, the first equal one; with no equal label, the first fuzzy match |
| Fuzzy.PickBestOption | content.js:849-866 | the loop with its `exact`/`fuzzy` locals returns the option `BestOption` specifies |
| Fuzzy.BestUnique | content.js:849-866 | the preference determines the pick: any index meeting the preference conditions is the one picked |
| Strings.NormalizeText | content.js:736-741 | the result has no white space at its ends and only single spaces inside |
| Strings.NormalizeTextIdempotent | content.js:736-741 | normalising a normalised text changes nothing |
| Memory.NormalizeMemoryKeySpec | content.js:565-570 | a memory key holds only a-z, 0-9 and U+4E00..U+9FFF, and is no longer than its text |
| Memory.NormalizeKeyChars | content.js:565-570 | a text made only of key characters is its own key |
| Memory.NormalizeMemoryKeyIdempotent | content.js:565-570 | normalising a key again gives the same key |
| Memory.NormalizedKeyTrimmed | popup.js:828-833 | a key has no white space, so the panel's trim around it changes nothing |
| Memory.BuildMemoryIndex | content.js:572-601 | the loop builds the exact map over indexed entries and the long keys sorted longest first |
| Memory.ExactIndexKeys | content.js:577-595 | a key is in the exact map iff some entry with a non-empty key and a non-blank value normalises to it |
| Memory.ExactIndexLast | content.js:595 | when several entries normalise to one key, the last of them is what the map holds |
| Memory.ExactIndexSource | content.js:577-595 | whatever the exact map holds comes from an indexed entry |
| Memory.LastWriter | content.js:595 | a key that some entry writes is in the map and holds a later-or-equal writer's item |
| Memory.LongItemsSpec | content.js:596 | the long-key list holds exactly the indexed items whose key is longer than 3 |
| Memory.BuiltIndexSpec | content.js:596-599 | the long keys are sorted longest first, each longer than 3 and taken from an indexed entry |
| Memory.FindMemoryForField | content.js:603-621 | a blank query key finds nothing; an exact hit wins; a query key of at most 3 characters has no fuzzy match; otherwise the hit is the first long key (in longest-first order) that contains or is contained in the query key, and nothing when none does |
| MemoryStore.PrepareSpec | popup.js:850-856 | an item is written exactly when its normalised key is non-empty and its value is not blank; the key is a normalised key |
| MemoryStore.Lookup | popup.js:858 | a key reads a value iff some property carries it |
| MemoryStore.Put | popup.js:858-862 | `memory[k] = v`: `k` reads `v`, every other key reads what it read before, and the store grows by one exactly for a new key |
| MemoryStore.PutDistinct | popup.js:858-862 | writing a key keeps the store's keys distinct |
| MemoryStore.WritableCount | popup.js:864 | the count of written items never exceeds the number of items |
| MemoryStore.MergeStep | popup.js:849-865 | one more item extends the count and the merged store by that item alone |
| MemoryStore.UpsertFieldMemoryBulk | popup.js:842-879 | the returned count is the number of written items; the new store keeps min(size, 200) properties of the merged store, sorted newest first, none older than a dropped one; distinct keys stay distinct |
| MemoryStore.UpsertPrepared | popup.js:846-877 | the write loop and the cap, on prepared items, with the same guarantees |
| MemoryStore.WriteAll | popup.js:848-865 | the write loop puts each written item under its key, stamped `now` plus the number written before it, and counts them |
| MemoryStore.WriteNext | popup.js:849-864 | one turn of the loop extends the merge and the count by that item |
| MemoryStore.KeepNewest | popup.js:867-875 | the cap keeps at most 200 properties, a sub-multiset of the store, newest first, and none older than a dropped property |
| MemoryStore.KeepLargest | popup.js:873 | a prefix of a newest-first order is sorted and holds the newest properties |
| MemoryStore.StampsIncrease | popup.js:858-863 | a later written item gets a strictly larger `updatedAt` in one call |
| MemoryStore.MergeUntouched | popup.js:848-865 | a key no written item carries keeps its old entry |
| MemoryStore.MergeLastWriter | popup.js:858-862 | a later item with the same key overwrites an earlier one: the key ends with the last writer's entry and stamp |
| MemoryStore.MergeCountBound | popup.js:848-865 | the merge adds at most one property per written item |
| MemoryStore.DistinctCount | popup.js:873-875 | in a store with distinct keys each property occurs once, so keeping keys keeps properties |
| MemoryStore.DeleteFieldMemory | popup.js:881-887 | the normalised key is removed when present and nothing else is; an absent key leaves the store as it was |
| MemoryStore.RemoveKeyShrinks | popup.js:885 | removing a present key shrinks the store |
| Sorting.SortDesc | popup.js:872 | the sort is a permutation |
| Sorting.SortDescSorted | popup.js:872 | the sort orders by key, largest first |
| Sorting.SortDescStable | content.js:599 | the sort is stable: elements with equal keys keep their order |
| Labels.NormalizeAll | content.js:675-679 | each label text is normalised, position for position |
| Labels.NonEmptyTexts | content.js:680 | the empty texts are dropped and the order is kept |
| Labels.FieldLabelTrimmed | content.js:669-706 | an aria-label wins when present; the label is the raw name or a trimmed text |
| Labels.FieldLabelNonEmpty | content.js:669-706 | a field with a name and no aria-label or placeholder always gets a label |
| Labels.GetGroupLabel | content.js:708-721 | a non-empty fieldset legend is the label, uncut; otherwise the label is the container text cut to its first 50 characters |
| Labels.GetOptionLabel | content.js:723-734 | an option label is trimmed; the label for the id wins when it is not empty |
| Scanner.CollectControls | content.js:642-649 | the collected positions are exactly the visible matching elements inside the root, in document order |
| Scanner.VisibleForms | content.js:624-626 | exactly the visible forms, in document order |
| Scanner.PickLikelyFormRootSpec | content.js:623-636 | the root is the earliest visible form with the most controls when that count is at least 2; the document is chosen iff every visible form has fewer than 2 controls |
| Scanner.RankedFirst | content.js:629-633 | the form ranked first is visible, has the most controls, and no earlier visible form has as many |
| Scanner.RoleExcluded | content.js:436-450 | inputs of type hidden, submit, button, reset, image, range or color never produce a field |
| Scanner.RoleKinds | content.js:372-497 | a field of its own is never a group kind; a group member is a radio or checkbox of that type; non-fillable elements are skipped |
| Scanner.GroupKeyStart | content.js:470 | a group key is the input type, ":", and the name or "(no-name)" |
| Scanner.RoleInGroup | content.js:467-481 | a group member is keyed by `type:name-or-id` |
| Scanner.GroupKeyDetermines | content.js:467-481 | members with one key have one type and one grouping name |
| Scanner.SameKey | content.js:470 | equal group keys come from the same type and from names that are equal or are "" and "(no-name)" |
| Scanner.SelectOptionTexts | content.js:383-389 | a select describes at most 60 non-empty option texts |
| Scanner.ScannedItemsConsistent | content.js:365-366 | scanned items are elements of the page, in increasing document order, each with its control's role |
| Scanner.ScanSpec | content.js:372-497 | one scanned element carries its position, its role and at most 60 options |
| Scanner.FindGroup | content.js:472-479 | the group lookup finds the group with the key, or reports that none has it |
| Scanner.AddMemberSpec | content.js:472-479 | filing a member keeps the existing keys and members, extends only its own group, and creates a group only for a new key |
| Scanner.GroupsWellFormed | content.js:467-481 | group keys are distinct; every member of a group is an item of the group's type carrying its key |
| Scanner.GroupsCover | content.js:467-481 | every radio or checkbox is a member of the group with its key |
| Scanner.ExactlyOneGroup | content.js:467-481 | all radios or checkboxes sharing a key form exactly one group |
| Scanner.FieldIdInjective | content.js:384 | field ids `f_n` are distinct for distinct n |
| Scanner.GroupOptionTexts | content.js:505-518 | a group describes only non-empty option texts, in order |
| Scanner.GroupField | content.js:503-519 | a group field describes at most 80 options |
| Scanner.GroupRuntime | content.js:521-528 | a group's handle keeps every member as an option, uncapped |
| Scanner.SingleFieldsNumbered | content.js:379-497 | fields of their own are numbered `f_1, f_2, ...` in document order |
| Scanner.SingleRuntime | content.js:379-497 | each field of its own has a single-element handle with its id and kind |
| Scanner.GroupFieldsAt | content.js:503-559 | the i-th group becomes field `f_{start+i}` in both the descriptions and the handles |
| Scanner.FieldsAlign | content.js:364-562 | `fields[i]` and `runtime[i]` carry the same id `f_{i+1}` and the same kind |
| Scanner.FieldOrder | content.js:364-562 | fields of their own come first, then the radio groups, then the checkbox groups |
| Scanner.OptionCaps | content.js:383-389 | select descriptions carry at most 60 options; every field carries at most 80 |
| Scanner.HandlesValid | content.js:364-562 | every handle names elements of the page; a group's options are inputs of the group's type |
| Scanner.ScanFields | content.js:364-562 | the scan returns parallel lists: ids `f_1..f_n` in order, matching ids and kinds, valid handles |
| Scanner.BuildFields | content.js:372-559 | the three loops of `scanFields` produce exactly the specified fields and handles |
| Scanner.CollectFields | content.js:379-498 | the element loop numbers fields of their own as they come and files radios and checkboxes by group |
| Scanner.PushGroups | content.js:502-559 | a group loop appends one numbered field and handle per group, continuing the counter |
| Scanner.PushGroup | content.js:503-529 | one turn of a group loop makes the next group field `f_{idSeq}` |
| Dom.AfterClick | content.js:832-836 | a click toggles a checkbox, checks a radio and unchecks the others of its group, does nothing when cancelled, and changes no other element |
| Dom.IndexOfValue | content.js:819 | `select.value = v` selects the first option whose value is v, and nothing when none has it |
| Dom.Page.Click | content.js:834 | a click updates the checked states as `AfterClick` says |
| Dom.Page.SetValue | content.js:776-795 | writing the `value` property of an element |
| Dom.Page.SetSelectValue | content.js:819 | `select.value = v` on a select |
| Dom.Page.SetTextContent | content.js:343 | writing the text of a content-editable element |
| Dom.ValidHandleKept | content.js:286-355 | writes that only change states keep every handle valid |
| Applicator.SplitListSpec | content.js:245-248 | every piece of a typed list is non-empty, trimmed and free of separators |
| Applicator.SplitListJoin | content.js:245-248 | splitting undoes joining choices with "," |
| Applicator.ParseRefillValue | content.js:233-251 | a checkbox group gets a list of texts, every other kind a text |
| Applicator.ParseRefillScalar | content.js:233-251 | for other kinds the value is the trimmed text, empty iff the input is blank |
| Applicator.RefillListRoundTrip | content.js:233-251 | choices joined by "," (not starting with "[") are read back as those choices |
| Applicator.RefillListPlain | content.js:245-248 | a non-blank, unbracketed list text is split on newline, comma and full-width comma |
| Applicator.RefillPreviewRoundTrip | content.js:233-251 | the preview of a list of choices is read back as that list |
| Applicator.PreviewText | content.js:357-362 | missing or null previews as "", a text as itself, an array as its bracketed JSON |
| Applicator.Checked | content.js:825-847 | `safeCheck` clicks only when the checked state differs from the target; then a checkbox, or a radio being checked, reaches the target unless the click is cancelled; elements outside the radio group are untouched |
| Applicator.SafeCheck | content.js:825-847 | the page changes as `Checked` says and the answer is true iff the final state equals the target |
| Applicator.Selected | content.js:797-823 | `selectByText` succeeds iff some option text fuzzily matches; on failure the select is unchanged |
| Applicator.SelectedOption | content.js:797-823 | after a success the selection carries the value of the option `BestOption` picks, and only that select changed |
| Applicator.SelectByText | content.js:797-823 | the method changes the page and answers as `Selected` says |
| Applicator.AnyMatch | content.js:309 | some desired choice fuzzily matches the text |
| Applicator.CheckTargets | content.js:305-313 | the option loop of a checkbox group only changes checked states |
| Applicator.CheckCheckbox | content.js:825-847 | `safeCheck(el, true)` on a checkbox changes that checkbox only |
| Applicator.CheckTargetsEffect | content.js:305-313 | after the loop, every wanted option's element is ticked and every other element is as it was |
| Applicator.CheckTargetsFilled | content.js:305-316 | the loop reports success iff some wanted option's element ends checked |
| Applicator.CheckWanted | content.js:305-313 | the option loop as a method, against `CheckTargets` |
| Applicator.CheckNext | content.js:307-312 | one turn of the option loop |
| Applicator.Fill | content.js:286-355 | `fillOne` only changes states; filled iff no message; a missing handle or a file input is never filled and leaves the page unchanged; a failed non-group fill changes nothing |
| Applicator.FillOne | content.js:286-355 | the method changes the page and answers as `Fill` says |
| Applicator.SetValueWithEvents | content.js:760-774 | the element's value becomes the text, and the write reports success |
| Applicator.FillCheckboxGroup | content.js:295-317 | an empty desired list is not filled and changes nothing; otherwise the group is filled iff some option whose label matches a desired choice ends up checked |
| Applicator.FillCheckboxTicks | content.js:295-317 | the matching options are ticked and no other element changes |
| Applicator.FillRadioGroup | content.js:319-328 | filled iff the value is not blank, some label matches, and the picked radio's click is not cancelled; then the picked radio is checked |
| Applicator.BlankMatchesNothing | content.js:868-874 | a blank desired value matches no label |
| Applicator.RadioTick | content.js:825-847 | checking a radio leaves it checked unless its click is cancelled while it was unchecked |
| Applicator.FillTextReadBack | content.js:337-354 | a text-like field is filled iff the text is non-empty, and then reads back as that text trimmed; an empty text changes nothing |
| Applicator.FillSelectReadBack | content.js:330-335 | a select is filled iff some option text matches; it then reads back as the selected option's trimmed text, which is the picked option when option values are distinct |
| Applicator.CheckedTexts | content.js:256-262 | the checked choices of a group are non-empty texts |
| Applicator.CurrentValue | content.js:253-284 | a checkbox group reads as a list of non-empty texts, every other kind as a text |
| Applicator.ReadRuntimeValue | content.js:253-284 | the method reads what `CurrentValue` specifies |
| Applicator.ReadCheckedTexts | content.js:256-262 | the loop over a checkbox group collects the checked choices |
| Applicator.ReadFirstChecked | content.js:264-269 | the loop over a radio group returns the first checked choice, or "" |
| Applicator.ReadGroupValue | content.js:256-269 | reading a group |
| Applicator.ReadSingleValue | content.js:271-283 | reading a single element |
| JsonRecovery.Span | content.js:933-953 | a span starts with its opening bracket and ends with its closing one |
| JsonRecovery.ExtractLikelyJson | content.js:933-953 | the result is the whole text or a bracketed span no longer than it |
| JsonRecovery.ExtractEmbedded | popup.js:1061-1081 | an object or array embedded in prose without other brackets is extracted exactly |
| JsonRecovery.OtherBracketLater | popup.js:1061-1081 | the bracket that opens first decides between the object and the array span |
| JsonRecovery.NoFences | content.js:911-914 | text without backticks is unchanged by fence removal |
| JsonRecovery.StripFencedBlock | popup.js:1038-1041 | a "```json" block on its own lines is stripped down to its JSON text |
| JsonRecovery.ParseJsonFromAiText | content.js:904-923 | a blank reply is an error; otherwise the value of the first stage that parses (trimmed text, text without fences, likely span); an error when none parses |
| JsonRecovery.ParseDirect | popup.js:1029-1051 | a reply that parses as it stands is taken as it stands |
| JsonRecovery.ParseFencedBlock | popup.js:1029-1051 | a fenced reply yields the JSON inside the fence |
| JsonPointer.EscapeWellEscaped | popup.js:1144-1146 | an escaped segment has no "/" and every "~" is followed by "0" or "1" |
| JsonPointer.UnescapeEscape | popup.js:1144-1150 | unescaping undoes escaping |
| JsonPointer.EscapeInjective | popup.js:1144-1146 | distinct keys get distinct segments |
| JsonPointer.PointerSegments | popup.js:1135-1142 | splitting a built pointer and unescaping gives back its path |
| JsonPointer.LabelOfPointer | popup.js:1135-1142 | the label of a built pointer is its keys and indices joined by " / " |
| JsonPointer.ArrayIndexOfDecimal | popup.js:1165-1166 | a decimal index segment reads back as its index |
| JsonPointer.Put | popup.js:1176-1179 | an object write replaces the first member with the key in place, or appends it |
| JsonPointer.PutGet | popup.js:1181-1183 | after a put the key reads the new value and other keys are unchanged |
| JsonPointer.Store | popup.js:1167-1170 | an array write sets the index, grows the array with nulls when past the end, and keeps the other items |
| JsonPointer.SetNoop | popup.js:1152-1186 | a write that cannot land (a non-index array step, a missing or scalar parent) changes nothing |
| JsonPointer.SetResolve | popup.js:1152-1186 | after a write that lands, the pointer reads the written value |
| JsonPointer.SetSame | popup.js:1152-1186 | writing the value already there changes nothing |
| JsonPointer.SetElsewhere | popup.js:1152-1186 | a write changes only the addressed slot: paths that part from it read what they read before |
| JsonPointer.SetWellFormed | popup.js:1152-1186 | a write keeps object keys distinct |
| JsonPointer.SetByPointerPath | popup.js:1152-1158 | a pointer built from a path writes at that path |
| JsonPointer.Walk | popup.js:1093-1132 | `walk` appends the rows of the terminals below a node, in visiting order |
| JsonPointer.WalkItems | popup.js:1112-1114 | the loop over array items appends their rows in index order |
| JsonPointer.WalkMembers | popup.js:1128-1131 | the loop over object keys appends their rows in property order |
| JsonPointer.FlattenJson | popup.js:1088-1133 | `flattenJson` returns exactly the specified rows |
| JsonPointer.FlattenTerminalRoot | popup.js:1094-1125 | a scalar or empty root is one row at pointer "/" labelled "(root)", "" for an empty container |
| JsonPointer.FlattenCount | popup.js:1088-1133 | one row per scalar leaf and per empty array or object |
| JsonPointer.FlattenRowsResolve | popup.js:1088-1133 | every row's pointer reads back, in the résumé, the terminal it shows |
| JsonPointer.WriteBackRow | popup.js:1152-1186 | writing a row's own scalar value back at its pointer leaves the résumé unchanged |
| Orchestrator.FillByIdKeys | content.js:111-115 | an id is filed iff some fill item carries it |
| Orchestrator.FillByIdLast | content.js:111-115 | a filed id holds the last item that carries it |
| Orchestrator.BuildFillById | content.js:111-115 | the loop files the fills as specified |
| Orchestrator.FieldLabel | content.js:148 | a report line always has a non-empty label |
| Orchestrator.FillField | content.js:121-153 | a field's turn only changes states and reports the field's id and label; filled iff no message |
| Orchestrator.FillFieldSpec | content.js:127-142 | the memory is consulted only when the model's value did not fill; a memory-tagged reason means the memory value filled after the model's value failed; an unfilled line keeps the model's reason and a non-empty message |
| Orchestrator.FillFields | content.js:121-154 | the field loop gives one line per field and only changes states |
| Orchestrator.FillFieldsLines | content.js:146-153 | line k reports field k's id and label |
| Orchestrator.CountFilled | content.js:144 | the filled count is at most the number of lines; it equals it iff all are filled, and is 0 iff none is |
| Orchestrator.RuntimeMapAt | content.js:82-85 | the rebuilt runtime map finds every handle under its own id and maps nothing else |
| Orchestrator.ScanValid | content.js:80-85 | the scanned handles, and the runtime map built from them, name elements of the page |
| Orchestrator.StartFillReport | content.js:73-168 | a failed run leaves the page unchanged; a report has one line per scanned field with ids `f_1..f_n` and counts the filled lines |
| Orchestrator.FillScannedReport | content.js:88-168 | once scanned: zero fields fail; otherwise one line per field, counted |
| Orchestrator.Refill | content.js:174-184 | `handleRefill` only changes states |
| Orchestrator.RefillAnswers | content.js:174-184 | a refill succeeds or fails with a non-empty message; an unknown id changes nothing |
| Orchestrator.RefillThenRead | content.js:174-231 | refilling a text-like field with non-blank text succeeds, and `getFieldValue` then answers that text trimmed |
| Orchestrator.SnapshotOf | content.js:191-221 | the snapshot has at most one item per field |
| Orchestrator.SnapshotValueTrimmed | content.js:205-213 | a remembered value is trimmed and non-empty |
| Orchestrator.SnapshotRememberable | content.js:186-224 | every snapshot item has a non-empty normalised key and a non-blank value, so the memory keeps it |
| Orchestrator.PageSnapshotRememberable | content.js:186-224 | the same for the snapshot of a freshly scanned page |
| Orchestrator.ContentScript.constructor | content.js:11-14 | the script starts idle with an empty runtime map and zero counts |
| Orchestrator.ContentScript.HandleStartFill | content.js:66-172 | when busy: a busy failure with nothing touched; otherwise the run, the runtime map rebuilt from the scan when the résumé is present, `isWorking` false again, and the filled count recorded on a report |
| Orchestrator.ContentScript.RunFill | content.js:73-168 | the `try` block: the specified run, the runtime map and field count set after the résumé check |
| Orchestrator.ContentScript.FillRun | content.js:88-168 | the run after the map is built, with the filled count recorded |
| Orchestrator.ContentScript.InstallRuntimeMap | content.js:82-85 | the map is cleared and refilled from the scanned handles; the flags and counts are unchanged |
| Orchestrator.ContentScript.FillAll | content.js:118-154 | the field loop matches `FillFields` and counts its filled lines |
| Orchestrator.ContentScript.FillNext | content.js:121-154 | one turn of the field loop |
| Orchestrator.ContentScript.FillFieldStep | content.js:122-153 | the loop body as `FillField` specifies |
| Orchestrator.ContentScript.HandleRefill | content.js:174-184 | the handler changes the page and answers as `Refill` says |
| Orchestrator.ContentScript.HandleGetFieldValue | content.js:226-231 | a missing id, an unknown id, or the current value |
| Orchestrator.ContentScript.HandleSnapshotPageMemory | content.js:186-224 | the answer holds the snapshot of the page and its count |
| Orchestrator.ContentScript.SnapshotAll | content.js:191-221 | the snapshot loop over the scanned fields |
| Orchestrator.ContentScript.SnapshotNext | content.js:191-221 | one turn of the snapshot loop |
| Orchestrator.ContentScript.SnapshotStep | content.js:192-221 | the loop body: file fields, unlabelled fields and blank values are skipped |
| Popup.LimitTextForPrompt | popup.js:503-511 | the result is a prefix of the text, at most 60000 characters, the text itself when it is short enough |
| Popup.ParseResumeSpec | popup.js:454-501 | a résumé is parsed iff the trimmed text is non-blank, the model is configured (base URL, key and model name present) and the reply recovers as JSON; what is stored is the trimmed text and that value; failures carry the call's error or a JSON message |
| Popup.ResumePanel.constructor | popup.js:454-501 | the panel starts idle with the stored résumé |
| Popup.ResumePanel.ParseAndStoreResume | popup.js:454-501 | a running parse refuses; otherwise the specified outcome; only a parse replaces the stored résumé and text; the flag ends as it began |

## Left out

- Browser events, focus, scrolling, `sleep(30)` and exceptions thrown by the DOM are left out: they are side effects with nothing to state. The "写入失败" branch of `setValueWithEvents` is therefore not modelled, and the write always succeeds.
- Async and concurrency are left out. Message handlers run one at a time, and the page does not change between messages.
- `isVisible`, `closest`, `querySelectorAll`, `getComputedStyle` and label lookups are left out as computations. Their results are fields of the control record: `visible`, `form`, the candidate label texts, and the option texts and values.
- `toLowerCase` is modelled on ASCII only. Other characters pass through unchanged, and the key filter then drops every non-CJK character.
- String lengths count code points rather than UTF-16 units. This matters only for characters outside the Basic Multilingual Plane.
- JSON numbers are integers. `String(x)` of a fractional or exponent number is not modelled.
- Object member order is insertion order. JavaScript puts integer-like keys first. This affects `flattenJson` row order, and the order of a memory store whose normalised keys are all digits.
- JsonPointer.ArrayIndex: blank text reads as index 0 and decimal digits with white space around them read as their value, as with `Number(key)`. Other forms that `Number` accepts ("0x10", "1e2", "+7", "1.0", "-0") are rejected by the model. The key "__proto__" is not treated specially.
- Array holes: `Store` fills them with null, which is what `JSON.stringify` would show.
- JsonPointer.SetByPointerPath: the top-level member with the empty key has the pointer "/", which `setByJsonPointer` treats as the root and ignores. An edited value of that row is therefore never written, and the lemma excludes the path `[""]`. `WriteBackRow` still holds for that row, since writing nothing leaves the résumé unchanged.
- A stored value that is not an object is held only as `String(value || "")` (`Scalar`). That text is all `buildMemoryIndex` reads, and it is empty exactly when `deleteFieldMemory` finds the value falsy; its original type is not kept.
- MemoryStore.UpsertFieldMemoryBulk: the order among entries with equal `updatedAt` (the sort is stable) is not stated.
- Radios or checkboxes with no name and no id get the key `type:(no-name)`. That is also the key of an input literally named "(no-name)", so the two share one group, as in the source. `SameKey` states that this is the only collision; the model keeps it.
- A blank aria-label or placeholder hides the name in `getFieldLabel`, as in the source. `FieldLabelNonEmpty` requires both to be empty.
- A content-editable element's text is written through `textContent` and read back trimmed. Markup inside it is not modelled.
- Applicator.SetValueWithEvents: the native value-setter trick is a plain property write.
- `chrome.storage`, `chrome.tabs` and `chrome.runtime` messaging are left out. Stored values are parameters and results.
- The `ping` and `getStatus` messages are left out. So are `sendLog`/`sendStats` and the startFill guard on the tab's URL.
- `buildResumeParsePrompt` and `buildFillPrompt` are left out, because the prompt text is opaque to the model. `callAI` and background.js are the `ask` parameter or the reply passed in.
- The side panel's UI is left out: rendering, modals, tabs, logs, the save handler, and the `isFilling` flag of its fill button.
- PDF extraction through pdf.js is left out (a foreign library).
- `setByJsonPointer` is modelled on values (`SetPath` returns the new résumé) rather than by updating the object in place. Aliasing between the résumé and other references is not captured.
