/**
 * `scanFields`: which part of the page is scanned, which controls become
 * fields, and how radio buttons and checkboxes are gathered into groups. The
 * result is two parallel sequences: the field descriptions sent to the model
 * and the runtime handles used to fill the fields, both numbered `f_1`,
 * `f_2`, ... in the order the fields were found.
 */
module Scanner {
  import opened Wrappers
  import opened Strings
  import opened Dom
  import opened Labels
  import Sorting

  /** A select describes at most this many options. */
  const MaxSelectOptions: nat := 60

  /** A radio or checkbox group describes at most this many options. */
  const MaxGroupOptions: nat := 80

  /** Input types that never become a field. */
  const ExcludedTypes: seq<string> := ["hidden", "submit", "button", "reset", "image", "range", "color"]

  /** The first `n` elements of `s` (`slice(0, n)`). */
  function Cap<T>(s: seq<T>, n: nat): (r: seq<T>)
    ensures |r| <= n && |r| <= |s| && r == s[..|r|]
    ensures |s| <= n ==> r == s
  {
    if |s| <= n then s else s[..n]
  }

  /* ---------- The part of the page that is scanned ---------- */

  datatype Root = Document | FormRoot(form: nat)

  /** The selector `input, textarea, select, [contenteditable="true"],
      [contenteditable=""]`. */
  predicate MatchesSelector(c: Control) {
    c.tag == InputTag || c.tag == TextareaTag || c.tag == SelectTag || IsContentEditable(c)
  }

  /** `collectControls` keeps the visible matching elements inside the root. */
  predicate Collected(c: Control, root: Root) {
    c.visible && MatchesSelector(c) && (root.FormRoot? ==> c.form == Some(root.form))
  }

  /** `collectControls(root)`: the positions of the collected elements, in
      document order. */
  function CollectControls(els: seq<Element>, root: Root): (r: seq<nat>)
    ensures forall k :: 0 <= k < |r| ==> r[k] < |els| && Collected(els[r[k]].control, root)
    ensures forall k, l :: 0 <= k < l < |r| ==> r[k] < r[l]
    ensures forall j :: 0 <= j < |els| && Collected(els[j].control, root) ==> j in r
  {
    if els == [] then []
    else
      var n := |els| - 1;
      var prev := CollectControls(els[..n], root);
      assert forall j :: 0 <= j < n ==> els[..n][j] == els[j];
      if Collected(els[n].control, root) then prev + [n] else prev
  }

  /** `countControls(form)`. */
  function CountControls(els: seq<Element>, f: nat): nat {
    |CollectControls(els, FormRoot(f))|
  }

  /** The ranking key of a form: its number of controls. */
  function CountKey(els: seq<Element>): nat -> int {
    (f: nat) => CountControls(els, f)
  }

  /** The visible forms, in document order. */
  function VisibleForms(forms: seq<Form>): (r: seq<nat>)
    ensures forall k :: 0 <= k < |r| ==> r[k] < |forms| && forms[r[k]].visible
    ensures forall k, l :: 0 <= k < l < |r| ==> r[k] < r[l]
    ensures forall g :: 0 <= g < |forms| && forms[g].visible ==> g in r
  {
    if forms == [] then []
    else
      var n := |forms| - 1;
      var prev := VisibleForms(forms[..n]);
      assert forall g :: 0 <= g < n ==> forms[..n][g] == forms[g];
      if forms[n].visible then prev + [n] else prev
  }

  /** `pickLikelyFormRoot`: the visible forms ranked by their number of
      controls, most first (a stable sort); the first one is the root when it
      has at least two controls, otherwise the whole document is. */
  function PickLikelyFormRoot(els: seq<Element>, forms: seq<Form>): Root {
    if VisibleForms(forms) == [] then Document
    else
      var best := RankedFirstForm(els, forms);
      if CountControls(els, best) >= 2 then FormRoot(best) else Document
  }

  /** The form ranked first: `ranked[0]`. */
  function RankedFirstForm(els: seq<Element>, forms: seq<Form>): nat
    requires VisibleForms(forms) != []
  {
    Sorting.SortDesc(VisibleForms(forms), CountKey(els))[0]
  }

  /** The form ranked first is the earliest visible form with the most
      controls. */
  lemma RankedFirst(els: seq<Element>, forms: seq<Form>)
    requires VisibleForms(forms) != []
    ensures RankedFirstForm(els, forms) < |forms| && forms[RankedFirstForm(els, forms)].visible
    ensures forall g :: 0 <= g < |forms| && forms[g].visible ==>
              CountControls(els, g) <= CountControls(els, RankedFirstForm(els, forms))
    ensures forall g :: 0 <= g < RankedFirstForm(els, forms) && forms[g].visible ==>
              CountControls(els, g) < CountControls(els, RankedFirstForm(els, forms))
  {
    var cands := VisibleForms(forms);
    var key := CountKey(els);
    assert Sorting.SortDesc(cands, key)[0] in multiset(Sorting.SortDesc(cands, key));
    RankedMax(cands, key);
    RankedEarliest(cands, key);
  }

  /** The first element of a sorted sequence has the largest key. */
  lemma RankedMax(s: seq<nat>, key: nat -> int)
    requires s != []
    ensures forall x :: x in s ==> key(x) <= key(Sorting.SortDesc(s, key)[0])
  {
    var ranked := Sorting.SortDesc(s, key);
    Sorting.SortDescSorted(s, key);
    forall x | x in s ensures key(x) <= key(ranked[0]) {
      assert x in multiset(ranked);
      var p :| 0 <= p < |ranked| && ranked[p] == x;
    }
  }

  /** In an increasing sequence, every element smaller than the one ranked
      first has a smaller key: the stable sort keeps the earliest of the
      largest. */
  lemma RankedEarliest(s: seq<nat>, key: nat -> int)
    requires s != []
    requires forall k, l :: 0 <= k < l < |s| ==> s[k] < s[l]
    ensures forall x :: x in s && x < Sorting.SortDesc(s, key)[0] ==> key(x) < key(Sorting.SortDesc(s, key)[0])
  {
    RankedMax(s, key);
    var i := FirstOfBestKey(s, key);
    EarlierSmaller(s, key, i);
  }

  /** The element ranked first is the first element with its key. */
  lemma FirstOfBestKey(s: seq<nat>, key: nat -> int) returns (i: nat)
    requires s != []
    ensures i < |s| && s[i] == Sorting.SortDesc(s, key)[0]
    ensures forall j :: 0 <= j < i ==> key(s[j]) != key(s[i])
  {
    var ranked := Sorting.SortDesc(s, key);
    var k := key(ranked[0]);
    Sorting.WithKeyHead(ranked, key, 0);
    Sorting.SortDescStable(s, key, k);
    Sorting.WithKeyFirst(s, key, k);
    i :| 0 <= i < |s| && s[i] == ranked[0] && key(s[i]) == k
         && forall j :: 0 <= j < i ==> key(s[j]) != k;
  }

  /** In an increasing sequence whose element `i` has the largest key and is
      the first with it, every smaller element has a smaller key. */
  lemma EarlierSmaller(s: seq<nat>, key: nat -> int, i: nat)
    requires i < |s| && forall k, l :: 0 <= k < l < |s| ==> s[k] < s[l]
    requires forall x :: x in s ==> key(x) <= key(s[i])
    requires forall j :: 0 <= j < i ==> key(s[j]) != key(s[i])
    ensures forall x :: x in s && x < s[i] ==> key(x) < key(s[i])
  {
    forall x | x in s && x < s[i] ensures key(x) < key(s[i]) {
      var j :| 0 <= j < |s| && s[j] == x;
      assert j < i;
    }
  }

  /** The root is the earliest visible form with the most controls, provided
      it has at least two; otherwise it is the document. */
  lemma PickLikelyFormRootSpec(els: seq<Element>, forms: seq<Form>)
    ensures var r := PickLikelyFormRoot(els, forms);
      && (r.FormRoot? ==>
            && r.form < |forms| && forms[r.form].visible && CountControls(els, r.form) >= 2
            && (forall g :: 0 <= g < |forms| && forms[g].visible ==>
                  CountControls(els, g) <= CountControls(els, r.form))
            && (forall g :: 0 <= g < r.form && forms[g].visible ==>
                  CountControls(els, g) < CountControls(els, r.form)))
      && (r == Document <==> forall g :: 0 <= g < |forms| && forms[g].visible ==> CountControls(els, g) < 2)
  {
    if VisibleForms(forms) != [] {
      RankedFirst(els, forms);
    }
  }

  /* ---------- What an element becomes ---------- */

  /** What the scanner makes of a collected element: nothing, a field of its
      own, or a member of the radio (`radio`) or checkbox group `key`. */
  datatype Role = NoField | OneField(kind: FieldKind) | InGroup(radio: bool, key: string, name: string)

  /** `isFillableElement`. */
  predicate Fillable(c: Control) {
    !c.disabled && c.ariaDisabled != "true"
  }

  /** The name a radio or checkbox is grouped by: its name, else its id. */
  function GroupName(c: Control): string {
    if c.name != [] then c.name else c.id
  }

  /** The group key `type:name`, "(no-name)" standing for a missing name. */
  function GroupKey(inputType: string, name: string): string {
    inputType + ":" + (if name != [] then name else "(no-name)")
  }

  /** The branches of the scanning loop, in the order they are tried: selects,
      textareas, content-editable elements, then inputs by type. */
  function RoleOf(c: Control): Role {
    if !Fillable(c) then NoField
    else if c.tag == SelectTag then OneField(Select)
    else if c.tag == TextareaTag then OneField(Textarea)
    else if IsContentEditable(c) then OneField(ContentEditable)
    else if c.tag == InputTag then
      var t := InputType(c);
      if t in ExcludedTypes then NoField
      else if t == "file" then OneField(File)
      else if t == "radio" || t == "checkbox" then InGroup(t == "radio", GroupKey(t, GroupName(c)), GroupName(c))
      else OneField(Text)
    else NoField
  }

  /** Inputs of an excluded type never become a field (unless they are
      content-editable, which is tested first). */
  lemma RoleExcluded(c: Control)
    requires c.tag == InputTag && !IsContentEditable(c) && InputType(c) in ExcludedTypes
    ensures RoleOf(c) == NoField
  {
  }

  /** A field of its own is never a group kind; a group member is a radio or
      a checkbox input as its group says, and a disabled element is never
      scanned. */
  lemma RoleKinds(c: Control)
    ensures RoleOf(c).OneField? ==> RoleOf(c).kind != RadioGroup && RoleOf(c).kind != CheckboxGroup
    ensures RoleOf(c).InGroup? ==> (if RoleOf(c).radio then IsRadio(c) else IsCheckbox(c))
    ensures !Fillable(c) ==> RoleOf(c) == NoField
  {
  }

  /** A group key starts with the input type. */
  lemma GroupKeyStart(t: string, name: string)
    ensures GroupKey(t, name)[..|t|] == t && GroupKey(t, name)[|t|] == ':'
    ensures GroupKey(t, name)[|t| + 1..] == if name != [] then name else "(no-name)"
  {
  }

  /** What a group member's role is made of. */
  lemma RoleInGroup(c: Control)
    requires RoleOf(c).InGroup?
    ensures InputType(c) == "radio" || InputType(c) == "checkbox"
    ensures RoleOf(c) == InGroup(InputType(c) == "radio", GroupKey(InputType(c), GroupName(c)), GroupName(c))
  {
  }

  /** Two members with the same group key are of the same type, and have the
      same name, except that a missing name and the name "(no-name)" share a
      key. */
  lemma GroupKeyDetermines(a: Control, b: Control)
    requires RoleOf(a).InGroup? && RoleOf(b).InGroup? && RoleOf(a).key == RoleOf(b).key
    ensures RoleOf(a).radio == RoleOf(b).radio
    ensures RoleOf(a).name == RoleOf(b).name
            || {RoleOf(a).name, RoleOf(b).name} == {[], "(no-name)"}
  {
    RoleInGroup(a);
    RoleInGroup(b);
    SameKey(InputType(a), GroupName(a), InputType(b), GroupName(b));
  }

  /** Equal group keys of radios and checkboxes come from the same type and
      from names that agree up to "(no-name)". */
  lemma SameKey(ta: string, na: string, tb: string, nb: string)
    requires ta == "radio" || ta == "checkbox"
    requires tb == "radio" || tb == "checkbox"
    requires GroupKey(ta, na) == GroupKey(tb, nb)
    ensures ta == tb
    ensures na == nb || {na, nb} == {[], "(no-name)"}
  {
    GroupKeyStart(ta, na);
    GroupKeyStart(tb, nb);
    assert ta[0] == GroupKey(ta, na)[0] == tb[0];
  }

  /** The trimmed, non-empty option texts of a select, at most 60. */
  function SelectOptionTexts(c: Control): (r: seq<string>)
    ensures |r| <= MaxSelectOptions
    ensures forall i :: 0 <= i < |r| ==> r[i] != []
  {
    var texts := seq(|c.options|, i requires 0 <= i < |c.options| => Trim(c.options[i].text));
    Cap(NonEmptyTexts(texts), MaxSelectOptions)
  }

  /** The description of a field of its own, before it is numbered. The
      kind is filled in with the description: only a text input has an input
      type and an autocomplete hint, and a select has options but no
      placeholder. */
  function Describe(c: Control, kind: FieldKind): FieldDescriptor {
    FieldDescriptor(
      "", kind,
      if kind == Text then InputType(c) else "",
      GetFieldLabel(c), c.name, c.id,
      if kind == Select then "" else c.placeholder,
      if kind == Text then c.autocomplete else "",
      if kind == Select then SelectOptionTexts(c) else [])
  }

  /** Everything the scanner reads from one collected element: its position,
      its role, its description, its group label, its option label and its
      current value. */
  datatype Scanned = Scanned(
    el: nat, role: Role, descriptor: FieldDescriptor,
    groupLabel: string, optionLabel: string, value: string)

  function Scan(els: seq<Element>, j: nat): Scanned
    requires j < |els|
  {
    var c := els[j].control;
    var role := RoleOf(c);
    Scanned(j, role, Describe(c, if role.OneField? then role.kind else Text),
            GetGroupLabel(c), GetOptionLabel(c), els[j].state.value)
  }

  /** The collected elements of the chosen root, read in document order. */
  function ScannedItems(els: seq<Element>, forms: seq<Form>): (items: seq<Scanned>) {
    var idx := CollectControls(els, PickLikelyFormRoot(els, forms));
    seq(|idx|, k requires 0 <= k < |idx| => Scan(els, idx[k]))
  }

  /** What the scanned items say about the page: every item is an element of
      it with the role its control gives, and a select lists at most 60
      options. */
  ghost predicate Consistent(items: seq<Scanned>, els: seq<Element>) {
    forall k :: 0 <= k < |items| ==>
      && items[k].el < |els|
      && items[k].role == RoleOf(els[items[k].el].control)
      && |items[k].descriptor.options| <= MaxSelectOptions
  }

  lemma ScannedItemsConsistent(els: seq<Element>, forms: seq<Form>)
    ensures Consistent(ScannedItems(els, forms), els)
    ensures forall k, l :: 0 <= k < l < |ScannedItems(els, forms)| ==>
              ScannedItems(els, forms)[k].el < ScannedItems(els, forms)[l].el
  {
    var idx := CollectControls(els, PickLikelyFormRoot(els, forms));
    var items := ScannedItems(els, forms);
    forall k | 0 <= k < |items|
      ensures items[k].el < |els| && items[k].role == RoleOf(els[items[k].el].control)
      ensures |items[k].descriptor.options| <= MaxSelectOptions
    {
      assert items[k] == Scan(els, idx[k]);
      ScanSpec(els, idx[k]);
    }
    forall k, l | 0 <= k < l < |items| ensures items[k].el < items[l].el {
      assert items[k] == Scan(els, idx[k]) && items[l] == Scan(els, idx[l]);
    }
  }

  /** A scanned element carries its index, its control's role, and at most
      `MaxSelectOptions` options. */
  lemma ScanSpec(els: seq<Element>, j: nat)
    requires j < |els|
    ensures Scan(els, j).el == j && Scan(els, j).role == RoleOf(els[j].control)
    ensures |Scan(els, j).descriptor.options| <= MaxSelectOptions
  {
  }

  /* ---------- Groups ---------- */

  /** A radio or checkbox group as the scanner collects it: its key, its
      name, the label of its first member, and its members in order. */
  datatype GroupEntry = GroupEntry(key: string, name: string, labelText: string, members: seq<Scanned>)

  /** The group with key `key`, if there is one (`groupMap.get(key)`). */
  function FindGroup(groups: seq<GroupEntry>, key: string): (r: Option<nat>)
    ensures r.Some? ==> r.value < |groups| && groups[r.value].key == key
    ensures r.None? ==> forall g :: 0 <= g < |groups| ==> groups[g].key != key
  {
    if groups == [] then None
    else if groups[|groups| - 1].key == key then Some(|groups| - 1)
    else FindGroup(groups[..|groups| - 1], key)
  }

  /** Adds a member to the group of its key, creating the group (labelled
      by this member) when the key is new. */
  function AddMember(groups: seq<GroupEntry>, s: Scanned): seq<GroupEntry>
    requires s.role.InGroup?
  {
    match FindGroup(groups, s.role.key)
    case Some(g) => groups[g := groups[g].(members := groups[g].members + [s])]
    case None => groups + [GroupEntry(s.role.key, s.role.name, s.groupLabel, [s])]
  }

  /** Adding a member keeps the existing groups' keys, extends the
      members of the group with the member's key only, and opens a new group
      only for a new key. */
  lemma AddMemberSpec(groups: seq<GroupEntry>, s: Scanned)
    requires s.role.InGroup?
    ensures |groups| <= |AddMember(groups, s)| <= |groups| + 1
    ensures forall g :: 0 <= g < |groups| ==> AddMember(groups, s)[g].key == groups[g].key
    ensures forall g :: 0 <= g < |groups| ==>
              AddMember(groups, s)[g].members == groups[g].members
              || (AddMember(groups, s)[g].members == groups[g].members + [s] && groups[g].key == s.role.key)
    ensures |AddMember(groups, s)| == |groups| + 1 ==>
              && AddMember(groups, s)[|groups|] == GroupEntry(s.role.key, s.role.name, s.groupLabel, [s])
              && forall g :: 0 <= g < |groups| ==> groups[g].key != s.role.key
    ensures exists g :: 0 <= g < |AddMember(groups, s)| && AddMember(groups, s)[g].key == s.role.key
                        && s in AddMember(groups, s)[g].members
  {
    match FindGroup(groups, s.role.key)
    case Some(g0) =>
      assert s in AddMember(groups, s)[g0].members;
    case None =>
      assert s in AddMember(groups, s)[|groups|].members;
  }

  /** The radio groups (`radio`) or checkbox groups of the items, in the
      order their keys first occur. */
  function GroupsOf(items: seq<Scanned>, radio: bool): seq<GroupEntry> {
    if items == [] then []
    else
      var prev := GroupsOf(items[..|items| - 1], radio);
      var s := items[|items| - 1];
      if s.role.InGroup? && s.role.radio == radio then AddMember(prev, s) else prev
  }

  /** Whether the item is a member of a group of the given type. */
  predicate Grouped(s: Scanned, radio: bool) {
    s.role.InGroup? && s.role.radio == radio
  }

  /** No two groups share a key. */
  predicate KeysDistinct(gs: seq<GroupEntry>) {
    forall g, h :: 0 <= g < h < |gs| ==> gs[g].key != gs[h].key
  }

  /** Every group has members, and every member is one of the items, of the
      group's type, carrying the group's key. */
  predicate MembersBelong(gs: seq<GroupEntry>, items: seq<Scanned>, radio: bool) {
    && (forall g :: 0 <= g < |gs| ==> gs[g].members != [])
    && (forall g, m :: 0 <= g < |gs| && m in gs[g].members ==>
          m in items && Grouped(m, radio) && m.role.key == gs[g].key)
  }

  /** Group keys are distinct, every group has members, and every member of
      a group is an item of that type carrying the group's key. */
  lemma GroupsWellFormed(items: seq<Scanned>, radio: bool)
    ensures KeysDistinct(GroupsOf(items, radio))
    ensures MembersBelong(GroupsOf(items, radio), items, radio)
  {
    GroupKeysDistinct(items, radio);
    GroupMembersBelong(items, radio);
  }

  lemma {:induction false} GroupKeysDistinct(items: seq<Scanned>, radio: bool)
    ensures KeysDistinct(GroupsOf(items, radio))
  {
    if items != [] {
      var p := items[..|items| - 1];
      GroupKeysDistinct(p, radio);
      var s := items[|items| - 1];
      if Grouped(s, radio) {
        AddMemberSpec(GroupsOf(p, radio), s);
      }
    }
  }

  lemma {:induction false} GroupMembersBelong(items: seq<Scanned>, radio: bool)
    ensures MembersBelong(GroupsOf(items, radio), items, radio)
  {
    if items != [] {
      var p := items[..|items| - 1];
      var s := items[|items| - 1];
      GroupMembersBelong(p, radio);
      MembersBelongWiden(GroupsOf(p, radio), p, items, radio);
      if Grouped(s, radio) {
        AddMemberBelongs(GroupsOf(p, radio), s, items, radio);
      }
    }
  }

  /** Members of the items so far are members of the items with one more. */
  lemma MembersBelongWiden(gs: seq<GroupEntry>, p: seq<Scanned>, items: seq<Scanned>, radio: bool)
    requires MembersBelong(gs, p, radio)
    requires |p| < |items| && p == items[..|p|]
    ensures MembersBelong(gs, items, radio)
  {
    forall m | m in p ensures m in items {
      var k :| 0 <= k < |p| && p[k] == m;
      assert items[k] == m;
    }
  }

  /** Filing one more item of the type keeps every member where it belongs. */
  lemma AddMemberBelongs(prev: seq<GroupEntry>, s: Scanned, items: seq<Scanned>, radio: bool)
    requires MembersBelong(prev, items, radio)
    requires s in items && Grouped(s, radio)
    ensures MembersBelong(AddMember(prev, s), items, radio)
  {
    var gs := AddMember(prev, s);
    AddMemberSpec(prev, s);
    forall g | 0 <= g < |gs| ensures gs[g].members != [] {
      if g < |prev| {
        assert prev[g].members != [];
      }
    }
    forall g, m | 0 <= g < |gs| && m in gs[g].members
      ensures m in items && Grouped(m, radio) && m.role.key == gs[g].key
    {
      if g == |prev| {
        assert gs[g].members == [s];
      } else if m !in prev[g].members {
        assert gs[g].members == prev[g].members + [s];
        assert m == s;
      }
    }
  }

  /** Every item of the type is a member of the group with its key. */
  predicate Covered(gs: seq<GroupEntry>, items: seq<Scanned>, radio: bool) {
    forall k :: 0 <= k < |items| && Grouped(items[k], radio) ==>
      exists g :: 0 <= g < |gs| && gs[g].key == items[k].role.key && items[k] in gs[g].members
  }

  lemma {:induction false} GroupsCover(items: seq<Scanned>, radio: bool)
    ensures Covered(GroupsOf(items, radio), items, radio)
  {
    if items != [] {
      var n := |items| - 1;
      var p := items[..n];
      GroupsCover(p, radio);
      var prev := GroupsOf(p, radio);
      var gs := GroupsOf(items, radio);
      var s := items[n];
      if Grouped(s, radio) {
        AddMemberSpec(prev, s);
        assert gs == AddMember(prev, s);
      } else {
        assert gs == prev;
      }
      forall k | 0 <= k < |items| && Grouped(items[k], radio)
        ensures exists g :: 0 <= g < |gs| && gs[g].key == items[k].role.key && items[k] in gs[g].members
      {
        if k < n {
          assert p[k] == items[k];
          var g :| 0 <= g < |prev| && prev[g].key == items[k].role.key && items[k] in prev[g].members;
          assert gs[g].key == prev[g].key;
          assert items[k] in gs[g].members;
        }
      }
    }
  }

  /** All the items of one type with one key form exactly one group. */
  lemma ExactlyOneGroup(items: seq<Scanned>, radio: bool, k: nat)
    requires k < |items| && Grouped(items[k], radio)
    ensures exists g :: 0 <= g < |GroupsOf(items, radio)|
              && GroupsOf(items, radio)[g].key == items[k].role.key
              && items[k] in GroupsOf(items, radio)[g].members
              && forall h :: 0 <= h < |GroupsOf(items, radio)| && h != g ==>
                   GroupsOf(items, radio)[h].key != items[k].role.key
  {
    GroupsCover(items, radio);
    GroupsWellFormed(items, radio);
  }

  /* ---------- Numbered fields ---------- */

  /** The id of the `n`-th field: `f_${n}`. */
  function FieldId(n: nat): string {
    "f_" + NatToString(n)
  }

  /** Field ids are distinct. */
  lemma FieldIdInjective(m: nat, n: nat)
    requires FieldId(m) == FieldId(n)
    ensures m == n
  {
    assert NatToString(m) == FieldId(m)[2..];
    assert NatToString(n) == FieldId(n)[2..];
    NatToStringInjective(m, n);
  }

  /** The label an option shows: its label, else its value. */
  function OptionText(s: Scanned): string {
    if s.optionLabel != [] then s.optionLabel else s.value
  }

  /** The option texts a group describes: the non-empty ones, in order. */
  function GroupOptionTexts(members: seq<Scanned>): (r: seq<string>)
    ensures |r| <= |members|
    ensures forall i :: 0 <= i < |r| ==> r[i] != []
  {
    if members == [] then []
    else
      (if OptionText(members[0]) != [] then [OptionText(members[0])] else [])
      + GroupOptionTexts(members[1..])
  }

  /** The description of a group field: at most 80 option texts. */
  function GroupField(fieldId: string, kind: FieldKind, g: GroupEntry): (r: FieldDescriptor)
    ensures |r.options| <= MaxGroupOptions
  {
    FieldDescriptor(fieldId, kind, "", g.labelText, g.name, "", "", "",
                    Cap(GroupOptionTexts(g.members), MaxGroupOptions))
  }

  /** The runtime handle of a group: every member, unfiltered and uncapped. */
  function GroupRuntime(fieldId: string, kind: FieldKind, g: GroupEntry): (r: RuntimeHandle)
    ensures r.Group? && |r.options| == |g.members|
    ensures forall i :: 0 <= i < |r.options| ==> r.options[i].el == g.members[i].el
  {
    Group(fieldId, kind, seq(|g.members|, i requires 0 <= i < |g.members| =>
      RuntimeOption(g.members[i].el, OptionText(g.members[i]), g.members[i].value)))
  }

  /** The fields of their own, numbered from 1 in order. */
  function SingleFields(items: seq<Scanned>): (r: seq<FieldDescriptor>)
  {
    if items == [] then []
    else
      var prev := SingleFields(items[..|items| - 1]);
      var s := items[|items| - 1];
      if s.role.OneField? then prev + [s.descriptor.(fieldId := FieldId(|prev| + 1), kind := s.role.kind)]
      else prev
  }

  /** The fields of their own are numbered from 1 in order. */
  lemma {:induction false} SingleFieldsNumbered(items: seq<Scanned>)
    ensures forall i :: 0 <= i < |SingleFields(items)| ==> SingleFields(items)[i].fieldId == FieldId(i + 1)
  {
    if items != [] {
      SingleFieldsNumbered(items[..|items| - 1]);
    }
  }

  /** Their runtime handles, in the same order. */
  function SingleRuntime(items: seq<Scanned>): (r: seq<RuntimeHandle>)
    ensures |r| == |SingleFields(items)|
    ensures forall i :: 0 <= i < |r| ==>
      && r[i].Single? && r[i].fieldId == SingleFields(items)[i].fieldId
      && r[i].kind == SingleFields(items)[i].kind
  {
    if items == [] then []
    else
      var prev := SingleRuntime(items[..|items| - 1]);
      var s := items[|items| - 1];
      if s.role.OneField? then prev + [Single(FieldId(|prev| + 1), s.role.kind, s.el)]
      else prev
  }

  /** The fields of the groups, numbered from `start`. */
  function GroupFields(groups: seq<GroupEntry>, start: nat, kind: FieldKind): (r: seq<FieldDescriptor>)
    ensures |r| == |groups|
  {
    if groups == [] then []
    else
      var n := |groups| - 1;
      GroupFields(groups[..n], start, kind) + [GroupField(FieldId(start + n), kind, groups[n])]
  }

  /** Their runtime handles, in the same order. */
  function GroupRuntimes(groups: seq<GroupEntry>, start: nat, kind: FieldKind): (r: seq<RuntimeHandle>)
    ensures |r| == |groups|
  {
    if groups == [] then []
    else
      var n := |groups| - 1;
      GroupRuntimes(groups[..n], start, kind) + [GroupRuntime(FieldId(start + n), kind, groups[n])]
  }

  /** The `i`-th group is field `f_{start+i}`, in both lists. */
  lemma {:induction false} GroupFieldsAt(groups: seq<GroupEntry>, start: nat, kind: FieldKind, i: nat)
    requires i < |groups|
    ensures GroupFields(groups, start, kind)[i] == GroupField(FieldId(start + i), kind, groups[i])
    ensures GroupRuntimes(groups, start, kind)[i] == GroupRuntime(FieldId(start + i), kind, groups[i])
  {
    var n := |groups| - 1;
    if i < n {
      GroupFieldsAt(groups[..n], start, kind, i);
    }
  }

  /** All fields: the fields of their own in document order, then the radio
      groups, then the checkbox groups. */
  function AllFields(items: seq<Scanned>): seq<FieldDescriptor> {
    Assembled(SingleFields(items), GroupsOf(items, true), GroupsOf(items, false))
  }

  function AllRuntime(items: seq<Scanned>): seq<RuntimeHandle> {
    AssembledRuntime(SingleRuntime(items), GroupsOf(items, true), GroupsOf(items, false))
  }

  /** The fields of their own, then a field per radio group and per checkbox
      group, numbered on from the fields of their own. */
  function Assembled(singles: seq<FieldDescriptor>, radios: seq<GroupEntry>, checkboxes: seq<GroupEntry>)
    : seq<FieldDescriptor>
  {
    var withRadios := singles + GroupFields(radios, |singles| + 1, RadioGroup);
    withRadios + GroupFields(checkboxes, |withRadios| + 1, CheckboxGroup)
  }

  function AssembledRuntime(singles: seq<RuntimeHandle>, radios: seq<GroupEntry>, checkboxes: seq<GroupEntry>)
    : seq<RuntimeHandle>
  {
    var withRadios := singles + GroupRuntimes(radios, |singles| + 1, RadioGroup);
    withRadios + GroupRuntimes(checkboxes, |withRadios| + 1, CheckboxGroup)
  }

  /** Descriptions and handles correspond one to one: the `i`-th of each is
      field `f_{i+1}` of the same kind. */
  lemma FieldsAlign(items: seq<Scanned>)
    ensures Aligned(AllFields(items), AllRuntime(items), 1, FieldId)
  {
    SinglesAligned(items);
    AssembledAligned(SingleFields(items), SingleRuntime(items), GroupsOf(items, true), GroupsOf(items, false));
  }

  /** Aligned fields of their own stay aligned once the groups follow them. */
  lemma AssembledAligned(singles: seq<FieldDescriptor>, singleRuntime: seq<RuntimeHandle>,
                         radios: seq<GroupEntry>, checkboxes: seq<GroupEntry>)
    requires Aligned(singles, singleRuntime, 1, FieldId)
    ensures Aligned(Assembled(singles, radios, checkboxes), AssembledRuntime(singleRuntime, radios, checkboxes), 1, FieldId)
  {
    GroupsAppendAligned(singles, singleRuntime, radios, RadioGroup);
    GroupsAppendAligned(singles + GroupFields(radios, |singles| + 1, RadioGroup),
                        singleRuntime + GroupRuntimes(radios, |singleRuntime| + 1, RadioGroup),
                        checkboxes, CheckboxGroup);
  }

  /** Fields numbered from `f_1` stay so when a block of groups follows. */
  lemma GroupsAppendAligned(fs: seq<FieldDescriptor>, rs: seq<RuntimeHandle>, groups: seq<GroupEntry>, kind: FieldKind)
    requires Aligned(fs, rs, 1, FieldId)
    ensures Aligned(fs + GroupFields(groups, |fs| + 1, kind), rs + GroupRuntimes(groups, |rs| + 1, kind), 1, FieldId)
  {
    GroupsAligned(groups, |fs| + 1, kind);
    AlignedConcat(fs, rs, GroupFields(groups, |fs| + 1, kind), GroupRuntimes(groups, |fs| + 1, kind), 1, FieldId);
  }

  /** Descriptions and handles from `start` on correspond one to one: the
      `i`-th of each is field `id(start + i)` of the same kind. */
  predicate Aligned(fs: seq<FieldDescriptor>, rs: seq<RuntimeHandle>, start: nat, id: nat -> string) {
    |fs| == |rs|
    && forall i :: 0 <= i < |fs| ==>
         fs[i].fieldId == id(start + i) && rs[i].fieldId == fs[i].fieldId && rs[i].kind == fs[i].kind
  }

  lemma AlignedConcat(f1: seq<FieldDescriptor>, r1: seq<RuntimeHandle>,
                      f2: seq<FieldDescriptor>, r2: seq<RuntimeHandle>, start: nat, id: nat -> string)
    requires Aligned(f1, r1, start, id) && Aligned(f2, r2, start + |f1|, id)
    ensures Aligned(f1 + f2, r1 + r2, start, id)
  {
    var f, r := f1 + f2, r1 + r2;
    forall i | 0 <= i < |f|
      ensures f[i].fieldId == id(start + i) && r[i].fieldId == f[i].fieldId && r[i].kind == f[i].kind
    {
      if i >= |f1| {
        assert f[i] == f2[i - |f1|] && r[i] == r2[i - |f1|];
        assert start + |f1| + (i - |f1|) == start + i;
      }
    }
  }

  /** The group fields and handles are aligned. */
  lemma GroupsAligned(groups: seq<GroupEntry>, start: nat, kind: FieldKind)
    ensures Aligned(GroupFields(groups, start, kind), GroupRuntimes(groups, start, kind), start, FieldId)
  {
    forall i | 0 <= i < |groups|
      ensures GroupFields(groups, start, kind)[i] == GroupField(FieldId(start + i), kind, groups[i])
      ensures GroupRuntimes(groups, start, kind)[i] == GroupRuntime(FieldId(start + i), kind, groups[i])
    {
      GroupFieldsAt(groups, start, kind, i);
    }
  }

  /** The fields of their own and their handles are aligned from `f_1`. */
  lemma SinglesAligned(items: seq<Scanned>)
    ensures Aligned(SingleFields(items), SingleRuntime(items), 1, FieldId)
  {
    var fs, rs := SingleFields(items), SingleRuntime(items);
    SingleFieldsNumbered(items);
    forall i | 0 <= i < |fs| ensures fs[i].fieldId == FieldId(1 + i) {
      assert 1 + i == i + 1;
    }
  }

  /** Fields of their own come first, then the radio groups, then the
      checkbox groups; each block has the kind it should. */
  lemma FieldOrder(items: seq<Scanned>, els: seq<Element>)
    requires Consistent(items, els)
    ensures forall i :: 0 <= i < |SingleFields(items)| ==>
              AllFields(items)[i].kind != RadioGroup && AllFields(items)[i].kind != CheckboxGroup
    ensures forall i :: |SingleFields(items)| <= i < |SingleFields(items)| + |GroupsOf(items, true)| ==>
              AllFields(items)[i].kind == RadioGroup
    ensures forall i :: |SingleFields(items)| + |GroupsOf(items, true)| <= i < |AllFields(items)| ==>
              AllFields(items)[i].kind == CheckboxGroup
  {
    SingleKinds(items, els);
    AssembledKinds(SingleFields(items), GroupsOf(items, true), GroupsOf(items, false));
  }

  /** In an assembled list, the blocks of radio and checkbox groups carry
      their kinds, and nothing before them is a group. */
  lemma AssembledKinds(singles: seq<FieldDescriptor>, radios: seq<GroupEntry>, checkboxes: seq<GroupEntry>)
    requires forall i :: 0 <= i < |singles| ==> singles[i].kind != RadioGroup && singles[i].kind != CheckboxGroup
    ensures forall i :: 0 <= i < |singles| ==>
              Assembled(singles, radios, checkboxes)[i].kind != RadioGroup
              && Assembled(singles, radios, checkboxes)[i].kind != CheckboxGroup
    ensures forall i :: |singles| <= i < |singles| + |radios| ==>
              Assembled(singles, radios, checkboxes)[i].kind == RadioGroup
    ensures forall i :: |singles| + |radios| <= i < |Assembled(singles, radios, checkboxes)| ==>
              Assembled(singles, radios, checkboxes)[i].kind == CheckboxGroup
  {
    var all := Assembled(singles, radios, checkboxes);
    var gf1 := GroupFields(radios, |singles| + 1, RadioGroup);
    var f1 := singles + gf1;
    var gf2 := GroupFields(checkboxes, |f1| + 1, CheckboxGroup);
    assert all == f1 + gf2;
    forall i | 0 <= i < |all|
      ensures i < |singles| ==> all[i] == singles[i]
      ensures |singles| <= i < |f1| ==> all[i].kind == RadioGroup
      ensures |f1| <= i ==> all[i].kind == CheckboxGroup
    {
      if i < |f1| {
        assert all[i] == f1[i];
        if |singles| <= i {
          assert f1[i] == gf1[i - |singles|];
          GroupFieldsAt(radios, |singles| + 1, RadioGroup, i - |singles|);
        }
      } else {
        assert all[i] == gf2[i - |f1|];
        GroupFieldsAt(checkboxes, |f1| + 1, CheckboxGroup, i - |f1|);
      }
    }
  }

  lemma {:induction false} SingleKinds(items: seq<Scanned>, els: seq<Element>)
    requires Consistent(items, els)
    ensures forall i :: 0 <= i < |SingleFields(items)| ==>
      SingleFields(items)[i].kind != RadioGroup && SingleFields(items)[i].kind != CheckboxGroup
  {
    if items != [] {
      var p := items[..|items| - 1];
      assert Consistent(p, els) by {
        assert forall k :: 0 <= k < |p| ==> p[k] == items[k];
      }
      SingleKinds(p, els);
      RoleKinds(els[items[|items| - 1].el].control);
    }
  }

  /** A select describes at most 60 options and a group at most 80. */
  lemma OptionCaps(items: seq<Scanned>, els: seq<Element>)
    requires Consistent(items, els)
    ensures forall i :: 0 <= i < |AllFields(items)| ==> |AllFields(items)[i].options| <= MaxGroupOptions
    ensures forall i :: 0 <= i < |SingleFields(items)| ==> |SingleFields(items)[i].options| <= MaxSelectOptions
  {
    SingleCaps(items, els);
    AssembledCaps(SingleFields(items), GroupsOf(items, true), GroupsOf(items, false));
  }

  /** Group fields describe at most 80 options, so an assembled list whose
      fields of their own describe at most 60 does too. */
  lemma AssembledCaps(singles: seq<FieldDescriptor>, radios: seq<GroupEntry>, checkboxes: seq<GroupEntry>)
    requires forall i :: 0 <= i < |singles| ==> |singles[i].options| <= MaxSelectOptions
    ensures forall i :: 0 <= i < |Assembled(singles, radios, checkboxes)| ==>
              |Assembled(singles, radios, checkboxes)[i].options| <= MaxGroupOptions
  {
    var all := Assembled(singles, radios, checkboxes);
    var gf1 := GroupFields(radios, |singles| + 1, RadioGroup);
    var f1 := singles + gf1;
    var gf2 := GroupFields(checkboxes, |f1| + 1, CheckboxGroup);
    assert all == f1 + gf2;
    forall i | 0 <= i < |all| ensures |all[i].options| <= MaxGroupOptions {
      if i < |singles| {
        assert all[i] == singles[i];
      } else if i < |f1| {
        assert all[i] == gf1[i - |singles|];
        GroupFieldsAt(radios, |singles| + 1, RadioGroup, i - |singles|);
      } else {
        assert all[i] == gf2[i - |f1|];
        GroupFieldsAt(checkboxes, |f1| + 1, CheckboxGroup, i - |f1|);
      }
    }
  }

  lemma {:induction false} SingleCaps(items: seq<Scanned>, els: seq<Element>)
    requires Consistent(items, els)
    ensures forall i :: 0 <= i < |SingleFields(items)| ==> |SingleFields(items)[i].options| <= MaxSelectOptions
  {
    if items != [] {
      var p := items[..|items| - 1];
      assert Consistent(p, els) by {
        assert forall k :: 0 <= k < |p| ==> p[k] == items[k];
      }
      SingleCaps(p, els);
    }
  }

  /** Every handle names elements of the page, and a group's options are
      inputs of the group's type. */
  lemma HandlesValid(items: seq<Scanned>, els: seq<Element>)
    requires Consistent(items, els)
    ensures forall i :: 0 <= i < |AllRuntime(items)| ==> ValidHandle(AllRuntime(items)[i], els)
  {
    SingleHandlesValid(items, els);
    GroupMembersOnPage(items, els, true);
    GroupMembersOnPage(items, els, false);
    AssembledRuntimeValid(SingleRuntime(items), GroupsOf(items, true), GroupsOf(items, false), els);
  }

  lemma {:induction false} SingleHandlesValid(items: seq<Scanned>, els: seq<Element>)
    requires Consistent(items, els)
    ensures forall i :: 0 <= i < |SingleRuntime(items)| ==> ValidHandle(SingleRuntime(items)[i], els)
  {
    if items != [] {
      var p := items[..|items| - 1];
      assert Consistent(p, els) by {
        assert forall k :: 0 <= k < |p| ==> p[k] == items[k];
      }
      SingleHandlesValid(p, els);
    }
  }

  /** The kind of a group field. */
  function GroupKind(radio: bool): FieldKind {
    if radio then RadioGroup else CheckboxGroup
  }

  /** Every member of every group is an input of the page of the groups' type. */
  predicate MembersOnPage(gs: seq<GroupEntry>, radio: bool, els: seq<Element>) {
    forall g, m :: 0 <= g < |gs| && m in gs[g].members ==>
      m.el < |els| && (if radio then IsRadio(els[m.el].control) else IsCheckbox(els[m.el].control))
  }

  lemma GroupMembersOnPage(items: seq<Scanned>, els: seq<Element>, radio: bool)
    requires Consistent(items, els)
    ensures MembersOnPage(GroupsOf(items, radio), radio, els)
  {
    var gs := GroupsOf(items, radio);
    GroupsWellFormed(items, radio);
    forall g, m | 0 <= g < |gs| && m in gs[g].members
      ensures m.el < |els| && (if radio then IsRadio(els[m.el].control) else IsCheckbox(els[m.el].control))
    {
      var k :| 0 <= k < |items| && items[k] == m;
      RoleKinds(els[m.el].control);
    }
  }

  /** The handles of groups whose members are on the page are valid. */
  lemma GroupHandlesValid(gs: seq<GroupEntry>, start: nat, radio: bool, els: seq<Element>)
    requires MembersOnPage(gs, radio, els)
    ensures forall i :: 0 <= i < |GroupRuntimes(gs, start, GroupKind(radio))| ==>
              ValidHandle(GroupRuntimes(gs, start, GroupKind(radio))[i], els)
  {
    var rs := GroupRuntimes(gs, start, GroupKind(radio));
    forall i | 0 <= i < |rs| ensures ValidHandle(rs[i], els) {
      var h := rs[i];
      GroupFieldsAt(gs, start, GroupKind(radio), i);
      forall q | 0 <= q < |h.options|
        ensures h.options[q].el < |els|
        ensures if radio then IsRadio(els[h.options[q].el].control) else IsCheckbox(els[h.options[q].el].control)
      {
        assert h.options[q].el == gs[i].members[q].el;
        assert gs[i].members[q] in gs[i].members;
      }
    }
  }

  /** Valid handles of their own followed by the handles of groups whose
      members are on the page are all valid. */
  lemma AssembledRuntimeValid(singles: seq<RuntimeHandle>, radios: seq<GroupEntry>, checkboxes: seq<GroupEntry>,
                              els: seq<Element>)
    requires forall i :: 0 <= i < |singles| ==> ValidHandle(singles[i], els)
    requires MembersOnPage(radios, true, els) && MembersOnPage(checkboxes, false, els)
    ensures forall i :: 0 <= i < |AssembledRuntime(singles, radios, checkboxes)| ==>
              ValidHandle(AssembledRuntime(singles, radios, checkboxes)[i], els)
  {
    var all := AssembledRuntime(singles, radios, checkboxes);
    var gr1 := GroupRuntimes(radios, |singles| + 1, RadioGroup);
    var r1 := singles + gr1;
    var gr2 := GroupRuntimes(checkboxes, |r1| + 1, CheckboxGroup);
    assert all == r1 + gr2;
    assert GroupKind(true) == RadioGroup && GroupKind(false) == CheckboxGroup;
    GroupHandlesValid(radios, |singles| + 1, true, els);
    GroupHandlesValid(checkboxes, |r1| + 1, false, els);
    forall i | 0 <= i < |all| ensures ValidHandle(all[i], els) {
      if i < |singles| {
        assert all[i] == singles[i];
      } else if i < |r1| {
        assert all[i] == gr1[i - |singles|];
      } else {
        assert all[i] == gr2[i - |r1|];
      }
    }
  }

  /* ---------- The scan ---------- */

  /** `scanFields`: collects the elements of the likely form root, then
      numbers the fields and returns their descriptions and handles. */
  method ScanFields(els: seq<Element>, forms: seq<Form>)
    returns (fields: seq<FieldDescriptor>, runtime: seq<RuntimeHandle>)
    ensures fields == AllFields(ScannedItems(els, forms))
    ensures runtime == AllRuntime(ScannedItems(els, forms))
    ensures |fields| == |runtime|
    ensures forall i :: 0 <= i < |fields| ==>
      && fields[i].fieldId == FieldId(i + 1)
      && runtime[i].fieldId == fields[i].fieldId && runtime[i].kind == fields[i].kind
      && ValidHandle(runtime[i], els)
  {
    var root := PickLikelyFormRoot(els, forms);
    var idx := CollectControls(els, root);
    var items := seq(|idx|, k requires 0 <= k < |idx| => Scan(els, idx[k]));
    fields, runtime := BuildFields(items);
    FieldsAlign(items);
    ScannedItemsConsistent(els, forms);
    HandlesValid(items, els);
  }

  /** The loop of `scanFields` over the read elements, then the two loops
      over the radio and checkbox groups. */
  method BuildFields(items: seq<Scanned>) returns (fields: seq<FieldDescriptor>, runtime: seq<RuntimeHandle>)
    ensures fields == AllFields(items) && runtime == AllRuntime(items)
  {
    var singles, singleRuntime, n0, radios, checkboxes := CollectFields(items);
    var fields1, runtime1, n1 := PushGroups(singles, singleRuntime, n0, radios, RadioGroup);
    var n2;
    fields, runtime, n2 := PushGroups(fields1, runtime1, n1, checkboxes, CheckboxGroup);
  }

  /** The loop of `scanFields` over the read elements: fields of their own
      are numbered as they come, group members are filed by group. */
  method CollectFields(items: seq<Scanned>)
    returns (fields: seq<FieldDescriptor>, runtime: seq<RuntimeHandle>, idSeq: nat,
             radioGroups: seq<GroupEntry>, checkboxGroups: seq<GroupEntry>)
    ensures fields == SingleFields(items) && runtime == SingleRuntime(items)
    ensures idSeq == |fields| == |runtime|
    ensures radioGroups == GroupsOf(items, true) && checkboxGroups == GroupsOf(items, false)
  {
    fields := [];
    runtime := [];
    idSeq := 0;
    radioGroups := [];
    checkboxGroups := [];
    for k := 0 to |items|
      invariant fields == SingleFields(items[..k]) && runtime == SingleRuntime(items[..k])
      invariant idSeq == |fields|
      invariant radioGroups == GroupsOf(items[..k], true)
      invariant checkboxGroups == GroupsOf(items[..k], false)
    {
      assert items[..k + 1][..k] == items[..k];
      var s := items[k];
      match s.role {
        case NoField =>
        case OneField(kind) =>
          idSeq := idSeq + 1;
          var fieldId := FieldId(idSeq);
          fields := fields + [s.descriptor.(fieldId := fieldId, kind := kind)];
          runtime := runtime + [Single(fieldId, kind, s.el)];
        case InGroup(radio, _, _) =>
          if radio {
            radioGroups := AddMember(radioGroups, s);
          } else {
            checkboxGroups := AddMember(checkboxGroups, s);
          }
      }
    }
    assert items[..|items|] == items;
  }

  lemma GroupFieldsSnoc(groups: seq<GroupEntry>, g: nat, start: nat, kind: FieldKind)
    requires g < |groups|
    ensures GroupFields(groups[..g + 1], start, kind)
         == GroupFields(groups[..g], start, kind) + [GroupField(FieldId(start + g), kind, groups[g])]
    ensures GroupRuntimes(groups[..g + 1], start, kind)
         == GroupRuntimes(groups[..g], start, kind) + [GroupRuntime(FieldId(start + g), kind, groups[g])]
  {
    assert groups[..g + 1][..g] == groups[..g];
  }

  /** One of the group loops: each group becomes the next numbered field. */
  method PushGroups(fields0: seq<FieldDescriptor>, runtime0: seq<RuntimeHandle>, idSeq0: nat,
                    groups: seq<GroupEntry>, kind: FieldKind)
    returns (fields: seq<FieldDescriptor>, runtime: seq<RuntimeHandle>, idSeq: nat)
    requires idSeq0 == |fields0| == |runtime0|
    ensures fields == fields0 + GroupFields(groups, idSeq0 + 1, kind)
    ensures runtime == runtime0 + GroupRuntimes(groups, idSeq0 + 1, kind)
    ensures idSeq == |fields| == |runtime|
  {
    var added: seq<FieldDescriptor> := [];
    var handles: seq<RuntimeHandle> := [];
    idSeq := idSeq0;
    for g := 0 to |groups|
      invariant added == GroupFields(groups[..g], idSeq0 + 1, kind)
      invariant handles == GroupRuntimes(groups[..g], idSeq0 + 1, kind)
      invariant idSeq == idSeq0 + g
    {
      idSeq := idSeq + 1;
      added, handles := PushGroup(groups, g, idSeq0 + 1, kind, idSeq, added, handles);
    }
    assert groups[..|groups|] == groups;
    fields := fields0 + added;
    runtime := runtime0 + handles;
  }

  /** One turn of a group loop: the `g`-th group becomes field `f_{idSeq}`. */
  method PushGroup(groups: seq<GroupEntry>, g: nat, start: nat, kind: FieldKind, idSeq: nat,
                   added: seq<FieldDescriptor>, handles: seq<RuntimeHandle>)
    returns (added': seq<FieldDescriptor>, handles': seq<RuntimeHandle>)
    requires g < |groups| && idSeq == start + g
    requires added == GroupFields(groups[..g], start, kind)
    requires handles == GroupRuntimes(groups[..g], start, kind)
    ensures added' == GroupFields(groups[..g + 1], start, kind)
    ensures handles' == GroupRuntimes(groups[..g + 1], start, kind)
  {
    var fieldId := FieldId(idSeq);
    GroupFieldsSnoc(groups, g, start, kind);
    added' := added + [GroupField(fieldId, kind, groups[g])];
    handles' := handles + [GroupRuntime(fieldId, kind, groups[g])];
  }
}
