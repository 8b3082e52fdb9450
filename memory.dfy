/**
 * The field memory as the content script reads it: key normalisation, the
 * index built from the stored entries, and the lookup of a field in it.
 */
module Memory {
  import opened Wrappers
  import opened Strings
  import opened Dom
  import Sorting
  import Fuzzy

  /** Characters a memory key keeps: a-z, 0-9 and the CJK block U+4E00..U+9FFF. */
  predicate IsKeyChar(c: char) {
    'a' <= c <= 'z' || '0' <= c <= '9' || '\U{4E00}' <= c <= '\U{9FFF}'
  }

  predicate NotSpace(c: char) {
    !IsSpace(c)
  }

  /** `normalizeMemoryKey`: lower-case, drop white space, drop every character
      that is not a key character. */
  function NormalizeMemoryKey(text: string): string {
    Filter(Filter(Lower(text), NotSpace), IsKeyChar)
  }

  /** A normalised key holds only key characters and is no longer than the text. */
  lemma NormalizeMemoryKeySpec(text: string)
    ensures var r := NormalizeMemoryKey(text);
      && |r| <= |text|
      && forall i :: 0 <= i < |r| ==> IsKeyChar(r[i])
  {
    FilterSpec(Lower(text), NotSpace);
    FilterSpec(Filter(Lower(text), NotSpace), IsKeyChar);
  }

  /** A string made of key characters is its own normalisation. */
  lemma NormalizeKeyChars(s: string)
    requires forall i :: 0 <= i < |s| ==> IsKeyChar(s[i])
    ensures NormalizeMemoryKey(s) == s
  {
    assert Lower(s) == s;
    FilterAll(s, NotSpace);
    FilterAll(s, IsKeyChar);
  }

  /** Normalisation is idempotent. */
  lemma NormalizeMemoryKeyIdempotent(text: string)
    ensures NormalizeMemoryKey(NormalizeMemoryKey(text)) == NormalizeMemoryKey(text)
  {
    NormalizeMemoryKeySpec(text);
    NormalizeKeyChars(NormalizeMemoryKey(text));
  }

  /** A normalised key has no white space, so trimming leaves it unchanged. */
  lemma NormalizedKeyTrimmed(text: string)
    ensures Trim(NormalizeMemoryKey(text)) == NormalizeMemoryKey(text)
  {
    NormalizeMemoryKeySpec(text);
    TrimOfTrimmed(NormalizeMemoryKey(text));
  }

  /* ---------- The stored memory ---------- */

  /** A stored value: an entry object (a missing label is "", a missing
      `updatedAt` is 0) or a bare value held as `String(value || "")`, so a
      falsy value such as 0, false or null is held as "". */
  datatype Stored =
    | Entry(labelText: string, value: string, updatedAt: int)
    | Scalar(text: string)

  /** One property of the stored memory object. */
  datatype Slot = Slot(key: string, stored: Stored)

  /** The memory object, its properties in order. */
  type Store = seq<Slot>

  predicate DistinctKeys(m: Store) {
    forall i, j :: 0 <= i < j < |m| ==> m[i].key != m[j].key
  }

  function StoredValue(s: Stored): string {
    match s
    case Entry(_, value, _) => value
    case Scalar(text) => text
  }

  /** A memory record as the index hands it out. */
  datatype MemoryItem = MemoryItem(key: string, labelText: string, value: string)

  /** A property is indexed when its normalised key and its trimmed value are
      both non-empty. */
  predicate Indexed(s: Slot) {
    NormalizeMemoryKey(s.key) != [] && Trim(StoredValue(s.stored)) != []
  }

  function ItemOf(s: Slot): MemoryItem {
    var labelText := if s.stored.Entry? && s.stored.labelText != [] then s.stored.labelText else s.key;
    MemoryItem(NormalizeMemoryKey(s.key), labelText, StoredValue(s.stored))
  }

  /** The exact-key map over the first properties of `m`. */
  function ExactIndex(m: Store): map<string, MemoryItem> {
    if m == [] then map[]
    else
      var prev := ExactIndex(m[..|m| - 1]);
      var s := m[|m| - 1];
      if Indexed(s) then prev[ItemOf(s).key := ItemOf(s)] else prev
  }

  /** The indexed items whose key is longer than 3, in store order. */
  function LongItems(m: Store): seq<MemoryItem> {
    Picked(m, IsLong, ItemOf)
  }

  /** Property `s` is indexed under a key longer than 3. */
  predicate IsLong(s: Slot) {
    Indexed(s) && |ItemOf(s).key| > 3
  }

  /** `f` of the elements of `xs` that `keep` accepts, in order. */
  function Picked<T, U>(xs: seq<T>, keep: T -> bool, f: T -> U): seq<U> {
    if xs == [] then []
    else Picked(xs[..|xs| - 1], keep, f) + (if keep(xs[|xs| - 1]) then [f(xs[|xs| - 1])] else [])
  }

  lemma {:induction false} PickedSpec<T, U>(xs: seq<T>, keep: T -> bool, f: T -> U, y: U)
    ensures y in Picked(xs, keep, f) <==> exists i :: 0 <= i < |xs| && keep(xs[i]) && y == f(xs[i])
  {
    if xs != [] {
      var n := |xs| - 1;
      var p := xs[..n];
      PickedSpec(p, keep, f, y);
      if i :| 0 <= i < |p| && keep(p[i]) && y == f(p[i]) {
        assert xs[i] == p[i];
      }
      if i :| 0 <= i < |xs| && keep(xs[i]) && y == f(xs[i]) {
        if i < n {
          assert xs[i] == p[i];
        }
      }
    }
  }

  function KeyLength(it: MemoryItem): int {
    |it.key|
  }

  datatype MemoryIndex = MemoryIndex(exact: map<string, MemoryItem>, longKeys: seq<MemoryItem>)

  /** `buildMemoryIndex`: the exact map, and the long keys sorted longest first. */
  method BuildMemoryIndex(memory: Store) returns (index: MemoryIndex)
    ensures index.exact == ExactIndex(memory)
    ensures index.longKeys == Sorting.SortDesc(LongItems(memory), KeyLength)
  {
    var exact: map<string, MemoryItem> := map[];
    var longKeys: seq<MemoryItem> := [];
    for i := 0 to |memory|
      invariant exact == ExactIndex(memory[..i])
      invariant longKeys == LongItems(memory[..i])
    {
      assert memory[..i + 1][..i] == memory[..i];
      var key := NormalizeMemoryKey(memory[i].key);
      if key == [] {
        continue;
      }
      var value := Trim(StoredValue(memory[i].stored));
      if value == [] {
        continue;
      }
      var item := ItemOf(memory[i]);
      exact := exact[key := item];
      if |key| > 3 {
        longKeys := longKeys + [item];
      }
    }
    assert memory[..|memory|] == memory;
    index := MemoryIndex(exact, Sorting.SortDesc(longKeys, KeyLength));
  }

  /** Property `s` puts key `k` into the exact map. */
  predicate Writes(s: Slot, k: string) {
    Indexed(s) && ItemOf(s).key == k
  }

  /** A key is in the exact map iff some indexed property normalises to it. */
  lemma {:induction false} ExactIndexKeys(m: Store, k: string)
    ensures k in ExactIndex(m) <==> exists i :: 0 <= i < |m| && Writes(m[i], k)
  {
    if m != [] {
      var p, s := m[..|m| - 1], m[|m| - 1];
      ExactIndexKeys(p, k);
      assert ExactIndex(m) == if Indexed(s) then ExactIndex(p)[ItemOf(s).key := ItemOf(s)] else ExactIndex(p);
      assert forall i :: 0 <= i < |p| ==> m[i] == p[i];
      if Writes(s, k) {
        assert k in ExactIndex(m);
      } else {
        assert k in ExactIndex(m) <==> k in ExactIndex(p);
        assert (exists i :: 0 <= i < |m| && Writes(m[i], k)) <==> (exists i :: 0 <= i < |p| && Writes(p[i], k));
      }
    }
  }

  /** The last property that writes a key decides the item it maps to. */
  lemma {:induction false} ExactIndexLast(m: Store, k: string, i: nat)
    requires i < |m| && Writes(m[i], k)
    requires forall j :: i < j < |m| ==> !Writes(m[j], k)
    ensures k in ExactIndex(m) && ExactIndex(m)[k] == ItemOf(m[i])
  {
    var p := m[..|m| - 1];
    if i < |m| - 1 {
      assert p[i] == m[i];
      assert forall j :: i < j < |p| ==> p[j] == m[j];
      ExactIndexLast(p, k, i);
    }
  }

  /** Every key of the exact map comes with an indexed property whose item it holds. */
  lemma ExactIndexSource(m: Store, k: string)
    requires k in ExactIndex(m)
    ensures exists i :: 0 <= i < |m| && Indexed(m[i]) && ExactIndex(m)[k] == ItemOf(m[i])
  {
    ExactIndexKeys(m, k);
    var i :| 0 <= i < |m| && Writes(m[i], k);
    LastWriter(m, k, i);
  }

  lemma {:induction false} LastWriter(m: Store, k: string, i: nat)
    requires i < |m| && Writes(m[i], k)
    ensures k in ExactIndex(m)
    ensures exists l :: i <= l < |m| && Writes(m[l], k) && ExactIndex(m)[k] == ItemOf(m[l])
    decreases |m| - i
  {
    if forall j :: i < j < |m| ==> !Writes(m[j], k) {
      ExactIndexLast(m, k, i);
    } else {
      var j :| i < j < |m| && Writes(m[j], k);
      LastWriter(m, k, j);
    }
  }

  /** The long keys are exactly the indexed items with keys longer than 3. */
  lemma LongItemsSpec(m: Store, it: MemoryItem)
    ensures it in LongItems(m) <==>
      exists i :: 0 <= i < |m| && Indexed(m[i]) && |ItemOf(m[i]).key| > 3 && it == ItemOf(m[i])
  {
    PickedSpec(m, IsLong, ItemOf, it);
  }

  /** What the index holds comes from indexed properties only, and its long
      keys are longer than 3 and ordered longest first. */
  lemma BuiltIndexSpec(m: Store)
    ensures forall k :: k in ExactIndex(m) ==>
      exists i :: 0 <= i < |m| && Indexed(m[i]) && ExactIndex(m)[k] == ItemOf(m[i])
    ensures var sorted := Sorting.SortDesc(LongItems(m), KeyLength);
      && Sorting.SortedDesc(sorted, KeyLength)
      && forall j :: 0 <= j < |sorted| ==>
           |sorted[j].key| > 3 && exists i :: 0 <= i < |m| && Indexed(m[i]) && sorted[j] == ItemOf(m[i])
  {
    forall k | k in ExactIndex(m)
      ensures exists i :: 0 <= i < |m| && Indexed(m[i]) && ExactIndex(m)[k] == ItemOf(m[i])
    {
      ExactIndexSource(m, k);
    }
    var sorted := Sorting.SortDesc(LongItems(m), KeyLength);
    Sorting.SortDescSorted(LongItems(m), KeyLength);
    forall j | 0 <= j < |sorted|
      ensures |sorted[j].key| > 3 && exists i :: 0 <= i < |m| && Indexed(m[i]) && sorted[j] == ItemOf(m[i])
    {
      assert sorted[j] in multiset(sorted);
      assert sorted[j] in LongItems(m);
      LongItemsSpec(m, sorted[j]);
    }
  }

  /* ---------- Lookup ---------- */

  /** The text a field is looked up by: its label, else its name, else its
      placeholder. */
  function QueryText(field: FieldDescriptor): string {
    if field.labelText != [] then field.labelText
    else if field.name != [] then field.name
    else field.placeholder
  }

  /** A stored key and a query key are related when the stored key is
      non-empty and one contains the other. */
  predicate Related(key: string, query: string) {
    key != [] && (Contains(query, key) || Contains(key, query))
  }

  /** The item `findMemoryForField` returns for a field: the exact hit on the
      normalised query key, else, for a query key longer than 3, the first
      related long key, longest first. */
  function MemoryLookup(field: FieldDescriptor, index: MemoryIndex): Option<MemoryItem> {
    var q := NormalizeMemoryKey(QueryText(field));
    if q == [] then None
    else if q in index.exact then Some(index.exact[q])
    else if |q| <= 3 then None
    else
      var k := Fuzzy.FirstWhere(index.longKeys, (it: MemoryItem) => Related(it.key, q));
      if k.Some? then Some(index.longKeys[k.value]) else None
  }

  /** `findMemoryForField`: an exact hit on the normalised query key first;
      then, for query keys longer than 3, the first long key (longest first)
      related to it. */
  method FindMemoryForField(field: FieldDescriptor, index: MemoryIndex) returns (hit: Option<MemoryItem>)
    ensures var q := NormalizeMemoryKey(QueryText(field));
      && (q == [] ==> hit == None)
      && (q != [] && q in index.exact ==> hit == Some(index.exact[q]))
      && (q !in index.exact && |q| <= 3 ==> hit == None)
      && (q !in index.exact && |q| > 3 && hit.Some? ==>
            exists k :: 0 <= k < |index.longKeys| && hit.value == index.longKeys[k]
              && Related(index.longKeys[k].key, q)
              && forall j :: 0 <= j < k ==> !Related(index.longKeys[j].key, q))
      && (q !in index.exact && |q| > 3 && hit.None? ==>
            forall j :: 0 <= j < |index.longKeys| ==> !Related(index.longKeys[j].key, q))
    ensures hit == MemoryLookup(field, index)
  {
    var fieldKey := NormalizeMemoryKey(QueryText(field));
    if fieldKey == [] {
      return None;
    }
    if fieldKey in index.exact {
      return Some(index.exact[fieldKey]);
    }
    if |fieldKey| <= 3 {
      return None;
    }
    for k := 0 to |index.longKeys|
      invariant forall j :: 0 <= j < k ==> !Related(index.longKeys[j].key, fieldKey)
    {
      var item := index.longKeys[k];
      if item.key == [] {
        continue;
      }
      if Contains(fieldKey, item.key) || Contains(item.key, fieldKey) {
        return Some(item);
      }
    }
    return None;
  }
}
