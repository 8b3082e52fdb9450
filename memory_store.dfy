/**
 * The field memory as the popup maintains it: bulk upsert of remembered
 * field values (capped at 200 properties, the most recently updated kept)
 * and deletion of one key. The store is passed in and returned; reading and
 * writing extension storage is not part of the model.
 */
module MemoryStore {
  import opened Wrappers
  import opened Strings
  import opened Memory
  import Sorting

  /** The most properties the memory keeps. */
  const MaxEntries: nat := 200

  /** One value to remember ("" for a missing property). */
  datatype UpsertItem = UpsertItem(key: string, labelText: string, value: string)

  /** What the loop derives from an item before writing it: the key it is
      stored under, the label stored with it, its raw value, and whether it
      is written at all. */
  datatype Prepared = Prepared(key: string, entryLabel: string, value: string, writable: bool)

  /** The key is the item's key, else its trimmed label, trimmed and
      normalised; the stored label is the trimmed label, else the key; the
      item is written when the key and the trimmed value are non-empty. */
  function Prepare(it: UpsertItem): Prepared {
    var labelText := Trim(it.labelText);
    var key := NormalizeMemoryKey(Trim(if it.key != [] then it.key else labelText));
    Prepared(key, if labelText != [] then labelText else key, it.value, key != [] && Trim(it.value) != [])
  }

  /** An item is written exactly when its normalised key is non-empty and
      its value is not blank; the key is normalised. */
  lemma PrepareSpec(it: UpsertItem)
    ensures var p := Prepare(it);
      && (p.writable <==> p.key != [] && !AllSpace(it.value))
      && p.key == NormalizeMemoryKey(p.key)
      && (forall i :: 0 <= i < |p.key| ==> IsKeyChar(p.key[i]))
      && p.value == it.value
  {
    var labelText := Trim(it.labelText);
    var raw := Trim(if it.key != [] then it.key else labelText);
    NormalizeMemoryKeyIdempotent(raw);
    NormalizeMemoryKeySpec(raw);
    TrimEmptyIffAllSpace(it.value);
  }

  function PrepareAll(items: seq<UpsertItem>): (ps: seq<Prepared>)
    ensures |ps| == |items|
    ensures forall i :: 0 <= i < |items| ==> ps[i] == Prepare(items[i])
  {
    seq(|items|, i requires 0 <= i < |items| => Prepare(items[i]))
  }

  /** The entry an item is stored as, stamped `stamp`. */
  function EntryOf(p: Prepared, stamp: int): Stored {
    Entry(p.entryLabel, p.value, stamp)
  }

  /** `memory[k]`. */
  function Lookup(m: Store, k: string): (r: Option<Stored>)
    ensures r.Some? <==> exists i :: 0 <= i < |m| && m[i].key == k
  {
    if m == [] then None
    else if m[0].key == k then Some(m[0].stored)
    else
      var r := Lookup(m[1..], k);
      assert forall i :: 1 <= i < |m| ==> m[i] == m[1..][i - 1];
      r
  }

  /** `memory[k] = v`: replaces the value of an existing key in place,
      otherwise adds the key at the end. */
  function Put(m: Store, k: string, v: Stored): (r: Store)
    ensures Lookup(r, k) == Some(v)
    ensures forall k' :: k' != k ==> Lookup(r, k') == Lookup(m, k')
    ensures |r| == if Lookup(m, k).Some? then |m| else |m| + 1
  {
    if m == [] then [Slot(k, v)]
    else if m[0].key == k then [Slot(k, v)] + m[1..]
    else [m[0]] + Put(m[1..], k, v)
  }

  /** Writing a key keeps the keys distinct. */
  lemma {:induction false} PutDistinct(m: Store, k: string, v: Stored)
    requires DistinctKeys(m)
    ensures DistinctKeys(Put(m, k, v))
  {
    if m != [] && m[0].key != k {
      var tail := m[1..];
      assert DistinctKeys(tail) by {
        forall i, j | 0 <= i < j < |tail| ensures tail[i].key != tail[j].key {
          assert tail[i] == m[i + 1] && tail[j] == m[j + 1];
        }
      }
      assert Lookup(tail, m[0].key).None? by {
        forall i | 0 <= i < |tail| ensures tail[i].key != m[0].key {
          assert tail[i] == m[i + 1];
        }
      }
      PutDistinct(tail, k, v);
      var rest := Put(tail, k, v);
      assert Lookup(rest, m[0].key).None?;
      ConsDistinct(m[0], rest);
    } else if m != [] {
      var r := Put(m, k, v);
      forall i, j | 0 <= i < j < |r| ensures r[i].key != r[j].key {
        assert r[j] == m[j];
        if i > 0 { assert r[i] == m[i]; }
      }
    }
  }

  /** A slot whose key the rest does not hold, in front of a store with
      distinct keys, keeps the keys distinct. */
  lemma ConsDistinct(s: Slot, rest: Store)
    requires DistinctKeys(rest) && Lookup(rest, s.key).None?
    ensures DistinctKeys([s] + rest)
  {
    var r := [s] + rest;
    forall i, j | 0 <= i < j < |r| ensures r[i].key != r[j].key {
      assert r[j] == rest[j - 1];
      if i > 0 { assert r[i] == rest[i - 1]; }
    }
  }

  /** The number of items that are written. */
  function WritableCount(ps: seq<Prepared>): (r: nat)
    ensures r <= |ps|
  {
    if ps == [] then 0
    else WritableCount(ps[..|ps| - 1]) + (if ps[|ps| - 1].writable then 1 else 0)
  }

  /** The memory after writing the written items in order, the `n`-th one
      stamped `now + n`. */
  function Merge(m: Store, ps: seq<Prepared>, now: int): Store {
    if ps == [] then m
    else
      var prev := Merge(m, ps[..|ps| - 1], now);
      var p := ps[|ps| - 1];
      if p.writable then Put(prev, p.key, EntryOf(p, now + WritableCount(ps[..|ps| - 1])))
      else prev
  }

  /** One more item: the merge and the count extend by that item alone. */
  lemma MergeStep(m: Store, ps: seq<Prepared>, i: nat, now: int)
    requires i < |ps|
    ensures WritableCount(ps[..i + 1]) == WritableCount(ps[..i]) + if ps[i].writable then 1 else 0
    ensures Merge(m, ps[..i + 1], now) ==
              if ps[i].writable then Put(Merge(m, ps[..i], now), ps[i].key, EntryOf(ps[i], now + WritableCount(ps[..i])))
              else Merge(m, ps[..i], now)
  {
    assert ps[..i + 1][..i] == ps[..i];
  }

  /** `Number(v?.updatedAt || 0)`: a bare value counts as never updated. */
  function UpdatedAt(s: Slot): int {
    if s.stored.Entry? then s.stored.updatedAt else 0
  }

  /** `upsertFieldMemoryBulk`: writes the items, then keeps the 200 most
      recently updated properties, most recent first. Each item's key,
      label and writability are derived first (`Prepare`), then the
      prepared items are written. */
  method UpsertFieldMemoryBulk(memory: Store, items: seq<UpsertItem>, now: int)
    returns (next: Store, count: nat)
    ensures count == WritableCount(PrepareAll(items))
    ensures var merged := Merge(memory, PrepareAll(items), now);
      && |next| == (if |merged| <= MaxEntries then |merged| else MaxEntries)
      && multiset(next) <= multiset(merged)
      && Sorting.SortedDesc(next, UpdatedAt)
      && (forall x, y :: x in next && y in multiset(merged) - multiset(next) ==> UpdatedAt(x) >= UpdatedAt(y))
    ensures DistinctKeys(memory) ==> DistinctKeys(next)
  {
    var ps := PrepareAll(items);
    next, count := UpsertPrepared(memory, ps, now);
  }

  /** The write loop and the cap of `upsertFieldMemoryBulk`, on prepared items. */
  method UpsertPrepared(memory: Store, ps: seq<Prepared>, now: int)
    returns (next: Store, count: nat)
    ensures count == WritableCount(ps)
    ensures var merged := Merge(memory, ps, now);
      && |next| == (if |merged| <= MaxEntries then |merged| else MaxEntries)
      && multiset(next) <= multiset(merged)
      && Sorting.SortedDesc(next, UpdatedAt)
      && (forall x, y :: x in next && y in multiset(merged) - multiset(next) ==> UpdatedAt(x) >= UpdatedAt(y))
    ensures DistinctKeys(memory) ==> DistinctKeys(next)
  {
    var mem;
    mem, count := WriteAll(memory, ps, now);
    next := KeepNewest(mem);
  }

  /** The write loop: each written item is put under its key, stamped with
      the number of items written before it. */
  method WriteAll(memory: Store, ps: seq<Prepared>, now: int) returns (mem: Store, count: nat)
    ensures mem == Merge(memory, ps, now)
    ensures count == WritableCount(ps)
    ensures DistinctKeys(memory) ==> DistinctKeys(mem)
  {
    mem := memory;
    count := 0;
    for i := 0 to |ps|
      invariant mem == Merge(memory, ps[..i], now)
      invariant count == WritableCount(ps[..i])
      invariant DistinctKeys(memory) ==> DistinctKeys(mem)
    {
      mem, count := WriteNext(memory, ps, now, i, mem, count);
    }
    assert ps[..|ps|] == ps;
  }

  /** One turn of the write loop: item `i` is put when it is written. */
  method WriteNext(memory: Store, ps: seq<Prepared>, now: int, i: nat, mem: Store, count: nat)
    returns (mem': Store, count': nat)
    requires i < |ps|
    requires mem == Merge(memory, ps[..i], now) && count == WritableCount(ps[..i])
    requires DistinctKeys(memory) ==> DistinctKeys(mem)
    ensures mem' == Merge(memory, ps[..i + 1], now) && count' == WritableCount(ps[..i + 1])
    ensures DistinctKeys(memory) ==> DistinctKeys(mem')
  {
    MergeStep(memory, ps, i, now);
    var p := ps[i];
    if p.writable {
      var entry := EntryOf(p, now + count);
      if DistinctKeys(memory) {
        PutDistinct(mem, p.key, entry);
      }
      mem' := Put(mem, p.key, entry);
      count' := count + 1;
    } else {
      mem', count' := mem, count;
    }
  }

  /** The cap: the `MaxEntries` most recently updated properties, most
      recent first. */
  method KeepNewest(mem: Store) returns (next: Store)
    ensures |next| == (if |mem| <= MaxEntries then |mem| else MaxEntries)
    ensures multiset(next) <= multiset(mem)
    ensures Sorting.SortedDesc(next, UpdatedAt)
    ensures forall x, y :: x in next && y in multiset(mem) - multiset(next) ==> UpdatedAt(x) >= UpdatedAt(y)
    ensures DistinctKeys(mem) ==> DistinctKeys(next)
  {
    var sorted := Sorting.SortDesc(mem, UpdatedAt);
    Sorting.SortDescSorted(mem, UpdatedAt);
    var n := if |sorted| <= MaxEntries then |sorted| else MaxEntries;
    next := sorted[..n];
    KeepLargest(sorted, n);
    if DistinctKeys(mem) {
      DistinctPermutation(mem, sorted);
    }
  }

  /** A prefix of a sequence sorted by `UpdatedAt` is sorted, and holds the
      largest values. */
  lemma KeepLargest(sorted: Store, n: nat)
    requires Sorting.SortedDesc(sorted, UpdatedAt) && n <= |sorted|
    ensures Sorting.SortedDesc(sorted[..n], UpdatedAt)
    ensures multiset(sorted[..n]) <= multiset(sorted)
    ensures forall x, y :: x in sorted[..n] && y in multiset(sorted) - multiset(sorted[..n]) ==>
              UpdatedAt(x) >= UpdatedAt(y)
  {
    SplitMultiset(sorted, n);
    forall x, y | x in sorted[..n] && y in sorted[n..]
      ensures UpdatedAt(x) >= UpdatedAt(y)
    {
      PrefixDominates(sorted, n, x, y);
    }
  }

  /** In a sorted sequence, an element before the cut is at least as recent
      as one after it. */
  lemma PrefixDominates(sorted: Store, n: nat, x: Slot, y: Slot)
    requires Sorting.SortedDesc(sorted, UpdatedAt) && n <= |sorted|
    requires x in sorted[..n] && y in sorted[n..]
    ensures UpdatedAt(x) >= UpdatedAt(y)
  {
    var p :| 0 <= p < n && sorted[..n][p] == x;
    var q :| 0 <= q < |sorted| - n && sorted[n..][q] == y;
    assert sorted[p] == x && sorted[n + q] == y;
  }

  /** What a cut at `n` leaves out is the suffix. */
  lemma SplitMultiset(s: Store, n: nat)
    requires n <= |s|
    ensures multiset(s[..n]) <= multiset(s)
    ensures multiset(s) - multiset(s[..n]) == multiset(s[n..])
  {
    assert s == s[..n] + s[n..];
  }

  /** A permutation of a store with distinct keys, and any prefix of it, has
      distinct keys. */
  lemma DistinctPermutation(m: Store, p: Store)
    requires DistinctKeys(m) && multiset(p) == multiset(m)
    ensures forall n :: 0 <= n <= |p| ==> DistinctKeys(p[..n])
  {
    DistinctCount(m);
    forall i, j | 0 <= i < j < |p| ensures p[i].key != p[j].key {
      TwoCopies(p, i, j);
      assert p[i] in multiset(m) && p[j] in multiset(m);
    }
  }

  /** Equal elements at two positions count twice. */
  lemma TwoCopies(p: Store, i: nat, j: nat)
    requires i < j < |p|
    ensures p[i] == p[j] ==> multiset(p)[p[i]] >= 2
  {
    assert p == p[..i] + [p[i]] + p[i + 1..j] + [p[j]] + p[j + 1..];
  }

  /** In a store with distinct keys every slot occurs once, and slots with
      the same key are the same slot. */
  lemma {:induction false} DistinctCount(m: Store)
    requires DistinctKeys(m)
    ensures forall x :: multiset(m)[x] <= 1
    ensures forall x, y :: x in multiset(m) && y in multiset(m) && x.key == y.key ==> x == y
  {
    if m != [] {
      var q := m[..|m| - 1];
      var last := m[|m| - 1];
      assert DistinctKeys(q);
      DistinctCount(q);
      assert m == q + [last];
      assert forall k :: 0 <= k < |q| ==> q[k].key != last.key;
      assert last !in q;
    }
  }

  /* ---------- Properties of the merge ---------- */

  /** Writing an item `i` stamps it with the number of written items before
      it, so a later written item gets a larger stamp. */
  lemma {:induction false} StampsIncrease(ps: seq<Prepared>, i: nat, j: nat)
    requires i < j <= |ps| && ps[i].writable
    ensures WritableCount(ps[..i]) < WritableCount(ps[..j])
    decreases j
  {
    if j == i + 1 {
      assert ps[..j][..i] == ps[..i];
    } else {
      StampsIncrease(ps, i, j - 1);
      assert ps[..j][..j - 1] == ps[..j - 1];
    }
  }

  /** Item `i` is the last written item with key `k`. */
  predicate LastWriter(ps: seq<Prepared>, k: string, i: nat)
    requires i < |ps|
  {
    ps[i].writable && ps[i].key == k
    && forall j :: i < j < |ps| ==> !(ps[j].writable && ps[j].key == k)
  }

  /** A key no written item carries keeps its old value through the merge. */
  lemma {:induction false} MergeUntouched(m: Store, ps: seq<Prepared>, now: int, k: string)
    requires forall i :: 0 <= i < |ps| ==> !(ps[i].writable && ps[i].key == k)
    ensures Lookup(Merge(m, ps, now), k) == Lookup(m, k)
  {
    if ps != [] {
      var n := |ps| - 1;
      MergeStep(m, ps, n, now);
      assert ps[..n + 1] == ps;
      MergeUntouched(m, ps[..n], now, k);
    }
  }

  /** A later item with the same key overwrites an earlier one: after the
      merge, a key holds the entry of the last written item with that key,
      stamped with the number of written items before it. */
  lemma {:induction false} MergeLastWriter(m: Store, ps: seq<Prepared>, now: int, k: string, i: nat)
    requires i < |ps| && LastWriter(ps, k, i)
    ensures Lookup(Merge(m, ps, now), k) == Some(EntryOf(ps[i], now + WritableCount(ps[..i])))
  {
    var n := |ps| - 1;
    var q := ps[..n];
    if i == n {
      MergeWrites(m, ps, now);
    } else {
      assert q[..i] == ps[..i];
      assert LastWriter(q, k, i);
      MergeLastWriter(m, q, now, k, i);
      MergeOther(m, ps, now, k);
    }
  }

  /** A written last item sets its key. */
  lemma MergeWrites(m: Store, ps: seq<Prepared>, now: int)
    requires ps != [] && ps[|ps| - 1].writable
    ensures Lookup(Merge(m, ps, now), ps[|ps| - 1].key) ==
              Some(EntryOf(ps[|ps| - 1], now + WritableCount(ps[..|ps| - 1])))
  {
  }

  /** A last item that does not write `k` leaves `k`'s value as it was. */
  lemma MergeOther(m: Store, ps: seq<Prepared>, now: int, k: string)
    requires ps != [] && !(ps[|ps| - 1].writable && ps[|ps| - 1].key == k)
    ensures Lookup(Merge(m, ps, now), k) == Lookup(Merge(m, ps[..|ps| - 1], now), k)
  {
  }

  /** The merge adds at most one property per written item. */
  lemma {:induction false} MergeCountBound(m: Store, ps: seq<Prepared>, now: int)
    ensures |Merge(m, ps, now)| <= |m| + WritableCount(ps)
  {
    if ps != [] {
      MergeCountBound(m, ps[..|ps| - 1], now);
    }
  }

  /* ---------- Deletion ---------- */

  /** `!memory[k]` is false: the key holds an entry object or a non-empty value. */
  predicate Present(m: Store, k: string) {
    var v := Lookup(m, k);
    v.Some? && (v.value.Entry? || v.value.text != [])
  }

  function RemoveKey(m: Store, k: string): (r: Store)
    ensures forall s :: s in r <==> s in m && s.key != k
    ensures |r| <= |m|
  {
    if m == [] then []
    else (if m[0].key == k then [] else [m[0]]) + RemoveKey(m[1..], k)
  }

  /** `deleteFieldMemory`: removes the normalised key when it is present. */
  function DeleteFieldMemory(m: Store, key: string): (r: Store)
    ensures var k := NormalizeMemoryKey(key);
      && (!Present(m, k) ==> r == m)
      && (Present(m, k) ==> (forall s :: s in r <==> s in m && s.key != k) && |r| < |m|)
  {
    var k := NormalizeMemoryKey(key);
    if !Present(m, k) then m
    else
      RemoveKeyShrinks(m, k);
      RemoveKey(m, k)
  }

  lemma {:induction false} RemoveKeyShrinks(m: Store, k: string)
    requires Lookup(m, k).Some?
    ensures |RemoveKey(m, k)| < |m|
  {
    if m[0].key != k {
      RemoveKeyShrinks(m[1..], k);
    }
  }
}
