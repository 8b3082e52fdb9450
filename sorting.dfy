/**
 * The stable descending sort the extension applies with comparators of the
 * form `(a, b) => key(b) - key(a)` (Array.prototype.sort is stable).
 */
module Sorting {

  /** Ordered by the key, largest first. */
  ghost predicate SortedDesc<T>(s: seq<T>, key: T -> int) {
    forall i, j :: 0 <= i < j < |s| ==> key(s[i]) >= key(s[j])
  }

  /** The elements of `s` whose key is `k`, in their order in `s`. */
  function WithKey<T>(s: seq<T>, key: T -> int, k: int): (r: seq<T>)
    ensures |r| <= |s|
  {
    if s == [] then []
    else (if key(s[0]) == k then [s[0]] else []) + WithKey(s[1..], key, k)
  }

  /** Places `x` after every element whose key is at least its own. */
  function Insert<T>(x: T, s: seq<T>, key: T -> int): (r: seq<T>)
    ensures |r| == |s| + 1
    ensures multiset(r) == multiset(s) + multiset{x}
  {
    if s == [] then [x]
    else if key(s[0]) < key(x) then [x] + s
    else
      assert s == [s[0]] + s[1..];
      [s[0]] + Insert(x, s[1..], key)
  }

  /** Sorts by key, largest first, keeping the original order among equal keys. */
  function SortDesc<T>(s: seq<T>, key: T -> int): (r: seq<T>)
    ensures |r| == |s|
    ensures multiset(r) == multiset(s)
  {
    if s == [] then []
    else
      assert s == s[..|s| - 1] + [s[|s| - 1]];
      Insert(s[|s| - 1], SortDesc(s[..|s| - 1], key), key)
  }

  lemma {:induction false} InsertSorted<T>(x: T, s: seq<T>, key: T -> int)
    requires SortedDesc(s, key)
    ensures SortedDesc(Insert(x, s, key), key)
  {
    if s == [] || key(s[0]) < key(x) {
    } else {
      InsertSorted(x, s[1..], key);
      var t := Insert(x, s[1..], key);
      assert multiset(t) == multiset(s[1..]) + multiset{x};
      forall j | 0 <= j < |t| ensures key(s[0]) >= key(t[j]) {
        assert t[j] in multiset(t);
        if t[j] != x {
          assert t[j] in multiset(s[1..]);
          var m :| 0 <= m < |s[1..]| && s[1..][m] == t[j];
          assert s[m + 1] == t[j];
        }
      }
    }
  }

  lemma {:induction false} WithKeyAppend<T>(s: seq<T>, t: seq<T>, key: T -> int, k: int)
    ensures WithKey(s + t, key, k) == WithKey(s, key, k) + WithKey(t, key, k)
  {
    if s == [] {
      assert s + t == t;
    } else {
      var st := s + t;
      assert st[0] == s[0];
      assert st[1..] == s[1..] + t;
      WithKeyAppend(s[1..], t, key, k);
      calc {
        WithKey(st, key, k);
        (if key(s[0]) == k then [s[0]] else []) + WithKey(s[1..] + t, key, k);
        (if key(s[0]) == k then [s[0]] else []) + (WithKey(s[1..], key, k) + WithKey(t, key, k));
        WithKey(s, key, k) + WithKey(t, key, k);
      }
    }
  }

  /** Inserting into a sorted sequence puts `x` after all elements of equal key. */
  lemma {:induction false} InsertWithKey<T>(x: T, s: seq<T>, key: T -> int, k: int)
    requires SortedDesc(s, key)
    ensures WithKey(Insert(x, s, key), key, k)
         == WithKey(s, key, k) + (if key(x) == k then [x] else [])
  {
    if s == [] {
    } else if key(s[0]) < key(x) {
      if key(x) == k {
        WithKeyNone(s, key, k);
      }
      assert Insert(x, s, key) == [x] + s;
      assert ([x] + s)[1..] == s;
    } else {
      assert SortedDesc(s[1..], key);
      InsertWithKey(x, s[1..], key, k);
      assert ([s[0]] + Insert(x, s[1..], key))[1..] == Insert(x, s[1..], key);
    }
  }

  lemma {:induction false} WithKeyNone<T>(s: seq<T>, key: T -> int, k: int)
    requires forall i :: 0 <= i < |s| ==> key(s[i]) < k
    ensures WithKey(s, key, k) == []
  {
    if s != [] {
      WithKeyNone(s[1..], key, k);
    }
  }

  /** The sort is ordered by key. */
  lemma {:induction false} SortDescSorted<T>(s: seq<T>, key: T -> int)
    ensures SortedDesc(SortDesc(s, key), key)
  {
    if s != [] {
      SortDescSorted(s[..|s| - 1], key);
      InsertSorted(s[|s| - 1], SortDesc(s[..|s| - 1], key), key);
    }
  }

  /** The sort is stable: among elements of any one key the order is unchanged. */
  lemma {:induction false} SortDescStable<T>(s: seq<T>, key: T -> int, k: int)
    ensures WithKey(SortDesc(s, key), key, k) == WithKey(s, key, k)
  {
    if s != [] {
      var p, x := s[..|s| - 1], s[|s| - 1];
      SortDescStable(p, key, k);
      SortDescSorted(p, key);
      InsertWithKey(x, SortDesc(p, key), key, k);
      WithKeyAppend(p, [x], key, k);
      assert WithKey([x], key, k) == (if key(x) == k then [x] else []);
      calc {
        WithKey(SortDesc(s, key), key, k);
        WithKey(Insert(x, SortDesc(p, key), key), key, k);
        WithKey(SortDesc(p, key), key, k) + (if key(x) == k then [x] else []);
        WithKey(p, key, k) + WithKey([x], key, k);
        WithKey(p + [x], key, k);
        { assert s == p + [x]; }
        WithKey(s, key, k);
      }
    }
  }

  /** The first element of a sequence with key `k` is the first element of
      `WithKey(s, key, k)`. */
  lemma {:induction false} WithKeyHead<T>(s: seq<T>, key: T -> int, i: nat)
    requires i < |s|
    requires forall j :: 0 <= j < i ==> key(s[j]) != key(s[i])
    ensures WithKey(s, key, key(s[i])) != [] && WithKey(s, key, key(s[i]))[0] == s[i]
  {
    if i > 0 {
      WithKeyHead(s[1..], key, i - 1);
    }
  }

  /** The first element of `WithKey(s, key, k)` is the first element of `s`
      whose key is `k`. */
  lemma {:induction false} WithKeyFirst<T>(s: seq<T>, key: T -> int, k: int)
    requires WithKey(s, key, k) != []
    ensures exists i :: 0 <= i < |s| && s[i] == WithKey(s, key, k)[0] && key(s[i]) == k
                        && forall j :: 0 <= j < i ==> key(s[j]) != k
  {
    if key(s[0]) != k {
      WithKeyFirst(s[1..], key, k);
      var i :| 0 <= i < |s| - 1 && s[1..][i] == WithKey(s[1..], key, k)[0] && key(s[1..][i]) == k
                && forall j :: 0 <= j < i ==> key(s[1..][j]) != k;
      assert s[i + 1] == WithKey(s, key, k)[0];
      assert forall j :: 1 <= j < i + 1 ==> key(s[j]) != k by {
        forall j | 1 <= j < i + 1 ensures key(s[j]) != k {
          assert s[j] == s[1..][j - 1];
        }
      }
    }
  }
}
