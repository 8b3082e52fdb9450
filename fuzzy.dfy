/**
 * Fuzzy text matching between an option's visible text and a desired value,
 * and the choice of the best option among several.
 */
module Fuzzy {
  import opened Wrappers
  import opened Strings

  /** Two texts match when, after trimming, both are non-empty and one
      contains the other (equal texts included). */
  predicate IsFuzzyMatch(a: string, b: string) {
    var x := Trim(a);
    var y := Trim(b);
    x != [] && y != [] && (x == y || Contains(x, y) || Contains(y, x))
  }

  lemma TrimIdempotent(s: string)
    ensures Trim(Trim(s)) == Trim(s)
  {
    TrimSpec(s);
    TrimOfTrimmed(Trim(s));
  }

  /** Matching ignores surrounding white space on either side. */
  lemma FuzzyMatchTrim(a: string, b: string)
    ensures IsFuzzyMatch(Trim(a), Trim(b)) == IsFuzzyMatch(a, b)
  {
    TrimIdempotent(a);
    TrimIdempotent(b);
  }

  /** Matching is symmetric, never holds for a blank text, and always holds
      between a non-blank text and itself. */
  lemma FuzzyMatchBasics(a: string, b: string)
    ensures IsFuzzyMatch(a, b) == IsFuzzyMatch(b, a)
    ensures Trim(a) == [] ==> !IsFuzzyMatch(a, b)
    ensures Trim(a) != [] ==> IsFuzzyMatch(a, a)
  {
  }

  /** Matching texts differ in length only by containment: the trimmed
      shorter one occurs in the trimmed longer one. */
  lemma FuzzyMatchContainment(a: string, b: string)
    requires IsFuzzyMatch(a, b)
    requires |Trim(a)| <= |Trim(b)|
    ensures Contains(Trim(b), Trim(a))
  {
    var x, y := Trim(a), Trim(b);
    if x == y {
      assert StartsWith(y, x);
    } else if !Contains(y, x) {
      ContainsLength(x, y);
      ContainsSame(x, y);
      assert false;
    }
  }

  /** A string contains a string of its own length only when they are equal. */
  lemma {:induction false} ContainsSame(x: string, y: string)
    requires Contains(x, y) && |x| == |y|
    ensures x == y
  {
    if !StartsWith(x, y) {
      ContainsLength(x[1..], y);
    }
  }

  /** The option text equals the desired text, both trimmed and non-empty. */
  predicate IsExact(text: string, desired: string) {
    Trim(text) != [] && Trim(text) == Trim(desired)
  }

  /** The first index whose element satisfies `p`. */
  function FirstWhere<T>(s: seq<T>, p: T -> bool): (r: Option<nat>)
    ensures r.Some? ==> r.value < |s| && p(s[r.value]) && forall j :: 0 <= j < r.value ==> !p(s[j])
    ensures r.None? ==> forall j :: 0 <= j < |s| ==> !p(s[j])
  {
    if s == [] then None
    else if p(s[0]) then Some(0)
    else
      var r := FirstWhere(s[1..], p);
      assert forall j :: 0 < j < |s| ==> s[j] == s[1..][j - 1];
      if r.Some? then Some(r.value + 1) else None
  }

  /** The option chosen for `desired`, given the option texts: the first whose
      trimmed text equals the trimmed `desired`, otherwise the first that
      fuzzily matches it; nothing when `desired` is blank. */
  function BestOption(labels: seq<string>, desired: string): (best: Option<nat>)
    ensures Trim(desired) == [] ==> best == None
    ensures best.Some? ==> best.value < |labels| && IsFuzzyMatch(labels[best.value], desired)
    ensures best.None? <==> forall i :: 0 <= i < |labels| ==> !IsFuzzyMatch(labels[i], desired)
    ensures best.Some? && IsExact(labels[best.value], desired) ==>
              forall j :: 0 <= j < best.value ==> !IsExact(labels[j], desired)
    ensures best.Some? && !IsExact(labels[best.value], desired) ==>
              && (forall j :: 0 <= j < |labels| ==> !IsExact(labels[j], desired))
              && (forall j :: 0 <= j < best.value ==> !IsFuzzyMatch(labels[j], desired))
  {
    if Trim(desired) == [] then None
    else
      var exact := FirstWhere(labels, (l: string) => IsExact(l, desired));
      if exact.Some? then exact
      else FirstWhere(labels, (l: string) => IsFuzzyMatch(l, desired))
  }

  /** `pickBestOption`: one pass over the options that stops at the first exact
      match and remembers the first fuzzy one. Options are given by their
      texts; the result is an index into them. */
  method PickBestOption(labels: seq<string>, desired: string) returns (best: Option<nat>)
    ensures best == BestOption(labels, desired)
  {
    var wanted := Trim(desired);
    if wanted == [] {
      return None;
    }
    var exact: Option<nat> := None;
    var fuzzy: Option<nat> := None;
    var i := 0;
    while i < |labels|
      invariant 0 <= i <= |labels|
      invariant exact == None
      invariant forall j :: 0 <= j < i ==> !IsExact(labels[j], desired)
      invariant fuzzy.Some? ==> fuzzy.value < i && IsFuzzyMatch(labels[fuzzy.value], desired)
      invariant fuzzy.Some? ==> forall j :: 0 <= j < fuzzy.value ==> !IsFuzzyMatch(labels[j], desired)
      invariant fuzzy.None? ==> forall j :: 0 <= j < i ==> !IsFuzzyMatch(labels[j], desired)
    {
      var text := Trim(labels[i]);
      FuzzyMatchTrim(labels[i], desired);
      assert IsFuzzyMatch(text, wanted) == IsFuzzyMatch(labels[i], desired);
      assert IsExact(labels[i], desired) == (text != [] && text == wanted);
      if text == [] {
        assert !IsExact(labels[i], desired) && !IsFuzzyMatch(labels[i], desired);
        assert forall j :: 0 <= j < i + 1 ==> !IsExact(labels[j], desired);
        assert fuzzy.None? ==> forall j :: 0 <= j < i + 1 ==> !IsFuzzyMatch(labels[j], desired);
        i := i + 1;
        continue;
      }
      if text == wanted {
        exact := Some(i);
        break;
      }
      if fuzzy.None? && IsFuzzyMatch(text, wanted) {
        fuzzy := Some(i);
      }
      assert !IsExact(labels[i], desired);
      assert forall j :: 0 <= j < i + 1 ==> !IsExact(labels[j], desired);
      assert fuzzy.None? ==> !IsFuzzyMatch(labels[i], desired);
      assert fuzzy.None? ==> forall j :: 0 <= j < i + 1 ==> !IsFuzzyMatch(labels[j], desired);
      i := i + 1;
    }
    best := if exact.Some? then exact else fuzzy;
    BestUnique(labels, desired, best, BestOption(labels, desired));
  }

  /** Two choices that both satisfy the preference of `BestOption` are the same. */
  lemma BestUnique(labels: seq<string>, desired: string, a: Option<nat>, b: Option<nat>)
    requires Trim(desired) != []
    requires a.Some? ==> a.value < |labels| && IsFuzzyMatch(labels[a.value], desired)
    requires a.None? <==> forall i :: 0 <= i < |labels| ==> !IsFuzzyMatch(labels[i], desired)
    requires a.Some? && IsExact(labels[a.value], desired) ==>
               forall j :: 0 <= j < a.value ==> !IsExact(labels[j], desired)
    requires a.Some? && !IsExact(labels[a.value], desired) ==>
               && (forall j :: 0 <= j < |labels| ==> !IsExact(labels[j], desired))
               && (forall j :: 0 <= j < a.value ==> !IsFuzzyMatch(labels[j], desired))
    requires b == BestOption(labels, desired)
    ensures a == b
  {
  }
}
