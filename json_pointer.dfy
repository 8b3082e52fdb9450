/**
 * The JSON Pointer utilities of popup.js: segment escaping as section 4 of
 * RFC 6901 defines it, the readable label of a pointer, the flattening of a
 * résumé into (pointer, label, value) rows and the write of an edited cell
 * back into the résumé by its pointer.
 */
module JsonPointer {
  import opened Wrappers
  import opened Strings
  import opened Json

  /* ---------- segments ---------- */

  /** `escapeJsonPointerSegment`: "~" becomes "~0", then "/" becomes "~1". */
  function EscapeSegment(seg: string): string {
    ReplaceAll(ReplaceAll(seg, "~", "~0"), "/", "~1")
  }

  /** `unescapeJsonPointerSegment`: "~1" becomes "/", then "~0" becomes "~". */
  function UnescapeSegment(seg: string): string {
    ReplaceAll(ReplaceAll(seg, "~1", "/"), "~0", "~")
  }

  /** What escaping makes of one character. */
  function EscapedChar(c: char): string {
    if c == '~' then "~0" else if c == '/' then "~1" else [c]
  }

  /** The form section 4 of RFC 6901 requires of an escaped segment: no "/",
      and every "~" followed by "0" or "1". */
  predicate WellEscaped(e: string) {
    && (forall i :: 0 <= i < |e| ==> e[i] != '/')
    && (forall i :: 0 <= i < |e| && e[i] == '~' ==> i + 1 < |e| && (e[i + 1] == '0' || e[i + 1] == '1'))
  }

  /** Replacing a one-character pattern, one character at a time. */
  lemma ReplaceOneCons(c: char, s: string, p: char, rep: string)
    ensures ReplaceAll([c] + s, [p], rep) == (if c == p then rep else [c]) + ReplaceAll(s, [p], rep)
  {
    var t := [c] + s;
    assert t[..1] == [c];
    assert t[1..] == s;
  }

  /** Replacing a one-character pattern distributes over concatenation. */
  lemma {:induction false} ReplaceOneAppend(a: string, b: string, p: char, rep: string)
    ensures ReplaceAll(a + b, [p], rep) == ReplaceAll(a, [p], rep) + ReplaceAll(b, [p], rep)
    decreases |a|
  {
    if a == [] {
      assert a + b == b;
    } else {
      assert a + b == [a[0]] + (a[1..] + b);
      assert [a[0]] + a[1..] == a;
      ReplaceOneCons(a[0], a[1..] + b, p, rep);
      ReplaceOneAppend(a[1..], b, p, rep);
      ReplaceOneCons(a[0], a[1..], p, rep);
    }
  }

  /** Escaping works character by character. */
  lemma EscapeCons(c: char, s: string)
    ensures EscapeSegment([c] + s) == EscapedChar(c) + EscapeSegment(s)
  {
    ReplaceOneCons(c, s, '~', "~0");
    var t := if c == '~' then "~0" else [c];
    var x := ReplaceAll(s, "~", "~0");
    ReplaceOneAppend(t, x, '/', "~1");
    if c == '~' {
      ReplaceOneCons('~', "0", '/', "~1");
      ReplaceOneCons('0', [], '/', "~1");
      assert "~0" == ['~'] + "0";
    } else {
      ReplaceOneCons(c, [], '/', "~1");
      assert [c] + [] == [c];
    }
  }

  lemma WellEscapedPrepend(c: char, rest: string)
    requires WellEscaped(rest)
    ensures WellEscaped(EscapedChar(c) + rest)
  {
    var e := EscapedChar(c) + rest;
    var n := |EscapedChar(c)|;
    forall i | 0 <= i < |e|
      ensures e[i] != '/'
      ensures e[i] == '~' ==> i + 1 < |e| && (e[i + 1] == '0' || e[i + 1] == '1')
    {
      if i >= n {
        assert e[i] == rest[i - n];
        if i + 1 < |e| {
          assert e[i + 1] == rest[i + 1 - n];
        }
      }
    }
  }

  /** An escaped segment has the form section 4 of RFC 6901 requires. */
  lemma {:induction false} EscapeWellEscaped(s: string)
    ensures WellEscaped(EscapeSegment(s))
    decreases |s|
  {
    if s != [] {
      assert [s[0]] + s[1..] == s;
      EscapeCons(s[0], s[1..]);
      EscapeWellEscaped(s[1..]);
      WellEscapedPrepend(s[0], EscapeSegment(s[1..]));
    }
  }

  /** Undoing "~1" in an escaped segment leaves the segment with only "~"
      escaped. */
  lemma {:induction false} UnescapeSlashes(s: string)
    ensures ReplaceAll(EscapeSegment(s), "~1", "/") == ReplaceAll(s, "~", "~0")
    decreases |s|
  {
    if s != [] {
      var c, r := s[0], s[1..];
      assert [c] + r == s;
      EscapeCons(c, r);
      ReplaceOneCons(c, r, '~', "~0");
      var e := EscapeSegment(r);
      UnescapeSlashes(r);
      var x := EscapedChar(c) + e;
      if c == '~' {
        assert !StartsWith(x, "~1") by { assert x[1] == '0'; }
        assert x[1..] == "0" + e;
        assert !StartsWith("0" + e, "~1");
        assert ("0" + e)[1..] == e;
      } else if c == '/' {
        assert StartsWith(x, "~1");
        assert x[2..] == e;
      } else {
        assert x[0] == c;
        assert !StartsWith(x, "~1");
        assert x[1..] == e;
      }
    }
  }

  /** Undoing "~0" after escaping "~" gives the original text back. */
  lemma {:induction false} UnescapeTildes(s: string)
    ensures ReplaceAll(ReplaceAll(s, "~", "~0"), "~0", "~") == s
    decreases |s|
  {
    if s != [] {
      var c, r := s[0], s[1..];
      assert [c] + r == s;
      ReplaceOneCons(c, r, '~', "~0");
      var x := ReplaceAll(r, "~", "~0");
      UnescapeTildes(r);
      if c == '~' {
        var y := "~0" + x;
        assert StartsWith(y, "~0");
        assert y[2..] == x;
      } else {
        var y := [c] + x;
        assert y[0] == c;
        assert !StartsWith(y, "~0");
        assert y[1..] == x;
      }
    }
  }

  /** Unescaping undoes escaping. */
  lemma UnescapeEscape(s: string)
    ensures UnescapeSegment(EscapeSegment(s)) == s
  {
    UnescapeSlashes(s);
    UnescapeTildes(s);
  }

  /** Distinct keys get distinct segments. */
  lemma EscapeInjective(a: string, b: string)
    requires EscapeSegment(a) == EscapeSegment(b)
    ensures a == b
  {
    UnescapeEscape(a);
    UnescapeEscape(b);
  }

  /* ---------- pointers and labels ---------- */

  predicate IsSlash(c: char) {
    c == '/'
  }

  /** The pointer `flattenJson` builds for a path of keys and indices: each
      step appends "/" and the escaped segment. */
  function PointerOf(path: seq<string>): string {
    if path == [] then [] else PointerOf(path[..|path| - 1]) + "/" + EscapeSegment(path[|path| - 1])
  }

  function EscapeAll(path: seq<string>): (r: seq<string>)
    ensures |r| == |path| && forall i :: 0 <= i < |path| ==> r[i] == EscapeSegment(path[i])
  {
    seq(|path|, i requires 0 <= i < |path| => EscapeSegment(path[i]))
  }

  /** `pointer.split("/").slice(1).map(unescapeJsonPointerSegment)`. */
  function Segments(pointer: string): seq<string> {
    var pieces := SplitOn(pointer, IsSlash);
    seq(|pieces| - 1, i requires 0 <= i < |pieces| - 1 => UnescapeSegment(pieces[i + 1]))
  }

  /** `pointerToLabel`. */
  function PointerToLabel(pointer: string): string {
    if pointer == [] || pointer == "/" then "(root)" else Join(Segments(pointer), " / ")
  }

  lemma {:induction false} PointerOfJoin(path: seq<string>)
    requires path != []
    ensures PointerOf(path) == "/" + Join(EscapeAll(path), "/")
    decreases |path|
  {
    var init := path[..|path| - 1];
    var e := EscapeSegment(path[|path| - 1]);
    EscapeAllSnoc(path);
    if |path| > 1 {
      var ei := EscapeAll(init);
      PointerOfJoin(init);
      JoinSnoc(ei, e, "/");
      SlashAppend(PointerOf(init), Join(ei, "/"), e);
    } else {
      assert init == [];
      assert Join([e], "/") == e;
    }
  }

  /** The escaped path extends by the escaped last step. */
  lemma EscapeAllSnoc(path: seq<string>)
    requires path != []
    ensures EscapeAll(path) == EscapeAll(path[..|path| - 1]) + [EscapeSegment(path[|path| - 1])]
  {
  }

  /** Appending "/" and a segment to "/" + `joined`. */
  lemma SlashAppend(p: string, joined: string, e: string)
    requires p == "/" + joined
    ensures p + "/" + e == "/" + (joined + "/" + e)
  {
  }

  /** Reading a built pointer back gives the path it was built from. */
  lemma PointerSegments(path: seq<string>)
    ensures Segments(PointerOf(path)) == path
  {
    if path != [] {
      PointerPieces(path);
      var es := EscapeAll(path);
      var segs := Segments(PointerOf(path));
      assert |segs| == |path|;
      forall i | 0 <= i < |path| ensures segs[i] == path[i] {
        UnescapeEscape(path[i]);
      }
    }
  }

  /** Splitting a built pointer at "/" gives an empty piece, then the escaped
      segments. */
  lemma PointerPieces(path: seq<string>)
    requires path != []
    ensures SplitOn(PointerOf(path), IsSlash) == [[]] + EscapeAll(path)
  {
    PointerOfJoin(path);
    var es := EscapeAll(path);
    forall i | 0 <= i < |es| ensures WellEscaped(es[i]) {
      EscapeWellEscaped(path[i]);
    }
    SplitOnJoin(es, '/', IsSlash);
    SplitOnSep([], '/', Join(es, "/"), IsSlash);
    assert [] + ['/'] + Join(es, "/") == PointerOf(path);
  }

  /** The pointer "/" names the member with the empty key. */
  lemma SegmentsOfSlash()
    ensures Segments("/") == [""]
  {
    var s := "/";
    assert s[0] == '/' && IsSlash(s[0]);
    assert s[1..] == [];
    assert SplitOn(s, IsSlash) == [[]] + SplitOn([], IsSlash);
    assert UnescapeSegment([]) == [];
  }

  /** The label of a built pointer is its keys and indices joined by " / ";
      the empty pointer and "/" are labelled "(root)". */
  lemma LabelOfPointer(path: seq<string>)
    requires path != [] && path != [""]
    ensures PointerToLabel(PointerOf(path)) == Join(path, " / ")
  {
    PointerSegments(path);
    SegmentsOfSlash();
    PointerSegments([]);
  }

  /* ---------- addressing ---------- */

  /** `Number(key)` followed by the integer and sign test of
      `setByJsonPointer`: blank text is 0, a run of decimal digits (with white
      space around it) is its value, anything else is rejected. */
  function ArrayIndex(key: string): Option<nat> {
    var t := Trim(key);
    if t == [] then Some(0)
    else if forall i :: 0 <= i < |t| ==> IsDigit(t[i]) then Some(DigitsValue(t))
    else None
  }

  /** The index segments `flattenJson` writes address the item they came from. */
  lemma ArrayIndexOfDecimal(n: nat)
    ensures ArrayIndex(NatToString(n)) == Some(n)
  {
    var s := NatToString(n);
    NatToStringDigits(n);
    assert !IsSpace(s[0]) && !IsSpace(s[|s| - 1]);
    TrimOfTrimmed(s);
    DigitsValueOfNatToString(n);
  }

  /** One step down: the item or the member a segment names. */
  function Step(node: Json, key: string): Option<Json> {
    match node
    case JArray(items) =>
      var i := ArrayIndex(key);
      if i.Some? && i.value < |items| then Some(items[i.value]) else None
    case JObject(members) => Get(members, key)
    case _ => None
  }

  /** The value a path of segments addresses, when there is one. */
  function Resolve(node: Json, segs: seq<string>): Option<Json>
    decreases |segs|
  {
    if segs == [] then Some(node)
    else
      match Step(node, segs[0])
      case None => None
      case Some(child) => Resolve(child, segs[1..])
  }

  /** Resolving a path prefix and then the rest is resolving the whole. */
  lemma {:induction false} ResolveAppend(node: Json, p: seq<string>, q: seq<string>)
    ensures Resolve(node, p + q) == match Resolve(node, p) case None => None case Some(x) => Resolve(x, q)
    decreases |p|
  {
    if p == [] {
      assert p + q == q;
    } else {
      assert (p + q)[0] == p[0] && (p + q)[1..] == p[1..] + q;
      match Step(node, p[0])
      case None =>
      case Some(child) => ResolveAppend(child, p[1..], q);
    }
  }

  /* ---------- writing ---------- */

  /** `obj[key] = value` on an object: the first member with that key gets
      the value in place; without one, the member is appended. */
  function Put(members: seq<Member>, key: string, v: Json): (r: seq<Member>)
    ensures (exists i :: 0 <= i < |members| && members[i].key == key) ==>
              |r| == |members| && forall i :: 0 <= i < |members| ==>
                r[i].key == members[i].key && (r[i] == members[i] || r[i] == Member(key, v))
    ensures (forall i :: 0 <= i < |members| ==> members[i].key != key) ==> r == members + [Member(key, v)]
  {
    if members == [] then [Member(key, v)]
    else if members[0].key == key then [Member(key, v)] + members[1..]
    else
      var rest := Put(members[1..], key, v);
      assert forall i :: 0 < i < |members| ==> members[i] == members[1..][i - 1];
      [members[0]] + rest
  }

  /** After a put, the key reads the new value and every other key reads
      what it read before. */
  lemma {:induction false} PutGet(members: seq<Member>, key: string, v: Json, k: string)
    ensures Get(Put(members, key, v), k) == if k == key then Some(v) else Get(members, k)
    decreases |members|
  {
    if members != [] && members[0].key != key {
      PutGet(members[1..], key, v, k);
      var r := Put(members, key, v);
      assert r[1..] == Put(members[1..], key, v);
    }
  }

  /** `arr[index] = value` on an array: an index past the end grows the array,
      and the holes it leaves become null once the value is stored as JSON. */
  function Store(items: seq<Json>, i: nat, v: Json): (r: seq<Json>)
    ensures |r| == if i < |items| then |items| else i + 1
    ensures r[i] == v
    ensures forall k :: 0 <= k < |items| && k != i ==> r[k] == items[k]
    ensures forall k :: |items| <= k < |r| && k != i ==> r[k] == JNull
  {
    if i < |items| then items[i := v] else items + seq(i - |items|, _ => JNull) + [v]
  }

  /** `setByJsonPointer` after the pointer is split: walk down the segments
      and assign at the last; any step that is not possible ends the walk with
      nothing changed. */
  function SetPath(node: Json, segs: seq<string>, v: Json): Json
    requires segs != []
    decreases |segs|
  {
    var key := segs[0];
    match node
    case JArray(items) =>
      (var i := ArrayIndex(key);
       if i.None? then node
       else if |segs| == 1 then JArray(Store(items, i.value, v))
       else if i.value < |items| then JArray(items[i.value := SetPath(items[i.value], segs[1..], v)])
       else node)
    case JObject(members) =>
      if |segs| == 1 then JObject(Put(members, key, v))
      else
        (var child := Get(members, key);
         if child.None? then node
         else JObject(Put(members, key, SetPath(child.value, segs[1..], v))))
    case _ => node
  }

  /** `setByJsonPointer(obj, pointer, value)`: "" and "/" change nothing. */
  function SetByPointer(root: Json, pointer: string, v: Json): Json {
    if pointer == [] || pointer == "/" then root
    else
      var segs := Segments(pointer);
      if segs == [] then root else SetPath(root, segs, v)
  }

  /** A write lands when the parent of the addressed slot exists and is an
      object, or an array and the last segment is an index. */
  predicate Settable(node: Json, segs: seq<string>)
    requires segs != []
  {
    var parent := Resolve(node, segs[..|segs| - 1]);
    parent.Some? && (parent.value.JObject? || (parent.value.JArray? && ArrayIndex(segs[|segs| - 1]).Some?))
  }

  /** Settability of a longer path is settability below its first step. */
  lemma SettableStep(node: Json, segs: seq<string>)
    requires |segs| > 1
    ensures Settable(node, segs) <==> Step(node, segs[0]).Some? && Settable(Step(node, segs[0]).value, segs[1..])
  {
    var p := segs[..|segs| - 1];
    assert p[0] == segs[0] && p[1..] == segs[1..][..|segs[1..]| - 1];
    assert segs[1..][|segs[1..]| - 1] == segs[|segs| - 1];
  }

  /** Where the write cannot land, nothing changes: a blank pointer, a step
      that is not an index of an array, a missing item or member on the way,
      or a step into a value that is neither array nor object. */
  lemma {:induction false} SetNoop(node: Json, segs: seq<string>, v: Json)
    requires segs != [] && !Settable(node, segs)
    ensures SetPath(node, segs, v) == node
    decreases |segs|
  {
    if |segs| > 1 {
      SettableStep(node, segs);
      var child := Step(node, segs[0]);
      if child.Some? {
        SetNoop(child.value, segs[1..], v);
        if node.JObject? {
          PutSame(node.members, segs[0]);
        }
      }
    }
  }

  /** Writing a member's own value back leaves the members as they were. */
  lemma {:induction false} PutSame(members: seq<Member>, key: string)
    requires Get(members, key).Some?
    ensures Put(members, key, Get(members, key).value) == members
    decreases |members|
  {
    var v := Get(members, key).value;
    if members[0].key != key {
      var tail := members[1..];
      assert Get(tail, key) == Some(v);
      PutSame(tail, key);
      assert Put(members, key, v) == [members[0]] + Put(tail, key, v);
      assert [members[0]] + tail == members;
    } else {
      assert [Member(key, v)] + members[1..] == members;
    }
  }

  /** After a write that lands, the pointer reads the written value. */
  lemma {:induction false} SetResolve(node: Json, segs: seq<string>, v: Json)
    requires segs != [] && Settable(node, segs)
    ensures Resolve(SetPath(node, segs, v), segs) == Some(v)
    decreases |segs|
  {
    if |segs| > 1 {
      SettableStep(node, segs);
      var child := Step(node, segs[0]).value;
      SetResolve(child, segs[1..], v);
      if node.JObject? {
        PutGet(node.members, segs[0], SetPath(child, segs[1..], v), segs[0]);
      }
    } else {
      assert segs[..0] == [];
      if node.JObject? {
        PutGet(node.members, segs[0], v, segs[0]);
      }
    }
  }

  /** Writing the value a path already holds changes nothing. */
  lemma {:induction false} SetSame(node: Json, segs: seq<string>)
    requires segs != [] && Resolve(node, segs).Some?
    ensures SetPath(node, segs, Resolve(node, segs).value) == node
    decreases |segs|
  {
    var child := Step(node, segs[0]).value;
    if |segs| > 1 {
      SetSame(child, segs[1..]);
    }
    if node.JObject? {
      PutSame(node.members, segs[0]);
    }
  }

  /** Two paths part somewhere below `node`: at some level the segments name
      different items or members, before either path ends. */
  predicate Apart(node: Json, segs: seq<string>, q: seq<string>)
    requires segs != []
    decreases |segs|
  {
    q != [] &&
    match node
    case JArray(items) =>
      var i := ArrayIndex(segs[0]);
      var j := ArrayIndex(q[0]);
      i.None? || j.None? || i.value != j.value
      || (|segs| > 1 && (i.value >= |items| || Apart(items[i.value], segs[1..], q[1..])))
    case JObject(members) =>
      segs[0] != q[0]
      || (|segs| > 1 && (Get(members, segs[0]).None? || Apart(Get(members, segs[0]).value, segs[1..], q[1..])))
    case _ => true
  }

  /** A write changes only the addressed slot: every path that parts from the
      written one reads what it read before. */
  lemma {:induction false} SetElsewhere(node: Json, segs: seq<string>, q: seq<string>, v: Json)
    requires segs != [] && Apart(node, segs, q) && Resolve(node, q).Some?
    ensures Resolve(SetPath(node, segs, v), q) == Resolve(node, q)
    decreases |segs|
  {
    var after := SetPath(node, segs, v);
    match node
    case JArray(items) =>
      var i := ArrayIndex(segs[0]);
      var j := ArrayIndex(q[0]);
      if i.Some? && j.Some? && i.value == j.value && |segs| > 1 && i.value < |items| {
        SetElsewhere(items[i.value], segs[1..], q[1..], v);
      }
    case JObject(members) =>
      if |segs| == 1 {
        PutGet(members, segs[0], v, q[0]);
      } else if Get(members, segs[0]).Some? {
        var child := Get(members, segs[0]).value;
        PutGet(members, segs[0], SetPath(child, segs[1..], v), q[0]);
        if segs[0] == q[0] {
          SetElsewhere(child, segs[1..], q[1..], v);
        }
      }
    case _ =>
  }

  /** A write of a well-formed value keeps a résumé well formed. */
  lemma {:induction false} SetWellFormed(node: Json, segs: seq<string>, v: Json)
    requires segs != [] && WellFormed(node) && WellFormed(v)
    ensures WellFormed(SetPath(node, segs, v))
    decreases |segs|
  {
    match node
    case JArray(items) =>
      var i := ArrayIndex(segs[0]);
      if i.Some? && |segs| > 1 && i.value < |items| {
        SetWellFormed(items[i.value], segs[1..], v);
      }
    case JObject(members) =>
      if |segs| == 1 {
        PutWellFormed(members, segs[0], v);
      } else if Get(members, segs[0]).Some? {
        SetWellFormed(Get(members, segs[0]).value, segs[1..], v);
        PutWellFormed(members, segs[0], SetPath(Get(members, segs[0]).value, segs[1..], v));
      }
    case _ =>
  }

  lemma PutWellFormed(members: seq<Member>, key: string, v: Json)
    requires WellFormed(JObject(members)) && WellFormed(v)
    ensures WellFormed(JObject(Put(members, key, v)))
  {
    var r := Put(members, key, v);
    if forall i :: 0 <= i < |members| ==> members[i].key != key {
      assert r == members + [Member(key, v)];
      forall i, k | 0 <= i < k < |r| ensures r[i].key != r[k].key {
        assert r[i] == members[i];
      }
      forall i | 0 <= i < |r| ensures WellFormed(r[i].value) {
        if i < |members| { assert r[i] == members[i]; }
      }
    } else {
      assert |r| == |members|;
      forall i, k | 0 <= i < k < |r| ensures r[i].key != r[k].key {
        assert r[i].key == members[i].key && r[k].key == members[k].key;
      }
      forall i | 0 <= i < |r| ensures WellFormed(r[i].value) {
        assert r[i] == members[i] || r[i] == Member(key, v);
      }
    }
  }

  /** A pointer built from a path writes at that path. */
  lemma SetByPointerPath(root: Json, path: seq<string>, v: Json)
    requires path != [] && path != [""]
    ensures SetByPointer(root, PointerOf(path), v) == SetPath(root, path, v)
  {
    PointerSegments(path);
    PointerSegments([]);
    SegmentsOfSlash();
  }

  /* ---------- flattening ---------- */

  /** A value the table shows as one row: a scalar, or an empty array or
      object. */
  predicate Terminal(j: Json) {
    match j
    case JArray(items) => items == []
    case JObject(members) => members == []
    case _ => true
  }

  /** A terminal value and the path of keys and indices that leads to it. */
  datatype Leaf = Leaf(path: seq<string>, node: Json)

  datatype Row = Row(pointer: string, labelText: string, value: Json)

  function Concat<T>(ss: seq<seq<T>>): seq<T> {
    if ss == [] then [] else Concat(ss[..|ss| - 1]) + ss[|ss| - 1]
  }

  /** The terminals below `node`, in the order `walk` visits them: items in
      index order, members in property order. */
  function Leaves(node: Json, path: seq<string>): seq<Leaf>
    decreases node
  {
    match node
    case JArray(items) =>
      if items == [] then [Leaf(path, node)]
      else Concat(seq(|items|, i requires 0 <= i < |items| => Leaves(items[i], path + [NatToString(i)])))
    case JObject(members) =>
      if members == [] then [Leaf(path, node)]
      else Concat(seq(|members|, i requires 0 <= i < |members| => Leaves(members[i].value, path + [members[i].key])))
    case _ => [Leaf(path, node)]
  }

  /** The row of a terminal: its pointer ("/" for the root), the pointer's
      label, and its value, "" for an empty array or object. */
  function RowOf(l: Leaf): Row {
    var p := if PointerOf(l.path) == [] then "/" else PointerOf(l.path);
    Row(p, PointerToLabel(p), if l.node.JArray? || l.node.JObject? then JString("") else l.node)
  }

  function RowsOf(ls: seq<Leaf>): (r: seq<Row>)
    ensures |r| == |ls| && forall i :: 0 <= i < |ls| ==> r[i] == RowOf(ls[i])
  {
    seq(|ls|, i requires 0 <= i < |ls| => RowOf(ls[i]))
  }

  /** The rows of `flattenJson(value)`. */
  function Flatten(value: Json): seq<Row> {
    RowsOf(Leaves(value, []))
  }

  lemma RowsOfAppend(a: seq<Leaf>, b: seq<Leaf>)
    ensures RowsOf(a + b) == RowsOf(a) + RowsOf(b)
  {
    assert forall i :: 0 <= i < |a + b| ==> RowsOf(a + b)[i] == (RowsOf(a) + RowsOf(b))[i];
  }

  /** Walking one more child appends the rows of its terminals. */
  lemma RowsStep(acc: seq<Row>, blocks: seq<seq<Leaf>>, idx: nat)
    requires idx < |blocks|
    ensures acc + RowsOf(Concat(blocks[..idx])) + RowsOf(blocks[idx]) == acc + RowsOf(Concat(blocks[..idx + 1]))
  {
    assert blocks[..idx + 1][..idx] == blocks[..idx];
    RowsOfAppend(Concat(blocks[..idx]), blocks[idx]);
  }

  /** The pointer of an item: the digits of its index need no escaping. */
  lemma ItemPointer(path: seq<string>, idx: nat)
    ensures PointerOf(path + [NatToString(idx)]) == PointerOf(path) + "/" + NatToString(idx)
  {
    var s := NatToString(idx);
    NatToStringDigits(idx);
    var ext := path + [s];
    assert ext[..|ext| - 1] == path;
    ContainsOne(s, '~');
    ReplaceAllAbsent(s, "~", "~0");
    ContainsOne(s, '/');
    ReplaceAllAbsent(s, "/", "~1");
  }

  lemma MemberPointer(path: seq<string>, key: string)
    ensures PointerOf(path + [key]) == PointerOf(path) + "/" + EscapeSegment(key)
  {
    var ext := path + [key];
    assert ext[..|ext| - 1] == path;
  }

  /** A one-character text occurs only where its character does. */
  lemma {:induction false} ContainsOne(s: string, c: char)
    requires c !in s
    ensures !Contains(s, [c])
    decreases |s|
  {
    if s != [] {
      assert s[0] != c;
      ContainsOne(s[1..], c);
    }
  }

  /** `walk(node, pointer, acc)`: pushes the rows of the terminals below
      `node` onto `acc`. */
  method Walk(node: Json, pointer: string, ghost path: seq<string>, acc: seq<Row>) returns (out: seq<Row>)
    requires pointer == PointerOf(path)
    ensures out == acc + RowsOf(Leaves(node, path))
    decreases node, 1
  {
    var p := if pointer == [] then "/" else pointer;
    if node.JArray? && node.items != [] {
      out := WalkItems(node, pointer, path, acc);
    } else if node.JObject? && node.members != [] {
      out := WalkMembers(node, pointer, path, acc);
    } else if node.JArray? || node.JObject? {
      out := acc + [Row(p, PointerToLabel(p), JString(""))];
    } else {
      out := acc + [Row(p, PointerToLabel(p), node)];
    }
  }

  /** The `forEach` over the items of a non-empty array. */
  method WalkItems(node: Json, pointer: string, ghost path: seq<string>, acc: seq<Row>) returns (out: seq<Row>)
    requires node.JArray? && node.items != [] && pointer == PointerOf(path)
    ensures out == acc + RowsOf(Leaves(node, path))
    decreases node, 0
  {
    var items := node.items;
    ghost var blocks := seq(|items|, i requires 0 <= i < |items| => Leaves(items[i], path + [NatToString(i)]));
    assert Leaves(node, path) == Concat(blocks);
    out := acc;
    var idx := 0;
    while idx < |items|
      invariant 0 <= idx <= |items|
      invariant out == acc + RowsOf(Concat(blocks[..idx]))
    {
      ItemPointer(path, idx);
      out := Walk(items[idx], pointer + "/" + NatToString(idx), path + [NatToString(idx)], out);
      RowsStep(acc, blocks, idx);
      idx := idx + 1;
    }
    assert blocks[..idx] == blocks;
  }

  /** The `forEach` over the keys of a non-empty object. */
  method WalkMembers(node: Json, pointer: string, ghost path: seq<string>, acc: seq<Row>) returns (out: seq<Row>)
    requires node.JObject? && node.members != [] && pointer == PointerOf(path)
    ensures out == acc + RowsOf(Leaves(node, path))
    decreases node, 0
  {
    var members := node.members;
    ghost var blocks := seq(|members|, i requires 0 <= i < |members| => Leaves(members[i].value, path + [members[i].key]));
    assert Leaves(node, path) == Concat(blocks);
    out := acc;
    var idx := 0;
    while idx < |members|
      invariant 0 <= idx <= |members|
      invariant out == acc + RowsOf(Concat(blocks[..idx]))
    {
      var key := members[idx].key;
      MemberPointer(path, key);
      out := Walk(members[idx].value, pointer + "/" + EscapeSegment(key), path + [key], out);
      RowsStep(acc, blocks, idx);
      idx := idx + 1;
    }
    assert blocks[..idx] == blocks;
  }

  /** `flattenJson(value)`. */
  method FlattenJson(value: Json) returns (rows: seq<Row>)
    ensures rows == Flatten(value)
  {
    rows := Walk(value, [], [], []);
  }

  /** A terminal root is one row, at pointer "/" and labelled "(root)". */
  lemma FlattenTerminalRoot(value: Json)
    requires Terminal(value)
    ensures Flatten(value) == [Row("/", "(root)", if value.JArray? || value.JObject? then JString("") else value)]
  {
  }

  lemma {:induction false} ConcatMember<T>(ss: seq<seq<T>>, x: T)
    requires x in Concat(ss)
    ensures exists i :: 0 <= i < |ss| && x in ss[i]
    decreases |ss|
  {
    var init := ss[..|ss| - 1];
    if x !in ss[|ss| - 1] {
      ConcatMember(init, x);
      var i :| 0 <= i < |init| && x in init[i];
      assert ss[i] == init[i];
    }
  }

  /** Every terminal below `node` lies on an extension of `path`, strictly
      below `node` when that is not terminal, and the rest of its path leads
      to it from `node`. */
  predicate LeafOf(node: Json, path: seq<string>, l: Leaf) {
    && Terminal(l.node)
    && |path| <= |l.path| && l.path[..|path|] == path
    && (!Terminal(node) ==> |path| < |l.path|)
    && Resolve(node, l.path[|path|..]) == Some(l.node)
  }

  lemma LeavesSound(node: Json, path: seq<string>)
    requires WellFormed(node)
    ensures forall l :: l in Leaves(node, path) ==> LeafOf(node, path, l)
  {
    forall l | l in Leaves(node, path)
      ensures LeafOf(node, path, l)
    {
      LeafSound(node, path, l);
    }
  }

  lemma {:induction false} LeafSound(node: Json, path: seq<string>, l: Leaf)
    requires WellFormed(node) && l in Leaves(node, path)
    ensures LeafOf(node, path, l)
    decreases node, 1
  {
    if node.JArray? && node.items != [] {
      ItemLeafSound(node, path, l);
    } else if node.JObject? && node.members != [] {
      MemberLeafSound(node, path, l);
    } else {
      assert Leaves(node, path) == [Leaf(path, node)];
      assert l == Leaf(path, node);
      assert l.path[..|path|] == path && l.path[|path|..] == [];
    }
  }

  /** A terminal below a child, seen from its parent. */
  lemma ChildLeaf(node: Json, path: seq<string>, key: string, child: Json, l: Leaf)
    requires Step(node, key) == Some(child)
    requires LeafOf(child, path + [key], l)
    ensures LeafOf(node, path, l)
  {
    var sub := path + [key];
    assert l.path[..|path|] == sub[..|path|] == path;
    var rest := l.path[|sub|..];
    assert l.path[|path|..] == [key] + rest;
    assert ([key] + rest)[1..] == rest;
    assert !Terminal(node) by {
      if node.JArray? { assert node.items != []; }
    }
  }

  lemma {:induction false} ItemLeafSound(node: Json, path: seq<string>, l: Leaf)
    requires WellFormed(node) && node.JArray? && node.items != [] && l in Leaves(node, path)
    ensures LeafOf(node, path, l)
    decreases node, 0
  {
    var items := node.items;
    var blocks := seq(|items|, i requires 0 <= i < |items| => Leaves(items[i], path + [NatToString(i)]));
    assert Leaves(node, path) == Concat(blocks);
    ConcatMember(blocks, l);
    var i :| 0 <= i < |items| && l in blocks[i];
    LeafSound(items[i], path + [NatToString(i)], l);
    ArrayIndexOfDecimal(i);
    ChildLeaf(node, path, NatToString(i), items[i], l);
  }

  lemma {:induction false} MemberLeafSound(node: Json, path: seq<string>, l: Leaf)
    requires WellFormed(node) && node.JObject? && node.members != [] && l in Leaves(node, path)
    ensures LeafOf(node, path, l)
    decreases node, 0
  {
    var members := node.members;
    var blocks := seq(|members|, i requires 0 <= i < |members| => Leaves(members[i].value, path + [members[i].key]));
    assert Leaves(node, path) == Concat(blocks);
    ConcatMember(blocks, l);
    var i :| 0 <= i < |members| && l in blocks[i];
    LeafSound(members[i].value, path + [members[i].key], l);
    GetDistinct(members, i);
    ChildLeaf(node, path, members[i].key, members[i].value, l);
  }

  /** The number of terminals in a value: scalars and empty arrays or
      objects count one, other arrays and objects the sum over their
      children. */
  function Terminals(j: Json): nat
    decreases j
  {
    match j
    case JArray(items) =>
      if items == [] then 1 else Sum(seq(|items|, i requires 0 <= i < |items| => Terminals(items[i])))
    case JObject(members) =>
      if members == [] then 1 else Sum(seq(|members|, i requires 0 <= i < |members| => Terminals(members[i].value)))
    case _ => 1
  }

  function Sum(xs: seq<nat>): nat {
    if xs == [] then 0 else Sum(xs[..|xs| - 1]) + xs[|xs| - 1]
  }

  function Lengths<T>(ss: seq<seq<T>>): (r: seq<nat>)
    ensures |r| == |ss| && forall i :: 0 <= i < |ss| ==> r[i] == |ss[i]|
  {
    seq(|ss|, i requires 0 <= i < |ss| => |ss[i]|)
  }

  lemma {:induction false} ConcatLength<T>(ss: seq<seq<T>>)
    ensures |Concat(ss)| == Sum(Lengths(ss))
    decreases |ss|
  {
    if ss != [] {
      ConcatLength(ss[..|ss| - 1]);
      assert Lengths(ss)[..|ss| - 1] == Lengths(ss[..|ss| - 1]);
    }
  }

  /** `flattenJson` emits one row per terminal. */
  lemma {:induction false} LeavesCount(node: Json, path: seq<string>)
    ensures |Leaves(node, path)| == Terminals(node)
    decreases node
  {
    match node
    case JArray(items) =>
      if items != [] {
        var blocks := seq(|items|, i requires 0 <= i < |items| => Leaves(items[i], path + [NatToString(i)]));
        ConcatLength(blocks);
        forall i | 0 <= i < |items|
          ensures |blocks[i]| == Terminals(items[i])
        {
          LeavesCount(items[i], path + [NatToString(i)]);
        }
        assert Lengths(blocks) == seq(|items|, i requires 0 <= i < |items| => Terminals(items[i]));
      }
    case JObject(members) =>
      if members != [] {
        var blocks := seq(|members|, i requires 0 <= i < |members| => Leaves(members[i].value, path + [members[i].key]));
        ConcatLength(blocks);
        forall i | 0 <= i < |members|
          ensures |blocks[i]| == Terminals(members[i].value)
        {
          LeavesCount(members[i].value, path + [members[i].key]);
        }
        assert Lengths(blocks) == seq(|members|, i requires 0 <= i < |members| => Terminals(members[i].value));
      }
    case _ =>
  }

  /** The table of a résumé has one row per terminal. */
  lemma FlattenCount(value: Json)
    ensures |Flatten(value)| == Terminals(value)
  {
    LeavesCount(value, []);
  }

  /** With distinct keys, looking a member's key up finds that member. */
  lemma {:induction false} GetDistinct(members: seq<Member>, i: nat)
    requires i < |members|
    requires forall a, b :: 0 <= a < b < |members| ==> members[a].key != members[b].key
    ensures Get(members, members[i].key) == Some(members[i].value)
    decreases i
  {
    if i > 0 {
      assert members[1..][i - 1] == members[i];
      GetDistinct(members[1..], i - 1);
    }
  }

  /** Every row of a résumé that is an object or array with content sits at
      a pointer that reads, in the résumé, a terminal value: the row's value
      itself, or an empty array or object where the row shows "". */
  lemma FlattenRowsResolve(root: Json)
    requires WellFormed(root) && !Terminal(root)
    ensures forall k :: 0 <= k < |Flatten(root)| ==> RowReads(root, Flatten(root)[k], Leaves(root, [])[k])
  {
    forall k | 0 <= k < |Flatten(root)|
      ensures RowReads(root, Flatten(root)[k], Leaves(root, [])[k])
    {
      RowSound(root, k);
    }
  }

  /** A row read against the terminal it came from: the row's pointer splits
      into the terminal's path, the path reads the terminal in `root`, and the
      row shows the terminal's value, or "" for an empty array or object. */
  predicate RowReads(root: Json, row: Row, l: Leaf) {
    && Segments(row.pointer) == l.path
    && Resolve(root, l.path) == Some(l.node)
    && Terminal(l.node)
    && row.value == (if l.node.JArray? || l.node.JObject? then JString("") else l.node)
  }

  lemma RowSound(root: Json, k: nat)
    requires WellFormed(root) && !Terminal(root) && k < |Flatten(root)|
    ensures RowReads(root, Flatten(root)[k], Leaves(root, [])[k])
  {
    var l := Leaves(root, [])[k];
    assert l in Leaves(root, []);
    LeafSound(root, [], l);
    assert l.path[0..] == l.path;
    PointerSegments(l.path);
    assert PointerOf(l.path) != [];
  }

  /** Writing a row's own scalar value back at the row's pointer leaves the
      résumé unchanged. */
  lemma WriteBackRow(root: Json, k: nat)
    requires WellFormed(root) && !Terminal(root) && k < |Flatten(root)|
    requires !Leaves(root, [])[k].node.JArray? && !Leaves(root, [])[k].node.JObject?
    ensures SetByPointer(root, Flatten(root)[k].pointer, Flatten(root)[k].value) == root
  {
    RowSound(root, k);
    var l := Leaves(root, [])[k];
    var row := Flatten(root)[k];
    assert row.value == l.node;
    if l.path == [""] {
      assert PointerOf(l.path) == PointerOf([]) + "/" + EscapeSegment("");
    } else {
      SetByPointerPath(root, l.path, row.value);
      SetSame(root, l.path);
    }
  }
}
