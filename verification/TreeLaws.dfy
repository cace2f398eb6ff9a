/**
 What the size and the height of a JSON tree are, said of the paths into it, and which trees the preflight
 lets pass; and that a failure is told by everything in its output but its duration.
 */
module TreeLaws {
  import opened ByteStrings
  import opened JsonValue
  import opened SchemaPreflight
  import opened CanonicalJson
  import FailureFingerprint

  /** A way down from a value: at each step into the item of that number, of an array or of an object. */
  predicate IsPath(v: Value, path: seq<nat>)
    decreases v
  {
    match v
    case Arr(items) => path == [] || (path[0] < |items| && IsPath(items[path[0]], path[1..]))
    case Obj(_, items) => path == [] || (path[0] < |items| && IsPath(items[path[0]], path[1..]))
    case _ => path == []
  }

  /** A path into one of several values. */
  predicate IsPathInto(vs: seq<Value>, path: seq<nat>) {
    path != [] && path[0] < |vs| && IsPath(vs[path[0]], path[1..])
  }

  // ---------------------------------------------------------------- the height

  lemma {:induction false} HeightMeans(v: Value)
    ensures forall path :: IsPath(v, path) ==> |path| <= Height(v)
    ensures exists path :: IsPath(v, path) && |path| == Height(v)
    decreases v, 1
  {
    if v.Arr? || v.Obj? {
      var deepest := HeightOfMeans(v.items);
      forall path | IsPath(v, path) ensures |path| <= Height(v) {
        assert path == [] || IsPathInto(v.items, path);
      }
      assert IsPath(v, deepest);
    } else {
      assert IsPath(v, []);
    }
  }

  lemma {:induction false} HeightOfMeans(vs: seq<Value>) returns (deepest: seq<nat>)
    ensures forall path :: IsPathInto(vs, path) ==> |path| <= HeightOf(vs)
    ensures |deepest| == HeightOf(vs) && (if vs == [] then deepest == [] else IsPathInto(vs, deepest))
    decreases vs, 0
  {
    deepest := [];
    if vs != [] {
      HeightMeans(vs[0]);
      var first :| IsPath(vs[0], first) && |first| == Height(vs[0]);
      var rest := HeightOfMeans(vs[1..]);
      forall path | IsPathInto(vs, path) ensures |path| <= HeightOf(vs) {
        if path[0] > 0 { LaterPath(vs, path[1..], path[0] - 1); }
      }
      if 1 + |first| >= HeightOf(vs[1..]) {
        deepest := [0] + first;
        assert deepest[1..] == first;
      } else {
        LaterPath(vs, rest[1..], rest[0]);
        deepest := [rest[0] + 1] + rest[1..];
        assert rest == [rest[0]] + rest[1..] && deepest[1..] == rest[1..];
      }
    }
  }

  /** Paths into all but the first are paths into all. */
  lemma {:induction false} LaterPath(vs: seq<Value>, path: seq<nat>, i: nat)
    requires vs != []
    ensures IsPathInto(vs, [i + 1] + path) <==> IsPathInto(vs[1..], [i] + path)
  {
    var a, b := [i + 1] + path, [i] + path;
    assert a[1..] == path && b[1..] == path;
    assert i + 1 < |vs| ==> vs[1..][i] == vs[i + 1];
  }

  // ---------------------------------------------------------------- the size

  /** The paths of a set, each with a step in front. */
  function Behind(i: nat, paths: set<seq<nat>>): set<seq<nat>> { set p | p in paths :: [i] + p }

  lemma {:induction false} AsManyBehind(i: nat, paths: set<seq<nat>>)
    ensures |Behind(i, paths)| == |paths|
    ensures forall p :: p in Behind(i, paths) <==> p != [] && p[0] == i && p[1..] in paths
    decreases paths
  {
    forall p ensures p in Behind(i, paths) <==> p != [] && p[0] == i && p[1..] in paths {
      if p != [] && p[0] == i && p[1..] in paths {
        assert p == [i] + p[1..];
      }
      if p in Behind(i, paths) {
        var q :| q in paths && p == [i] + q;
        assert p[1..] == q;
      }
    }
    if paths != {} {
      var p :| p in paths;
      var rest := paths - {p};
      AsManyBehind(i, rest);
      assert paths == rest + {p};
      assert Behind(i, paths) == Behind(i, rest) + {[i] + p};
      assert ([i] + p)[1..] == p;
      assert [i] + p !in Behind(i, rest);
    }
  }

  /** There are as many paths into a tree as it has nodes. */
  lemma {:induction false} NodesMean(v: Value) returns (paths: set<seq<nat>>)
    ensures forall p :: p in paths <==> IsPath(v, p)
    ensures |paths| == Nodes(v)
    decreases v, 1
  {
    if v.Arr? || v.Obj? {
      var below := NodesOfMean(v.items, 0);
      paths := {[]} + below;
      assert [] !in below;
      forall p ensures p in paths <==> IsPath(v, p) {
        if p != [] { assert v.items[0..] == v.items; }
      }
    } else {
      paths := {[]};
    }
  }

  /** The paths into several values, the first of which is number `from`. */
  lemma {:induction false} NodesOfMean(vs: seq<Value>, from: nat) returns (paths: set<seq<nat>>)
    ensures forall p :: p in paths <==> p != [] && from <= p[0] < from + |vs| && IsPath(vs[p[0] - from], p[1..])
    ensures |paths| == NodesOf(vs)
    decreases vs, 0
  {
    paths := {};
    if vs != [] {
      var first := NodesMean(vs[0]);
      var rest := NodesOfMean(vs[1..], from + 1);
      AsManyBehind(from, first);
      var here := Behind(from, first);
      paths := here + rest;
      assert here !! rest;
      hide IsPath, Nodes, Behind;
      forall p ensures p in paths <==> p != [] && from <= p[0] < from + |vs| && IsPath(vs[p[0] - from], p[1..]) {
        FromNext(vs, from, p);
      }
    }
  }

  /** Numbered from `from`, the values behind the first are numbered from the next. */
  lemma {:induction false} FromNext(vs: seq<Value>, from: nat, p: seq<nat>)
    requires vs != []
    ensures p != [] && from < p[0] < from + |vs| ==> vs[1..][p[0] - (from + 1)] == vs[p[0] - from]
  {
  }

  /** The preflight lets a tree pass exactly if no path is longer than 96 steps and there are at most 262144. */
  lemma {:induction false} PreflightMeans(v: Value) returns (paths: set<seq<nat>>)
    ensures forall p :: p in paths <==> IsPath(v, p)
    ensures Walk(v, 0, 0).Ok? <==> |paths| <= 262_144 && forall p :: p in paths ==> |p| <= 96
  {
    paths := NodesMean(v);
    HeightMeans(v);
    WalkMeasures(v, 0, 0);
    hide Walk, Nodes, Height, IsPath;
    var deepest :| IsPath(v, deepest) && |deepest| == Height(v);
    assert deepest in paths;
  }

  // ---------------------------------------------------------------- the duration

  /** Another value for one field. */
  function WithItem(v: Value, i: nat, item: Value): Value
    requires v.Obj? && i < |v.items|
  {
    Obj(v.keys, v.items[i := item])
  }

  lemma {:induction false} ItemOfKey(v: Value, i: nat)
    requires WellFormed(v) && v.Obj? && i < |v.keys|
    ensures Get(v, v.keys[i]) == Some(v.items[i])
  {
    var k := IndexOf(v.keys, v.keys[i]);
    assert k <= i;
    assert k == i;
  }

  lemma {:induction false} SameAsItself(v: Value)
    requires WellFormed(v)
    ensures SameButDuration(v, v)
    decreases v
  {
    if v.Arr? || v.Obj? {
      forall i | 0 <= i < |v.items| ensures SameButDuration(v.items[i], v.items[i]) { SameAsItself(v.items[i]); }
      forall i | v.Obj? && 0 <= i < |v.keys| ensures Get(v, v.keys[i]) == Some(v.items[i]) { ItemOfKey(v, i); }
      hide Get, WellFormed;
    }
  }

  lemma {:induction false} WithItemIsWellFormed(v: Value, i: nat, item: Value)
    requires WellFormed(v) && WellFormed(item) && v.Obj? && i < |v.keys|
    ensures WellFormed(WithItem(v, i, item))
  {
  }

  /** Two objects with the same keys are the same but for durations if and only if their other items are. */
  lemma {:induction false} SameItems(w: Value, v: Value)
    requires WellFormed(v) && WellFormed(w) && v.Obj? && w.Obj? && w.keys == v.keys
    ensures |v.items| == |w.items| == |v.keys|
    ensures SameButDuration(w, v) <==>
              forall k :: 0 <= k < |v.keys| && v.keys[k] != "duration_ms" ==> SameButDuration(w.items[k], v.items[k])
  {
    forall k | 0 <= k < |v.keys|
      ensures Get(v, v.keys[k]) == Some(v.items[k]) && Get(w, v.keys[k]) == Some(w.items[k])
    {
      ItemOfKey(v, k);
      ItemOfKey(w, k);
    }
    SameButDurationUnfolds(w, v);
    hide Get, WellFormed, SameButDuration;
  }

  /**
   With another value for one field, an output is the same but for durations exactly if that field is one, or its
   value is the same.
   */
  lemma {:induction false} OneFieldDecides(v: Value, i: nat, item: Value)
    requires WellFormed(v) && WellFormed(item) && v.Obj? && i < |v.keys|
    ensures WellFormed(WithItem(v, i, item))
    ensures SameButDuration(WithItem(v, i, item), v) <==>
              v.keys[i] == "duration_ms" || SameButDuration(item, v.items[i])
  {
    var w := WithItem(v, i, item);
    WithItemIsWellFormed(v, i, item);
    SameItems(w, v);
    forall k | 0 <= k < |v.keys| && k != i ensures SameButDuration(w.items[k], v.items[k]) { SameAsItself(v.items[k]); }
    hide WellFormed, SameButDuration;
  }

  /** With another item, an array is the same but for durations exactly if that item is. */
  lemma {:induction false} OneItemDecides(v: Value, i: nat, item: Value)
    requires WellFormed(v) && WellFormed(item) && v.Arr? && i < |v.items|
    ensures WellFormed(Arr(v.items[i := item]))
    ensures SameButDuration(Arr(v.items[i := item]), v) <==> SameButDuration(item, v.items[i])
  {
    var w := Arr(v.items[i := item]);
    forall k | 0 <= k < |v.items|
      && k != i ensures SameButDuration(w.items[k], v.items[k]) { SameAsItself(v.items[k]); }
    assert w.items[i] == item;
  }

  /** The value a path leads to. */
  function At(v: Value, path: seq<nat>): Value
    requires IsPath(v, path)
    decreases v
  {
    if path == [] then v else At(v.items[path[0]], path[1..])
  }

  /** Another value where a path leads. */
  function Replaced(v: Value, path: seq<nat>, other: Value): Value
    requires IsPath(v, path)
    decreases v
  {
    if path == [] then other
    else
      var item := Replaced(v.items[path[0]], path[1..], other);
      if v.Obj? then WithItem(v, path[0], item) else Arr(v.items[path[0] := item])
  }

  /** A step of the path goes into a field named duration_ms. */
  predicate PassesDuration(v: Value, path: seq<nat>)
    requires IsPath(v, path)
    decreases v
  {
    path != []
    && ((v.Obj? && path[0] < |v.keys| && v.keys[path[0]] == "duration_ms")
        || PassesDuration(v.items[path[0]], path[1..]))
  }

  lemma {:induction false} PathDecides(v: Value, path: seq<nat>, other: Value)
    requires WellFormed(v) && WellFormed(other) && IsPath(v, path)
    ensures WellFormed(Replaced(v, path, other))
    ensures SameButDuration(Replaced(v, path, other), v) <==>
              PassesDuration(v, path) || SameButDuration(other, At(v, path))
    decreases v
  {
    if path != [] {
      var i := path[0];
      PathDecides(v.items[i], path[1..], other);
      var item := Replaced(v.items[i], path[1..], other);
      if v.Obj? { OneFieldDecides(v, i, item); } else { OneItemDecides(v, i, item); }
      hide SameButDuration, WellFormed;
    }
  }

  /**
   The fingerprint of a failure forgets the durations in its output, at any depth, and nothing else: another
   leaf anywhere leaves it as it was exactly if a field named duration_ms is on the way there.
   */
  lemma {:induction false} DurationIsForgotten(name: string, arguments: Value, code: string, output: Value,
                                               path: seq<nat>, leaf: Value)
    requires ':' !in code && WellFormed(arguments) && WellFormed(output) && WellFormed(leaf)
    requires IsPath(output, path) && !IsContainer(leaf) && leaf != At(output, path)
    ensures FailureFingerprint.Fingerprint(name, arguments, code, Replaced(output, path, leaf)) ==
              FailureFingerprint.Fingerprint(name, arguments, code, output)
       <==> PassesDuration(output, path)
  {
    PathDecides(output, path, leaf);
    LeavesDiffer(leaf, At(output, path));
    SameTwice(arguments);
    hide WellFormed, SameButDuration, Same, Replaced, At, PassesDuration;
    FailureFingerprint.FingerprintIdentifiesFailure(name, arguments, code, Replaced(output, path, leaf),
                                                    name, arguments, code, output);
  }

  lemma {:induction false} LeavesDiffer(a: Value, b: Value)
    requires !IsContainer(a) && a != b
    ensures !SameButDuration(a, b)
  {
  }

  lemma {:induction false} SameTwice(v: Value)
    requires WellFormed(v)
    ensures Same(v, v)
  {
    hide WellFormed, Same, Canon;
    CanonIsFaithful(v, v);
  }
}
