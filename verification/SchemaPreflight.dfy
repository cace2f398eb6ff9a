/**
 The preflight of the tool-argument validator: an explicit-stack walk that bounds the depth and
 the size of a JSON tree before anything recursive touches it.
 */
module SchemaPreflight {
  import opened ByteStrings
  import opened JsonValue

  const MAX_DEPTH: nat := 96
  const MAX_NODES: nat := 262_144

  datatype TreeError = TooDeep | TooManyNodes

  /** A value still to visit, or an iterator over the rest of a container's items. */
  datatype Frame = Visit(value: Value, depth: nat) | Iterate(rest: seq<Value>, depth: nat)

  // ---------------------------------------------------------------- the recursive reading

  /** Visiting v at some depth when n values were counted before it. */
  function Walk(v: Value, depth: nat, n: nat): Result<nat, TreeError>
    decreases v, 1
  {
    if depth > MAX_DEPTH then Err(TooDeep)
    else if n + 1 > MAX_NODES then Err(TooManyNodes)
    else
      match v
      case Arr(items) => WalkAll(items, depth + 1, n + 1)
      case Obj(_, items) => WalkAll(items, depth + 1, n + 1)
      case _ => Ok(n + 1)
  }

  function WalkAll(vs: seq<Value>, depth: nat, n: nat): Result<nat, TreeError>
    decreases vs, 0
  {
    if vs == [] then Ok(n)
    else
      var first := Walk(vs[0], depth, n);
      if first.Err? then first else WalkAll(vs[1..], depth, first.value)
  }

  /** The walk counts every node, and succeeds exactly when depth and size are within bounds. */
  lemma {:induction false} WalkMeasures(v: Value, depth: nat, n: nat)
    requires n <= MAX_NODES
    ensures Walk(v, depth, n) == Ok(n + Nodes(v)) || Walk(v, depth, n).Err?
    ensures Walk(v, depth, n).Ok? <==> depth + Height(v) <= MAX_DEPTH && n + Nodes(v) <= MAX_NODES
    decreases v, 1
  {
    if depth <= MAX_DEPTH && n + 1 <= MAX_NODES {
      match v
      case Arr(items) => WalkAllMeasures(items, depth + 1, n + 1);
      case Obj(_, items) => WalkAllMeasures(items, depth + 1, n + 1);
      case _ =>
    }
  }

  lemma {:induction false} WalkAllMeasures(vs: seq<Value>, depth: nat, n: nat)
    requires n <= MAX_NODES && 1 <= depth
    ensures WalkAll(vs, depth, n) == Ok(n + NodesOf(vs)) || WalkAll(vs, depth, n).Err?
    ensures WalkAll(vs, depth, n).Ok? <==>
              (vs == [] || depth - 1 + HeightOf(vs) <= MAX_DEPTH) && n + NodesOf(vs) <= MAX_NODES
    decreases vs, 0
  {
    if vs != [] {
      WalkMeasures(vs[0], depth, n);
      if Walk(vs[0], depth, n).Ok? { WalkAllMeasures(vs[1..], depth, n + Nodes(vs[0])); }
    }
  }

  // ---------------------------------------------------------------- the explicit stack

  /** What one frame still makes of the count. */
  function RunFrame(frame: Frame, n: nat): Result<nat, TreeError> {
    match frame
    case Visit(v, depth) => Walk(v, depth, n)
    case Iterate(vs, depth) => WalkAll(vs, depth, n)
  }

  /** What is left to do: the frames of the stack, the top one (the last) first. */
  function Unwind(stack: seq<Frame>, n: nat): Result<nat, TreeError>
    decreases |stack|
  {
    if stack == [] then Ok(n)
    else
      var r := RunFrame(stack[|stack| - 1], n);
      if r.Err? then r else Unwind(stack[..|stack| - 1], r.value)
  }

  lemma {:induction false} UnwindTop(stack: seq<Frame>, top: Frame, n: nat)
    ensures var r := RunFrame(top, n);
            Unwind(stack + [top], n) == if r.Err? then r else Unwind(stack, r.value)
  {
    hide RunFrame;
    assert (stack + [top])[..|stack|] == stack;
  }

  function FrameWeight(frame: Frame): nat {
    match frame
    case Visit(v, _) => 3 * Nodes(v) - 1
    case Iterate(vs, _) => 1 + 3 * NodesOf(vs)
  }

  function Weight(stack: seq<Frame>): nat
    decreases |stack|
  {
    if stack == [] then 0 else Weight(stack[..|stack| - 1]) + FrameWeight(stack[|stack| - 1])
  }

  lemma {:induction false} WeightTop(stack: seq<Frame>, top: Frame)
    ensures Weight(stack + [top]) == Weight(stack) + FrameWeight(top)
  {
    hide FrameWeight;
    assert (stack + [top])[..|stack|] == stack;
  }

  /** One iterator per level, and at most one value, on top. */
  predicate IsSpine(stack: seq<Frame>) {
    forall i :: 0 <= i < |stack| ==>
      if stack[i].Iterate? then stack[i].depth == i + 1 else i == |stack| - 1 && stack[i].depth == i
  }

  /**
   The walk with its stack: the verdict of the recursive reading, on a stack of at most one
   iterator for each of the 97 levels an iterator may stand for, plus one value, however wide
   the tree is.
   */
  method Preflight(value: Value) returns (error: Option<TreeError>, ghost highWater: nat)
    ensures var walk := Walk(value, 0, 0);
            error == if walk.Err? then Some(walk.error) else None
    ensures error == None <==> Height(value) <= MAX_DEPTH && Nodes(value) <= MAX_NODES
    ensures highWater <= MAX_DEPTH + 2
  {
    hide Walk, WalkAll, Nodes, NodesOf, Weight, Unwind;
    WalkMeasures(value, 0, 0);
    var nodes := 0;
    var pending := [Visit(value, 0)];
    highWater := 1;
    UnwindTop([], Visit(value, 0), 0);
    if Walk(value, 0, 0).Ok? { UnwindNothing(Walk(value, 0, 0).value); }
    assert [] + [Visit(value, 0)] == pending;
    while pending != []
      invariant Unwind(pending, nodes) == Walk(value, 0, 0)
      invariant IsSpine(pending)
      invariant |pending| <= MAX_DEPTH + 2 && highWater <= MAX_DEPTH + 2
      invariant forall i :: 0 <= i < |pending| && pending[i].Iterate? ==> pending[i].depth <= MAX_DEPTH + 1
      decreases Weight(pending)
    {
      highWater := if |pending| > highWater then |pending| else highWater;
      var frame := pending[|pending| - 1];
      ghost var all := pending;
      pending := pending[..|pending| - 1];
      assert all == pending + [frame];
      UnwindTop(pending, frame, nodes);
      WeightTop(pending, frame);
      match frame {
        case Visit(v, depth) =>
          WalkStep(v, depth, nodes);
          if depth > MAX_DEPTH { error := Some(TooDeep); return; }
          nodes := nodes + 1;
          if nodes > MAX_NODES { error := Some(TooManyNodes); return; }
          if IsContainer(v) {
            UnwindTop(pending, Iterate(Children(v), depth + 1), nodes);
            WeightTop(pending, Iterate(Children(v), depth + 1));
            pending := pending + [Iterate(Children(v), depth + 1)];
          }
        case Iterate(values, depth) =>
          IterateStep(values, depth, nodes);
          if values != [] {
            var deeper := pending + [Iterate(values[1..], depth)];
            WeightTop(pending, Iterate(values[1..], depth));
            UnwindTop(deeper, Visit(values[0], depth), nodes);
            WeightTop(deeper, Visit(values[0], depth));
            ghost var first := Walk(values[0], depth, nodes);
            if first.Ok? { UnwindTop(pending, Iterate(values[1..], depth), first.value); }
            pending := deeper + [Visit(values[0], depth)];
          }
      }
    }
    UnwindNothing(nodes);
    error := None;
  }

  /** One unfolding of the walk of a value, and of its size. */
  lemma {:induction false} WalkStep(v: Value, depth: nat, n: nat)
    ensures Walk(v, depth, n) ==
            if depth > MAX_DEPTH then Err(TooDeep)
            else if n + 1 > MAX_NODES then Err(TooManyNodes)
            else if IsContainer(v) then WalkAll(Children(v), depth + 1, n + 1)
            else Ok(n + 1)
    ensures Nodes(v) == 1 + (if IsContainer(v) then NodesOf(Children(v)) else 0)
  {
  }

  lemma {:induction false} IterateStep(vs: seq<Value>, depth: nat, n: nat)
    ensures vs == [] ==> WalkAll(vs, depth, n) == Ok(n)
    ensures vs != [] ==>
              var first := Walk(vs[0], depth, n);
              WalkAll(vs, depth, n) == if first.Err? then first else WalkAll(vs[1..], depth, first.value)
    ensures vs != [] ==> NodesOf(vs) == Nodes(vs[0]) + NodesOf(vs[1..])
  {
  }

  lemma {:induction false} UnwindNothing(n: nat)
    ensures Unwind([], n) == Ok(n)
  {
  }
}
