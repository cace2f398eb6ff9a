/**
 What the guardian protocol can do: from every reachable state with a free lock and an accepted log a whole
 generation can be run, and every torn log can be left behind. And what one step does to a child.
 */
module GuardianRuns {
  import opened ByteStrings
  import opened GateLog
  import opened GuardianProtocol

  /** A run from one state to another. */
  ghost predicate IsRunTo(hash: Sha256, from: System, run: seq<System>, actions: seq<Action>, to: System) {
    IsRun(hash, run, actions) && run[0] == from && run[|run| - 1] == to
  }

  lemma {:induction false} NoSteps(hash: Sha256, s: System)
    ensures IsRunTo(hash, s, [s], [], s)
  {
  }

  lemma {:induction false} OneMoreStep(hash: Sha256, from: System, run: seq<System>, actions: seq<Action>, s: System,
                                       a: Action, s': System)
    returns (more: seq<System>, acts: seq<Action>)
    requires IsRunTo(hash, from, run, actions, s) && Step(hash, s, a, s')
    ensures IsRunTo(hash, from, more, acts, s') && more == run + [s'] && acts == actions + [a]
  {
    hide Step;
    more, acts := run + [s'], actions + [a];
    forall i | 0 <= i < |acts| ensures Step(hash, more[i], acts[i], more[i + 1]) {
      if i < |actions| { assert Step(hash, run[i], actions[i], run[i + 1]); }
    }
  }

  /** Generation g in a state of its own over those of s. */
  function With(s: System, g: nat, gen: Generation, file: bytes, synced: bytes, lock: Option<nat>,
                children: map<nat, Child>): System {
    System(file, synced, lock, s.gens[g := gen], children)
  }

  lemma {:induction false} SetWith(s: System, g: nat, gen: Generation, other: Generation, file: bytes, synced: bytes,
                                   lock: Option<nat>, children: map<nat, Child>)
    ensures SetGen(With(s, g, gen, file, synced, lock, children), g, other) ==
              With(s, g, other, file, synced, lock, children)
    ensures Enter(With(s, g, gen, file, synced, lock, children), g, other.phase) ==
              With(s, g, gen.(phase := other.phase), file, synced, lock, children)
  {
    assert s.gens[g := gen][g := other] == s.gens[g := other];
    assert s.gens[g := gen][g := gen.(phase := other.phase)] == s.gens[g := gen.(phase := other.phase)];
  }

  /** Generation id in a phase, nothing in its pipes. */
  function Quiet(id: bytes, phase: Phase, host: Host): Generation { Generation(id, phase, host, [], [], []) }

  // ---------------------------------------------------------------- opening

  /** From a free and accepted gate, a generation gets to any part of its ACTIVE record. */
  lemma {:induction false} Opens(hash: Sha256, s: System, g: nat, id: bytes, n: nat)
    returns (run: seq<System>, actions: seq<Action>)
    requires QuiescenceSucceeds(hash, s) && g !in s.gens && IsGeneration(id) && n <= RECORD_BYTES
    ensures IsRunTo(hash, s, run, actions,
                    With(s, g, Quiet(id, WritingActive(n), Waiting), Encode(hash, ACTIVE, id)[..n], [], Some(g),
                         s.children))
  {
    hide Accepts, Encode, IsGeneration, IsRunTo;
    GenerationHasLength(id);
    var f, t, c := s.file, s.synced, s.children;
    var x0 := With(s, g, Quiet(id, Opening, Waiting), f, t, None, c);
    var x1 := With(s, g, Quiet(id, Locked, Waiting), f, t, Some(g), c);
    var x2 := With(s, g, Quiet(id, Accepted, Waiting), f, t, Some(g), c);
    var x3 := With(s, g, Quiet(id, Truncated, Waiting), [], t, Some(g), c);
    var x4 := With(s, g, Quiet(id, WritingActive(0), Waiting), [], [], Some(g), c);
    SetWith(s, g, Quiet(id, Opening, Waiting), Quiet(id, Locked, Waiting), f, t, None, c);
    SetWith(s, g, Quiet(id, Locked, Waiting), Quiet(id, Accepted, Waiting), f, t, Some(g), c);
    SetWith(s, g, Quiet(id, Accepted, Waiting), Quiet(id, Truncated, Waiting), f, t, Some(g), c);
    SetWith(s, g, Quiet(id, Truncated, Waiting), Quiet(id, WritingActive(0), Waiting), [], t, Some(g), c);
    hide SetGen, Enter;
    run, actions := [s], [];
    NoSteps(hash, s);
    assert Step(hash, s, Start(g, id), x0) by { StartStep(hash, s, g, id); }
    run, actions := OneMoreStep(hash, s, run, actions, s, Start(g, id), x0);
    run, actions := OneMoreStep(hash, s, run, actions, x0, TryLock(g), x1);
    run, actions := OneMoreStep(hash, s, run, actions, x1, ReadLog(g), x2);
    run, actions := OneMoreStep(hash, s, run, actions, x2, Truncate(g), x3);
    run, actions := OneMoreStep(hash, s, run, actions, x3, SyncTruncate(g), x4);
    assert Encode(hash, ACTIVE, id)[..0] == [];
    if n > 0 {
      var x5 := With(s, g, Quiet(id, WritingActive(n), Waiting), Encode(hash, ACTIVE, id)[..n], [], Some(g), c);
      assert Step(hash, x4, WriteActive(g, n), x5) by { WriteStep(hash, s, g, id, n, c); }
      run, actions := OneMoreStep(hash, s, run, actions, x4, WriteActive(g, n), x5);
    }
  }

  lemma {:induction false} GenerationHasLength(id: bytes)
    requires IsGeneration(id)
    ensures |id| == 16
  {
  }

  lemma {:induction false} StartStep(hash: Sha256, s: System, g: nat, id: bytes)
    requires g !in s.gens && IsGeneration(id) && s.lock == None
    ensures Step(hash, s, Start(g, id), With(s, g, Quiet(id, Opening, Waiting), s.file, s.synced, None, s.children))
  {
    hide IsGeneration;
  }

  lemma {:induction false} WriteStep(hash: Sha256, s: System, g: nat, id: bytes, n: nat, c: map<nat, Child>)
    requires |id| == 16 && 0 < n <= RECORD_BYTES
    ensures Step(hash, With(s, g, Quiet(id, WritingActive(0), Waiting), [], [], Some(g), c), WriteActive(g, n),
                 With(s, g, Quiet(id, WritingActive(n), Waiting), Encode(hash, ACTIVE, id)[..n], [], Some(g), c))
  {
    hide Encode;
    SetWith(s, g, Quiet(id, WritingActive(0), Waiting), Quiet(id, WritingActive(n), Waiting), [], [], Some(g), c);
    hide Enter;
    assert [] + Encode(hash, ACTIVE, id)[0..n] == Encode(hash, ACTIVE, id)[..n];
  }

  // ---------------------------------------------------------------- serving a child

  /** From a whole ACTIVE record the guardian gets to publish READY, and its host to hold the lease. */
  lemma {:induction false} Serves(hash: Sha256, from: System, run0: seq<System>, actions0: seq<Action>, s: System,
                                  g: nat, id: bytes)
    returns (run: seq<System>, actions: seq<Action>)
    requires IsGeneration(id)
    requires IsRunTo(hash, from, run0, actions0,
                     With(s, g, Quiet(id, WritingActive(RECORD_BYTES), Waiting), Encode(hash, ACTIVE, id), [], Some(g),
                          s.children))
    ensures run0 <= run
    ensures IsRunTo(hash, from, run, actions,
                    With(s, g, Quiet(id, Serving, Holding), Encode(hash, ACTIVE, id), Encode(hash, ACTIVE, id), Some(g),
                         s.children))
  {
    hide Accepts, Encode, IsGeneration, IsRunTo;
    GenerationHasLength(id);
    var a, c := Encode(hash, ACTIVE, id), s.children;
    var y0 := With(s, g, Quiet(id, WritingActive(RECORD_BYTES), Waiting), a, [], Some(g), c);
    var y1 := With(s, g, Quiet(id, Armed, Waiting), a, a, Some(g), c);
    var y2 := With(s, g, Quiet(id, Serving, Waiting), a, a, Some(g), c);
    var y3 := With(s, g, Quiet(id, Serving, Holding), a, a, Some(g), c);
    SetWith(s, g, Quiet(id, WritingActive(RECORD_BYTES), Waiting), Quiet(id, Armed, Waiting), a, [], Some(g), c);
    SetWith(s, g, Quiet(id, Armed, Waiting), Quiet(id, Serving, Waiting), a, a, Some(g), c);
    SetWith(s, g, Quiet(id, Serving, Waiting), Quiet(id, Serving, Holding), a, a, Some(g), c);
    hide SetGen, Enter;
    run, actions := OneMoreStep(hash, from, run0, actions0, y0, SyncActive(g), y1);
    run, actions := OneMoreStep(hash, from, run, actions, y1, PublishReady(g), y2);
    run, actions := OneMoreStep(hash, from, run, actions, y2, HostReceivesReady(g), y3);
  }

  /** The states of a generation and one child of it. */
  function Pair(s: System, g: nat, gen: Generation, c: nat, state: ChildState, registered: bool, a: bytes): System {
    With(s, g, gen, a, a, Some(g), s.children[c := Child(g, state, registered)])
  }

  lemma {:induction false} SetPair(s: System, g: nat, gen: Generation, other: Generation, c: nat, state: ChildState,
                                   registered: bool, state': ChildState, registered': bool, a: bytes)
    ensures SetGen(Pair(s, g, gen, c, state, registered, a), g, other) == Pair(s, g, other, c, state, registered, a)
    ensures SetChild(Pair(s, g, gen, c, state, registered, a), c, state') == Pair(s, g, gen, c, state', registered, a)
    ensures Pair(s, g, gen, c, state, registered, a)
            .(children := Pair(s, g, gen, c, state, registered, a).children[c := Child(g, state, registered')])
            == Pair(s, g, gen, c, state, registered', a)
  {
    SetWith(s, g, gen, other, a, a, Some(g), s.children[c := Child(g, state, registered)]);
    SetTwice(s.children, c, Child(g, state, registered), Child(g, state', registered));
    SetTwice(s.children, c, Child(g, state, registered), Child(g, state, registered'));
  }

  lemma {:induction false} SetTwice(children: map<nat, Child>, c: nat, first: Child, second: Child)
    ensures children[c := first][c := second] == children[c := second]
  {
  }

  /** A child is forked, registered by the guardian and acknowledged, runs, and exits. */
  lemma {:induction false} ChildRuns(hash: Sha256, from: System, run0: seq<System>, actions0: seq<Action>, s: System,
                                     g: nat, id: bytes, c: nat, a: bytes)
    returns (run: seq<System>, actions: seq<Action>)
    requires c !in s.children
    requires IsRunTo(hash, from, run0, actions0, With(s, g, Quiet(id, Serving, Holding), a, a, Some(g), s.children))
    ensures run0 <= run
    ensures IsRunTo(hash, from, run, actions, Pair(s, g, Quiet(id, Serving, Holding), c, Running, true, a))
  {
    var gen := Quiet(id, Serving, Holding);
    var gen1 := gen.(pidfds := [c]);
    var gen2 := gen1.(control := [Register(c)]);
    var gen3 := gen.(acks := [c]);
    hide Accepts, Encode, IsRunTo;
    var z0, z1 := With(s, g, gen, a, a, Some(g), s.children), Pair(s, g, gen, c, Forked, false, a);
    var z2, z3 := Pair(s, g, gen1, c, PidfdSent, false, a), Pair(s, g, gen2, c, FrameSent, false, a);
    var z4, z5 := Pair(s, g, gen3, c, FrameSent, true, a), Pair(s, g, gen, c, Running, true, a);
    assert Step(hash, z0, Fork(g, c), z1);
    run, actions := OneMoreStep(hash, from, run0, actions0, z0, Fork(g, c), z1);
    SendsPidfd(hash, s, g, id, c, a);
    run, actions := OneMoreStep(hash, from, run, actions, z1, SendPidfd(c), z2);
    SendsFrame(hash, s, g, id, c, a);
    run, actions := OneMoreStep(hash, from, run, actions, z2, SendFrame(c), z3);
    IsRegistered(hash, s, g, id, c, a);
    run, actions := OneMoreStep(hash, from, run, actions, z3, ReceivePidfd(g, true), z4);
    ReadsAck(hash, s, g, id, c, a);
    run, actions := OneMoreStep(hash, from, run, actions, z4, ReadAck(c), z5);
  }

  lemma {:induction false} SendsPidfd(hash: Sha256, s: System, g: nat, id: bytes, c: nat, a: bytes)
    ensures var gen := Quiet(id, Serving, Holding);
            Step(hash, Pair(s, g, gen, c, Forked, false, a), SendPidfd(c),
                 Pair(s, g, gen.(pidfds := [c]), c, PidfdSent, false, a))
  {
    var gen := Quiet(id, Serving, Holding);
    SetPair(s, g, gen, gen, c, Forked, false, PidfdSent, false, a);
    SetPair(s, g, gen, gen.(pidfds := [c]), c, PidfdSent, false, PidfdSent, false, a);
    assert [] + [c] == [c];
    hide SetGen, SetChild;
  }

  lemma {:induction false} SendsFrame(hash: Sha256, s: System, g: nat, id: bytes, c: nat, a: bytes)
    ensures var gen := Quiet(id, Serving, Holding).(pidfds := [c]);
            Step(hash, Pair(s, g, gen, c, PidfdSent, false, a), SendFrame(c),
                 Pair(s, g, gen.(control := [Register(c)]), c, FrameSent, false, a))
  {
    var gen := Quiet(id, Serving, Holding).(pidfds := [c]);
    SetPair(s, g, gen, gen, c, PidfdSent, false, FrameSent, false, a);
    SetPair(s, g, gen, gen.(control := [Register(c)]), c, FrameSent, false, FrameSent, false, a);
    assert [] + [Register(c)] == [Register(c)];
    hide SetGen, SetChild;
  }

  lemma {:induction false} IsRegistered(hash: Sha256, s: System, g: nat, id: bytes, c: nat, a: bytes)
    ensures var gen := Quiet(id, Serving, Holding);
            Step(hash, Pair(s, g, gen.(pidfds := [c], control := [Register(c)]), c, FrameSent, false, a),
                 ReceivePidfd(g, true), Pair(s, g, gen.(acks := [c]), c, FrameSent, true, a))
  {
    var gen := Quiet(id, Serving, Holding);
    var before := gen.(pidfds := [c], control := [Register(c)]);
    SetPair(s, g, before, gen, c, FrameSent, false, FrameSent, true, a);
    SetPair(s, g, before, gen.(acks := [c]), c, FrameSent, true, FrameSent, true, a);
    assert [Register(c)][1..] == [] && [c][1..] == [] && [] + [c] == [c];
    hide SetGen, SetChild;
  }

  lemma {:induction false} ReadsAck(hash: Sha256, s: System, g: nat, id: bytes, c: nat, a: bytes)
    ensures var gen := Quiet(id, Serving, Holding);
            Step(hash, Pair(s, g, gen.(acks := [c]), c, FrameSent, true, a), ReadAck(c),
                 Pair(s, g, gen, c, Running, true, a))
  {
    var gen := Quiet(id, Serving, Holding);
    SetPair(s, g, gen.(acks := [c]), gen, c, FrameSent, true, Running, true, a);
    SetPair(s, g, gen.(acks := [c]), gen, c, Running, true, Running, true, a);
    assert [c][1..] == [];
    hide SetGen, SetChild;
  }

  // ---------------------------------------------------------------- closing

  /** What a host leaves in the control pipe: nothing when it dies, and otherwise one frame to be taken. */
  predicate IsGoodbye(frames: seq<Frame>) { frames == [] || frames == [Release] || frames == [Invalid] }

  /** The child exits, the host ends, and the guardian leaves its control loop. */
  lemma {:induction false} Ends(hash: Sha256, from: System, run0: seq<System>, actions0: seq<Action>, s: System, g: nat,
                                id: bytes, c: nat, frames: seq<Frame>, a: bytes)
    returns (run: seq<System>, actions: seq<Action>)
    requires IsGoodbye(frames)
    requires IsRunTo(hash, from, run0, actions0, Pair(s, g, Quiet(id, Serving, Holding), c, Running, true, a))
    ensures run0 <= run
    ensures IsRunTo(hash, from, run, actions, Pair(s, g, Quiet(id, Killing, Ended), c, Exited, true, a))
  {
    hide IsRunTo, Step, Pair, IsGoodbye;
    var gen := Quiet(id, Serving, Holding);
    var w0, w1 := Pair(s, g, gen, c, Running, true, a), Pair(s, g, gen, c, Exited, true, a);
    ChildLeaves(hash, s, g, id, c, a);
    run, actions := OneMoreStep(hash, from, run0, actions0, w0, ChildExits(c), w1);
    var w2 := Pair(s, g, gen.(host := Ended, control := frames), c, Exited, true, a);
    HostLeaves(hash, s, g, id, c, frames, a);
    run, actions := OneMoreStep(hash, from, run, actions, w1, HostEnds(g, frames), w2);
    GuardianNotices(hash, s, g, id, c, frames, a);
    run, actions := OneMoreStep(hash, from, run, actions, w2, if frames == [] then EndOfInput(g) else TakeFrame(g),
                                Pair(s, g, Quiet(id, Killing, Ended), c, Exited, true, a));
  }

  /** With the containment empty the guardian gets to any part of its CLEAN record. */
  lemma {:induction false} Proves(hash: Sha256, from: System, run0: seq<System>, actions0: seq<Action>, s: System,
                                  g: nat, id: bytes, c: nat, n: nat)
    returns (run: seq<System>, actions: seq<Action>)
    requires |id| == 16 && n <= RECORD_BYTES
    requires forall d :: d in s.children ==> s.children[d].gen != g
    requires IsRunTo(hash, from, run0, actions0,
                     Pair(s, g, Quiet(id, Killing, Ended), c, Exited, true, Encode(hash, ACTIVE, id)))
    ensures run0 <= run
    ensures IsRunTo(hash, from, run, actions,
                    With(s, g, Quiet(id, WritingClean(n), Ended),
                         Encode(hash, ACTIVE, id) + Encode(hash, CLEAN, id)[..n], Encode(hash, ACTIVE, id), Some(g),
                         s.children[c := Child(g, Exited, true)]))
  {
    hide IsRunTo, Step, With, Encode;
    var a, left := Encode(hash, ACTIVE, id), s.children[c := Child(g, Exited, true)];
    var w3, w4 := Pair(s, g, Quiet(id, Killing, Ended), c, Exited, true, a),
                  Pair(s, g, Quiet(id, WritingClean(0), Ended), c, Exited, true, a);
    ContainmentIsEmpty(hash, s, g, id, c, a);
    run, actions := OneMoreStep(hash, from, run0, actions0, w3, ContainmentEmpty(g), w4);
    assert a + Encode(hash, CLEAN, id)[..0] == a;
    if n > 0 {
      var w5 := With(s, g, Quiet(id, WritingClean(n), Ended), a + Encode(hash, CLEAN, id)[..n], a, Some(g), left);
      CleanStep(hash, s, g, id, n, left);
      run, actions := OneMoreStep(hash, from, run, actions, w4, WriteClean(g, n), w5);
    }
  }

  lemma {:induction false} ChildLeaves(hash: Sha256, s: System, g: nat, id: bytes, c: nat, a: bytes)
    ensures var gen := Quiet(id, Serving, Holding);
            Step(hash, Pair(s, g, gen, c, Running, true, a), ChildExits(c), Pair(s, g, gen, c, Exited, true, a))
  {
    var gen := Quiet(id, Serving, Holding);
    SetPair(s, g, gen, gen, c, Running, true, Exited, true, a);
    hide SetChild;
  }

  lemma {:induction false} HostLeaves(hash: Sha256, s: System, g: nat, id: bytes, c: nat, frames: seq<Frame>, a: bytes)
    requires IsGoodbye(frames)
    ensures var gen := Quiet(id, Serving, Holding);
            Step(hash, Pair(s, g, gen, c, Exited, true, a), HostEnds(g, frames),
                 Pair(s, g, gen.(host := Ended, control := frames), c, Exited, true, a))
  {
    var gen := Quiet(id, Serving, Holding);
    SetPair(s, g, gen, gen.(host := Ended, control := frames), c, Exited, true, Exited, true, a);
    assert [] + frames == frames;
    hide SetGen, SetChild;
  }

  lemma {:induction false} GuardianNotices(hash: Sha256, s: System, g: nat, id: bytes, c: nat, frames: seq<Frame>,
                                           a: bytes)
    requires IsGoodbye(frames)
    ensures var gen := Quiet(id, Serving, Ended).(control := frames);
            Step(hash, Pair(s, g, gen, c, Exited, true, a), if frames == [] then EndOfInput(g) else TakeFrame(g),
                 Pair(s, g, Quiet(id, Killing, Ended), c, Exited, true, a))
  {
    var gen := Quiet(id, Serving, Ended).(control := frames);
    SetPair(s, g, gen, Quiet(id, Killing, Ended), c, Exited, true, Exited, true, a);
    SetWith(s, g, gen, Quiet(id, Killing, Ended), a, a, Some(g), s.children[c := Child(g, Exited, true)]);
    assert frames != [] ==> frames[1..] == [];
    hide SetGen, Enter;
  }

  lemma {:induction false} ContainmentIsEmpty(hash: Sha256, s: System, g: nat, id: bytes, c: nat, a: bytes)
    requires forall d :: d in s.children ==> s.children[d].gen != g
    ensures Step(hash, Pair(s, g, Quiet(id, Killing, Ended), c, Exited, true, a), ContainmentEmpty(g),
                 Pair(s, g, Quiet(id, WritingClean(0), Ended), c, Exited, true, a))
  {
    SetWith(s, g, Quiet(id, Killing, Ended), Quiet(id, WritingClean(0), Ended), a, a, Some(g),
            s.children[c := Child(g, Exited, true)]);
    hide Enter;
  }

  lemma {:induction false} CleanStep(hash: Sha256, s: System, g: nat, id: bytes, n: nat, left: map<nat, Child>)
    requires |id| == 16 && 0 < n <= RECORD_BYTES
    ensures var a := Encode(hash, ACTIVE, id);
            Step(hash, With(s, g, Quiet(id, WritingClean(0), Ended), a, a, Some(g), left), WriteClean(g, n),
                 With(s, g, Quiet(id, WritingClean(n), Ended), a + Encode(hash, CLEAN, id)[..n], a, Some(g), left))
  {
    hide Encode;
    var a := Encode(hash, ACTIVE, id);
    SetWith(s, g, Quiet(id, WritingClean(0), Ended), Quiet(id, WritingClean(n), Ended), a, a, Some(g), left);
    hide Enter;
    assert Encode(hash, CLEAN, id)[0..n] == Encode(hash, CLEAN, id)[..n];
  }

  /** From a whole CLEAN record to the free lock. */
  lemma {:induction false} Unlocks(hash: Sha256, from: System, run0: seq<System>, actions0: seq<Action>, s: System,
                                   g: nat, id: bytes, file: bytes, synced: bytes, left: map<nat, Child>)
    returns (run: seq<System>, actions: seq<Action>)
    requires IsRunTo(hash, from, run0, actions0,
                     With(s, g, Quiet(id, WritingClean(RECORD_BYTES), Ended), file, synced, Some(g), left))
    ensures run0 <= run
    ensures IsRunTo(hash, from, run, actions, With(s, g, Quiet(id, Gone, Ended), file, file, None, left))
  {
    hide Accepts, Encode, IsRunTo;
    var gen := Quiet(id, WritingClean(RECORD_BYTES), Ended);
    var v0, v1 := With(s, g, gen, file, synced, Some(g), left),
      With(s, g, Quiet(id, Proven, Ended), file, file, Some(g), left);
    SetWith(s, g, gen, Quiet(id, Proven, Ended), file, synced, Some(g), left);
    SetWith(s, g, Quiet(id, Proven, Ended), Quiet(id, Gone, Ended), file, file, Some(g), left);
    hide Enter;
    run, actions := OneMoreStep(hash, from, run0, actions0, v0, SyncClean(g), v1);
    var v2 := With(s, g, Quiet(id, Gone, Ended), file, file, None, left);
    run, actions := OneMoreStep(hash, from, run, actions, v1, Unlock(g), v2);
  }

  // ---------------------------------------------------------------- whole generations

  /** A state in which a guardian serves and a child it registered runs. */
  ghost predicate RunsChild(s: System, g: nat, c: nat) {
    && IsAt(s, g, Serving) && s.gens[g].host == Holding && s.lock == Some(g)
    && c in s.children && s.children[c] == Child(g, Running, true)
  }

  /**
   In every state that keeps the invariant, with the lock free and the log accepted, a new generation can be
   run from its start to its end: its guardian serves, a child of it runs, and when the host has gone, whether
   it said so or died, the gate is accepted again and holds exactly this generation, durably.
   */
  lemma {:induction false} GenerationCanRun(hash: Sha256, s: System, g: nat, id: bytes, c: nat, frames: seq<Frame>)
    returns (run: seq<System>, actions: seq<Action>)
    requires Inv(hash, s) && QuiescenceSucceeds(hash, s)
    requires g !in s.gens && c !in s.children && IsGeneration(id) && IsGoodbye(frames)
    ensures IsRun(hash, run, actions) && run[0] == s
    ensures exists i :: 0 <= i < |run| && RunsChild(run[i], g, c)
    ensures var end := run[|run| - 1];
            && QuiescenceSucceeds(hash, end)
            && end.file == Encode(hash, ACTIVE, id) + Encode(hash, CLEAN, id) && end.synced == end.file
  {
    NoChildrenYet(hash, s, g);
    var a, clean := Encode(hash, ACTIVE, id), Encode(hash, CLEAN, id);
    GateBytes(hash, id, RECORD_BYTES);
    GenerationHasLength(id);
    hide Inv, Encode, Accepts, IsGeneration, Step, Pair, RunsChild, IsGoodbye, IsRun;
    assert a[..RECORD_BYTES] == a && clean[..RECORD_BYTES] == clean;
    run, actions := Opens(hash, s, g, id, RECORD_BYTES);
    run, actions := Serves(hash, s, run, actions, s, g, id);
    run, actions := ChildRuns(hash, s, run, actions, s, g, id, c, a);
    var i, before := |run| - 1, run;
    PairRunsChild(s, g, id, c, a);
    run, actions := Ends(hash, s, run, actions, s, g, id, c, frames, a);
    run, actions := Proves(hash, s, run, actions, s, g, id, c, RECORD_BYTES);
    run, actions := Unlocks(hash, s, run, actions, s, g, id, a + clean, a, s.children[c := Child(g, Exited, true)]);
    assert run[i] == before[i];
  }

  lemma {:induction false} PairRunsChild(s: System, g: nat, id: bytes, c: nat, a: bytes)
    ensures RunsChild(Pair(s, g, Quiet(id, Serving, Holding), c, Running, true, a), g, c)
  {
  }

  lemma {:induction false} NoChildrenYet(hash: Sha256, s: System, g: nat)
    requires Inv(hash, s) && g !in s.gens
    ensures forall d :: d in s.children ==> s.children[d].gen != g
  {
    forall d | d in s.children ensures s.children[d].gen != g { assert ChildOk(hash, s, s.children[d]); }
  }

  /** A run to any length of a generation's two records, its guardian alive; ACTIVE is durable once CLEAN is begun. */
  lemma {:induction false} Reaches(hash: Sha256, s: System, g: nat, id: bytes, c: nat, cut: nat)
    returns (run: seq<System>, actions: seq<Action>, at: System)
    requires Inv(hash, s) && QuiescenceSucceeds(hash, s)
    requires g !in s.gens && c !in s.children && IsGeneration(id) && cut <= 2 * RECORD_BYTES
    ensures IsRunTo(hash, s, run, actions, at)
    ensures at.file == (Encode(hash, ACTIVE, id) + Encode(hash, CLEAN, id))[..cut]
    ensures at.synced == if cut <= RECORD_BYTES then [] else Encode(hash, ACTIVE, id)
    ensures g in at.gens && at.gens[g].phase != Gone && at.lock == Some(g)
  {
    NoChildrenYet(hash, s, g);
    var a, clean := Encode(hash, ACTIVE, id), Encode(hash, CLEAN, id);
    GenerationHasLength(id);
    hide Inv, Encode, Accepts, IsGeneration, Step, Pair, IsRun;
    assert (a + clean)[..cut] == if cut <= RECORD_BYTES then a[..cut] else a + clean[..cut - RECORD_BYTES];
    if cut <= RECORD_BYTES {
      run, actions := Opens(hash, s, g, id, cut);
    } else {
      assert a[..RECORD_BYTES] == a;
      run, actions := Opens(hash, s, g, id, RECORD_BYTES);
      run, actions := Serves(hash, s, run, actions, s, g, id);
      run, actions := ChildRuns(hash, s, run, actions, s, g, id, c, a);
      run, actions := Ends(hash, s, run, actions, s, g, id, c, [], a);
      run, actions := Proves(hash, s, run, actions, s, g, id, c, cut - RECORD_BYTES);
    }
    at := run[|run| - 1];
  }

  /** Every torn log of a generation is left behind by some run in which its guardian dies. */
  lemma {:induction false} EveryTearHappens(hash: Sha256, s: System, g: nat, id: bytes, c: nat, cut: nat)
    returns (run: seq<System>, actions: seq<Action>)
    requires Inv(hash, s) && QuiescenceSucceeds(hash, s)
    requires g !in s.gens && c !in s.children && IsGeneration(id) && cut <= 2 * RECORD_BYTES
    ensures IsRun(hash, run, actions) && run[0] == s
    ensures var end := run[|run| - 1];
            && end.file == (Encode(hash, ACTIVE, id) + Encode(hash, CLEAN, id))[..cut]
            && end.lock == None && IsAt(end, g, Gone)
  {
    var at: System;
    run, actions, at := Reaches(hash, s, g, id, c, cut);
    run, actions := Dies(hash, s, run, actions, at, g);
  }

  lemma {:induction false} Dies(hash: Sha256, from: System, run0: seq<System>, actions0: seq<Action>, s: System, g: nat)
    returns (run: seq<System>, actions: seq<Action>)
    requires IsRunTo(hash, from, run0, actions0, s) && g in s.gens && s.gens[g].phase != Gone && s.lock == Some(g)
    ensures IsRunTo(hash, from, run, actions, Leave(s, g)) && Leave(s, g).file == s.file
    ensures Leave(s, g).lock == None && IsAt(Leave(s, g), g, Gone)
  {
    hide Accepts, Encode;
    run, actions := OneMoreStep(hash, from, run0, actions0, s, GuardianDies(g), Leave(s, g));
  }

  /**
   And of every torn log, any part that is not durable may be lost with the power: of ACTIVE before it was
   synced, and of CLEAN behind the durable ACTIVE.
   */
  lemma {:induction false} EveryPartMaySurvive(hash: Sha256, s: System, g: nat, id: bytes, c: nat, cut: nat, kept: nat)
    returns (run: seq<System>, actions: seq<Action>)
    requires Inv(hash, s) && QuiescenceSucceeds(hash, s)
    requires g !in s.gens && c !in s.children && IsGeneration(id) && kept <= cut <= 2 * RECORD_BYTES
    requires cut > RECORD_BYTES ==> kept >= RECORD_BYTES
    ensures IsRun(hash, run, actions) && run[0] == s && actions != [] && actions[|actions| - 1].PowerLoss?
    ensures |run| >= 2 && run[|run| - 2].file == (Encode(hash, ACTIVE, id) + Encode(hash, CLEAN, id))[..cut]
    ensures run[|run| - 1].file == (Encode(hash, ACTIVE, id) + Encode(hash, CLEAN, id))[..kept]
  {
    var at: System;
    run, actions, at := Reaches(hash, s, g, id, c, cut);
    var a, clean := Encode(hash, ACTIVE, id), Encode(hash, CLEAN, id);
    hide Inv, Encode, Accepts, IsGeneration, Step, IsRun;
    assert (a + clean)[..kept] <= (a + clean)[..cut];
    assert cut > RECORD_BYTES ==> a <= (a + clean)[..kept];
    run, actions := LosesPower(hash, s, run, actions, at, (a + clean)[..kept]);
  }

  lemma {:induction false} LosesPower(hash: Sha256, from: System, run0: seq<System>, actions0: seq<Action>, s: System,
                                      survivor: bytes)
    returns (run: seq<System>, actions: seq<Action>)
    requires IsRunTo(hash, from, run0, actions0, s) && s.synced <= survivor <= s.file
    ensures exists end: System :: end.file == survivor && IsRunTo(hash, from, run, actions, end)
    ensures |run| >= 2 && run[|run| - 2] == s && actions != [] && actions[|actions| - 1].PowerLoss?
  {
    var end := System(survivor, survivor, None,
                      map g | g in s.gens :: s.gens[g].(phase := Gone, host := Ended),
                      map c | c in s.children :: s.children[c].(state := Exited));
    assert Step(hash, s, PowerLoss(survivor), end);
    hide Step;
    run, actions := OneMoreStep(hash, from, run0, actions0, s, PowerLoss(survivor), end);
  }

  // ---------------------------------------------------------------- what one step does to a child

  /** The registration that a guardian reads next names c, and the datagram it reads with it came from c. */
  predicate IsMatched(s: System, g: nat, c: nat) {
    && g in s.gens && s.gens[g].phase == Serving
    && s.gens[g].control != [] && s.gens[g].control[0] == Register(c)
    && s.gens[g].pidfds != [] && s.gens[g].pidfds[0] == c
  }

  /** A child gets registered only by a frame and a datagram that match. */
  lemma {:induction false} RegistrationMatches(hash: Sha256, s: System, a: Action, s': System, c: nat)
    requires Step(hash, s, a, s') && c in s'.children && s'.children[c].registered
    requires !(c in s.children && s.children[c].registered)
    ensures a.ReceivePidfd? && a.received && IsMatched(s, a.gen, c)
  {
    hide Accepts, Encode, IsGeneration, Survives, IsLive;
  }

  /** And it gets to run only by its own acknowledgement. */
  lemma {:induction false} RunningIsAcknowledged(hash: Sha256, s: System, a: Action, s': System, c: nat)
    requires Step(hash, s, a, s') && c in s'.children && s'.children[c].state == Running
    requires !(c in s.children && s.children[c].state == Running)
    ensures a == ReadAck(c) && c in s.children && s.children[c].gen in s.gens
    ensures s.gens[s.children[c].gen].acks != [] && s.gens[s.children[c].gen].acks[0] == c
  {
    hide Accepts, Encode, IsGeneration, Survives, IsLive;
  }

  /** A frame whose datagram does not come or is another child's: nobody is registered, and the gate is parked. */
  lemma {:induction false} MismatchParks(hash: Sha256, s: System, a: Action, s': System)
    requires Step(hash, s, a, s') && a.ReceivePidfd?
    requires !a.received || !IsMatched(s, a.gen, s.gens[a.gen].control[0].child)
    ensures IsAt(s', a.gen, Parked) && s'.children == s.children && s'.gens[a.gen].acks == s.gens[a.gen].acks
  {
    hide Accepts, Encode, IsGeneration;
  }

  /** A parked guardian holds the gate until it is killed or the power is lost, whatever anybody does. */
  lemma {:induction false} ParkedHolds(hash: Sha256, s: System, a: Action, s': System, g: nat)
    requires Inv(hash, s) && IsAt(s, g, Parked) && Step(hash, s, a, s')
    requires a != GuardianDies(g) && !a.PowerLoss?
    ensures IsAt(s', g, Parked) && s'.lock == Some(g) && s'.file == s.file && s'.synced == s.synced
  {
    HolderFacts(hash, s, g);
    OthersHoldNothing(hash, s, g);
    hide Inv, FileMatches, Step;
    if a.HostReceivesReady? || a.HostEnds? || a.Fork? || a.SendPidfd? || a.SendFrame? || a.ReadAck? || a.ChildExits? {
      HostActionsKeepPhases(hash, s, a, s');
    } else {
      OthersWaitOutside(hash, s, a, s', g);
    }
  }

  /** While one guardian is parked the others only come, find the lock taken, or end. */
  lemma {:induction false} OthersWaitOutside(hash: Sha256, s: System, a: Action, s': System, g: nat)
    requires IsAt(s, g, Parked) && s.lock == Some(g) && Step(hash, s, a, s')
    requires a != GuardianDies(g) && !a.PowerLoss?
    requires !(a.HostReceivesReady? || a.HostEnds? || a.Fork? || a.SendPidfd? || a.SendFrame? || a.ReadAck?
               || a.ChildExits?)
    requires forall h :: h in s.gens && h != g ==> !HoldsLock(s.gens[h].phase)
    ensures a.gen != g && s'.file == s.file && s'.synced == s.synced && s'.lock == s.lock
    ensures g in s'.gens && s'.gens[g] == s.gens[g]
  {
    hide Accepts, Encode, IsGeneration, IsLive, Survives;
    assert a.gen in s.gens && a.gen != g ==> !HoldsLock(s.gens[a.gen].phase);
    assert a.gen != g;
    assert a.Start? || a.TryLock? || a.GuardianDies?;
  }

  lemma {:induction false} OthersHoldNothing(hash: Sha256, s: System, g: nat)
    requires Inv(hash, s) && IsAt(s, g, Parked)
    ensures forall h :: h in s.gens && h != g ==> !HoldsLock(s.gens[h].phase)
  {
    hide FileInv, PipesInv, ChildrenInv, OneLiveGeneration;
  }
}
