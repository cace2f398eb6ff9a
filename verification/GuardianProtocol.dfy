/**
 The execution-guardian protocol as a transition system over host leases, guardian processes,
 registered children, the gate lock and the bytes of the gate file. Every process may die at
 every step, writes may tear at every byte, and a power loss may drop what was not synced.
 */
module GuardianProtocol {
  import opened ByteStrings
  import opened GateLog

  /** Where a guardian process is in its life. */
  datatype Phase =
    | Opening                      // the gate file is not locked yet
    | Locked                       // the exclusive lock is held, the log not yet read
    | Accepted                     // the log was read and accepted
    | Truncated                    // the log was cut to length 0, not yet synced
    | WritingActive(written: nat)  // that many bytes of the ACTIVE record are in the file
    | Armed                        // the ACTIVE record is durable
    | Serving                      // READY was published
    | Parked                       // a registration could not be tied to a process: hold the gate for ever
    | Killing                      // the control loop ended: kill the registered children and wait
    | WritingClean(written: nat)   // containment is empty; that many bytes of CLEAN are in the file
    | Proven                       // the CLEAN record is durable
    | Gone                         // exited or killed: the kernel dropped its lock

  datatype Frame = Register(child: nat) | Release | Invalid

  datatype Host = Waiting | Holding | Ended

  /** One start of the gate: a host lease, its guardian, and the pipes between them. */
  datatype Generation = Generation(
    id: bytes,
    phase: Phase,
    host: Host,
    control: seq<Frame>,   // frames in the guardian's standard input
    pidfds: seq<nat>,      // datagrams in the registration socket, by the child that sent them
    acks: seq<nat>)        // REGISTERED frames in the guardian's standard output

  datatype ChildState = Forked | PidfdSent | FrameSent | Running | Exited

  /** A child of generation gen; `registered` says that the guardian holds its exact pidfd. */
  datatype Child = Child(gen: nat, state: ChildState, registered: bool)

  datatype System = System(
    file: bytes,
    synced: bytes,
    lock: Option<nat>,
    gens: map<nat, Generation>,
    children: map<nat, Child>)

  datatype Action =
    | Start(gen: nat, id: bytes)
    | TryLock(gen: nat)
    | ReadLog(gen: nat)
    | Truncate(gen: nat)
    | SyncTruncate(gen: nat)
    | WriteActive(gen: nat, upTo: nat)
    | SyncActive(gen: nat)
    | PublishReady(gen: nat)
    | HostReceivesReady(gen: nat)
    | HostEnds(gen: nat, frames: seq<Frame>)
    | Fork(gen: nat, child: nat)
    | SendPidfd(child: nat)
    | SendFrame(child: nat)
    | ReadAck(child: nat)
    | ChildExits(child: nat)
    | TakeFrame(gen: nat)
    | ReceivePidfd(gen: nat, received: bool)
    | EndOfInput(gen: nat)
    | ContainmentEmpty(gen: nat)
    | WriteClean(gen: nat, upTo: nat)
    | SyncClean(gen: nat)
    | Unlock(gen: nat)
    | GuardianDies(gen: nat)
    | PowerLoss(survivor: bytes)

  function Enter(s: System, g: nat, phase: Phase): System
    requires g in s.gens
  {
    s.(gens := s.gens[g := s.gens[g].(phase := phase)])
  }

  /** The guardian process is over, and with it the lock it held. */
  function Leave(s: System, g: nat): System
    requires g in s.gens
  {
    Enter(s, g, Gone).(lock := if s.lock == Some(g) then None else s.lock)
  }

  function SetChild(s: System, c: nat, state: ChildState): System
    requires c in s.children
  {
    s.(children := s.children[c := s.children[c].(state := state)])
  }

  function SetGen(s: System, g: nat, gen: Generation): System {
    s.(gens := s.gens[g := gen])
  }

  /** What a power loss may leave of a file: the synced bytes, or any longer part of what was written. */
  ghost predicate Survives(synced: bytes, file: bytes, survivor: bytes) {
    survivor == synced || (synced <= survivor && survivor <= file) || (file == [] && survivor == [])
  }

  ghost predicate IsAt(s: System, g: nat, phase: Phase) {
    g in s.gens && s.gens[g].phase == phase
  }

  /** Whether action a takes s to s'. */
  ghost predicate Step(hash: Sha256, s: System, a: Action, s': System) {
    match a
    case Start(g, id) =>
      g !in s.gens && IsGeneration(id)
      && s' == SetGen(s, g, Generation(id, Opening, Waiting, [], [], []))
    case TryLock(g) =>
      IsAt(s, g, Opening)
      && s' == if s.lock == None then Enter(s, g, Locked).(lock := Some(g)) else Enter(s, g, Gone)
    case ReadLog(g) =>
      IsAt(s, g, Locked)
      && s' == if Accepts(hash, s.file) then Enter(s, g, Accepted) else Leave(s, g)
    case Truncate(g) =>
      IsAt(s, g, Accepted) && s' == Enter(s, g, Truncated).(file := [])
    case SyncTruncate(g) =>
      IsAt(s, g, Truncated) && s' == Enter(s, g, WritingActive(0)).(synced := s.file)
    case WriteActive(g, n) =>
      g in s.gens && s.gens[g].phase.WritingActive? && |s.gens[g].id| == 16
      && s.gens[g].phase.written < n <= RECORD_BYTES
      && var record := Encode(hash, ACTIVE, s.gens[g].id);
         s' == Enter(s, g, WritingActive(n)).(file := s.file + record[s.gens[g].phase.written..n])
    case SyncActive(g) =>
      IsAt(s, g, WritingActive(RECORD_BYTES)) && s' == Enter(s, g, Armed).(synced := s.file)
    case PublishReady(g) =>
      IsAt(s, g, Armed) && s' == Enter(s, g, Serving)
    case HostReceivesReady(g) =>
      IsAt(s, g, Serving) && s.gens[g].host == Waiting
      && s' == SetGen(s, g, s.gens[g].(host := Holding))
    case HostEnds(g, frames) =>
      // a release writes one frame, a death none, and a corrupted control pipe may hold invalid ones
      g in s.gens && s.gens[g].host != Ended
      && (forall f :: f in frames ==> f == Release || f == Invalid)
      && s' == SetGen(s, g, s.gens[g].(host := Ended, control := s.gens[g].control + frames))
    case Fork(g, c) =>
      g in s.gens && s.gens[g].host == Holding && c !in s.children
      && s' == s.(children := s.children[c := Child(g, Forked, false)])
    case SendPidfd(c) =>
      c in s.children && s.children[c].state == Forked && s.children[c].gen in s.gens
      && var g := s.children[c].gen;
         s' == SetGen(SetChild(s, c, PidfdSent), g, s.gens[g].(pidfds := s.gens[g].pidfds + [c]))
    case SendFrame(c) =>
      c in s.children && s.children[c].state == PidfdSent && s.children[c].gen in s.gens
      && var g := s.children[c].gen;
         s' == SetGen(SetChild(s, c, FrameSent), g, s.gens[g].(control := s.gens[g].control + [Register(c)]))
    case ReadAck(c) =>
      c in s.children && s.children[c].state == FrameSent && s.children[c].gen in s.gens
      && var g := s.children[c].gen;
         s.gens[g].acks != []
         // an acknowledgement for another child is a protocol error: this one does not exec
         && s' == SetGen(SetChild(s, c, if s.gens[g].acks[0] == c then Running else Exited),
                         g, s.gens[g].(acks := s.gens[g].acks[1..]))
    case ChildExits(c) =>
      c in s.children && s' == SetChild(s, c, Exited)
    case TakeFrame(g) =>
      // RELEASE and an invalid frame both leave the control loop
      IsAt(s, g, Serving) && s.gens[g].control != [] && !s.gens[g].control[0].Register?
      && s' == SetGen(s, g, s.gens[g].(phase := Killing, control := s.gens[g].control[1..]))
    case ReceivePidfd(g, received) =>
      IsAt(s, g, Serving) && s.gens[g].control != [] && s.gens[g].control[0].Register?
      && var gen := s.gens[g].(control := s.gens[g].control[1..]);
         var c := s.gens[g].control[0].child;
         if received && gen.pidfds != [] && gen.pidfds[0] == c
         then c in s.children
              && var held := s.(children := s.children[c := s.children[c].(registered := true)]);
                 s' == SetGen(held, g, gen.(pidfds := gen.pidfds[1..], acks := gen.acks + [c]))
                 // the acknowledgement could not be written
                 || s' == SetGen(held, g, gen.(pidfds := gen.pidfds[1..], phase := Killing))
         else s' == SetGen(s, g, gen.(pidfds := if gen.pidfds == [] then [] else gen.pidfds[1..], phase := Parked))
    case EndOfInput(g) =>
      IsAt(s, g, Serving) && s.gens[g].control == [] && s.gens[g].host == Ended
      && s' == Enter(s, g, Killing)
    case ContainmentEmpty(g) =>
      IsAt(s, g, Killing)
      && (forall c :: c in s.children && s.children[c].gen == g ==> !IsLive(s.children[c]))
      && s' == Enter(s, g, WritingClean(0))
    case WriteClean(g, n) =>
      g in s.gens && s.gens[g].phase.WritingClean? && |s.gens[g].id| == 16
      && s.gens[g].phase.written < n <= RECORD_BYTES
      && var record := Encode(hash, CLEAN, s.gens[g].id);
         s' == Enter(s, g, WritingClean(n)).(file := s.file + record[s.gens[g].phase.written..n])
    case SyncClean(g) =>
      IsAt(s, g, WritingClean(RECORD_BYTES)) && s' == Enter(s, g, Proven).(synced := s.file)
    case Unlock(g) =>
      IsAt(s, g, Proven) && s' == Leave(s, g)
    case GuardianDies(g) =>
      // a kill, or an early return on an I/O error
      g in s.gens && s.gens[g].phase != Gone && s' == Leave(s, g)
    case PowerLoss(survivor) =>
      Survives(s.synced, s.file, survivor)
      && s' == System(survivor, survivor, None,
                      map g | g in s.gens :: s.gens[g].(phase := Gone, host := Ended),
                      map c | c in s.children :: s.children[c].(state := Exited))
  }

  /** A registered child that has not exited: its process may be running code. */
  predicate IsLive(child: Child) { child.registered && child.state != Exited }

  /** A gate file of any content, no process yet. */
  ghost predicate Init(s: System) {
    s.lock == None && s.gens == map[] && s.children == map[] && s.synced == s.file
  }

  /** A run: each state follows from the one before by the action between them. */
  ghost predicate IsRun(hash: Sha256, run: seq<System>, actions: seq<Action>) {
    |run| == |actions| + 1 && forall i :: 0 <= i < |actions| ==> Step(hash, run[i], actions[i], run[i + 1])
  }

  /** `ensure_execution_gate_quiescent`: the lock is free and the log is accepted. */
  ghost predicate QuiescenceSucceeds(hash: Sha256, s: System) {
    s.lock == None && Accepts(hash, s.file)
  }

  // ---------------------------------------------------------------- the invariant

  predicate HoldsLock(phase: Phase) { !phase.Opening? && !phase.Gone? }

  /** Phases a guardian enters only after its log was accepted. */
  predicate PastReading(phase: Phase) { HoldsLock(phase) && !phase.Locked? }

  predicate MayHaveChildren(phase: Phase) { phase.Serving? || phase.Parked? || phase.Killing? }

  ghost predicate LockInv(s: System) {
    && (s.lock.Some? ==> s.lock.value in s.gens)
    && forall g :: g in s.gens ==> (HoldsLock(s.gens[g].phase) <==> s.lock == Some(g))
  }

  /** What the file and its synced part are while generation id holds the lock in that phase. */
  ghost predicate FileMatches(hash: Sha256, file: bytes, synced: bytes, id: bytes, phase: Phase)
    requires |id| == 16
  {
    var a, c := Encode(hash, ACTIVE, id), Encode(hash, CLEAN, id);
    match phase
    case Accepted => Accepts(hash, file)
    case Truncated => file == []
    case WritingActive(n) => n <= RECORD_BYTES && file == a[..n] && synced == []
    case Armed => file == a && synced == a
    case Serving => file == a && synced == a
    case Parked => file == a && synced == a
    case Killing => file == a && synced == a
    case WritingClean(n) => n <= RECORD_BYTES && file == a + c[..n] && synced == a
    case Proven => file == a + c && synced == a + c
    case _ => true
  }

  ghost predicate FileInv(hash: Sha256, s: System) {
    forall g :: g in s.gens ==> 
      IsGeneration(s.gens[g].id)
      && (HoldsLock(s.gens[g].phase) ==> FileMatches(hash, s.file, s.synced, s.gens[g].id, s.gens[g].phase))
  }

  ghost predicate PipesInv(s: System) {
    forall g :: g in s.gens ==>
      && (forall c :: c in s.gens[g].pidfds ==> c in s.children && s.children[c].gen == g)
      && (forall c :: c in s.gens[g].acks ==> c in s.children && s.children[c].registered)
  }

  /** Nobody holds a gate that was read as accepted, and nobody can read it so now. */
  ghost predicate IsClosed(hash: Sha256, s: System) {
    !Accepts(hash, s.file) && forall g :: g in s.gens ==> !PastReading(s.gens[g].phase)
  }

  ghost predicate ChildOk(hash: Sha256, s: System, child: Child) {
    && child.gen in s.gens
       // a child that exec'd was registered first
    && (child.state == Running ==> child.registered)
       // a possibly live child implies a held lock or a log that stays refused
    && (IsLive(child) ==>
          MayHaveChildren(s.gens[child.gen].phase) || (s.gens[child.gen].phase.Gone? && IsClosed(hash, s)))
  }

  ghost predicate ChildrenInv(hash: Sha256, s: System) {
    forall c :: c in s.children ==> ChildOk(hash, s, s.children[c])
  }

  ghost predicate OneLiveGeneration(s: System) {
    forall c, d :: c in s.children && d in s.children && IsLive(s.children[c]) && IsLive(s.children[d])
      ==> s.children[c].gen == s.children[d].gen
  }

  ghost predicate Inv(hash: Sha256, s: System) {
    LockInv(s) && FileInv(hash, s) && PipesInv(s) && ChildrenInv(hash, s) && OneLiveGeneration(s)
  }

  // ---------------------------------------------------------------- records in the file

  /** A lone ACTIVE record, or one followed by a torn CLEAN, is refused; so is a torn ACTIVE. */
  lemma {:induction false} GateBytes(hash: Sha256, id: bytes, n: nat)
    requires IsGeneration(id) && n <= RECORD_BYTES
    ensures var a, c := Encode(hash, ACTIVE, id), Encode(hash, CLEAN, id);
            && (Accepts(hash, a[..n]) <==> n == 0)
            && (Accepts(hash, a + c[..n]) <==> n == RECORD_BYTES)
            && !Accepts(hash, a)
  {
    var a, c := Encode(hash, ACTIVE, id), Encode(hash, CLEAN, id);
    TornGenerationAcceptedOnlyWhole(hash, id, n);
    TornGenerationAcceptedOnlyWhole(hash, id, 64 + n);
    TornGenerationAcceptedOnlyWhole(hash, id, 64);
    assert (a + c)[..n] == a[..n];
    assert (a + c)[..64 + n] == a + c[..n];
    assert (a + c)[..64] == a;
  }

  // ---------------------------------------------------------------- every action keeps the invariant

  /** The lock holder g moves on, writing to the file; children stay as they are. */
  lemma {:induction false} AdvanceKeepsInv(hash: Sha256, s: System, g: nat, gen: Generation, s': System)
    requires Inv(hash, s) && g in s.gens
    requires HoldsLock(s.gens[g].phase) && PastReading(gen.phase)
    requires PastReading(s.gens[g].phase) || Accepts(hash, s.file)
    requires gen == s.gens[g].(phase := gen.phase, control := gen.control, pidfds := gen.pidfds)
    requires forall p :: p in gen.pidfds ==> p in s.gens[g].pidfds
    requires s' == System(s'.file, s'.synced, s.lock, s.gens[g := gen], s.children)
    requires |gen.id| == 16 && FileMatches(hash, s'.file, s'.synced, gen.id, gen.phase)
    requires MayHaveChildren(gen.phase) || forall c :: c in s.children && s.children[c].gen == g ==>
               !IsLive(s.children[c])
    ensures Inv(hash, s')
  {
    hide Accepts, Encode, FileMatches;
    assert s.lock == Some(g);
    assert !IsClosed(hash, s);
    AdvanceKeepsChildren(hash, s, g, s');
    hide ChildrenInv, OneLiveGeneration, IsClosed;
  }

  lemma {:induction false} AdvanceKeepsChildren(hash: Sha256, s: System, g: nat, s': System)
    requires ChildrenInv(hash, s) && OneLiveGeneration(s) && g in s.gens && !IsClosed(hash, s)
    requires g in s'.gens && s'.gens == s.gens[g := s'.gens[g]] && s'.children == s.children
    requires MayHaveChildren(s'.gens[g].phase) || forall c :: c in s.children && s.children[c].gen == g ==>
               !IsLive(s.children[c])
    ensures ChildrenInv(hash, s') && OneLiveGeneration(s')
  {
    hide IsClosed;
    forall c | c in s'.children
      ensures ChildOk(hash, s', s'.children[c])
    {
      assert ChildOk(hash, s, s.children[c]);
    }
  }

  /** g ends; the children it leaves behind keep the log refused. */
  lemma {:induction false} LeaveKeepsInv(hash: Sha256, s: System, g: nat)
    requires Inv(hash, s) && g in s.gens
    ensures Inv(hash, Leave(s, g))
  {
    hide Accepts, Encode, FileMatches, ChildrenInv, OneLiveGeneration;
    LeaveKeepsChildren(hash, s, g);
    LeaveKeepsOneLive(s, g);
  }

  lemma {:induction false} LeaveKeepsOneLive(s: System, g: nat)
    requires OneLiveGeneration(s) && g in s.gens
    ensures OneLiveGeneration(Leave(s, g))
  {
  }

  /** A guardian that may have live children leaves a log that stays refused. */
  lemma {:induction false} LeaveClosesGate(hash: Sha256, s: System, g: nat)
    requires LockInv(s) && FileInv(hash, s) && g in s.gens && MayHaveChildren(s.gens[g].phase)
    ensures IsClosed(hash, Leave(s, g))
  {
    hide Accepts, Encode;
    GateBytes(hash, s.gens[g].id, 0);
    assert FileMatches(hash, s.file, s.synced, s.gens[g].id, s.gens[g].phase);
  }

  lemma {:induction false} LeaveKeepsChildren(hash: Sha256, s: System, g: nat)
    requires LockInv(s) && FileInv(hash, s) && ChildrenInv(hash, s) && g in s.gens
    ensures ChildrenInv(hash, Leave(s, g))
  {
    if MayHaveChildren(s.gens[g].phase) { LeaveClosesGate(hash, s, g); }
    hide Accepts, Encode, FileMatches;
    var s' := Leave(s, g);
    assert IsClosed(hash, s) ==> IsClosed(hash, s');
    forall c | c in s'.children
      ensures ChildOk(hash, s', s'.children[c])
    {
      assert ChildOk(hash, s, s.children[c]);
    }
  }

  /** Changes to the pipes of g and to one child of g that leave the file and every phase alone. */
  lemma {:induction false} QuietKeepsInv(hash: Sha256, s: System, g: nat, gen: Generation, c: nat, child: Child)
    requires Inv(hash, s) && g in s.gens && child.gen == g
    requires gen == s.gens[g].(host := gen.host, control := gen.control, pidfds := gen.pidfds, acks := gen.acks)
    requires c in s.children ==> s.children[c].gen == g && s.children[c].registered == child.registered
    requires c in s.children && s.children[c].state == Exited ==> child.state == Exited
    requires c !in s.children ==> !child.registered
    requires child.state == Running ==> child.registered
    requires forall p :: p in gen.pidfds ==> p in s.gens[g].pidfds || p == c
    requires forall p :: p in gen.acks ==> p in s.gens[g].acks
    ensures Inv(hash, System(s.file, s.synced, s.lock, s.gens[g := gen], s.children[c := child]))
  {
    var s' := System(s.file, s.synced, s.lock, s.gens[g := gen], s.children[c := child]);
    QuietKeepsChildren(hash, s, g, gen, c, child);
    SamePhaseKeepsGate(hash, s, g, s');
    QuietKeepsPipes(s, g, gen, c, child);
    hide LockInv, FileInv, PipesInv, ChildrenInv, OneLiveGeneration;
  }

  /** While no phase changes, lock and file are as the phases say, and a closed gate stays closed. */
  lemma {:induction false} SamePhaseKeepsGate(hash: Sha256, s: System, g: nat, s': System)
    requires LockInv(s) && FileInv(hash, s) && g in s.gens
    requires s'.file == s.file && s'.synced == s.synced && s'.lock == s.lock
    requires g in s'.gens && s'.gens == s.gens[g := s'.gens[g]]
    requires s'.gens[g].phase == s.gens[g].phase && s'.gens[g].id == s.gens[g].id
    ensures LockInv(s') && FileInv(hash, s') && (IsClosed(hash, s) ==> IsClosed(hash, s'))
  {
    hide Accepts, FileMatches, IsGeneration;
  }

  lemma {:induction false} QuietKeepsPipes(s: System, g: nat, gen: Generation, c: nat, child: Child)
    requires PipesInv(s) && g in s.gens && child.gen == g
    requires c in s.children ==> s.children[c].gen == g && s.children[c].registered == child.registered
    requires forall p :: p in gen.pidfds ==> p in s.gens[g].pidfds || p == c
    requires forall p :: p in gen.acks ==> p in s.gens[g].acks
    ensures PipesInv(System(s.file, s.synced, s.lock, s.gens[g := gen], s.children[c := child]))
  {
  }

  lemma {:induction false} QuietKeepsChildren(hash: Sha256, s: System, g: nat, gen: Generation, c: nat, child: Child)
    requires ChildrenInv(hash, s) && OneLiveGeneration(s) && g in s.gens && child.gen == g
    requires gen.phase == s.gens[g].phase
    requires c in s.children ==> s.children[c].gen == g && s.children[c].registered == child.registered
    requires c in s.children && s.children[c].state == Exited ==> child.state == Exited
    requires c !in s.children ==> !child.registered
    requires child.state == Running ==> child.registered
    ensures var s' := System(s.file, s.synced, s.lock, s.gens[g := gen], s.children[c := child]);
            ChildrenInv(hash, s') && OneLiveGeneration(s')
  {
    hide Accepts;
    var s' := System(s.file, s.synced, s.lock, s.gens[g := gen], s.children[c := child]);
    assert IsClosed(hash, s) ==> IsClosed(hash, s');
    hide IsClosed;
    forall d | d in s'.children
      ensures ChildOk(hash, s', s'.children[d])
      ensures IsLive(s'.children[d]) ==>
                d in s.children && IsLive(s.children[d]) && s.children[d].gen == s'.children[d].gen
    {
      assert d in s.children ==> ChildOk(hash, s, s.children[d]);
    }
  }

  /** The children stay as they are while no guardian of theirs comes or goes and a closed gate stays closed. */
  lemma {:induction false} ChildrenStay(hash: Sha256, s: System, s': System)
    requires ChildrenInv(hash, s) && OneLiveGeneration(s) && s'.children == s.children
    requires IsClosed(hash, s) ==> IsClosed(hash, s')
    requires forall g :: g in s.gens ==> g in s'.gens
    requires forall g :: g in s.gens && (MayHaveChildren(s.gens[g].phase) || s.gens[g].phase.Gone?) ==>
               s'.gens[g].phase == s.gens[g].phase
    ensures ChildrenInv(hash, s') && OneLiveGeneration(s')
  {
    hide IsClosed;
    forall c | c in s'.children
      ensures ChildOk(hash, s', s'.children[c])
    {
      assert ChildOk(hash, s, s.children[c]);
    }
  }

  /** The guardian takes hold of a child: no other generation has a live one. */
  lemma {:induction false} RegisterKeepsInv(hash: Sha256, s: System, g: nat, gen: Generation, c: nat)
    requires Inv(hash, s) && IsAt(s, g, Serving)
    requires gen.phase == Serving || gen.phase == Killing
    requires gen == s.gens[g].(phase := gen.phase, control := gen.control, pidfds := gen.pidfds, acks := gen.acks)
    requires c in s.gens[g].pidfds && c in s.children
    requires forall p :: p in gen.pidfds ==> p in s.gens[g].pidfds
    requires forall p :: p in gen.acks ==> p in s.gens[g].acks || p == c
    ensures Inv(hash,
                System(s.file, s.synced, s.lock, s.gens[g := gen], s.children[c := s.children[c].(registered := true)]))
  {
    hide Accepts, Encode;
    var s' := System(s.file, s.synced, s.lock, s.gens[g := gen], s.children[c := s.children[c].(registered := true)]);
    assert s.lock == Some(g) && s.children[c].gen == g;
    assert FileMatches(hash, s.file, s.synced, s.gens[g].id, s.gens[g].phase);
    assert !IsClosed(hash, s);
    RegisterKeepsChildren(hash, s, g, gen, c);
    hide ChildrenInv, OneLiveGeneration, IsClosed;
  }

  lemma {:induction false} RegisterKeepsChildren(hash: Sha256, s: System, g: nat, gen: Generation, c: nat)
    requires LockInv(s) && ChildrenInv(hash, s) && IsAt(s, g, Serving) && !IsClosed(hash, s)
    requires MayHaveChildren(gen.phase) && c in s.children && s.children[c].gen == g
    ensures var s' :=
              System(s.file, s.synced, s.lock, s.gens[g := gen], s.children[c := s.children[c].(registered := true)]);
            ChildrenInv(hash, s') && OneLiveGeneration(s')
  {
    hide IsClosed;
    var s' := System(s.file, s.synced, s.lock, s.gens[g := gen], s.children[c := s.children[c].(registered := true)]);
    forall d | d in s'.children
      ensures ChildOk(hash, s', s'.children[d])
      ensures IsLive(s'.children[d]) ==> s'.children[d].gen == g
    {
      assert ChildOk(hash, s, s.children[d]);
    }
  }

  /** What the invariant says of the one generation that holds the lock. */
  lemma {:induction false} HolderFacts(hash: Sha256, s: System, g: nat)
    requires Inv(hash, s) && g in s.gens && HoldsLock(s.gens[g].phase)
    ensures s.lock == Some(g) && IsGeneration(s.gens[g].id)
    ensures FileMatches(hash, s.file, s.synced, s.gens[g].id, s.gens[g].phase)
    ensures !MayHaveChildren(s.gens[g].phase) ==>
              forall c :: c in s.children && s.children[c].gen == g ==> !IsLive(s.children[c])
  {
    hide Accepts, Encode;
    forall c | c in s.children && s.children[c].gen == g && !MayHaveChildren(s.gens[g].phase)
      ensures !IsLive(s.children[c])
    {
      assert ChildOk(hash, s, s.children[c]);
    }
  }

  lemma {:induction false} ArmingKeepsInv(hash: Sha256, s: System, a: Action, s': System)
    requires Inv(hash, s) && Step(hash, s, a, s')
    requires a.Truncate? || a.SyncTruncate? || a.SyncActive? || a.PublishReady?
    ensures Inv(hash, s')
  {
    hide Accepts, Encode, Inv;
    HolderFacts(hash, s, a.gen);
    match a
    case Truncate(g) => AdvanceKeepsInv(hash, s, g, s'.gens[g], s');
    case SyncTruncate(g) => AdvanceKeepsInv(hash, s, g, s'.gens[g], s');
    case SyncActive(g) => AdvanceKeepsInv(hash, s, g, s'.gens[g], s');
    case PublishReady(g) => AdvanceKeepsInv(hash, s, g, s'.gens[g], s');
  }

  lemma {:induction false} KillingKeepsInv(hash: Sha256, s: System, a: Action, s': System)
    requires Inv(hash, s) && Step(hash, s, a, s')
    requires a.TakeFrame? || a.EndOfInput?
    ensures Inv(hash, s')
  {
    hide Accepts, Encode, Inv;
    HolderFacts(hash, s, a.gen);
    AdvanceKeepsInv(hash, s, a.gen, s'.gens[a.gen], s');
  }

  lemma {:induction false} ProvingKeepsInv(hash: Sha256, s: System, a: Action, s': System)
    requires Inv(hash, s) && Step(hash, s, a, s')
    requires a.ContainmentEmpty? || a.SyncClean?
    ensures Inv(hash, s')
  {
    hide Accepts, Encode, Inv;
    HolderFacts(hash, s, a.gen);
    AdvanceKeepsInv(hash, s, a.gen, s'.gens[a.gen], s');
  }

  lemma {:induction false} WriteKeepsInv(hash: Sha256, s: System, a: Action, s': System)
    requires Inv(hash, s) && Step(hash, s, a, s')
    requires a.WriteActive? || a.WriteClean?
    ensures Inv(hash, s')
  {
    hide Accepts, Encode, Inv;
    HolderFacts(hash, s, a.gen);
    var gen := s.gens[a.gen];
    WrittenSoFar(Encode(hash, if a.WriteActive? then ACTIVE else CLEAN, gen.id), gen.phase.written, a.upTo);
    if a.WriteClean? {
      var active, clean := Encode(hash, ACTIVE, gen.id), Encode(hash, CLEAN, gen.id);
      assert active + clean[..gen.phase.written] + clean[gen.phase.written..a.upTo] == active + clean[..a.upTo];
    }
    AdvanceKeepsInv(hash, s, a.gen, s'.gens[a.gen], s');
  }

  lemma {:induction false} WrittenSoFar(record: bytes, written: nat, upTo: nat)
    requires written <= upTo <= |record|
    ensures record[..written] + record[written..upTo] == record[..upTo]
  {
  }

  lemma {:induction false} TryLockKeepsInv(hash: Sha256, s: System, a: Action, s': System)
    requires Inv(hash, s) && Step(hash, s, a, s') && a.TryLock?
    ensures Inv(hash, s')
  {
    hide Accepts, Encode, Inv;
    if s.lock != None {
      assert s' == Leave(s, a.gen) by { NotTheHolder(hash, s, a.gen); }
      LeaveKeepsInv(hash, s, a.gen);
    } else {
      AcquireKeepsInv(hash, s, a.gen);
    }
  }

  lemma {:induction false} NotTheHolder(hash: Sha256, s: System, g: nat)
    requires Inv(hash, s) && IsAt(s, g, Opening)
    ensures s.lock != Some(g)
  {
  }

  lemma {:induction false} AcquireKeepsGate(hash: Sha256, s: System, g: nat)
    requires LockInv(s) && FileInv(hash, s) && IsAt(s, g, Opening) && s.lock == None
    ensures var s' := Enter(s, g, Locked).(lock := Some(g));
            LockInv(s') && FileInv(hash, s') && (IsClosed(hash, s) ==> IsClosed(hash, s'))
  {
    hide Accepts, Encode, IsGeneration;
  }

  lemma {:induction false} AcquireKeepsInv(hash: Sha256, s: System, g: nat)
    requires Inv(hash, s) && IsAt(s, g, Opening) && s.lock == None
    ensures Inv(hash, Enter(s, g, Locked).(lock := Some(g)))
  {
    var s' := Enter(s, g, Locked).(lock := Some(g));
    AcquireKeepsGate(hash, s, g);
    ChildrenStay(hash, s, s');
    hide LockInv, FileInv, ChildrenInv, OneLiveGeneration, IsClosed;
  }

  lemma {:induction false} LockActionKeepsInv(hash: Sha256, s: System, a: Action, s': System)
    requires Inv(hash, s) && Step(hash, s, a, s')
    requires a.ReadLog? || a.Unlock? || a.GuardianDies?
    ensures Inv(hash, s')
  {
    hide Accepts, Encode, Inv;
    LeaveKeepsInv(hash, s, a.gen);
    if a.ReadLog? && Accepts(hash, s.file) {
      HolderFacts(hash, s, a.gen);
      AdvanceKeepsInv(hash, s, a.gen, s'.gens[a.gen], s');
    }
  }

  lemma {:induction false} ForkKeepsInv(hash: Sha256, s: System, a: Action, s': System)
    requires Inv(hash, s) && Step(hash, s, a, s')
    requires a.Fork? || a.ChildExits?
    ensures Inv(hash, s')
  {
    var c := a.child;
    if c in s.children { ChildFacts(hash, s, c); }
    hide Inv, Accepts, Encode;
    var g := s'.children[c].gen;
    assert s.gens == s.gens[g := s.gens[g]];
    QuietKeepsInv(hash, s, g, s.gens[g], c, s'.children[c]);
  }

  lemma {:induction false} HandshakeKeepsInv(hash: Sha256, s: System, a: Action, s': System)
    requires Inv(hash, s) && Step(hash, s, a, s')
    requires a.SendPidfd? || a.SendFrame? || a.ReadAck?
    ensures Inv(hash, s')
  {
    ChildFacts(hash, s, a.child);
    hide Inv, Accepts, Encode;
    var g := s.children[a.child].gen;
    if a.ReadAck? {
      assert s.gens[g].acks[0] in s.gens[g].acks;
    }
    HandshakeStep(hash, s, a, s');
    hide Step;
    QuietKeepsInv(hash, s, g, s'.gens[g], a.child, s'.children[a.child]);
  }

  /** What a step of the handshake changes. */
  lemma {:induction false} HandshakeStep(hash: Sha256, s: System, a: Action, s': System)
    requires Step(hash, s, a, s') && (a.SendPidfd? || a.SendFrame? || a.ReadAck?)
    ensures a.child in s.children && s.children[a.child].gen in s.gens
    ensures var c, g := a.child, s.children[a.child].gen;
            && c in s'.children && g in s'.gens && s.children[c].state != Exited
            && s' == System(s.file, s.synced, s.lock, s.gens[g := s'.gens[g]], s.children[c := s'.children[c]])
            && s'.children[c] == s.children[c].(state := s'.children[c].state)
            && (s'.children[c].state == Running ==> s.gens[g].acks != [] && s.gens[g].acks[0] == c)
            && s'.gens[g] ==
                 s.gens[g].(control := s'.gens[g].control, pidfds := s'.gens[g].pidfds, acks := s'.gens[g].acks)
            && (forall p :: p in s'.gens[g].pidfds ==> p in s.gens[g].pidfds || p == c)
            && (forall p :: p in s'.gens[g].acks ==> p in s.gens[g].acks)
  {
    hide Accepts, Encode, IsGeneration;
  }

  /** What the invariant says of one child and of those its guardian acknowledged. */
  lemma {:induction false} ChildFacts(hash: Sha256, s: System, c: nat)
    requires Inv(hash, s) && c in s.children
    ensures s.children[c].gen in s.gens && (s.children[c].state == Running ==> s.children[c].registered)
    ensures forall d :: d in s.gens[s.children[c].gen].acks ==> d in s.children && s.children[d].registered
  {
    hide Accepts, Encode, FileMatches;
    assert ChildOk(hash, s, s.children[c]);
  }

  lemma {:induction false} HostActionKeepsInv(hash: Sha256, s: System, a: Action, s': System)
    requires Inv(hash, s) && Step(hash, s, a, s')
    requires a.HostReceivesReady? || a.HostEnds?
    ensures Inv(hash, s')
  {
    hide Accepts, Encode, Inv;
    HostSideKeepsInv(hash, s, a.gen, s'.gens[a.gen]);
  }

  lemma {:induction false} PowerLossKeepsInv(hash: Sha256, s: System, a: Action, s': System)
    requires Inv(hash, s) && Step(hash, s, a, s') && a.PowerLoss?
    ensures Inv(hash, s')
  {
    hide Accepts, Encode, FileMatches;
    PowerLossEndsAll(hash, s, a.survivor, s');
    hide Step;
    AllEndedKeepsChildren(hash, s, s');
    AllEndedKeepsPipes(s, s');
    hide ChildrenInv, OneLiveGeneration, PipesInv;
  }

  /** Every process ended, and nothing else but the file is new. */
  ghost predicate AllEnded(s: System, s': System) {
    && s'.lock == None && s'.gens.Keys == s.gens.Keys && s'.children.Keys == s.children.Keys
    && (forall g :: g in s.gens ==> s'.gens[g] == s.gens[g].(phase := Gone, host := Ended))
    && forall c :: c in s.children ==> s'.children[c] == s.children[c].(state := Exited)
  }

  lemma {:induction false} PowerLossEndsAll(hash: Sha256, s: System, survivor: bytes, s': System)
    requires Step(hash, s, PowerLoss(survivor), s')
    ensures AllEnded(s, s') && Survives(s.synced, s.file, survivor) && s'.file == survivor && s'.synced == survivor
  {
  }

  lemma {:induction false} AllEndedKeepsChildren(hash: Sha256, s: System, s': System)
    requires ChildrenInv(hash, s) && AllEnded(s, s')
    ensures ChildrenInv(hash, s') && OneLiveGeneration(s')
  {
    hide IsClosed;
    forall c | c in s'.children
      ensures ChildOk(hash, s', s'.children[c])
    {
      assert ChildOk(hash, s, s.children[c]);
    }
  }

  lemma {:induction false} AllEndedKeepsPipes(s: System, s': System)
    requires PipesInv(s) && AllEnded(s, s')
    ensures PipesInv(s')
  {
  }

  lemma {:induction false} RegistrationKeepsInv(hash: Sha256, s: System, a: Action, s': System)
    requires Inv(hash, s) && Step(hash, s, a, s') && a.ReceivePidfd?
    ensures Inv(hash, s')
  {
    hide Accepts, Encode, Inv;
    HolderFacts(hash, s, a.gen);
    var gen, c := s.gens[a.gen], s.gens[a.gen].control[0].child;
    if a.received && gen.pidfds != [] && gen.pidfds[0] == c {
      RegisterKeepsInv(hash, s, a.gen, s'.gens[a.gen], c);
    } else {
      AdvanceKeepsInv(hash, s, a.gen, s'.gens[a.gen], s');
    }
  }

  /** The host side of g matters to nothing else. */
  lemma {:induction false} HostSideKeepsInv(hash: Sha256, s: System, g: nat, gen: Generation)
    requires Inv(hash, s) && g in s.gens
    requires gen == s.gens[g].(host := gen.host, control := gen.control)
    ensures Inv(hash, SetGen(s, g, gen))
  {
    var s' := SetGen(s, g, gen);
    SamePhaseKeepsGate(hash, s, g, s');
    ChildrenStay(hash, s, s');
    hide LockInv, FileInv, ChildrenInv, OneLiveGeneration, IsClosed;
  }

  lemma {:induction false} StartKeepsGate(hash: Sha256, s: System, a: Action, s': System)
    requires LockInv(s) && FileInv(hash, s) && Step(hash, s, a, s') && a.Start?
    ensures LockInv(s') && FileInv(hash, s') && (IsClosed(hash, s) ==> IsClosed(hash, s'))
  {
    hide Accepts, FileMatches, IsGeneration;
  }

  lemma {:induction false} StartKeepsInv(hash: Sha256, s: System, a: Action, s': System)
    requires Inv(hash, s) && Step(hash, s, a, s') && a.Start?
    ensures Inv(hash, s')
  {
    StartKeepsGate(hash, s, a, s');
    ChildrenStay(hash, s, s');
    hide LockInv, FileInv, ChildrenInv, OneLiveGeneration, IsClosed;
  }

  /** The invariant is inductive: every action of every process, and every crash, keeps it. */
  lemma {:induction false} InvPreserved(hash: Sha256, s: System, a: Action, s': System)
    requires Inv(hash, s) && Step(hash, s, a, s')
    ensures Inv(hash, s')
  {
    hide Inv, Step;
    match a
    case Start(_, _) => StartKeepsInv(hash, s, a, s');
    case TryLock(_) => TryLockKeepsInv(hash, s, a, s');
    case ReadLog(_) => LockActionKeepsInv(hash, s, a, s');
    case Unlock(_) => LockActionKeepsInv(hash, s, a, s');
    case GuardianDies(_) => LockActionKeepsInv(hash, s, a, s');
    case Truncate(_) => ArmingKeepsInv(hash, s, a, s');
    case SyncTruncate(_) => ArmingKeepsInv(hash, s, a, s');
    case SyncActive(_) => ArmingKeepsInv(hash, s, a, s');
    case PublishReady(_) => ArmingKeepsInv(hash, s, a, s');
    case WriteActive(_, _) => WriteKeepsInv(hash, s, a, s');
    case WriteClean(_, _) => WriteKeepsInv(hash, s, a, s');
    case HostReceivesReady(_) => HostActionKeepsInv(hash, s, a, s');
    case HostEnds(_, _) => HostActionKeepsInv(hash, s, a, s');
    case Fork(_, _) => ForkKeepsInv(hash, s, a, s');
    case ChildExits(_) => ForkKeepsInv(hash, s, a, s');
    case SendPidfd(_) => HandshakeKeepsInv(hash, s, a, s');
    case SendFrame(_) => HandshakeKeepsInv(hash, s, a, s');
    case ReadAck(_) => HandshakeKeepsInv(hash, s, a, s');
    case ReceivePidfd(_, _) => RegistrationKeepsInv(hash, s, a, s');
    case TakeFrame(_) => KillingKeepsInv(hash, s, a, s');
    case EndOfInput(_) => KillingKeepsInv(hash, s, a, s');
    case ContainmentEmpty(_) => ProvingKeepsInv(hash, s, a, s');
    case SyncClean(_) => ProvingKeepsInv(hash, s, a, s');
    case PowerLoss(_) => PowerLossKeepsInv(hash, s, a, s');
  }

  // ---------------------------------------------------------------- safety over whole runs

  lemma {:induction false} RunKeepsInv(hash: Sha256, run: seq<System>, actions: seq<Action>, n: nat)
    requires IsRun(hash, run, actions) && n < |run|
    requires Inv(hash, run[0])
    ensures Inv(hash, run[n])
  {
    hide Inv, Step;
    if n > 0 {
      RunKeepsInv(hash, run, actions, n - 1);
      assert Step(hash, run[n - 1], actions[n - 1], run[n - 1 + 1]);
      InvPreserved(hash, run[n - 1], actions[n - 1], run[n]);
    }
  }

  /** Every state of every run from an initial state satisfies the invariant. */
  lemma {:induction false} ReachableInv(hash: Sha256, run: seq<System>, actions: seq<Action>, n: nat)
    requires IsRun(hash, run, actions) && n < |run| && Init(run[0])
    ensures Inv(hash, run[n])
  {
    assert Inv(hash, run[0]);
    RunKeepsInv(hash, run, actions, n);
  }

  /**
   Generation safety. In every state of every run: a child that exec'd and has not exited is
   registered, and two such children belong to one generation.
   */
  lemma {:induction false} GenerationSafety(hash: Sha256, run: seq<System>, actions: seq<Action>, n: nat, c: nat,
                                            d: nat)
    requires IsRun(hash, run, actions) && n < |run| && Init(run[0])
    requires c in run[n].children && run[n].children[c].state == Running
    requires d in run[n].children && run[n].children[d].state == Running
    ensures run[n].children[c].registered && run[n].children[c].gen == run[n].children[d].gen
  {
    hide Accepts, Encode;
    ReachableInv(hash, run, actions, n);
    assert ChildOk(hash, run[n], run[n].children[c]) && ChildOk(hash, run[n], run[n].children[d]);
  }

  /**
   A guardian past reading the log, so every one that published READY, and a quiescence check that
   succeeds, leave no child of any other generation that may still run code.
   */
  lemma {:induction false} ReadyAndQuiescenceMeanEmpty(hash: Sha256, run: seq<System>, actions: seq<Action>, n: nat,
                                                       c: nat)
    requires IsRun(hash, run, actions) && n < |run| && Init(run[0])
    requires c in run[n].children
    ensures QuiescenceSucceeds(hash, run[n]) ==> !IsLive(run[n].children[c]) && run[n].children[c].state != Running
    ensures forall g :: g in run[n].gens && PastReading(run[n].gens[g].phase) && run[n].children[c].gen != g ==>
              !IsLive(run[n].children[c]) && run[n].children[c].state != Running
  {
    hide Accepts, Encode, FileMatches;
    ReachableInv(hash, run, actions, n);
    assert ChildOk(hash, run[n], run[n].children[c]);
  }

  // ---------------------------------------------------------------- what a dead guardian leaves behind

  /**
   Exactly where a guardian that got past reading may end without closing the gate: before the
   first byte of ACTIVE, or after the last byte of CLEAN.
   */
  lemma {:induction false} GateAfterEnd(hash: Sha256, s: System, g: nat)
    requires Inv(hash, s) && g in s.gens && PastReading(s.gens[g].phase)
    ensures QuiescenceSucceeds(hash, Leave(s, g)) <==>
              s.gens[g].phase in {Accepted, Truncated, WritingActive(0), WritingClean(RECORD_BYTES), Proven}
  {
    HolderFacts(hash, s, g);
    hide Inv, Encode;
    var id, phase := s.gens[g].id, s.gens[g].phase;
    GateBytes(hash, id, if phase.WritingActive? || phase.WritingClean? then phase.written else RECORD_BYTES);
    GateBytes(hash, id, 0);
    hide Accepts;
    var c := Encode(hash, CLEAN, id);
    assert c[..RECORD_BYTES] == c;
    assert Encode(hash, ACTIVE, id)[..0] == [];
  }

  /** A durable ACTIVE, at most a torn CLEAN after it, and nobody past reading the log. */
  ghost predicate QuarantinedBy(hash: Sha256, s: System, id: bytes, synced: nat, written: nat) {
    IsGeneration(id) && synced <= written < RECORD_BYTES
    && s.file == Encode(hash, ACTIVE, id) + Encode(hash, CLEAN, id)[..written]
    && s.synced == Encode(hash, ACTIVE, id) + Encode(hash, CLEAN, id)[..synced]
    && forall g :: g in s.gens ==> !PastReading(s.gens[g].phase)
  }

  ghost predicate IsQuarantined(hash: Sha256, s: System) {
    exists id, synced, written :: QuarantinedBy(hash, s, id, synced, written)
  }

  /** ACTIVE is durable and CLEAN is not wholly written. */
  predicate IsUnproven(phase: Phase) {
    MayHaveChildren(phase) || phase.Armed? || (phase.WritingClean? && phase.written < RECORD_BYTES)
  }

  /** A guardian that ends with ACTIVE durable and CLEAN incomplete quarantines the gate. */
  lemma {:induction false} DeathQuarantines(hash: Sha256, s: System, g: nat)
    requires Inv(hash, s) && g in s.gens
    requires IsUnproven(s.gens[g].phase)
    ensures IsQuarantined(hash, Leave(s, g))
  {
    hide Accepts, Encode;
    HolderFacts(hash, s, g);
    var written := if s.gens[g].phase.WritingClean? then s.gens[g].phase.written else 0;
    var a, c := Encode(hash, ACTIVE, s.gens[g].id), Encode(hash, CLEAN, s.gens[g].id);
    assert a + c[..0] == a;
    assert QuarantinedBy(hash, Leave(s, g), s.gens[g].id, 0, written);
  }

  /**
   A power loss with ACTIVE durable: the gate is accepted exactly if all of CLEAN survived, and
   quarantined if not, which is so whenever CLEAN was incomplete.
   */
  lemma {:induction false} PowerLossQuarantines(hash: Sha256, s: System, g: nat, survivor: bytes, s': System)
    requires Inv(hash, s) && g in s.gens && Step(hash, s, PowerLoss(survivor), s')
    requires IsUnproven(s.gens[g].phase) || s.gens[g].phase.WritingClean?
    ensures QuiescenceSucceeds(hash, s') <==> |survivor| == 2 * RECORD_BYTES
    ensures |survivor| < 2 * RECORD_BYTES ==> IsQuarantined(hash, s')
    ensures IsUnproven(s.gens[g].phase) ==> IsQuarantined(hash, s')
  {
    HolderFacts(hash, s, g);
    hide Accepts, Encode, Inv, Survives;
    PowerLossEndsAll(hash, s, survivor, s');
    hide Step;
    var id := s.gens[g].id;
    var a, c := Encode(hash, ACTIVE, id), Encode(hash, CLEAN, id);
    var written := CleanWritten(hash, s.file, s.synced, id, s.gens[g].phase);
    hide FileMatches;
    var kept := SurvivorOf(a, c, written, survivor);
    GateBytes(hash, id, kept);
    if kept < RECORD_BYTES { assert QuarantinedBy(hash, s', id, kept, kept); }
  }

  /** How much of CLEAN is written behind a durable ACTIVE. */
  lemma {:induction false} CleanWritten(hash: Sha256, file: bytes, synced: bytes, id: bytes, phase: Phase)
    returns (n: nat)
    requires |id| == 16 && FileMatches(hash, file, synced, id, phase) && (IsUnproven(phase) || phase.WritingClean?)
    ensures n <= RECORD_BYTES && (IsUnproven(phase) ==> n < RECORD_BYTES)
    ensures file == Encode(hash, ACTIVE, id) + Encode(hash, CLEAN, id)[..n] && synced == Encode(hash, ACTIVE, id)
  {
    hide Encode;
    n := if phase.WritingClean? then phase.written else 0;
    assert Encode(hash, ACTIVE, id) + Encode(hash, CLEAN, id)[..0] == Encode(hash, ACTIVE, id);
  }

  /** What may be left of ACTIVE and a part of CLEAN, of which ACTIVE is durable. */
  lemma {:induction false} SurvivorOf(a: bytes, c: bytes, written: nat, survivor: bytes) returns (kept: nat)
    requires |a| == RECORD_BYTES && |c| == RECORD_BYTES && written <= RECORD_BYTES
             && Survives(a, a + c[..written], survivor)
    ensures kept <= written && survivor == a + c[..kept] && |survivor| == RECORD_BYTES + kept
  {
    kept := |survivor| - RECORD_BYTES;
    if survivor == a {
      assert c[..0] == [];
    } else {
      assert survivor == (a + c[..written])[..|survivor|];
    }
  }

  /**
   CLEAN wholly written is as good as durable while there is power: a guardian killed before its sync leaves
   an open gate.
   */
  lemma {:induction false} UnsyncedCleanOpensGate(hash: Sha256, s: System, g: nat)
    requires Inv(hash, s) && g in s.gens && s.gens[g].phase == WritingClean(RECORD_BYTES)
    ensures s.synced == Encode(hash, ACTIVE, s.gens[g].id) && QuiescenceSucceeds(hash, Leave(s, g))
  {
    HolderFacts(hash, s, g);
    hide Inv, Accepts;
    GateAfterEnd(hash, s, g);
  }

  /** No action leaves the quarantine, not even a power loss. */
  lemma {:induction false} QuarantineIsPermanent(hash: Sha256, s: System, a: Action, s': System)
    requires IsQuarantined(hash, s) && Step(hash, s, a, s')
    ensures IsQuarantined(hash, s')
  {
    hide Accepts, Encode;
    var id, synced, written :| QuarantinedBy(hash, s, id, synced, written);
    if a.PowerLoss? {
      var active, clean := Encode(hash, ACTIVE, id), Encode(hash, CLEAN, id);
      var kept := |a.survivor| - RECORD_BYTES;
      assert a.survivor == s.synced || a.survivor == s.file[..|a.survivor|];
      assert a.survivor == active + clean[..kept];
      assert QuarantinedBy(hash, s', id, kept, kept);
    } else {
      GateBytes(hash, id, written);
      RefusedLogStays(hash, s, a, s');
      hide Step;
      assert QuarantinedBy(hash, s', id, synced, written);
    }
  }

  /** A refused log with nobody past reading it: no action of a process changes the file. */
  lemma {:induction false} RefusedLogStays(hash: Sha256, s: System, a: Action, s': System)
    requires Step(hash, s, a, s') && !a.PowerLoss? && IsClosed(hash, s)
    ensures s'.file == s.file && s'.synced == s.synced && IsClosed(hash, s')
  {
    hide Accepts, Encode, IsGeneration, IsLive;
    if a.HostReceivesReady? || a.HostEnds? || a.Fork? || a.SendPidfd? || a.SendFrame? || a.ReadAck? || a.ChildExits? {
      HostActionsKeepPhases(hash, s, a, s');
      hide Step;
    } else {
      GuardianWaitsOutside(hash, s, a, s');
      hide Step;
    }
  }

  /** A guardian not past reading the log only comes, tries the lock, finds the log refused, or ends. */
  lemma {:induction false} GuardianWaitsOutside(hash: Sha256, s: System, a: Action, s': System)
    requires Step(hash, s, a, s') && !a.PowerLoss? && IsClosed(hash, s)
    requires !(a.HostReceivesReady? || a.HostEnds? || a.Fork? || a.SendPidfd? || a.SendFrame? || a.ReadAck?
               || a.ChildExits?)
    ensures s'.file == s.file && s'.synced == s.synced && a.gen in s'.gens && !PastReading(s'.gens[a.gen].phase)
    ensures s'.gens == s.gens[a.gen := s'.gens[a.gen]]
  {
    hide Accepts, Encode, IsGeneration, IsLive, Survives;
    assert a.gen in s.gens ==> !PastReading(s.gens[a.gen].phase);
    assert a.Start? || a.TryLock? || a.ReadLog? || a.GuardianDies?;
  }

  lemma {:induction false} HostActionsKeepPhases(hash: Sha256, s: System, a: Action, s': System)
    requires Step(hash, s, a, s')
    requires a.HostReceivesReady? || a.HostEnds? || a.Fork? || a.SendPidfd? || a.SendFrame? || a.ReadAck?
             || a.ChildExits?
    ensures s'.file == s.file && s'.synced == s.synced && s'.lock == s.lock
    ensures s'.gens.Keys == s.gens.Keys && forall g :: g in s.gens ==> s'.gens[g].phase == s.gens[g].phase
  {
    hide Accepts, Encode, IsGeneration, IsLive;
  }

  lemma {:induction false} QuarantineLasts(hash: Sha256, run: seq<System>, actions: seq<Action>, m: nat, n: nat)
    requires IsRun(hash, run, actions) && m <= n < |run|
    requires IsQuarantined(hash, run[m])
    ensures IsQuarantined(hash, run[n])
    decreases n
  {
    hide IsQuarantined, Step;
    if m < n {
      QuarantineLasts(hash, run, actions, m, n - 1);
      assert Step(hash, run[n - 1], actions[n - 1], run[n - 1 + 1]);
      QuarantineIsPermanent(hash, run[n - 1], actions[n - 1], run[n]);
    }
  }

  /**
   Permanent quarantine. Once a guardian has died, or the power was lost, after its ACTIVE became
   durable and before CLEAN was complete, no state of the rest of any run has a guardian past
   reading the log, so none reaches READY, and no quiescence check succeeds.
   */
  lemma {:induction false} DeadGuardianQuarantinesForEver(hash: Sha256, run: seq<System>, actions: seq<Action>, m: nat,
                                                          n: nat, g: nat)
    requires IsRun(hash, run, actions) && m < n < |run| && Init(run[0])
    requires (actions[m] == GuardianDies(g) || actions[m].PowerLoss?) && g in run[m].gens
    requires IsUnproven(run[m].gens[g].phase)
    ensures !QuiescenceSucceeds(hash, run[n])
    ensures forall h :: h in run[n].gens ==> !PastReading(run[n].gens[h].phase)
  {
    hide Accepts, Encode, Inv;
    ReachableInv(hash, run, actions, m);
    assert Step(hash, run[m], actions[m], run[m + 1]);
    if actions[m].PowerLoss? {
      PowerLossQuarantines(hash, run[m], g, actions[m].survivor, run[m + 1]);
    } else {
      DeathQuarantines(hash, run[m], g);
    }
    QuarantineLasts(hash, run, actions, m + 1, n);
    var id, synced, written :| QuarantinedBy(hash, run[n], id, synced, written);
    GateBytes(hash, id, written);
  }
}
