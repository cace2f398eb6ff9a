/**
 The per-turn budget of Provider calls, enforced from the journal's durable dispatch intents and
 not from process-local counters: over any run of checks, dispatches, retries, crashes and
 restarts with other limits, a turn never gets more calls than the largest limit in force.
 */
module ProviderBudget {
  import opened ByteStrings

  const BUDGET_VERSION: nat := 1

  /** The version field of a limit row: rows older than version 1 have none. */
  datatype Version = Absent | NotInteger | Number(value: nat)

  datatype Event =
    | ResponseStarted(turn: Option<string>)
    | CompactionStarted(boundTo: Option<string>)
    | RetryStarted(turn: Option<string>)
    | LimitReached(turn: Option<string>, kind: Option<string>, limit: Option<nat>, consumed: Option<nat>,
                   version: Version)
    | Other(row: string)

  /**
   What the compaction boundary chain says of a journal: whether it is valid, and which turns a pending
   boundary owns.
   */
  datatype Chain = Chain(isValid: seq<Event> -> bool, isPending: (seq<Event>, string) -> bool)

  predicate IsIntent(event: Event, turn: string) {
    || (event.ResponseStarted? && event.turn == Some(turn))
    || (event.CompactionStarted? && event.boundTo == Some(turn))
  }

  predicate IsRetry(event: Event, turn: string) { event.RetryStarted? && event.turn == Some(turn) }

  predicate IsExhaustion(event: Event, turn: string) {
    event.LimitReached? && event.turn == Some(turn) && event.kind == Some("responses")
  }

  /** The durable dispatch intents of a turn, normal responses and bound compactions. */
  function Intents(events: seq<Event>, turn: string): nat {
    if events == [] then 0
    else Intents(events[..|events| - 1], turn) + if IsIntent(events[|events| - 1], turn) then 1 else 0
  }

  /** The first row after the turn's last retry. */
  function EpochStart(events: seq<Event>, turn: string): (n: nat)
    ensures n <= |events|
    ensures n > 0 ==> IsRetry(events[n - 1], turn)
    ensures forall i :: n <= i < |events| ==> !IsRetry(events[i], turn)
  {
    if events == [] then 0
    else if IsRetry(events[|events| - 1], turn) then |events|
    else EpochStart(events[..|events| - 1], turn)
  }

  predicate HasBadVersion(event: Event)
    requires event.LimitReached?
  {
    event.version.NotInteger? || (event.version.Number? && event.version.value != BUDGET_VERSION)
  }

  /** This row already records the exhaustion; a row without a version does so by its limit alone. */
  predicate Records(event: Event, limit: nat, consumed: nat)
    requires event.LimitReached?
  {
    event.limit == Some(limit) && (event.version.Absent? || event.consumed == Some(consumed))
  }

  datatype BudgetError = BrokenChain | BadVersion(seqNo: nat) | Exhausted

  ghost predicate IsFirstBadVersion(events: seq<Event>, turn: string, i: nat) {
    && EpochStart(events, turn) <= i < |events| && IsExhaustion(events[i], turn) && HasBadVersion(events[i])
    && forall k :: EpochStart(events, turn) <= k < i && IsExhaustion(events[k], turn) ==> !HasBadVersion(events[k])
  }

  ghost predicate VersionsAreGood(events: seq<Event>, turn: string) {
    forall i :: EpochStart(events, turn) <= i < |events| && IsExhaustion(events[i], turn) ==> !HasBadVersion(events[i])
  }

  ghost predicate IsRecorded(events: seq<Event>, turn: string, limit: nat, consumed: nat) {
    exists i :: EpochStart(events, turn) <= i < |events| && IsExhaustion(events[i], turn)
      && Records(events[i], limit, consumed)
  }

  function ExhaustionRow(turn: string, limit: nat, consumed: nat): Event {
    LimitReached(Some(turn), Some("responses"), Some(limit), Some(consumed), Number(BUDGET_VERSION))
  }

  /** What a check against a limit may answer, and the journal it leaves. */
  ghost predicate IsCheck(events: seq<Event>, turn: string, limit: Option<nat>, chain: Chain,
                          answer: Option<BudgetError>, after: seq<Event>) {
    if limit.None? then answer == None && after == events
    else if !chain.isValid(events) then answer == Some(BrokenChain) && after == events
    else if !VersionsAreGood(events, turn) then
      && answer.Some? && answer.value.BadVersion? && IsFirstBadVersion(events, turn, answer.value.seqNo)
      && after == events
    else
      var consumed := Intents(events, turn);
      if consumed < limit.value then answer == None && after == events
      else
        && answer == Some(Exhausted)
        && after == events + if IsRecorded(events, turn, limit.value, consumed) || chain.isPending(events, turn) then []
                             else [ExhaustionRow(turn, limit.value, consumed)]
  }

  /** The agent's journal and its configured limit. */
  class Agent {
    var journal: seq<Event>
    const maxResponses: Option<nat>

    constructor (events: seq<Event>, limit: Option<nat>)
      ensures journal == events && maxResponses == limit
    {
      journal, maxResponses := events, limit;
    }

    method DurableIntents(turn: string) returns (n: nat)
      ensures n == Intents(journal, turn)
    {
      n := 0;
      for i := 0 to |journal|
        invariant n == Intents(journal[..i], turn)
      {
        assert journal[..i + 1][..i] == journal[..i];
        if IsIntent(journal[i], turn) { n := n + 1; }
      }
      assert journal[..|journal|] == journal;
    }

    method LatestRetry(turn: string) returns (n: nat)
      ensures n == EpochStart(journal, turn)
    {
      n := 0;
      for i := 0 to |journal|
        invariant n == EpochStart(journal[..i], turn)
      {
        assert journal[..i + 1][..i] == journal[..i];
        if IsRetry(journal[i], turn) { n := i + 1; }
      }
      assert journal[..|journal|] == journal;
    }

    /** `ensure_provider_call_budget` */
    method EnsureProviderCallBudget(turn: string, chain: Chain) returns (answer: Option<BudgetError>)
      modifies this`journal
      ensures IsCheck(old(journal), turn, maxResponses, chain, answer, journal)
      ensures answer.None? <==>
              maxResponses.None?
              || (chain.isValid(old(journal)) && VersionsAreGood(old(journal), turn)
                  && Intents(old(journal), turn) < maxResponses.value)
    {
      if maxResponses.None? { return None; }
      var limit := maxResponses.value;
      if !chain.isValid(journal) { return Some(BrokenChain); }
      var pending := chain.isPending(journal, turn);
      var consumed := DurableIntents(turn);
      var start := LatestRetry(turn);
      var alreadyRecorded := false;
      for i := start to |journal|
        invariant forall k :: start <= k < i && IsExhaustion(journal[k], turn) ==> !HasBadVersion(journal[k])
        invariant alreadyRecorded <==>
                  exists k :: start <= k < i && IsExhaustion(journal[k], turn) && Records(journal[k], limit, consumed)
      {
        if IsExhaustion(journal[i], turn) {
          var version := journal[i].version;
          if version.NotInteger? || (version.Number? && version.value != BUDGET_VERSION) {
            assert IsFirstBadVersion(journal, turn, i);
            return Some(BadVersion(i));
          }
          if journal[i].limit == Some(limit) {
            if version.Absent? || journal[i].consumed == Some(consumed) { alreadyRecorded := true; }
          }
        }
      }
      if consumed < limit { return None; }
      if !alreadyRecorded && !pending {
        journal := journal + [ExhaustionRow(turn, limit, consumed)];
      }
      return Some(Exhausted);
    }
  }

  // ---------------------------------------------------------------- runs

  /**
   The durable journal, and the process: its limit, and the turn whose last check succeeded and
   that has not dispatched since. A crash or restart forgets the latter and may bring another limit.
   */
  datatype System = System(journal: seq<Event>, limit: Option<nat>, cleared: Option<string>)

  datatype Action =
    | Check(turn: string, answer: Option<BudgetError>)
    | DispatchResponse(turn: string)
    | DispatchCompaction(turn: string)
    | DispatchManualCompaction
    | Retry(turn: string)
    | HitToolLimit(turn: string, tools: nat)
    | AppendOther(row: string)
    | Restart(limit: Option<nat>)

  ghost predicate Step(s: System, action: Action, t: System, chain: Chain) {
    match action
    case Check(turn, answer) =>
      && IsCheck(s.journal, turn, s.limit, chain, answer, t.journal)
      && t.limit == s.limit && t.cleared == if answer.None? then Some(turn) else None
    case DispatchResponse(turn) =>
      s.cleared == Some(turn) && t == s.(journal := s.journal + [ResponseStarted(Some(turn))], cleared := None)
    case DispatchCompaction(turn) =>
      s.cleared == Some(turn) && t == s.(journal := s.journal + [CompactionStarted(Some(turn))], cleared := None)
    case DispatchManualCompaction => t == s.(journal := s.journal + [CompactionStarted(None)])
    case Retry(turn) => t == s.(journal := s.journal + [RetryStarted(Some(turn))])
    case HitToolLimit(turn, tools) =>
      t == s.(journal := s.journal + [LimitReached(Some(turn), Some("tools"), Some(tools), None, Absent)])
    case AppendOther(row) => t == s.(journal := s.journal + [Other(row)])
    case Restart(limit) => t == s.(limit := limit, cleared := None)
  }

  ghost predicate IsRun(run: seq<System>, actions: seq<Action>, chain: Chain) {
    && |run| == |actions| + 1
    && forall i :: 0 <= i < |actions| ==> Step(run[i], actions[i], run[i + 1], chain)
  }

  /** At most one row, the one the action stands for. */
  lemma {:induction false} StepAppends(s: System, action: Action, t: System, chain: Chain)
    requires Step(s, action, t, chain)
    ensures t.journal == s.journal || t.journal[..|t.journal| - 1] == s.journal
    ensures |s.journal| <= |t.journal| <= |s.journal| + 1 && t.journal[..|s.journal|] == s.journal
  {
    hide Intents, EpochStart, VersionsAreGood, IsFirstBadVersion, IsRecorded;
  }

  // ---------------------------------------------------------------- the budget

  predicate WithinTop(limit: Option<nat>, top: nat) { limit.Some? && limit.value <= top }

  /** A turn cleared for a dispatch has a call left. */
  ghost predicate ClearedHasRoom(s: System, turn: string) {
    s.cleared == Some(turn) && s.limit.Some? ==> Intents(s.journal, turn) < s.limit.value
  }

  lemma {:induction false} IntentsOfStep(s: System, action: Action, t: System, chain: Chain, turn: string)
    requires Step(s, action, t, chain)
    ensures Intents(t.journal, turn) ==
            Intents(s.journal, turn)
            + if (action.DispatchResponse? || action.DispatchCompaction?) && action.turn == turn then 1 else 0
  {
    hide Step, IsIntent;
    StepAppends(s, action, t, chain);
    RowOfStep(s, action, t, chain, turn);
    var n := |t.journal| - 1;
    if n == |s.journal| { assert t.journal[..n] == s.journal; }
  }

  /** The row of a step is an intent of the turn exactly when the step is a dispatch for it. */
  lemma {:induction false} RowOfStep(s: System, action: Action, t: System, chain: Chain, turn: string)
    requires Step(s, action, t, chain)
    ensures (action.DispatchResponse? || action.DispatchCompaction?) && action.turn == turn <==>
            |t.journal| == |s.journal| + 1 && IsIntent(t.journal[|s.journal|], turn)
  {
    hide Intents, EpochStart, VersionsAreGood, IsFirstBadVersion, IsRecorded;
  }

  lemma {:induction false} StepKeepsRoom(s: System, action: Action, t: System, chain: Chain, turn: string)
    requires Step(s, action, t, chain) && ClearedHasRoom(s, turn)
    ensures ClearedHasRoom(t, turn)
  {
    IntentsOfStep(s, action, t, chain, turn);
    hide Intents, EpochStart, VersionsAreGood, IsFirstBadVersion, IsRecorded;
  }

  /**
   The budget. Whatever happens in a run, a turn ends with no more durable dispatch intents than
   the largest limit in force, or none beyond those it started with when they already spend it.
   */
  lemma {:induction false} BudgetIsNeverExceeded(run: seq<System>, actions: seq<Action>, chain: Chain, turn: string,
                                                 top: nat)
    requires IsRun(run, actions, chain) && ClearedHasRoom(run[0], turn)
    requires forall i :: 0 <= i < |run| ==> WithinTop(run[i].limit, top)
    ensures ClearedHasRoom(run[|actions|], turn)
    ensures Intents(run[0].journal, turn) <= Intents(run[|actions|].journal, turn)
    ensures Intents(run[|actions|].journal, turn) <=
            if Intents(run[0].journal, turn) <= top then top else Intents(run[0].journal, turn)
    decreases |actions|
  {
    hide Intents, Step;
    if actions != [] {
      var n := |actions| - 1;
      BudgetIsNeverExceeded(run[..n + 1], actions[..n], chain, turn, top);
      assert Step(run[n], actions[n], run[n + 1], chain);
      StepKeepsRoom(run[n], actions[n], run[n + 1], chain, turn);
      IntentsOfStep(run[n], actions[n], run[n + 1], chain, turn);
      if actions[n].DispatchResponse? || actions[n].DispatchCompaction? {
        DispatchNeedsClearance(run[n], actions[n], run[n + 1], chain);
      }
    }
  }

  lemma {:induction false} DispatchNeedsClearance(s: System, action: Action, t: System, chain: Chain)
    requires Step(s, action, t, chain) && (action.DispatchResponse? || action.DispatchCompaction?)
    ensures s.cleared == Some(action.turn)
  {
  }

  // ---------------------------------------------------------------- what the journal records

  /** Two exhaustion rows of one retry epoch of which the later repeats the earlier. */
  ghost predicate IsRepeat(journal: seq<Event>, turn: string, i: nat, j: nat) {
    && i < j < |journal| && IsExhaustion(journal[i], turn) && IsExhaustion(journal[j], turn)
    && journal[j].limit.Some? && journal[j].consumed.Some? && journal[j].version == Number(BUDGET_VERSION)
    && Records(journal[i], journal[j].limit.value, journal[j].consumed.value)
    && forall k :: i < k < j ==> !IsRetry(journal[k], turn)
  }

  /** A row that this version wrote is true of the journal before it, and no pending boundary owned the turn. */
  ghost predicate IsTruthful(journal: seq<Event>, turn: string, j: nat, chain: Chain)
    requires j < |journal|
  {
    IsExhaustion(journal[j], turn) ==>
      var before := journal[..j];
      && chain.isValid(before) && !chain.isPending(before, turn)
      && journal[j].limit.Some? && journal[j] == ExhaustionRow(turn, journal[j].limit.value, Intents(before, turn))
      && journal[j].limit.value <= Intents(before, turn)
  }

  /** From this row on, every exhaustion row is truthful and repeats no row of its epoch. */
  ghost predicate RecordsWell(journal: seq<Event>, turn: string, from: nat, chain: Chain) {
    && (forall j: nat :: from <= j < |journal| ==> IsTruthful(journal, turn, j, chain))
    && (forall i: nat, j: nat :: from <= j && i < j ==> !IsRepeat(journal, turn, i, j))
  }

  lemma {:induction false} NewRowIsFine(s: System, action: Action, t: System, chain: Chain, turn: string)
    requires Step(s, action, t, chain) && |t.journal| == |s.journal| + 1
    ensures IsTruthful(t.journal, turn, |s.journal|, chain)
    ensures forall i: nat :: i < |s.journal| ==> !IsRepeat(t.journal, turn, i, |s.journal|)
  {
    hide Intents;
    StepAppends(s, action, t, chain);
    var n := |s.journal|;
    assert t.journal[..n] == s.journal;
    if IsExhaustion(t.journal[n], turn) {
      KindsDiffer();
      assert action.Check? && action.turn == turn;
      var start := EpochStart(s.journal, turn);
      assert start > 0 ==> IsRetry(t.journal[start - 1], turn);
      assert forall k :: 0 <= k < n ==> t.journal[k] == s.journal[k];
    }
  }

  lemma {:induction false} KindsDiffer()
    ensures "tools" != "responses"
  {
    assert "tools"[0] != "responses"[0];
  }

  lemma {:induction false} OldRowsStayFine(journal: seq<Event>, longer: seq<Event>, turn: string, from: nat,
                                           chain: Chain)
    requires |journal| <= |longer| && longer[..|journal|] == journal
    requires RecordsWell(journal, turn, from, chain)
    ensures forall j: nat :: from <= j < |journal| ==> IsTruthful(longer, turn, j, chain)
    ensures forall i: nat, j: nat :: from <= j < |journal| && i < j ==> !IsRepeat(longer, turn, i, j)
  {
    hide Intents, Records, HasBadVersion;
    forall j: nat | from <= j < |journal|
      ensures IsTruthful(longer, turn, j, chain)
    {
      assert longer[..j] == journal[..j] && longer[j] == journal[j];
      assert IsTruthful(journal, turn, j, chain);
    }
    forall i: nat, j: nat | from <= j < |journal| && i < j
      ensures IsRepeat(longer, turn, i, j) ==> IsRepeat(journal, turn, i, j)
    {
      assert forall k :: 0 <= k < |journal| ==> journal[k] == longer[k];
    }
  }

  /**
   The record. Every exhaustion that a run writes, whatever rows of older versions it started
   from, states the limit and the durable count it was reached at; none repeats a row of the same
   retry epoch, and none is written while a pending boundary owns the turn's recovery.
   */
  lemma {:induction false} RunRecordsWell(run: seq<System>, actions: seq<Action>, chain: Chain, turn: string)
    requires IsRun(run, actions, chain)
    ensures |run[0].journal| <= |run[|actions|].journal| && run[|actions|].journal[..|run[0].journal|] == run[0].journal
    ensures RecordsWell(run[|actions|].journal, turn, |run[0].journal|, chain)
    decreases |actions|
  {
    hide Step, RecordsWell;
    if actions == [] {
      NothingWritten(run[0].journal, turn, chain);
    } else {
      var n := |actions| - 1;
      RunRecordsWell(run[..n + 1], actions[..n], chain, turn);
      assert Step(run[n], actions[n], run[n + 1], chain);
      StepRecordsWell(run[n], actions[n], run[n + 1], chain, turn, |run[0].journal|);
    }
  }

  lemma {:induction false} NothingWritten(journal: seq<Event>, turn: string, chain: Chain)
    ensures RecordsWell(journal, turn, |journal|, chain)
  {
  }

  lemma {:induction false} StepRecordsWell(s: System, action: Action, t: System, chain: Chain, turn: string, from: nat)
    requires Step(s, action, t, chain) && from <= |s.journal| && RecordsWell(s.journal, turn, from, chain)
    ensures from <= |t.journal| && t.journal[..from] == s.journal[..from] && RecordsWell(t.journal, turn, from, chain)
  {
    hide Step, IsTruthful, IsRepeat;
    StepAppends(s, action, t, chain);
    OldRowsStayFine(s.journal, t.journal, turn, from, chain);
    if |t.journal| > |s.journal| { NewRowIsFine(s, action, t, chain, turn); }
    assert t.journal[..from] == s.journal[..from];
    forall i: nat, j: nat | from <= j && i < j ensures !IsRepeat(t.journal, turn, i, j) {
      if j >= |t.journal| { NoRepeatBeyond(t.journal, turn, i, j); }
    }
  }

  lemma {:induction false} NoRepeatBeyond(journal: seq<Event>, turn: string, i: nat, j: nat)
    requires j >= |journal|
    ensures !IsRepeat(journal, turn, i, j)
  {
  }
}
