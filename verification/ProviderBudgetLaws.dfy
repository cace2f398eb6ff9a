/**
 The budget check and the rows it writes, said of the journal's fields: which rows count as dispatch
 intents and belong to an epoch, what a check answers, and that an exhaustion is on record exactly once.
 */
module ProviderBudgetLaws {
  import opened ByteStrings
  import opened ProviderBudget

  // ---------------------------------------------------------------- rows and epochs

  /** A normal response of the turn, or a compaction bound to it, was dispatched. */
  predicate IsDispatch(event: Event, turn: string) {
    match event
    case ResponseStarted(t) => t == Some(turn)
    case CompactionStarted(t) => t == Some(turn)
    case _ => false
  }

  /** The intents of a turn are its dispatches, counted. */
  lemma {:induction false} IntentsAreDispatches(events: seq<Event>, turn: string)
    ensures Intents(events, turn) == |set i | 0 <= i < |events| && IsDispatch(events[i], turn)|
    decreases |events|
  {
    var all := set i | 0 <= i < |events| && IsDispatch(events[i], turn);
    if events != [] {
      var n := |events| - 1;
      IntentsAreDispatches(events[..n], turn);
      var before := set i | 0 <= i < n && IsDispatch(events[..n][i], turn);
      assert all == before + if IsDispatch(events[n], turn) then {n} else {};
    }
  }

  predicate IsResponsesLimit(event: Event, turn: string) {
    event.LimitReached? && event.turn == Some(turn) && event.kind == Some("responses")
  }

  /** Row i of the journal has no retry of the turn at it or behind it. */
  predicate IsInEpoch(events: seq<Event>, turn: string, i: int) {
    0 <= i < |events| && forall k :: i <= k < |events| ==> events[k] != RetryStarted(Some(turn))
  }

  lemma {:induction false} EpochIsBehindRetry(events: seq<Event>, turn: string, i: nat)
    ensures IsInEpoch(events, turn, i) <==> EpochStart(events, turn) <= i < |events|
  {
    var start := EpochStart(events, turn);
    if i < start { assert events[start - 1] == RetryStarted(Some(turn)); }
  }

  /** A version that this program cannot read. */
  predicate IsForeign(event: Event) {
    event.LimitReached? && event.version != Absent && event.version != Number(1)
  }

  predicate IsForeignInEpoch(events: seq<Event>, turn: string, i: int) {
    IsInEpoch(events, turn, i) && IsResponsesLimit(events[i], turn) && IsForeign(events[i])
  }

  lemma {:induction false} VersionsMean(events: seq<Event>, turn: string)
    ensures VersionsAreGood(events, turn) <==> forall i: nat :: !IsForeignInEpoch(events, turn, i)
    ensures forall i: nat :: IsFirstBadVersion(events, turn, i) <==>
              IsForeignInEpoch(events, turn, i) && forall k: nat :: k < i ==> !IsForeignInEpoch(events, turn, k)
  {
    forall i: nat ensures IsInEpoch(events, turn, i) <==> EpochStart(events, turn) <= i < |events| {
      EpochIsBehindRetry(events, turn, i);
    }
    hide EpochStart, IsInEpoch;
    forall i: nat
      ensures IsForeignInEpoch(events, turn, i) <==>
                EpochStart(events, turn) <= i < |events| && IsExhaustion(events[i], turn) && HasBadVersion(events[i])
    {
    }
    hide IsForeignInEpoch, IsExhaustion, HasBadVersion;
  }

  // ---------------------------------------------------------------- what a check answers

  /**
   What a check answers: nothing against no limit; the chain's error; the first row of the epoch with a
   foreign version; and else that the calls are spent exactly if as many were dispatched as the limit.
   */
  lemma {:induction false} CheckAnswers(events: seq<Event>, turn: string, limit: Option<nat>, chain: Chain,
                                        answer: Option<BudgetError>, after: seq<Event>)
    requires IsCheck(events, turn, limit, chain, answer, after)
    ensures limit.None? ==> answer == None
    ensures limit.Some? && !chain.isValid(events) ==> answer == Some(BrokenChain)
    ensures limit.Some? && chain.isValid(events) && (exists i: nat :: IsForeignInEpoch(events, turn, i)) ==>
              && answer.Some? && answer.value.BadVersion? && IsForeignInEpoch(events, turn, answer.value.seqNo)
              && forall k: nat :: k < answer.value.seqNo ==> !IsForeignInEpoch(events, turn, k)
    ensures limit.Some? && chain.isValid(events) && (forall i: nat :: !IsForeignInEpoch(events, turn, i)) ==>
              answer == if |set i | 0 <= i < |events| && IsDispatch(events[i], turn)| >= limit.value
                        then Some(Exhausted) else None
  {
    VersionsMean(events, turn);
    IntentsAreDispatches(events, turn);
    hide VersionsAreGood, IsFirstBadVersion, IsForeignInEpoch, Intents, IsDispatch, IsRecorded;
  }

  /**
   This row of the epoch stands for the exhaustion: an older one by its limit, one of this version by its
   count too.
   */
  predicate StandsFor(events: seq<Event>, turn: string, limit: nat, consumed: nat, i: int) {
    && IsInEpoch(events, turn, i) && IsResponsesLimit(events[i], turn) && events[i].limit == Some(limit)
    && (events[i].version == Absent || events[i].consumed == Some(consumed))
  }

  /** The epoch holds a row that stands for the exhaustion. */
  ghost predicate IsOnRecord(events: seq<Event>, turn: string, limit: nat, consumed: nat) {
    exists i: nat :: StandsFor(events, turn, limit, consumed, i)
  }

  lemma {:induction false} RecordedMeans(events: seq<Event>, turn: string, limit: nat, consumed: nat)
    ensures IsRecorded(events, turn, limit, consumed) <==> IsOnRecord(events, turn, limit, consumed)
  {
    forall i: nat
      ensures StandsFor(events, turn, limit, consumed, i) <==>
                EpochStart(events, turn) <= i < |events| && IsExhaustion(events[i], turn)
                && Records(events[i], limit, consumed)
    {
      EpochIsBehindRetry(events, turn, i);
    }
    hide StandsFor, Records, IsExhaustion, EpochStart;
    if IsRecorded(events, turn, limit, consumed) {
      var i :| EpochStart(events, turn) <= i < |events| && IsExhaustion(events[i], turn)
        && Records(events[i], limit, consumed);
      assert StandsFor(events, turn, limit, consumed, i);
    }
  }

  /** The row that a check writes. */
  predicate IsRowOf(event: Event, turn: string, limit: nat, consumed: nat) {
    event == LimitReached(Some(turn), Some("responses"), Some(limit), Some(consumed), Number(1))
  }

  /**
   What a check writes: one row exactly if the calls are spent, no row of the epoch stands for that, and
   no pending boundary owns the turn; in any other case nothing.
   */
  lemma {:induction false} CheckWrites(events: seq<Event>, turn: string, limit: Option<nat>, chain: Chain,
                                       answer: Option<BudgetError>, after: seq<Event>)
    requires IsCheck(events, turn, limit, chain, answer, after)
    ensures var consumed := Intents(events, turn);
            if answer == Some(Exhausted) && !chain.isPending(events, turn)
               && !IsOnRecord(events, turn, limit.value, consumed)
            then |after| == |events| + 1 && after[..|events|] == events
                 && IsRowOf(after[|events|], turn, limit.value, consumed)
            else after == events
  {
    var consumed := Intents(events, turn);
    if answer == Some(Exhausted) {
      assert limit.Some?;
      RecordedMeans(events, turn, limit.value, consumed);
      hide VersionsAreGood, IsFirstBadVersion, Intents, IsRecorded, IsOnRecord;
      if IsOnRecord(events, turn, limit.value, consumed) || chain.isPending(events, turn) {
        assert after == events + [];
      } else {
        assert after == events + [ExhaustionRow(turn, limit.value, consumed)];
      }
    }
  }

  lemma {:induction false} NewRowStands(events: seq<Event>, event: Event, turn: string, limit: nat, consumed: nat)
    requires IsRowOf(event, turn, limit, consumed)
    ensures StandsFor(events + [event], turn, limit, consumed, |events|)
    ensures Intents(events + [event], turn) == Intents(events, turn)
  {
    assert (events + [event])[..|events|] == events;
  }

  /** After an exhausted answer the epoch holds a row that stands for it, unless a pending boundary owns the turn. */
  lemma {:induction false} ExhaustionIsOnRecord(events: seq<Event>, turn: string, limit: nat, chain: Chain,
                                                after: seq<Event>)
    requires IsCheck(events, turn, Some(limit), chain, Some(Exhausted), after) && !chain.isPending(events, turn)
    ensures IsOnRecord(after, turn, limit, Intents(events, turn))
  {
    CheckWrites(events, turn, Some(limit), chain, Some(Exhausted), after);
    hide IsCheck, Intents, StandsFor;
    if after != events {
      assert after == events + [after[|events|]];
      NewRowStands(events, after[|events|], turn, limit, Intents(events, turn));
    }
  }

  /** A second check right after an exhausted answer writes nothing, whatever the chain says of the journal by then. */
  lemma {:induction false} SecondCheckWritesNothing(events: seq<Event>, turn: string, limit: nat, chain: Chain,
                                                    after: seq<Event>, answer: Option<BudgetError>, later: seq<Event>)
    requires IsCheck(events, turn, Some(limit), chain, Some(Exhausted), after)
    requires IsCheck(after, turn, Some(limit), chain, answer, later)
    ensures later == after
  {
    CheckWrites(events, turn, Some(limit), chain, Some(Exhausted), after);
    CheckWrites(after, turn, Some(limit), chain, answer, later);
    hide *;
    if after == events {
      if !chain.isPending(events, turn) { ExhaustionIsOnRecord(events, turn, limit, chain, after); }
    } else {
      ExhaustionIsOnRecord(events, turn, limit, chain, after);
      assert after == events + [after[|events|]];
      NewRowStands(events, after[|events|], turn, limit, Intents(events, turn));
    }
  }

  // ---------------------------------------------------------------- no exhaustion twice

  /** Two rows about the spent calls of a turn with no retry of it between them. */
  predicate InOneEpoch(journal: seq<Event>, turn: string, i: nat, j: nat) {
    && i < j < |journal| && IsResponsesLimit(journal[i], turn) && IsResponsesLimit(journal[j], turn)
    && forall k :: i < k < j ==> journal[k] != RetryStarted(Some(turn))
  }

  /** The later of two such rows says something new: another limit, or another count than a row of this version. */
  predicate SaysNew(earlier: Event, later: Event)
    requires earlier.LimitReached? && later.LimitReached?
  {
    earlier.limit == later.limit ==> earlier.consumed != later.consumed && earlier.version != Absent
  }

  /** A row that a step writes says something new in its epoch. */
  lemma {:induction false} StepSaysNew(s: System, action: Action, t: System, chain: Chain, turn: string, i: nat)
    requires Step(s, action, t, chain) && |t.journal| == |s.journal| + 1 && InOneEpoch(t.journal, turn, i, |s.journal|)
    ensures SaysNew(t.journal[i], t.journal[|s.journal|])
  {
    StepAppends(s, action, t, chain);
    var n := |s.journal|;
    assert t.journal[..n] == s.journal && t.journal[i] == s.journal[i];
    assert action.Check? && action.turn == turn by {
      LimitsOfSteps(s, action, t, chain, turn);
    }
    CheckWrites(s.journal, turn, s.limit, chain, action.answer, t.journal);
    var consumed := Intents(s.journal, turn);
    assert !StandsFor(s.journal, turn, s.limit.value, consumed, i);
    assert forall k :: i <= k < n ==> s.journal[k] == t.journal[k];
    hide IsCheck, Intents, Step;
  }

  lemma {:induction false} LimitsOfSteps(s: System, action: Action, t: System, chain: Chain, turn: string)
    requires Step(s, action, t, chain) && |t.journal| == |s.journal| + 1
    requires IsResponsesLimit(t.journal[|s.journal|], turn)
    ensures action.Check? && action.turn == turn
  {
    assert "tools"[0] != "responses"[0];
    if action.Check? { CheckWrites(s.journal, action.turn, s.limit, chain, action.answer, t.journal); }
    hide IsCheck;
  }

  /**
   No exhaustion twice. Of two rows about the spent calls of one turn, with no retry between them, of
   which the run wrote the later: they differ in the limit, or in the count, and then the earlier is
   none of the older rows that stand for their limit alone.
   */
  lemma {:induction false} NoExhaustionTwice(run: seq<System>, actions: seq<Action>, chain: Chain, turn: string,
                                             i: nat, j: nat)
    requires IsRun(run, actions, chain) && |run[0].journal| <= j
    requires InOneEpoch(run[|actions|].journal, turn, i, j)
    ensures SaysNew(run[|actions|].journal[i], run[|actions|].journal[j])
    decreases |actions|
  {
    hide Step, SaysNew, InOneEpoch;
    if actions == [] {
      assert false by { WithinJournal(run[0].journal, turn, i, j); }
    } else {
      var n := |actions| - 1;
      var s, t := run[n], run[n + 1];
      assert Step(s, actions[n], t, chain);
      StepAppends(s, actions[n], t, chain);
      WithinJournal(t.journal, turn, i, j);
      if j == |s.journal| {
        StepSaysNew(s, actions[n], t, chain, turn, i);
      } else {
        EpochOfPrefix(s.journal, t.journal, turn, i, j);
        NoExhaustionTwice(run[..n + 1], actions[..n], chain, turn, i, j);
        assert t.journal[i] == s.journal[i] && t.journal[j] == s.journal[j];
      }
    }
  }

  lemma {:induction false} WithinJournal(journal: seq<Event>, turn: string, i: nat, j: nat)
    requires InOneEpoch(journal, turn, i, j)
    ensures i < j < |journal| && journal[i].LimitReached? && journal[j].LimitReached?
  {
  }

  lemma {:induction false} EpochOfPrefix(journal: seq<Event>, longer: seq<Event>, turn: string, i: nat, j: nat)
    requires |journal| <= |longer| && longer[..|journal|] == journal && j < |journal| && InOneEpoch(longer, turn, i, j)
    ensures InOneEpoch(journal, turn, i, j)
  {
    assert forall k :: 0 <= k < |journal| ==> longer[k] == journal[k];
  }

  // ---------------------------------------------------------------- the whole budget can be spent

  /** A check that clears a turn, and its dispatch. */
  lemma {:induction false} CallIsMade(s: System, turn: string, limit: nat, chain: Chain, compaction: bool)
    returns (checked: System, t: System, dispatch: Action)
    requires s.limit == Some(limit) && chain.isValid(s.journal) && Intents(s.journal, turn) < limit
    requires forall i: nat :: !IsForeignInEpoch(s.journal, turn, i)
    ensures Step(s, Check(turn, None), checked, chain) && Step(checked, dispatch, t, chain)
    ensures t.limit == s.limit && Intents(t.journal, turn) == Intents(s.journal, turn) + 1
    ensures forall i: nat :: !IsForeignInEpoch(t.journal, turn, i)
    ensures exists event :: IsDispatch(event, turn) && event.CompactionStarted? == compaction
                            && t.journal == s.journal + [event]
  {
    VersionsMean(s.journal, turn);
    checked := s.(cleared := Some(turn));
    var event := if compaction then CompactionStarted(Some(turn)) else ResponseStarted(Some(turn));
    dispatch := if compaction then DispatchCompaction(turn) else DispatchResponse(turn);
    t := System(s.journal + [event], s.limit, None);
    hide VersionsAreGood, EpochStart;
    assert t.journal[..|s.journal|] == s.journal;
    forall i: nat ensures !IsForeignInEpoch(t.journal, turn, i) {
      DispatchIsNotForeign(s.journal, event, turn, i);
    }
  }

  lemma {:induction false} DispatchIsNotForeign(events: seq<Event>, event: Event, turn: string, i: nat)
    requires IsDispatch(event, turn)
    ensures IsForeignInEpoch(events + [event], turn, i) ==> IsForeignInEpoch(events, turn, i)
  {
    assert forall k :: 0 <= k < |events| ==> (events + [event])[k] == events[k];
  }

  /**
   From any journal of a valid chain with versions this program reads, some run spends the budget to its
   last call.
   */
  lemma {:induction false} BudgetCanBeSpent(s: System, turn: string, limit: nat, chain: Chain)
    returns (run: seq<System>, actions: seq<Action>)
    requires s.limit == Some(limit) && Intents(s.journal, turn) <= limit
    requires (forall journal :: chain.isValid(journal)) && forall i: nat :: !IsForeignInEpoch(s.journal, turn, i)
    ensures IsRun(run, actions, chain) && run[0] == s
    ensures Intents(run[|actions|].journal, turn) == limit && run[|actions|].limit == s.limit
    decreases limit - Intents(s.journal, turn)
  {
    hide Step, Intents, IsForeignInEpoch;
    if Intents(s.journal, turn) == limit {
      run, actions := [s], [];
    } else {
      var checked, t, dispatch := CallIsMade(s, turn, limit, chain, false);
      var later, acts := BudgetCanBeSpent(t, turn, limit, chain);
      run, actions := [s, checked] + later, [Check(turn, None), dispatch] + acts;
      forall i | 0 <= i < |actions| ensures Step(run[i], actions[i], run[i + 1], chain) {
        if i >= 2 { assert Step(later[i - 2], acts[i - 2], later[i - 2 + 1], chain); }
      }
    }
  }
}
