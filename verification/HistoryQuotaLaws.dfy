/**
 What the history quota promises over batches and turns: reserves that are kept, a reserve error
 that is never reached, outputs within the turn's bytes wherever a batch stops, and how the live and
 the rebuilt counter relate.
 */
module HistoryQuotaLaws {
  import opened ByteStrings
  import opened Chars
  import opened ToolNames
  import opened HistoryQuota

  // ---------------------------------------------------------------- the invariant of a turn

  /**
   Between calls every pending history call has its reserve; with one pending the counter is within the
   turn's bytes.
   */
  predicate HasReserve(s: Live, pending: seq<Call>) {
    s.quota == QuotaOf(s.quota.used) && RESERVE_BYTES * |HistoryCalls(pending)| <= s.quota.remaining
  }

  /** Calls with an identifier and a name. */
  predicate AreNamed(calls: seq<Call>) {
    forall i :: 0 <= i < |calls| ==> calls[i].id != "" && calls[i].name != ""
  }

  /** The journal is whole, its calls are readable, and no call but a pending one lacks its outcome row. */
  ghost predicate IsAccounted(turn: string, journal: seq<Event>, pending: seq<Call>) {
    && (forall i :: 0 <= i < |journal| ==> IsWhole(journal[i]))
    && CallsAreReadable(journal, turn) && AreNamed(pending)
    && OutcomesOf(journal, turn) + NamespacedCalls(pending) <= CallsOf(journal, turn)
  }

  /** Each call keeps the reserve of every history call still behind it, and the bytes used within the turn's. */
  lemma {:induction false} StepKeepsReserve(turn: string, s: Live, calls: seq<Call>, produced: string)
    requires calls != [] && HasReserve(s, calls)
    requires CallStep(turn, s, calls[0], |HistoryCalls(calls)|, produced).Some?
    ensures var t := CallStep(turn, s, calls[0], |HistoryCalls(calls)|, produced).value;
            HasReserve(t, calls[1..]) && (t.quota.used <= TURN_BYTES || t.quota == s.quota)
  {
    hide Serialized;
    assert HistoryCalls(calls) == (if IsHistoryTool(calls[0].name) then [calls[0]] else []) + HistoryCalls(calls[1..]);
  }

  /**
   The reserve error, exactly: with its reserve in place a history call meets it, for some
   result, just when the fallback does not fit the budget; with an identifier of at most 343
   escaped bytes it never does.
   */
  lemma {:induction false} ReserveErrorCondition(turn: string, s: Live, calls: seq<Call>)
    requires calls != [] && HasReserve(s, calls) && IsHistoryTool(calls[0].name)
    ensures var budget := OutputBudget(s.quota, |HistoryCalls(calls)|);
            && budget >= RESERVE_BYTES
            && ((exists produced :: CallStep(turn, s, calls[0], |HistoryCalls(calls)|, produced).None?)
                <==> ENVELOPE_BYTES + EscapedBytes(calls[0].id) + 113 > budget)
    ensures EscapedBytes(calls[0].id) <= 343 ==>
              forall produced :: CallStep(turn, s, calls[0], |HistoryCalls(calls)|, produced).Some?
  {
    ControlBytes();
    hide EscapedBytes, IsHistoryTool;
    assert HistoryCalls(calls) == [calls[0]] + HistoryCalls(calls[1..]);
    var call, n := calls[0], |HistoryCalls(calls)|;
    assert Serialized(call.id, CONTROL_TEXT) == ENVELOPE_BYTES + EscapedBytes(call.id) + 113;
    if Serialized(call.id, CONTROL_TEXT) > OutputBudget(s.quota, n) {
      assert HistoryStep(turn, s, call, n, CONTROL_TEXT).None?;
      assert CallStep(turn, s, call, n, CONTROL_TEXT).None?;
    }
  }

  /** Identifiers of at most 343 escaped bytes. */
  predicate HasShortIds(history: seq<Call>) {
    forall i :: 0 <= i < |history| ==> EscapedBytes(history[i].id) <= 343
  }

  /** An admitted identifier takes at most 256 escaped bytes: nothing in it is escaped to more than twice its length. */
  lemma {:induction false} EscapingTwofoldAtMost(s: string)
    requires forall i :: 0 <= i < |s| ==> !IsControl(s[i])
    ensures EscapedBytes(s) <= 2 * Utf8Bytes(s)
    decreases |s|
  {
    if s != [] { EscapingTwofoldAtMost(s[1..]); }
  }

  lemma {:induction false} IdentityIsShort(s: string)
    requires IsIdentity(s)
    ensures s != "" && EscapedBytes(s) <= 256
  {
    EscapingTwofoldAtMost(s);
  }

  lemma {:induction false} IdentitiesAreShort(calls: seq<Call>)
    requires AreIdentities(calls)
    ensures HasShortIds(HistoryCalls(calls))
    decreases |calls|
  {
    if calls != [] {
      IdentityIsShort(calls[0].id);
      hide EscapedBytes, IsHistoryTool, IsIdentity;
      assert forall i :: 1 <= i < |calls| ==> calls[i] == calls[1..][i - 1];
      IdentitiesAreShort(calls[1..]);
      hide AreIdentities;
      var rest := HistoryCalls(calls[1..]);
      assert forall i :: 0 <= i < |rest| ==> ([calls[0]] + rest)[i + 1] == rest[i];
    }
  }

  lemma {:induction false} TailIsShort(calls: seq<Call>)
    requires calls != [] && HasShortIds(HistoryCalls(calls))
    ensures HasShortIds(HistoryCalls(calls[1..]))
    ensures IsHistoryTool(calls[0].name) ==> EscapedBytes(calls[0].id) <= 343
  {
    hide IsHistoryTool, EscapedBytes;
    var all, rest := HistoryCalls(calls), HistoryCalls(calls[1..]);
    var d := |all| - |rest|;
    assert forall i :: 0 <= i < |rest| ==> rest[i] == all[i + d];
    assert IsHistoryTool(calls[0].name) ==> all[0] == calls[0];
  }

  /** With their reserves in place and short identifiers, no call of a batch meets the reserve error. */
  lemma {:induction false} ShortIdsNeverFail(turn: string, s: Live, calls: seq<Call>, produced: seq<string>, k: nat)
    requires |calls| == |produced| && k <= |calls| && HasReserve(s, calls) && HasShortIds(HistoryCalls(calls))
    ensures !RunFirst(turn, s, calls, produced, k).failed
    decreases k
  {
    hide HistoryCalls, HasReserve, HasShortIds, HistoryStep, IsHistoryTool, EscapedBytes, OutputBudget;
    if k > 0 {
      TailIsShort(calls);
      if IsHistoryTool(calls[0].name) { ReserveErrorCondition(turn, s, calls); }
      var next := CallStep(turn, s, calls[0], |HistoryCalls(calls)|, produced[0]);
      assert next.Some?;
      StepKeepsReserve(turn, s, calls, produced[0]);
      ShortIdsNeverFail(turn, next.value, calls[1..], produced[1..], k - 1);
    }
  }

  /**
   The error "reserved history control output does not fit" is never reached: no call of an admitted
   response meets it, whatever the calls before it produced.
   */
  lemma {:induction false} ReserveErrorUnreachable(turn: string, journal: seq<Event>, quota: Quota, items: seq<Item>,
                                                   produced: seq<string>, k: nat)
    requires quota == QuotaOf(quota.used) && IsAdmitted(items, quota) && |produced| == |items| && k <= |items|
    ensures !RunFirst(turn, Live(journal, quota), CallsIn(items), produced, k).failed
  {
    hide HistoryCalls, AreIdentities, HasShortIds, IdsAreGood, RunFirst;
    IdentitiesAreShort(CallsIn(items));
    ShortIdsNeverFail(turn, Live(journal, quota), CallsIn(items), produced, k);
  }

  // ---------------------------------------------------------------- live and rebuilt counter

  /** A namespace call that is no history tool: its output counts in the journal but not in the live counter. */
  predicate IsStray(call: Call) { InNamespace(call.name) && !IsHistoryTool(call.name) }

  function StrayBytes(calls: seq<Call>, produced: seq<string>): nat
    requires |calls| == |produced|
  {
    if calls == [] then 0
    else (if IsStray(calls[0]) then Serialized(calls[0].id, produced[0]) else 0) + StrayBytes(calls[1..], produced[1..])
  }

  lemma {:induction false} NoStrayNoBytes(calls: seq<Call>, produced: seq<string>)
    requires |calls| == |produced|
    ensures StrayBytes(calls, produced) == 0 <==> forall i :: 0 <= i < |calls| ==> !IsStray(calls[i])
    decreases |calls|
  {
    hide IsStray;
    if calls != [] {
      NoStrayNoBytes(calls[1..], produced[1..]);
      assert forall i :: 0 < i < |calls| ==> calls[i] == calls[1..][i - 1];
      assert forall i :: 0 <= i < |calls| - 1 ==> calls[1..][i] == calls[i + 1];
    }
  }

  lemma {:induction false} ConsNamespaced(calls: seq<Call>)
    requires calls != []
    ensures NamespacedCalls(calls) ==
            (if InNamespace(calls[0].name) then multiset{calls[0]} else multiset{}) + NamespacedCalls(calls[1..])
    decreases |calls|
  {
    hide InNamespace;
    var n := |calls| - 1;
    if n > 0 {
      ConsNamespaced(calls[..n]);
      SnocNamespaced(calls[1..]);
      assert calls[..n][1..] == calls[1..][..n - 1];
      hide NamespacedCalls;
      SnocNamespaced(calls);
      MoveCall(if InNamespace(calls[0].name) then multiset{calls[0]} else multiset{}, NamespacedCalls(calls[1..n]),
               if InNamespace(calls[n].name) then multiset{calls[n]} else multiset{});
    } else {
      SnocNamespaced(calls);
      assert calls[..0] == [] && calls[1..] == [];
    }
  }

  lemma {:induction false} SnocNamespaced(calls: seq<Call>)
    requires calls != []
    ensures NamespacedCalls(calls) == NamespacedCalls(calls[..|calls| - 1])
                                      + if InNamespace(calls[|calls| - 1].name) then multiset{calls[|calls| - 1]}
                                        else multiset{}
  {
  }

  /** Writing a pending call's outcome accounts for exactly that call. */
  lemma {:induction false} OutcomeIsAccounted(turn: string, journal: seq<Event>, calls: seq<Call>, output: string)
    requires calls != [] && IsAccounted(turn, journal, calls)
    ensures IsAccounted(turn, journal + [Outcome(turn, calls[0], output)], calls[1..])
    ensures OutcomeBytes(journal + [Outcome(turn, calls[0], output)], turn) ==
            OutcomeBytes(journal, turn) + if InNamespace(calls[0].name) then Serialized(calls[0].id, output) else 0
  {
    hide OutcomesOf, CallsOf, OutcomeBytes, InNamespace, Serialized, NamespacedCalls;
    var event := Outcome(turn, calls[0], output);
    SnocJournal(journal, event, turn);
    ConsNamespaced(calls);
    assert IsOutcome(event, turn) <==> InNamespace(calls[0].name);
    var next := if InNamespace(calls[0].name) then multiset{calls[0]} else multiset{};
    MoveCall(OutcomesOf(journal, turn), next, NamespacedCalls(calls[1..]));
  }

  /** Over a whole batch the journal outruns the live counter by exactly the stray outputs. */
  lemma {:induction false} RunCallsAccounts(turn: string, s: Live, calls: seq<Call>, produced: seq<string>)
    requires |calls| == |produced| && HasReserve(s, calls) && IsAccounted(turn, s.journal, calls)
    requires RunCalls(turn, s, calls, produced).Some?
    ensures var t := RunCalls(turn, s, calls, produced).value;
            && HasReserve(t, []) && IsAccounted(turn, t.journal, [])
            && (t.quota.used <= TURN_BYTES || t.quota == s.quota)
            && OutcomeBytes(t.journal, turn) - t.quota.used
               == OutcomeBytes(s.journal, turn) - s.quota.used + StrayBytes(calls, produced)
    decreases |calls|
  {
    hide OutcomeBytes, InNamespace, Serialized, HistoryCalls, OutputBudget, IsAccounted, HasReserve;
    if calls == [] {
      assert calls == [];
    } else {
      HistoryToolsAreInNamespace(calls[0].name);
      StepKeepsReserve(turn, s, calls, produced[0]);
      OutcomeIsAccounted(turn, s.journal, calls, produced[0]);
      OutcomeIsAccounted(turn, s.journal, calls, CONTROL_TEXT);
      var next := CallStep(turn, s, calls[0], |HistoryCalls(calls)|, produced[0]).value;
      RunCallsAccounts(turn, next, calls[1..], produced[1..]);
    }
  }

  /**
   After a batch that started in agreement with the journal: at most 32768 bytes are used, or as
   many as before; the rebuilt counter is the live one plus the stray outputs. The two agree exactly
   when no call of the batch has a name in the history namespace without being a history tool.
   */
  lemma {:induction false} LiveAgreesWithRebuilt(turn: string, s: Live, calls: seq<Call>, produced: seq<string>,
                                                 excluded: set<string>)
    requires |calls| == |produced| && HasReserve(s, calls) && IsAccounted(turn, s.journal, calls) && turn !in excluded
    requires Rebuild(s.journal, turn, excluded) == Ok(s.quota)
    requires RunCalls(turn, s, calls, produced).Some?
    ensures var t := RunCalls(turn, s, calls, produced).value;
            && (t.quota.used <= TURN_BYTES || t.quota == s.quota)
            && Rebuild(t.journal, turn, excluded) == Ok(QuotaOf(t.quota.used + StrayBytes(calls, produced)))
            && (Rebuild(t.journal, turn, excluded) == Ok(t.quota) <==>
                  forall i :: 0 <= i < |calls| ==> !IsStray(calls[i]))
  {
    hide OutcomesOf, CallsOf, OutcomeBytes, Rebuild, RunCalls, IsStray, NamespacedCalls, HistoryCalls, StrayBytes,
         IsWhole;
    RunCallsAccounts(turn, s, calls, produced);
    NoStrayNoBytes(calls, produced);
    var t := RunCalls(turn, s, calls, produced).value;
    AccountedRebuild(turn, s.journal, calls, excluded);
    AccountedRebuild(turn, t.journal, [], excluded);
  }

  lemma {:induction false} AccountedRebuild(turn: string, journal: seq<Event>, pending: seq<Call>,
                                            excluded: set<string>)
    requires IsAccounted(turn, journal, pending) && turn !in excluded
    ensures Rebuild(journal, turn, excluded) == Ok(QuotaOf(OutcomeBytes(journal, turn)))
  {
    AccountedPrefix(turn, journal, pending);
    RebuildCountsOutcomes(journal, turn, excluded);
  }

  lemma {:induction false} AccountedPrefix(turn: string, journal: seq<Event>, pending: seq<Call>)
    requires IsAccounted(turn, journal, pending)
    ensures OutcomesOf(journal, turn) <= CallsOf(journal, turn)
  {
    hide OutcomesOf, CallsOf, NamespacedCalls;
    assert OutcomesOf(journal, turn) <= OutcomesOf(journal, turn) + NamespacedCalls(pending);
  }

  /** An admitted call lacks neither an identifier nor a name, so its item is readable unless it has no `call_id`. */
  lemma {:induction false} AdmittedAreNamed(items: seq<Item>, quota: Quota)
    requires IsAdmitted(items, quota)
    ensures AreNamed(CallsIn(items))
    ensures AreReadable(items) <==> forall i :: 0 <= i < |items| ==> items[i].hasCallId
  {
    hide ResponseFits, IsIdentity;
    forall i | 0 <= i < |items|
      ensures items[i].call.id != "" && items[i].call.name != ""
    {
      assert CallsIn(items)[i] == items[i].call;
      IdentityIsNotEmpty(items[i].call.id);
      IdentityIsNotEmpty(items[i].call.name);
    }
  }

  lemma {:induction false} IdentityIsNotEmpty(s: string)
    requires IsIdentity(s)
    ensures s != ""
  {
  }

  /**
   An admitted response leaves the turn ready for its batch, in agreement with the journal if its items are
   readable.
   */
  lemma {:induction false} AcceptedResponseIsReady(turn: string, journal: seq<Event>, quota: Quota, items: seq<Item>,
                                                   excluded: set<string>)
    requires turn !in excluded && IsAccounted(turn, journal, []) && Rebuild(journal, turn, excluded) == Ok(quota)
    requires IsAdmitted(items, quota)
    ensures var after := journal + [Response(Some(turn), items)];
            && HasReserve(Live(after, quota), CallsIn(items))
            && (AreReadable(items) ==>
                  IsAccounted(turn, after, CallsIn(items)) && Rebuild(after, turn, excluded) == Ok(quota))
            && (!AreReadable(items) ==> Rebuild(after, turn, excluded) == Err(BrokenCall))
  {
    hide OutcomesOf, CallsOf, OutcomeBytes, NamespacedCalls, Rebuild, HistoryCalls, IsAccounted, IdsAreGood,
         AreReadable, AreIdentities;
    AccountedRebuild(turn, journal, [], excluded);
    if AreReadable(items) {
      ResponseIsAccounted(turn, journal, items);
      AccountedRebuild(turn, journal + [Response(Some(turn), items)], CallsIn(items), excluded);
    } else {
      BrokenCallEndsTurn(turn, journal, items, [], excluded);
      assert journal + [Response(Some(turn), items)] + [] == journal + [Response(Some(turn), items)];
    }
  }

  /** After a response with a call that cannot be read, no rebuild of the turn succeeds, whatever rows follow. */
  lemma {:induction false} BrokenCallEndsTurn(turn: string, journal: seq<Event>, items: seq<Item>, more: seq<Event>,
                                              excluded: set<string>)
    requires turn !in excluded && !AreReadable(items)
    ensures Rebuild(journal + [Response(Some(turn), items)] + more, turn, excluded) == Err(BrokenCall)
  {
    hide AreReadable;
    var events := journal + [Response(Some(turn), items)] + more;
    assert events[|journal|] == Response(Some(turn), items) && IsResponseOf(events[|journal|], turn);
  }

  lemma {:induction false} ResponseIsAccounted(turn: string, journal: seq<Event>, items: seq<Item>)
    requires IsAccounted(turn, journal, []) && AreReadable(items)
    ensures var after := journal + [Response(Some(turn), items)];
            IsAccounted(turn, after, CallsIn(items)) && OutcomeBytes(after, turn) == OutcomeBytes(journal, turn)
  {
    hide OutcomesOf, CallsOf, OutcomeBytes, NamespacedCalls;
    SnocJournal(journal, Response(Some(turn), items), turn);
    AccountedPrefix(turn, journal, []);
  }

  /** A batch of one stray call parts the two counters. */
  lemma {:induction false} StrayCallParts(turn: string, call: Call, text: string)
    requires IsStray(call) && IsIdentity(call.id) && IsIdentity(call.name)
    ensures var s := Live([Response(Some(turn), [Item(call, true)])], QuotaOf(0));
            && IsAdmitted([Item(call, true)], QuotaOf(0)) && Rebuild(s.journal, turn, {}) == Ok(s.quota)
            && RunCalls(turn, s, [call], [text]) == Some(s.(journal := s.journal + [Outcome(turn, call, text)]))
            && Rebuild(s.journal + [Outcome(turn, call, text)], turn, {}) != Ok(s.quota)
  {
    var items := [Item(call, true)];
    var s := Live([Response(Some(turn), items)], QuotaOf(0));
    hide Rebuild, IsAccounted, InNamespace, IsHistoryTool, Serialized, IsIdentity;
    NothingYet(turn);
    assert CallsIn(items) == [call];
    assert [call][1..] == [] && [text][1..] == [] && HistoryCalls([call]) == [];
    assert [] + [Response(Some(turn), items)] == [Response(Some(turn), items)];
    IdentityIsNotEmpty(call.id);
    IdentityIsNotEmpty(call.name);
    AcceptedResponseIsReady(turn, [], QuotaOf(0), items, {});
    hide RunCalls, IsAdmitted;
    OneOtherCallRuns(turn, s, call, text);
    LiveAgreesWithRebuilt(turn, s, [call], [text], {});
    assert IsStray([call][0]);
  }

  lemma {:induction false} NoCallsRun(turn: string, s: Live)
    ensures RunCalls(turn, s, [], []) == Some(s)
  {
  }

  lemma {:induction false} OneOtherCallRuns(turn: string, s: Live, call: Call, text: string)
    requires !IsHistoryTool(call.name)
    ensures RunCalls(turn, s, [call], [text]) == Some(s.(journal := s.journal + [Outcome(turn, call, text)]))
  {
    hide IsHistoryTool, HistoryStep, HistoryCalls, Outcome;
    assert [call][1..] == [] && [text][1..] == [];
    NoCallsRun(turn, s.(journal := s.journal + [Outcome(turn, call, text)]));
  }

  /** One call named history_foo is enough for the two counters to part. */
  lemma {:induction false} StrayCallDivides(turn: string)
    ensures var call := Call("c", "history_foo");
            var s := Live([Response(Some(turn), [Item(call, true)])], QuotaOf(0));
            && IsAdmitted([Item(call, true)], QuotaOf(0)) && Rebuild(s.journal, turn, {}) == Ok(s.quota)
            && RunCalls(turn, s, [call], ["x"]).Some?
            && var t := RunCalls(turn, s, [call], ["x"]).value;
               Rebuild(t.journal, turn, {}) != Ok(t.quota)
  {
    StrayIsStray();
    LowerIsIdentity("c");
    hide InNamespace, IsHistoryTool, Rebuild, RunCalls, IsIdentity, IsAdmitted;
    StrayCallParts(turn, Call("c", "history_foo"), "x");
  }

  /** Short texts of lower-case letters and underscores are identities. */
  lemma {:induction false} LowerIsIdentity(s: string)
    requires 1 <= |s| <= IDENTITY_BYTES && forall i :: 0 <= i < |s| ==> 'a' <= s[i] <= 'z' || s[i] == '_'
    ensures IsIdentity(s)
  {
    LowerBytes(s);
    assert !IsWhitespace(s[0]);
  }

  lemma {:induction false} LowerBytes(s: string)
    requires forall i :: 0 <= i < |s| ==> 'a' <= s[i] <= 'z' || s[i] == '_'
    ensures Utf8Bytes(s) == |s|
    decreases |s|
  {
    if s != [] { LowerBytes(s[1..]); }
  }

  lemma {:induction false} StrayIsStray()
    ensures InNamespace("history_foo") && !IsHistoryTool("history_foo") && IsIdentity("history_foo")
  {
    StrayIsIdentity();
    hide IsIdentity;
    assert "history_foo"[..8] == "history_" && |"history_foo"| == 11 && |"history_turn"| == 12
           && |"history_search"| == 14
           && |"history_artifact"| == 16;
  }

  lemma {:induction false} StrayIsIdentity()
    ensures IsIdentity("history_foo")
  {
    assert forall i :: 0 <= i < |"history_foo"| ==> 'a' <= "history_foo"[i] <= 'z' || "history_foo"[i] == '_';
    hide IsIdentity;
    LowerIsIdentity("history_foo");
  }

  lemma {:induction false} NothingYet(turn: string)
    ensures IsAccounted(turn, [], []) && Rebuild([], turn, {}) == Ok(QuotaOf(0)) && ToolBytes([], turn) == 0
            && OutcomeBytes([], turn) == 0
  {
    assert OutcomesOf([], turn) + NamespacedCalls([]) == multiset{} && CallsOf([], turn) == multiset{};
    RebuildCountsOutcomes([], turn, {});
  }

  // ---------------------------------------------------------------- tool bytes and stray bytes

  /** An outcome row of one of the three history tools. */
  predicate IsToolRow(event: Event, turn: string) { IsOutcome(event, turn) && IsHistoryTool(event.tool.value) }

  /** The bytes of all outcomes of the history tools, which the turn's bytes are meant for. */
  function ToolBytes(events: seq<Event>, turn: string): nat {
    if events == [] then 0
    else
      var last := events[|events| - 1];
      ToolBytes(events[..|events| - 1], turn)
      + if IsToolRow(last, turn) then Serialized(last.callId.value, last.output.value) else 0
  }

  /** The bytes of all other outcomes in the history namespace. */
  function StrayRowBytes(events: seq<Event>, turn: string): nat {
    if events == [] then 0
    else
      var last := events[|events| - 1];
      StrayRowBytes(events[..|events| - 1], turn)
      + if IsOutcome(last, turn) && !IsToolRow(last, turn) then Serialized(last.callId.value, last.output.value) else 0
  }

  lemma {:induction false} BytesSplit(events: seq<Event>, turn: string)
    ensures OutcomeBytes(events, turn) == ToolBytes(events, turn) + StrayRowBytes(events, turn)
    decreases |events|
  {
    hide IsOutcome, IsHistoryTool, Serialized;
    if events != [] { BytesSplit(events[..|events| - 1], turn); }
  }

  lemma {:induction false} SnocToolBytes(journal: seq<Event>, event: Event, turn: string)
    ensures ToolBytes(journal + [event], turn) ==
            ToolBytes(journal, turn)
            + if IsToolRow(event, turn) then Serialized(event.callId.value, event.output.value) else 0
  {
    hide IsToolRow, Serialized;
    assert (journal + [event])[..|journal|] == journal;
  }

  /** A call's outcome adds its bytes exactly when its tool is a history tool; other calls need not be readable. */
  lemma {:induction false} OutcomeAddsToolBytes(turn: string, journal: seq<Event>, call: Call, output: string)
    requires IsHistoryTool(call.name) ==> call.id != ""
    ensures ToolBytes(journal + [Outcome(turn, call, output)], turn) ==
            ToolBytes(journal, turn) + if IsHistoryTool(call.name) then Serialized(call.id, output) else 0
  {
    SnocToolBytes(journal, Outcome(turn, call, output), turn);
    HistoryToolsAreInNamespace(call.name);
    hide ToolBytes, InNamespace, IsHistoryTool, Serialized;
  }

  lemma {:induction false} ResponseAddsNoToolBytes(turn: string, journal: seq<Event>, items: seq<Item>)
    ensures ToolBytes(journal + [Response(Some(turn), items)], turn) == ToolBytes(journal, turn)
  {
    SnocToolBytes(journal, Response(Some(turn), items), turn);
  }

  /** The tool bytes are within the turn's, and leave room for the reserve of every pending history call. */
  predicate HasRoom(turn: string, s: Live, pending: seq<Call>) {
    && ToolBytes(s.journal, turn) <= s.quota.used
    && ToolBytes(s.journal, turn) + RESERVE_BYTES * |HistoryCalls(pending)| <= TURN_BYTES
  }

  predicate HaveIds(history: seq<Call>) { forall i :: 0 <= i < |history| ==> history[i].id != "" }

  lemma {:induction false} TailHasIds(calls: seq<Call>)
    requires calls != [] && HaveIds(HistoryCalls(calls))
    ensures HaveIds(HistoryCalls(calls[1..])) && (IsHistoryTool(calls[0].name) ==> calls[0].id != "")
  {
    hide IsHistoryTool;
    var all, rest := HistoryCalls(calls), HistoryCalls(calls[1..]);
    var d := |all| - |rest|;
    assert forall i :: 0 <= i < |rest| ==> rest[i] == all[i + d];
    assert IsHistoryTool(calls[0].name) ==> all[0] == calls[0];
  }

  /** One call, stray or not: the live counter and the tool bytes advance together. */
  lemma {:induction false} StepKeepsRoom(turn: string, s: Live, calls: seq<Call>, produced: string)
    requires calls != [] && HasReserve(s, calls) && HasRoom(turn, s, calls) && HaveIds(HistoryCalls(calls))
    requires CallStep(turn, s, calls[0], |HistoryCalls(calls)|, produced).Some?
    ensures HasRoom(turn, CallStep(turn, s, calls[0], |HistoryCalls(calls)|, produced).value, calls[1..])
  {
    TailHasIds(calls);
    hide Serialized, ToolBytes, IsHistoryTool, Outcome, HaveIds;
    assert HistoryCalls(calls) == (if IsHistoryTool(calls[0].name) then [calls[0]] else []) + HistoryCalls(calls[1..]);
    OutcomeAddsToolBytes(turn, s.journal, calls[0], produced);
    OutcomeAddsToolBytes(turn, s.journal, calls[0], CONTROL_TEXT);
  }

  /**
   The first calls of a batch, as many as run: what is left keeps its reserves, and the tool bytes stay
   within the turn's.
   */
  lemma {:induction false} FirstCallsKeepRoom(turn: string, s: Live, calls: seq<Call>, produced: seq<string>, k: nat)
    requires |calls| == |produced| && k <= |calls|
    requires HasReserve(s, calls) && HasRoom(turn, s, calls) && HaveIds(HistoryCalls(calls))
    ensures var run := RunFirst(turn, s, calls, produced, k);
            && HasReserve(run.state, run.left) && HasRoom(turn, run.state, run.left)
            && (IsAccounted(turn, s.journal, calls) ==> IsAccounted(turn, run.state.journal, run.left))
            && |run.left| <= |calls| && run.left == calls[|calls| - |run.left|..]
    decreases k
  {
    hide HistoryCalls, HasReserve, HasRoom, CallStep, IsAccounted, HaveIds;
    if k > 0 {
      var next := CallStep(turn, s, calls[0], |HistoryCalls(calls)|, produced[0]);
      if next.Some? {
        StepKeepsReserve(turn, s, calls, produced[0]);
        StepKeepsRoom(turn, s, calls, produced[0]);
        if IsAccounted(turn, s.journal, calls) { StepAccounts(turn, s, calls, produced[0]); }
        TailHasIds(calls);
        FirstCallsKeepRoom(turn, next.value, calls[1..], produced[1..], k - 1);
      }
    }
  }

  lemma {:induction false} StepAccounts(turn: string, s: Live, calls: seq<Call>, produced: string)
    requires calls != [] && IsAccounted(turn, s.journal, calls)
    requires CallStep(turn, s, calls[0], |HistoryCalls(calls)|, produced).Some?
    ensures IsAccounted(turn, CallStep(turn, s, calls[0], |HistoryCalls(calls)|, produced).value.journal, calls[1..])
  {
    hide IsAccounted, Serialized, HistoryCalls, IsHistoryTool, Outcome, OutcomeBytes, InNamespace;
    OutcomeIsAccounted(turn, s.journal, calls, produced);
    OutcomeIsAccounted(turn, s.journal, calls, CONTROL_TEXT);
  }

  // ---------------------------------------------------------------- a batch cut short

  /** The bytes of the outcomes of skipped history calls. */
  function SkipBytes(history: seq<Call>, text: string): nat {
    if history == [] then 0 else Serialized(history[0].id, text) + SkipBytes(history[1..], text)
  }

  /** The skip outputs are no longer than the fallback of a history call. */
  lemma {:induction false} SkipTextsAreShort(reason: SkipReason)
    ensures EscapedBytes(SkipText(reason)) <= 113
  {
    hide EscapedBytes, ErrorText;
    match reason
    case ToolLimit => SkipTextBytes("limit_reached", "tool limit");
    case TurnCancelled => SkipTextBytes("cancelled", "cancelled");
    case CallInDoubt => SkipTextBytes("in_doubt", "in_doubt");
    case TurnStalled => SkipTextBytes("stalled", "stalled");
  }

  lemma {:induction false} SkipTextBytes(code: string, reason: string)
    requires IsPlain(code) && IsPlain(reason)
    ensures EscapedBytes(ErrorText(code, "tool was not executed: " + reason)) == 67 + |code| + |reason|
  {
    assert IsPlain("tool was not executed: ");
    hide EscapedBytes, ErrorText;
    ErrorBytes(code, "tool was not executed: " + reason);
  }

  /** Skipping accounts for every call left, stray or not, and adds exactly the bytes of the skipped history calls. */
  lemma {:induction false} SkippedCallsAccount(turn: string, journal: seq<Event>, calls: seq<Call>, text: string)
    requires HaveIds(HistoryCalls(calls))
    ensures IsAccounted(turn, journal, calls) ==> IsAccounted(turn, SkipAll(turn, journal, calls, text), [])
    ensures ToolBytes(SkipAll(turn, journal, calls, text), turn) ==
              ToolBytes(journal, turn) + SkipBytes(HistoryCalls(calls), text)
    decreases |calls|
  {
    if calls == [] {
      assert calls == [];
    } else {
      TailHasIds(calls);
      hide IsAccounted, ToolBytes, InNamespace, IsHistoryTool, Outcome, Serialized, HaveIds;
      if IsAccounted(turn, journal, calls) { OutcomeIsAccounted(turn, journal, calls, text); }
      OutcomeAddsToolBytes(turn, journal, calls[0], text);
      SkippedCallsAccount(turn, journal + [Outcome(turn, calls[0], text)], calls[1..], text);
      SkipBytesCons(calls, text);
    }
  }

  lemma {:induction false} SkipBytesCons(calls: seq<Call>, text: string)
    requires calls != []
    ensures SkipBytes(HistoryCalls(calls), text) ==
            (if IsHistoryTool(calls[0].name) then Serialized(calls[0].id, text) else 0)
                + SkipBytes(HistoryCalls(calls[1..]), text)
  {
    hide IsHistoryTool, Serialized;
    var rest := HistoryCalls(calls[1..]);
    assert ([calls[0]] + rest)[1..] == rest;
    assert [] + rest == rest;
  }

  /** A skipped history call with a short identifier takes no more than its reserve. */
  lemma {:induction false} SkipBytesAreBounded(history: seq<Call>, text: string)
    requires EscapedBytes(text) <= 113 && HasShortIds(history)
    ensures SkipBytes(history, text) <= RESERVE_BYTES * |history|
    decreases |history|
  {
    hide EscapedBytes;
    if history != [] {
      assert forall i :: 0 <= i < |history| - 1 ==> history[1..][i] == history[i + 1];
      SkipBytesAreBounded(history[1..], text);
    }
  }

  /**
   Skipped calls after the first calls of a batch. Stray or not, they all get their outcome, and the
   tool bytes grow by exactly their skip bytes; short identifiers keep them within the turn's.
   */
  lemma {:induction false} SkippedCallsFit(turn: string, s: Live, calls: seq<Call>, reason: SkipReason)
    requires HasRoom(turn, s, calls) && HaveIds(HistoryCalls(calls))
    ensures var journal := SkipAll(turn, s.journal, calls, SkipText(reason));
            && (IsAccounted(turn, s.journal, calls) ==> IsAccounted(turn, journal, []))
            && ToolBytes(journal, turn) == ToolBytes(s.journal, turn) + SkipBytes(HistoryCalls(calls), SkipText(reason))
            && (HasShortIds(HistoryCalls(calls)) ==> ToolBytes(journal, turn) <= TURN_BYTES)
  {
    hide ToolBytes, IsAccounted, SkipText, HistoryCalls, HasShortIds, SkipBytes, SkipAll, HaveIds;
    SkipTextsAreShort(reason);
    SkippedCallsAccount(turn, s.journal, calls, SkipText(reason));
    if HasShortIds(HistoryCalls(calls)) { SkipBytesAreBounded(HistoryCalls(calls), SkipText(reason)); }
  }

  // ---------------------------------------------------------------- a turn

  /** One response of a turn: its calls, what their tools produce, and the stop of its batch if it has one. */
  datatype Exchange = Exchange(items: seq<Item>, produced: seq<string>, stop: Option<Stop>) {
    predicate Valid() {
      |items| == |produced| && (stop.Some? ==> stop.value.after <= |items|)
    }
  }

  /** A turn's journal, the calls an error left without an outcome, and whether the turn goes on. */
  datatype TurnRun = TurnRun(journal: seq<Event>, pending: seq<Call>, goesOn: bool)

  /** One response: refused, or journalled and run; a stop or a reserve error ends the turn. */
  function RunExchange(turn: string, journal: seq<Event>, exchange: Exchange, excluded: set<string>): TurnRun
    requires exchange.Valid()
  {
    var items, quota := exchange.items, Rebuild(journal, turn, excluded);
    if quota.Err? || !IsAdmitted(items, quota.value) then TurnRun(journal, [], false)
    else
      var s := Live(journal + [Response(Some(turn), items)], quota.value);
      var run := RunUntil(turn, s, CallsIn(items), exchange.produced, exchange.stop);
      TurnRun(run.state.journal, run.left, !run.failed && exchange.stop.None?)
  }

  /** The responses of a turn, each starting from the quota rebuilt from the journal. */
  function RunTurn(turn: string, journal: seq<Event>, exchanges: seq<Exchange>, excluded: set<string>): TurnRun
    requires forall i :: 0 <= i < |exchanges| ==> exchanges[i].Valid()
    decreases |exchanges|
  {
    if exchanges == [] then TurnRun(journal, [], true)
    else
      assert exchanges[0].Valid();
      var run := RunExchange(turn, journal, exchanges[0], excluded);
      if run.goesOn then RunTurn(turn, run.journal, exchanges[1..], excluded) else run
  }

  /** Every item of the turn's responses has a `call_id`. */
  predicate CallIdsAreGiven(events: seq<Event>, turn: string) {
    forall i, k :: 0 <= i < |events| && IsResponseOf(events[i], turn) && 0 <= k < |events[i].items| ==>
      events[i].items[k].hasCallId
  }

  /**
   A turn between two responses. With a `call_id` on every item all calls have their outcome and the
   rebuilt counter is the tool bytes and the stray ones; without, the rebuild fails.
   */
  ghost predicate IsRebuilt(turn: string, journal: seq<Event>, excluded: set<string>) {
    if CallIdsAreGiven(journal, turn) then
      && IsAccounted(turn, journal, [])
      && Rebuild(journal, turn, excluded) == Ok(QuotaOf(ToolBytes(journal, turn) + StrayRowBytes(journal, turn)))
    else Rebuild(journal, turn, excluded) == Err(BrokenCall)
  }

  lemma {:induction false} ReadableHaveCallIds(events: seq<Event>, turn: string)
    requires CallsAreReadable(events, turn)
    ensures CallIdsAreGiven(events, turn)
  {
    forall i, k | 0 <= i < |events| && IsResponseOf(events[i], turn) && 0 <= k < |events[i].items|
      ensures events[i].items[k].hasCallId
    {
      assert AreReadable(events[i].items);
    }
  }

  lemma {:induction false} AccountedIsRebuilt(turn: string, journal: seq<Event>, excluded: set<string>)
    requires turn !in excluded && (CallIdsAreGiven(journal, turn) ==> IsAccounted(turn, journal, []))
    ensures IsRebuilt(turn, journal, excluded)
  {
    if CallsAreReadable(journal, turn) { ReadableHaveCallIds(journal, turn); }
    hide IsAccounted, ToolBytes, StrayRowBytes, OutcomeBytes, CallsAreReadable, CallIdsAreGiven;
    if CallIdsAreGiven(journal, turn) { AccountedRebuild(turn, journal, [], excluded); }
    BytesSplit(journal, turn);
  }

  /** The rows of a batch change nothing about the calls that its response made. */
  lemma {:induction false} BatchKeepsCalls(turn: string, s: Live, calls: seq<Call>, produced: seq<string>, k: nat)
    requires |calls| == |produced| && k <= |calls|
    ensures s.journal <= RunFirst(turn, s, calls, produced, k).state.journal
    decreases k
  {
    hide HistoryCalls, Serialized, OutputBudget, IsHistoryTool;
    if k > 0 {
      var next := CallStep(turn, s, calls[0], |HistoryCalls(calls)|, produced[0]);
      if next.Some? { BatchKeepsCalls(turn, next.value, calls[1..], produced[1..], k - 1); }
    }
  }

  lemma {:induction false} SkipsKeepCalls(turn: string, journal: seq<Event>, calls: seq<Call>, text: string)
    ensures journal <= SkipAll(turn, journal, calls, text)
    decreases |calls|
  {
    if calls != [] { SkipsKeepCalls(turn, journal + [Outcome(turn, calls[0], text)], calls[1..], text); }
  }

  /** The tail of a batch holds no other identifiers than the batch. */
  lemma {:induction false} TailIds(calls: seq<Call>, n: nat)
    requires n <= |calls| && HaveIds(HistoryCalls(calls)) && HasShortIds(HistoryCalls(calls))
    ensures HaveIds(HistoryCalls(calls[n..])) && HasShortIds(HistoryCalls(calls[n..]))
    decreases n
  {
    hide HaveIds, HasShortIds, HistoryCalls;
    if n == 0 {
      assert calls[0..] == calls;
    } else {
      TailHasIds(calls);
      TailIsShort(calls);
      TailIds(calls[1..], n - 1);
      assert calls[1..][n - 1..] == calls[n..];
    }
  }

  /** An admitted response in a journal whose items all have a `call_id` is readable. */
  lemma {:induction false} AdmittedIsReadable(turn: string, journal: seq<Event>, items: seq<Item>, quota: Quota,
                                              longer: seq<Event>)
    requires journal + [Response(Some(turn), items)] <= longer && CallIdsAreGiven(longer, turn)
    requires IsAdmitted(items, quota)
    ensures AreReadable(items)
  {
    hide IsAdmitted, AreReadable;
    assert longer[|journal|] == Response(Some(turn), items) && IsResponseOf(longer[|journal|], turn);
    AdmittedAreNamed(items, quota);
  }

  lemma {:induction false} GoodIdsAreIds(history: seq<Call>)
    requires IdsAreGood(history)
    ensures HaveIds(history)
  {
    forall i | 0 <= i < |history| ensures history[i].id != "" { EmptyIsNoBytes(history[i].id); }
  }

  /** An admitted response up to its stop: no error, and what is left keeps its room, its reserves and its accounts. */
  lemma {:induction false} FirstKeepsQuota(turn: string, journal: seq<Event>, exchange: Exchange, excluded: set<string>,
                                           k: nat)
    requires turn !in excluded && exchange.Valid() && IsAccounted(turn, journal, [])
    requires ToolBytes(journal, turn) <= TURN_BYTES && k <= |exchange.items|
    requires Rebuild(journal, turn, excluded).Ok? && IsAdmitted(exchange.items, Rebuild(journal, turn, excluded).value)
    ensures var items, quota := exchange.items, Rebuild(journal, turn, excluded).value;
            var first := RunFirst(turn, Live(journal + [Response(Some(turn), items)], quota), CallsIn(items),
                                  exchange.produced, k);
            && !first.failed && |first.left| == |items| - k
            && HasRoom(turn, first.state, first.left) && HaveIds(HistoryCalls(first.left))
            && HasShortIds(HistoryCalls(first.left))
            && (AreReadable(items) ==> IsAccounted(turn, first.state.journal, first.left))
            && journal + [Response(Some(turn), items)] <= first.state.journal
  {
    hide IsAccounted, Rebuild, ToolBytes, OutcomeBytes, StrayRowBytes, RunFirst, HistoryCalls, IdsAreGood, HasShortIds,
         HaveIds, AreReadable, AreIdentities, AreDistinct;
    var items, calls, quota := exchange.items, CallsIn(exchange.items), QuotaOf(OutcomeBytes(journal, turn));
    AccountedRebuild(turn, journal, [], excluded);
    BytesSplit(journal, turn);
    AcceptedResponseIsReady(turn, journal, quota, items, excluded);
    ResponseAddsNoToolBytes(turn, journal, items);
    GoodIdsAreIds(HistoryCalls(calls));
    IdentitiesAreShort(calls);
    var s := Live(journal + [Response(Some(turn), items)], quota);
    FirstCallsKeepRoom(turn, s, calls, exchange.produced, k);
    BatchKeepsCalls(turn, s, calls, exchange.produced, k);
    ReserveErrorUnreachable(turn, s.journal, quota, items, exchange.produced, k);
    LeftAfter(turn, s, calls, exchange.produced, k);
    var first := RunFirst(turn, s, calls, exchange.produced, k);
    TailIds(calls, |calls| - |first.left|);
  }

  lemma {:induction false} LeftAfter(turn: string, s: Live, calls: seq<Call>, produced: seq<string>, k: nat)
    requires |calls| == |produced| && k <= |calls| && !RunFirst(turn, s, calls, produced, k).failed
    ensures |RunFirst(turn, s, calls, produced, k).left| == |calls| - k
    decreases k
  {
    hide CallStep, HistoryCalls;
    if k > 0 {
      var next := CallStep(turn, s, calls[0], |HistoryCalls(calls)|, produced[0]);
      LeftAfter(turn, next.value, calls[1..], produced[1..], k - 1);
    }
  }

  /**
   One response, whatever it holds and wherever it stops, settles its calls and keeps the tool bytes within
   the turn's.
   */
  lemma {:induction false} ExchangeKeepsQuota(turn: string, journal: seq<Event>, exchange: Exchange,
                                              excluded: set<string>)
    requires turn !in excluded && exchange.Valid()
    requires IsAccounted(turn, journal, []) && ToolBytes(journal, turn) <= TURN_BYTES
    ensures var run := RunExchange(turn, journal, exchange, excluded);
            run.pending == [] && IsRebuilt(turn, run.journal, excluded) && ToolBytes(run.journal, turn) <= TURN_BYTES
  {
    hide IsAccounted, ToolBytes, RunFirst, SkipAll, SkipText, SkipBytes, HistoryCalls, HasShortIds, IsRebuilt, HaveIds,
         CallIdsAreGiven, AreReadable, Rebuild, IsAdmitted;
    var run, quota := RunExchange(turn, journal, exchange, excluded), Rebuild(journal, turn, excluded);
    if quota.Ok? && IsAdmitted(exchange.items, quota.value) {
      var k := if exchange.stop.Some? then exchange.stop.value.after else |exchange.items|;
      FirstKeepsQuota(turn, journal, exchange, excluded, k);
      var s := Live(journal + [Response(Some(turn), exchange.items)], quota.value);
      var first := RunFirst(turn, s, CallsIn(exchange.items), exchange.produced, k);
      if exchange.stop.Some? {
        SkippedCallsFit(turn, first.state, first.left, exchange.stop.value.reason);
        SkipsKeepCalls(turn, first.state.journal, first.left, SkipText(exchange.stop.value.reason));
      }
      if CallIdsAreGiven(run.journal, turn) {
        AdmittedIsReadable(turn, journal, exchange.items, quota.value, run.journal);
      }
    }
    AccountedIsRebuilt(turn, run.journal, excluded);
  }

  /**
   Over all responses of a turn, each starting from the rebuilt quota, whatever their calls and
   results and wherever their batches stop: every call gets its outcome, and the outputs of the
   history tools never exceed 32768 bytes. The rebuilt counter is these bytes and those of the
   stray outputs, unless an item had no `call_id`, after which no rebuild succeeds.
   */
  lemma {:induction false} TurnKeepsQuota(turn: string, journal: seq<Event>, exchanges: seq<Exchange>,
                                          excluded: set<string>)
    requires turn !in excluded && (forall i :: 0 <= i < |exchanges| ==> exchanges[i].Valid())
    requires IsAccounted(turn, journal, []) && ToolBytes(journal, turn) <= TURN_BYTES
    ensures var run := RunTurn(turn, journal, exchanges, excluded);
            run.pending == [] && IsRebuilt(turn, run.journal, excluded) && ToolBytes(run.journal, turn) <= TURN_BYTES
    decreases |exchanges|
  {
    hide IsAccounted, ToolBytes, RunExchange, IsRebuilt;
    if exchanges == [] {
      AccountedIsRebuilt(turn, journal, excluded);
    } else {
      ExchangeKeepsQuota(turn, journal, exchanges[0], excluded);
      var run := RunExchange(turn, journal, exchanges[0], excluded);
      if run.goesOn {
        assert forall i :: 0 <= i < |exchanges| - 1 ==> exchanges[1..][i] == exchanges[i + 1];
        if CallIdsAreGiven(run.journal, turn) {
          assert IsAccounted(turn, run.journal, []) by { RebuiltIsAccounted(turn, run.journal, excluded); }
          TurnKeepsQuota(turn, run.journal, exchanges[1..], excluded);
        } else {
          BrokenTurnStops(turn, run, exchanges[1..], excluded);
        }
      }
    }
  }

  lemma {:induction false} RebuiltIsAccounted(turn: string, journal: seq<Event>, excluded: set<string>)
    requires IsRebuilt(turn, journal, excluded) && CallIdsAreGiven(journal, turn)
    ensures IsAccounted(turn, journal, [])
  {
  }

  /** After an item that cannot be read the next response is refused. */
  lemma {:induction false} BrokenTurnStops(turn: string, run: TurnRun, exchanges: seq<Exchange>, excluded: set<string>)
    requires IsRebuilt(turn, run.journal, excluded) && !CallIdsAreGiven(run.journal, turn)
    requires run.pending == [] && run.goesOn && forall i :: 0 <= i < |exchanges| ==> exchanges[i].Valid()
    ensures RunTurn(turn, run.journal, exchanges, excluded) == run.(goesOn := exchanges == [])
  {
    hide CallIdsAreGiven, IsAccounted;
  }

  // ---------------------------------------------------------------- where the counters go wrong

  /** Calls of one tool, with identifiers of one letter each. */
  function OneLetterCalls(name: string, n: nat): (items: seq<Item>)
    requires n <= ITEMS_PER_RESPONSE
    ensures |items| == n
  {
    seq(n, i requires 0 <= i < n => Item(Call([(0x4E00 + i) as char], name), true))
  }

  lemma {:induction false} StraysAreAdmitted(name: string, n: nat, quota: Quota)
    requires n <= ITEMS_PER_RESPONSE && InNamespace(name) && !IsHistoryTool(name) && IsIdentity(name)
    ensures IsAdmitted(OneLetterCalls(name, n), quota) && AreReadable(OneLetterCalls(name, n))
    ensures forall i :: 0 <= i < n ==> IsStray(CallsIn(OneLetterCalls(name, n))[i])
  {
    var items := OneLetterCalls(name, n);
    IdentityIsNotEmpty(name);
    hide InNamespace, IsHistoryTool, IsIdentity;
    forall i | 0 <= i < n
      ensures items[i].call.name == name && items[i].hasCallId && items[i].call.id[0] as int == 0x4E00 + i
      ensures IsIdentity(items[i].call.id) && items[i].call.id != ""
    {
      OneCharIsIdentity((0x4E00 + i) as char);
    }
    hide OneLetterCalls;
    assert AreDistinct(CallsIn(items)) && AreIdentities(CallsIn(items)) && AreReadable(items);
    hide CallsIn, AreDistinct, AreIdentities, AreReadable;
    StraysFit(CallsIn(items), quota);
  }

  /** Calls of no history tool pass the check of history calls, whatever was used. */
  lemma {:induction false} StraysFit(calls: seq<Call>, quota: Quota)
    requires forall i :: 0 <= i < |calls| ==> IsStray(calls[i])
    ensures ResponseFits(calls, quota)
  {
    hide IsHistoryTool, InNamespace, HistoryCalls;
    NoHistoryCalls(calls);
  }

  lemma {:induction false} OneCharIsIdentity(c: char)
    requires 0x4E00 <= c as int < 0x6000
    ensures IsIdentity([c])
  {
    assert [c][1..] == "" && [c][0] == c && !IsWhitespace(c);
  }

  lemma {:induction false} NoHistoryCalls(calls: seq<Call>)
    requires forall i :: 0 <= i < |calls| ==> !IsHistoryTool(calls[i].name)
    ensures HistoryCalls(calls) == []
    decreases |calls|
  {
    hide IsHistoryTool;
    if calls != [] {
      assert forall i :: 0 <= i < |calls| - 1 ==> calls[1..][i] == calls[i + 1];
      NoHistoryCalls(calls[1..]);
    }
  }

  lemma {:induction false} StrayCallsTake(calls: seq<Call>, produced: seq<string>)
    requires |calls| == |produced| && forall i :: 0 <= i < |calls| ==> IsStray(calls[i])
    ensures StrayBytes(calls, produced) >= ENVELOPE_BYTES * |calls|
    decreases |calls|
  {
    hide IsStray;
    if calls != [] {
      assert IsStray(calls[0]) && forall i :: 0 <= i < |calls| - 1 ==> calls[1..][i] == calls[i + 1];
      StrayCallsTake(calls[1..], produced[1..]);
    }
  }

  lemma {:induction false} StrayBatch(turn: string, items: seq<Item>, produced: seq<string>)
    requires |produced| == |items| && IsAdmitted(items, QuotaOf(0)) && AreReadable(items)
    requires forall i :: 0 <= i < |items| ==> IsStray(CallsIn(items)[i])
    ensures var ran := RunCalls(turn, Live([] + [Response(Some(turn), items)], QuotaOf(0)), CallsIn(items), produced);
            && ran.Some?
            && Rebuild(ran.value.journal, turn, {}) == Ok(QuotaOf(StrayBytes(CallsIn(items), produced)))
  {
    var calls, s := CallsIn(items), Live([] + [Response(Some(turn), items)], QuotaOf(0));
    NothingYet(turn);
    hide Rebuild, IsAccounted, IsAdmitted, RunCalls, OutcomeBytes, IsStray, StrayBytes, AreReadable, CallsIn,
         HasReserve;
    AcceptedResponseIsReady(turn, [], QuotaOf(0), items, {});
    StraysLeaveCounter(turn, s, calls, produced);
    LiveAgreesWithRebuilt(turn, s, calls, produced, {});
  }

  /** A first response of stray calls only: the rebuilt counter is the bytes of their outputs. */
  lemma {:induction false} StrayResponse(turn: string, items: seq<Item>, produced: seq<string>)
    requires |produced| == |items| && IsAdmitted(items, QuotaOf(0)) && AreReadable(items)
    requires forall i :: 0 <= i < |items| ==> IsStray(CallsIn(items)[i])
    ensures var run := RunTurn(turn, [], [Exchange(items, produced, None)], {});
            run.goesOn && Rebuild(run.journal, turn, {}) == Ok(QuotaOf(StrayBytes(CallsIn(items), produced)))
  {
    NothingYet(turn);
    StrayBatch(turn, items, produced);
    hide Rebuild, IsAdmitted, RunCalls, RunExchange, RunTurn, IsStray, StrayBytes, AreReadable, CallsIn, IsAccounted,
         ToolBytes, OutcomeBytes;
    WholeBatch(turn, [], Exchange(items, produced, None), QuotaOf(0));
    RunOne(turn, [], Exchange(items, produced, None), {});
  }

  lemma {:induction false} StraysLeaveCounter(turn: string, s: Live, calls: seq<Call>, produced: seq<string>)
    requires |calls| == |produced| && forall i :: 0 <= i < |calls| ==> IsStray(calls[i])
    ensures RunCalls(turn, s, calls, produced).Some? && RunCalls(turn, s, calls, produced).value.quota == s.quota
    decreases |calls|
  {
    hide IsHistoryTool, InNamespace, HistoryStep, HistoryCalls, Outcome;
    if calls != [] {
      assert IsStray(calls[0]) && forall i :: 0 <= i < |calls| - 1 ==> calls[1..][i] == calls[i + 1];
      StraysLeaveCounter(turn, CallStep(turn, s, calls[0], |HistoryCalls(calls)|, produced[0]).value, calls[1..],
                         produced[1..]);
    }
  }

  /**
   A response of 600 calls of a tool that is none, which runs to its end as its calls differ in their
   arguments: the rebuilt counter passes the turn's bytes, whatever the calls produce, and not one of
   them is a history output.
   */
  lemma {:induction false} StrayCallsPassTurn(turn: string, produced: seq<string>)
    requires |produced| == 600
    ensures var run := RunTurn(turn, [], [Exchange(OneLetterCalls("history_foo", 600), produced, None)], {});
            run.goesOn && Rebuild(run.journal, turn, {}).Ok? && Rebuild(run.journal, turn, {}).value.used > TURN_BYTES
  {
    StrayIsStray();
    hide InNamespace, IsHistoryTool, IsIdentity;
    StraysAreAdmitted("history_foo", 600, QuotaOf(0));
    hide Rebuild, IsAdmitted, RunTurn, StrayBytes, IsStray, OneLetterCalls, AreReadable;
    var items := OneLetterCalls("history_foo", 600);
    StrayResponse(turn, items, produced);
    StrayCallsTake(CallsIn(items), produced);
  }

  /** A response without a stop runs its whole batch. */
  lemma {:induction false} WholeBatch(turn: string, journal: seq<Event>, exchange: Exchange, quota: Quota)
    requires exchange.Valid() && exchange.stop.None?
    requires Rebuild(journal, turn, {}) == Ok(quota) && IsAdmitted(exchange.items, quota)
    ensures var s := Live(journal + [Response(Some(turn), exchange.items)], quota);
            var ran := RunCalls(turn, s, CallsIn(exchange.items), exchange.produced);
            ran.Some? ==> RunExchange(turn, journal, exchange, {}) == TurnRun(ran.value.journal, [], true)
  {
    hide Rebuild, IsAdmitted, RunCalls, RunFirst;
    var s := Live(journal + [Response(Some(turn), exchange.items)], quota);
    RunFirstIsRunCalls(turn, s, CallsIn(exchange.items), exchange.produced);
  }

  lemma {:induction false} RunOne(turn: string, journal: seq<Event>, exchange: Exchange, excluded: set<string>)
    requires exchange.Valid()
    ensures RunTurn(turn, journal, [exchange], excluded) == RunExchange(turn, journal, exchange, excluded)
  {
    hide RunExchange;
    var run := RunExchange(turn, journal, exchange, excluded);
    assert [exchange][1..] == [];
    if run.goesOn { NoPendingGoesOn(turn, journal, exchange, excluded); }
  }

  /** A response after which the turn goes on leaves no call pending. */
  lemma {:induction false} NoPendingGoesOn(turn: string, journal: seq<Event>, exchange: Exchange, excluded: set<string>)
    requires exchange.Valid() && RunExchange(turn, journal, exchange, excluded).goesOn
    ensures RunExchange(turn, journal, exchange, excluded).pending == []
  {
    hide RunFirst, Rebuild, IsAdmitted, SkipAll;
    var s := Live(journal + [Response(Some(turn), exchange.items)], Rebuild(journal, turn, excluded).value);
    RunFirstIsRunCalls(turn, s, CallsIn(exchange.items), exchange.produced);
  }

  /**
   A call whose item has an `id` and no `call_id` is admitted and run, and no rebuild of its turn
   succeeds from then on.
   */
  lemma {:induction false} IdOnlyCallEndsTurn(turn: string, output: string, more: seq<Event>)
    ensures var exchange := Exchange([Item(Call("c", "read"), false)], [output], None);
            var run := RunTurn(turn, [], [exchange], {});
            exchange.Valid() && run.goesOn && Rebuild(run.journal + more, turn, {}) == Err(BrokenCall)
  {
    ReadIsAdmitted();
    hide IsAdmitted, IsHistoryTool, RunTurn, Rebuild;
    IdOnlyResponse(turn, Call("c", "read"), output, more);
  }

  lemma {:induction false} IdOnlyResponse(turn: string, call: Call, output: string, more: seq<Event>)
    requires !IsHistoryTool(call.name) && IsAdmitted([Item(call, false)], QuotaOf(0))
    ensures var run := RunTurn(turn, [], [Exchange([Item(call, false)], [output], None)], {});
            run.goesOn && Rebuild(run.journal + more, turn, {}) == Err(BrokenCall)
  {
    var items := [Item(call, false)];
    var row, s := Outcome(turn, call, output), Live([] + [Response(Some(turn), items)], QuotaOf(0));
    var exchange := Exchange(items, [output], None);
    NothingYet(turn);
    hide Rebuild, IsAdmitted, RunExchange, RunTurn, IsAccounted, ToolBytes, OutcomeBytes, IsHistoryTool, HistoryCalls,
         Outcome;
    assert CallsIn(items) == [call];
    hide CallsIn;
    OneOtherCallRuns(turn, s, call, output);
    WholeBatch(turn, [], exchange, QuotaOf(0));
    RunOne(turn, [], exchange, {});
    assert !items[0].hasCallId;
    BrokenCallEndsTurn(turn, [], items, [row] + more, {});
    assert s.journal + [row] + more == s.journal + ([row] + more);
  }

  lemma {:induction false} ReadIsAdmitted()
    ensures IsAdmitted([Item(Call("c", "read"), false)], QuotaOf(0)) && !IsHistoryTool("read")
  {
    LowerIsIdentity("c");
    LowerIsIdentity("read");
    hide IsIdentity;
    assert |"read"| == 4 && |"history_turn"| == 12 && |"history_search"| == 14 && |"history_artifact"| == 16;
    var calls := CallsIn([Item(Call("c", "read"), false)]);
    assert calls == [Call("c", "read")] && calls[1..] == [] && HistoryCalls(calls) == [];
  }
}
