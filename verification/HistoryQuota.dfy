/**
 The per-turn budget of history output: the counter the agent keeps while a response's calls
 run, and the one rebuilt from the journal at the next request.
 */
module HistoryQuota {
  import opened ByteStrings
  import opened Chars
  import opened ToolNames

  const TURN_BYTES: nat := 32_768
  const TOOL_BYTES: nat := 12_288
  const RESERVE_BYTES: nat := 512
  const CALLS_PER_RESPONSE: nat := 8
  const CALL_ID_BYTES: nat := 128
  const ITEMS_PER_RESPONSE: nat := 4096
  const IDENTITY_BYTES: nat := 128

  datatype Call = Call(id: string, name: string)

  /**
   A function call of a response as the agent reads it, and whether its item has a `call_id`: the agent
   takes the item's own `id` where it has none.
   */
  datatype Item = Item(call: Call, hasCallId: bool)

  function CallsIn(items: seq<Item>): (calls: seq<Call>)
    ensures |calls| == |items| && forall i :: 0 <= i < |items| ==> calls[i] == items[i].call
  {
    seq(|items|, i requires 0 <= i < |items| => items[i].call)
  }

  /** The journal rows that matter, with the fields a damaged row may lack. */
  datatype Event =
    | Response(turn: Option<string>, items: seq<Item>)
    | Terminal(turn: Option<string>, callId: Option<string>, tool: Option<string>, output: Option<string>)
    | Other

  // ---------------------------------------------------------------- serialised size

  /** The bytes serde_json writes for one character of a string. */
  function EscapedLength(c: char): (n: nat)
    ensures n >= 1
  {
    if c == '\"' || c == '\\' then 2
    else if c as int == 8 || c as int == 9 || c as int == 10 || c as int == 12 || c as int == 13 then 2
    else if (c as int) < 32 then 6
    else Utf8Length(c)
  }

  function EscapedBytes(s: string): (n: nat)
    ensures n >= |s|
  {
    if s == [] then 0 else EscapedLength(s[0]) + EscapedBytes(s[1..])
  }

  /** The length of {"call_id":"","output":"","type":"function_call_output"}. */
  const ENVELOPE_BYTES: nat := 56

  /** `serialized_history_tool_output_bytes` of a non-empty call id and an output's text. */
  function Serialized(id: string, output: string): nat {
    ENVELOPE_BYTES + EscapedBytes(id) + EscapedBytes(output)
  }

  /** The output text of an error result with a plain code and message. */
  function ErrorText(code: string, message: string): string {
    "{" + (InQuotes("error") + (":{" + (InQuotes("code") + (":" + (InQuotes(code) + (","
      + (InQuotes("message") + (":" + (InQuotes(message) + "}}")))))))))
  }

  function InQuotes(s: string): string { "\"" + s + "\"" }

  const EXHAUSTED_CODE := "history_quota_exhausted"
  const EXHAUSTED_MESSAGE := "remaining history quota" + " cannot fit this result"
  const CONTROL_TEXT := ErrorText(EXHAUSTED_CODE, EXHAUSTED_MESSAGE)

  predicate IsPlain(s: string) {
    forall i :: 0 <= i < |s| ==> 32 <= s[i] as int < 0x80 && s[i] != '\"' && s[i] != '\\'
  }

  lemma {:induction false} PlainBytes(s: string)
    requires IsPlain(s)
    ensures EscapedBytes(s) == |s|
    decreases |s|
  {
    if s != [] { PlainBytes(s[1..]); }
  }

  lemma {:induction false} EscapedAppend(a: string, b: string)
    ensures EscapedBytes(a + b) == EscapedBytes(a) + EscapedBytes(b)
    decreases |a|
  {
    if a == [] {
      assert a + b == b;
    } else {
      assert (a + b)[1..] == a[1..] + b;
      EscapedAppend(a[1..], b);
    }
  }

  lemma {:induction false} PlainThen(s: string, rest: string)
    requires IsPlain(s)
    ensures EscapedBytes(s + rest) == |s| + EscapedBytes(rest)
  {
    PlainBytes(s);
    EscapedAppend(s, rest);
  }

  lemma {:induction false} QuotedThen(s: string, rest: string)
    requires IsPlain(s)
    ensures EscapedBytes(InQuotes(s) + rest) == 4 + |s| + EscapedBytes(rest)
  {
    PlainBytes(s);
    EscapedAppend(InQuotes(s), rest);
    EscapedAppend("\"" + s, "\"");
    EscapedAppend("\"", s);
    assert "\""[1..] == "";
  }

  /** An error result with a plain code and message, inside the envelope. */
  lemma {:induction false} ErrorBytes(code: string, message: string)
    requires IsPlain(code) && IsPlain(message)
    ensures EscapedBytes(ErrorText(code, message)) == 44 + |code| + |message|
  {
    hide EscapedBytes, InQuotes, IsPlain;
    assert IsPlain("error") && IsPlain("code") && IsPlain("message") && IsPlain("{") && IsPlain(":{") && IsPlain(":")
           && IsPlain(",") && IsPlain("}}") && EscapedBytes("}}") == 2 by { SmallParts(); }
    var f := ":" + (InQuotes(message) + "}}");
    var d := "," + (InQuotes("message") + f);
    var b := ":" + (InQuotes(code) + d);
    var a := ":{" + (InQuotes("code") + b);
    QuotedThen(message, "}}");
    PlainThen(":", InQuotes(message) + "}}");
    QuotedThen("message", f);
    PlainThen(",", InQuotes("message") + f);
    QuotedThen(code, d);
    PlainThen(":", InQuotes(code) + d);
    QuotedThen("code", b);
    PlainThen(":{", InQuotes("code") + b);
    QuotedThen("error", a);
    PlainThen("{", InQuotes("error") + a);
  }

  lemma {:induction false} SmallParts()
    ensures IsPlain("error") && IsPlain("code") && IsPlain("message") && IsPlain("{") && IsPlain(":{") && IsPlain(":")
            && IsPlain(",") && IsPlain("}}") && EscapedBytes("}}") == 2
  {
    PlainBytes("}}");
  }

  /** The fallback result takes 113 bytes inside the envelope. */
  lemma {:induction false} ControlBytes()
    ensures EscapedBytes(CONTROL_TEXT) == 113
  {
    assert IsPlain("remaining history quota") && IsPlain(" cannot fit this result");
    assert IsPlain(EXHAUSTED_CODE) && IsPlain(EXHAUSTED_MESSAGE);
    hide EscapedBytes, IsPlain, ErrorText;
    ErrorBytes(EXHAUSTED_CODE, EXHAUSTED_MESSAGE);
  }

  // ---------------------------------------------------------------- the quota rebuilt from the journal

  datatype Quota = Quota(used: nat, remaining: nat, exhausted: bool)

  function QuotaOf(used: nat): Quota {
    Quota(used, if used <= TURN_BYTES then TURN_BYTES - used else 0, used >= TURN_BYTES)
  }

  datatype QuotaError = BrokenCall | MismatchedTurn | MissingField | UnknownCall | MoreTerminalsThanCalls

  /** Every call item has a `call_id` and a name, which `collect_function_calls` demands. */
  predicate AreReadable(items: seq<Item>) {
    forall i :: 0 <= i < |items| ==> items[i].hasCallId && items[i].call.id != "" && items[i].call.name != ""
  }

  predicate IsResponseOf(event: Event, turn: string) { event.Response? && event.turn == Some(turn) }

  predicate CallsAreReadable(events: seq<Event>, turn: string) {
    forall i :: 0 <= i < |events| && IsResponseOf(events[i], turn) ==> AreReadable(events[i].items)
  }

  /** The calls of a response in the history namespace. */
  function NamespacedCalls(calls: seq<Call>): multiset<Call> {
    if calls == [] then multiset{}
    else NamespacedCalls(calls[..|calls| - 1])
         + if InNamespace(calls[|calls| - 1].name) then multiset{calls[|calls| - 1]} else multiset{}
  }

  /** Every history-namespace call of the turn, as often as it was made. */
  function CallsOf(events: seq<Event>, turn: string): multiset<Call> {
    if events == [] then multiset{}
    else
      var last := events[|events| - 1];
      CallsOf(events[..|events| - 1], turn)
      + if last.Response? && last.turn == Some(turn) then NamespacedCalls(CallsIn(last.items)) else multiset{}
  }

  /** Whether a terminal row counts towards the turn's history output, or damages the count. */
  predicate IsRelevant(event: Event, turn: string, calls: multiset<Call>)
    requires event.Terminal?
  {
    || (event.turn == Some(turn) && event.tool.Some?
        && (Call(if event.callId.Some? then event.callId.value else "", event.tool.value) in calls
            || InNamespace(event.tool.value)))
    || (event.turn.None? && event.callId.Some? && exists call :: call in calls && call.id == event.callId.value)
  }

  /** One row against the calls still without an outcome: the bytes it adds and the calls left. */
  function ScanRow(event: Event, turn: string, calls: multiset<Call>, left: multiset<Call>)
    : Result<(nat, multiset<Call>), QuotaError>
  {
    if !event.Terminal? || !IsRelevant(event, turn, calls) then Ok((0, left))
    else if event.turn != Some(turn) then Err(MismatchedTurn)
    else if event.callId.None? || event.callId.value == "" || event.tool.None? || event.tool.value == ""
    then Err(MissingField)
    else
      var call := Call(event.callId.value, event.tool.value);
      if call !in calls then Err(UnknownCall)
      else if call !in left then Err(MoreTerminalsThanCalls)
      else if event.output.None? then Err(MissingField)
      else Ok((Serialized(call.id, event.output.value), left - multiset{call}))
  }

  function ScanRows(events: seq<Event>, turn: string, calls: multiset<Call>, left: multiset<Call>, used: nat)
    : Result<nat, QuotaError>
    decreases |events|
  {
    if events == [] then Ok(used)
    else
      match ScanRow(events[0], turn, calls, left)
      case Err(error) => Err(error)
      case Ok((bytes, rest)) => ScanRows(events[1..], turn, calls, rest, used + bytes)
  }

  function Rebuild(events: seq<Event>, turn: string, excluded: set<string>): Result<Quota, QuotaError> {
    if turn in excluded then Ok(QuotaOf(0))
    else if !CallsAreReadable(events, turn) then Err(BrokenCall)
    else
      match ScanRows(events, turn, CallsOf(events, turn), CallsOf(events, turn), 0)
      case Err(error) => Err(error)
      case Ok(used) => Ok(QuotaOf(used))
  }

  /** The rebuild with its mutated count map. */
  method RebuildQuota(events: seq<Event>, turn: string, excluded: set<string>) returns (r: Result<Quota, QuotaError>)
    ensures r == Rebuild(events, turn, excluded)
  {
    if turn in excluded { return Ok(QuotaOf(0)); }
    hide CallsOf, ScanRows, Tracks, CountsAll, CallsAreReadable;
    var counts := CountCalls(events, turn);
    if counts.Err? { return Err(counts.error); }
    AllKeysTrack(counts.value, CallsOf(events, turn));
    var used := ScanByMap(events, turn, counts.value, CallsOf(events, turn));
    r := if used.Err? then Err(used.error) else Ok(QuotaOf(used.value));
  }

  method ScanByMap(events: seq<Event>, turn: string, counts0: map<Call, nat>, ghost calls: multiset<Call>)
    returns (r: Result<nat, QuotaError>)
    requires Tracks(counts0, calls, calls)
    ensures r == ScanRows(events, turn, calls, calls, 0)
  {
    hide ScanRow, ScanRows, Tracks;
    var counts, used: nat := counts0, 0;
    ghost var left := calls;
    ScanNothing(events, turn, calls, left, used);
    for i := 0 to |events|
      invariant Tracks(counts, calls, left)
      invariant ScanRows(events, turn, calls, calls, 0) == ScanRows(events[i..], turn, calls, left, used)
    {
      ScanOneMore(events, i, turn, calls, left, used);
      var row;
      row, counts := ScanRowByMap(events[i], turn, counts, calls, left);
      if row.Err? { return row; }
      left := ScanRow(events[i], turn, calls, left).value.1;
      used := used + row.value;
    }
    ScanNothing(events, turn, calls, left, used);
    return Ok(used);
  }

  lemma {:induction false} ScanOneMore(events: seq<Event>, i: nat, turn: string, calls: multiset<Call>,
                                       left: multiset<Call>, used: nat)
    requires i < |events|
    ensures var row := ScanRow(events[i], turn, calls, left);
            ScanRows(events[i..], turn, calls, left, used) ==
            if row.Err? then Err(row.error) else ScanRows(events[i + 1..], turn, calls, row.value.1, used + row.value.0)
  {
    hide ScanRow;
    assert events[i..][0] == events[i] && events[i..][1..] == events[i + 1..];
  }

  lemma {:induction false} ScanNothing(events: seq<Event>, turn: string, calls: multiset<Call>, left: multiset<Call>,
                                       used: nat)
    ensures ScanRows(events[|events|..], turn, calls, left, used) == Ok(used)
    ensures events[0..] == events
  {
  }

  /** One row: the bytes it adds, and the count map without its call. */
  method ScanRowByMap(event: Event, turn: string, counts: map<Call, nat>, ghost calls: multiset<Call>,
                      ghost left: multiset<Call>)
    returns (r: Result<nat, QuotaError>, rest: map<Call, nat>)
    requires Tracks(counts, calls, left)
    ensures var row := ScanRow(event, turn, calls, left);
            if row.Err? then r == Err(row.error) else r == Ok(row.value.0) && Tracks(rest, calls, row.value.1)
  {
    hide IsRelevant, Serialized;
    rest := counts;
    if !event.Terminal? { return Ok(0), rest; }
    var relevant := RelevantByMap(event, turn, counts, calls);
    if !relevant { return Ok(0), rest; }
    if event.turn != Some(turn) { return Err(MismatchedTurn), rest; }
    if event.callId.None? || event.callId.value == "" || event.tool.None? || event.tool.value == "" {
      return Err(MissingField), rest;
    }
    var call := Call(event.callId.value, event.tool.value);
    assert call in counts.Keys <==> call in calls;
    if call !in counts { return Err(UnknownCall), rest; }
    if counts[call] == 0 { return Err(MoreTerminalsThanCalls), rest; }
    rest := counts[call := counts[call] - 1];
    if event.output.None? { return Err(MissingField), rest; }
    return Ok(Serialized(call.id, event.output.value)), rest;
  }

  /** A count map that agrees with a multiset on its keys, and holds every call of it. */
  ghost predicate Counts(counts: map<Call, nat>, calls: multiset<Call>) {
    (forall c :: c in counts ==> counts[c] == calls[c]) && forall c :: c in calls ==> c in counts
  }

  /** A count map over all the calls, of those still without an outcome. */
  ghost predicate Tracks(counts: map<Call, nat>, calls: multiset<Call>, left: multiset<Call>) {
    Counts(counts, left) && counts.Keys == set c | c in calls
  }

  /** A count map over exactly these calls. */
  ghost predicate CountsAll(counts: map<Call, nat>, calls: multiset<Call>) {
    Counts(counts, calls) && counts.Keys == set c | c in calls
  }

  lemma {:induction false} AllKeysTrack(counts: map<Call, nat>, calls: multiset<Call>)
    requires CountsAll(counts, calls)
    ensures Tracks(counts, calls, calls)
  {
  }

  lemma {:induction false} CountOneMore(counts: map<Call, nat>, calls: multiset<Call>, call: Call)
    requires CountsAll(counts, calls)
    ensures CountsAll(counts[call := (if call in counts then counts[call] else 0) + 1], calls + multiset{call})
  {
    assert call in counts.Keys <==> call in calls;
  }

  method RelevantByMap(event: Event, turn: string, counts: map<Call, nat>, ghost calls: multiset<Call>)
    returns (relevant: bool)
    requires event.Terminal? && counts.Keys == set c | c in calls
    ensures relevant == IsRelevant(event, turn, calls)
  {
    if event.turn == Some(turn) {
      var id := if event.callId.Some? then event.callId.value else "";
      relevant := event.tool.Some? && (Call(id, event.tool.value) in counts || InNamespace(event.tool.value));
      assert event.tool.Some? ==> (Call(id, event.tool.value) in counts.Keys <==> Call(id, event.tool.value) in calls);
    } else {
      relevant := event.turn.None? && event.callId.Some?
                  && exists call :: call in counts && call.id == event.callId.value;
      assert forall call :: call in counts.Keys <==> call in calls;
    }
  }

  method AddCalls(counts0: map<Call, nat>, items: seq<Item>, ghost before: multiset<Call>)
    returns (r: Result<map<Call, nat>, QuotaError>)
    requires CountsAll(counts0, before)
    ensures r.Ok? <==> AreReadable(items)
    ensures if r.Err? then r.error == BrokenCall else CountsAll(r.value, before + NamespacedCalls(CallsIn(items)))
  {
    var counts := counts0;
    ghost var calls := CallsIn(items);
    assert before + NamespacedCalls(calls[..0]) == before;
    hide CountsAll, InNamespace, NamespacedCalls, AreReadable, CallsIn;
    assert AreReadable(items[..0]) by { NoneIsBroken(); }
    for k := 0 to |items|
      invariant AreReadable(items[..k])
      invariant CountsAll(counts, before + NamespacedCalls(calls[..k]))
    {
      var call := items[k].call;
      OneMoreItem(items, k);
      if !items[k].hasCallId || call.id == "" || call.name == "" { return Err(BrokenCall); }
      ghost var sofar := before + NamespacedCalls(calls[..k]);
      OneMoreNamespaced(calls, k, before);
      if InNamespace(call.name) {
        CountOneMore(counts, sofar, call);
        counts := counts[call := (if call in counts then counts[call] else 0) + 1];
      }
    }
    assert calls[..|calls|] == calls && items[..|items|] == items;
    return Ok(counts);
  }

  lemma {:induction false} NoneIsBroken()
    ensures AreReadable([])
  {
  }

  lemma {:induction false} OneMoreItem(items: seq<Item>, k: nat)
    requires k < |items|
    ensures var isReadable := items[k].hasCallId && items[k].call.id != "" && items[k].call.name != "";
            && (AreReadable(items) ==> isReadable)
            && (AreReadable(items[..k + 1]) <==> AreReadable(items[..k]) && isReadable)
  {
    assert items[..k + 1] == items[..k] + [items[k]];
  }

  lemma {:induction false} OneMoreNamespaced(calls: seq<Call>, k: nat, before: multiset<Call>)
    requires k < |calls|
    ensures var sofar := before + NamespacedCalls(calls[..k]);
            before + NamespacedCalls(calls[..k + 1]) ==
            if InNamespace(calls[k].name) then sofar + multiset{calls[k]} else sofar
  {
    hide InNamespace;
    assert calls[..k + 1][..k] == calls[..k];
  }

  /** The fold that counts the calls of the turn, unless one of them cannot be read. */
  method CountCalls(events: seq<Event>, turn: string) returns (r: Result<map<Call, nat>, QuotaError>)
    ensures r.Ok? <==> CallsAreReadable(events, turn)
    ensures if r.Err? then r.error == BrokenCall else CountsAll(r.value, CallsOf(events, turn))
  {
    var counts: map<Call, nat> := map[];
    assert CountsAll(counts, CallsOf(events[..0], turn));
    hide NamespacedCalls, AreReadable, CountsAll, CallsOf, CallsAreReadable;
    NoneIsUnreadable(turn);
    assert events[..0] == [];
    for i := 0 to |events|
      invariant CallsAreReadable(events[..i], turn)
      invariant CountsAll(counts, CallsOf(events[..i], turn))
    {
      OneMoreResponse(events, i, turn);
      if events[i].Response? && events[i].turn == Some(turn) {
        var more := AddCalls(counts, events[i].items, CallsOf(events[..i], turn));
        if more.Err? { return more; }
        counts := more.value;
      }
    }
    assert events[..|events|] == events;
    return Ok(counts);
  }

  lemma {:induction false} NoneIsUnreadable(turn: string)
    ensures CallsAreReadable([], turn)
  {
  }

  lemma {:induction false} OneMoreResponse(events: seq<Event>, i: nat, turn: string)
    requires i < |events|
    ensures CallsAreReadable(events[..i + 1], turn) <==>
              CallsAreReadable(events[..i], turn) && (IsResponseOf(events[i], turn) ==> AreReadable(events[i].items))
    ensures CallsAreReadable(events, turn) && IsResponseOf(events[i], turn) ==> AreReadable(events[i].items)
    ensures CallsOf(events[..i + 1], turn) ==
            if IsResponseOf(events[i], turn) then CallsOf(events[..i], turn) + NamespacedCalls(CallsIn(events[i].items))
            else CallsOf(events[..i], turn)
  {
    hide AreReadable, NamespacedCalls;
    assert events[..i + 1][..i] == events[..i];
  }

  // ---------------------------------------------------------------- what a rebuild amounts to

  /** A row the agent writes: all fields present. */
  predicate IsWhole(event: Event) {
    event.Terminal? ==> event.turn.Some? && event.callId.Some? && event.callId.value != ""
                        && event.tool.Some? && event.tool.value != "" && event.output.Some?
  }

  /** The history-namespace calls of the turn that have an outcome row. */
  function OutcomesOf(events: seq<Event>, turn: string): multiset<Call> {
    if events == [] then multiset{}
    else
      var last := events[|events| - 1];
      OutcomesOf(events[..|events| - 1], turn)
      + if IsOutcome(last, turn) then multiset{Call(last.callId.value, last.tool.value)} else multiset{}
  }

  predicate IsOutcome(event: Event, turn: string) {
    event.Terminal? && IsWhole(event) && event.turn == Some(turn) && InNamespace(event.tool.value)
  }

  /** The bytes of all history-namespace outcomes of the turn. */
  function OutcomeBytes(events: seq<Event>, turn: string): nat {
    if events == [] then 0
    else
      var last := events[|events| - 1];
      OutcomeBytes(events[..|events| - 1], turn)
      + if IsOutcome(last, turn) then Serialized(last.callId.value, last.output.value) else 0
  }

  lemma {:induction false} CallsAreNamespaced(events: seq<Event>, turn: string, call: Call)
    ensures call in CallsOf(events, turn) ==> InNamespace(call.name)
    decreases |events|
  {
    hide InNamespace;
    if events != [] {
      CallsAreNamespaced(events[..|events| - 1], turn, call);
      var last := events[|events| - 1];
      if last.Response? { NamespacedAreNamespaced(CallsIn(last.items), call); }
    }
  }

  lemma {:induction false} NamespacedAreNamespaced(calls: seq<Call>, call: Call)
    ensures call in NamespacedCalls(calls) ==> InNamespace(call.name)
    decreases |calls|
  {
    hide InNamespace;
    if calls != [] { NamespacedAreNamespaced(calls[..|calls| - 1], call); }
  }

  lemma {:induction false} SnocJournal(journal: seq<Event>, event: Event, turn: string)
    ensures CallsOf(journal + [event], turn) ==
            CallsOf(journal, turn)
            + if event.Response? && event.turn == Some(turn) then NamespacedCalls(CallsIn(event.items)) else multiset{}
    ensures OutcomesOf(journal + [event], turn) ==
            OutcomesOf(journal, turn)
            + if IsOutcome(event, turn) then multiset{Call(event.callId.value, event.tool.value)} else multiset{}
    ensures OutcomeBytes(journal + [event], turn) ==
            OutcomeBytes(journal, turn)
            + if IsOutcome(event, turn) then Serialized(event.callId.value, event.output.value) else 0
  {
    hide IsOutcome, Serialized, NamespacedCalls;
    assert (journal + [event])[..|journal|] == journal;
  }

  lemma {:induction false} MoveCall(done: multiset<Call>, next: multiset<Call>, left: multiset<Call>)
    ensures done + next + left == done + (next + left)
  {
  }

  /** The rows of the turn before and after some position. */
  lemma {:induction false} OutcomesSplit(events: seq<Event>, turn: string)
    requires events != []
    ensures OutcomesOf(events, turn) == OutcomesOf([events[0]], turn) + OutcomesOf(events[1..], turn)
    ensures OutcomeBytes(events, turn) == OutcomeBytes([events[0]], turn) + OutcomeBytes(events[1..], turn)
    decreases |events|
  {
    hide Serialized, OutcomesOf, OutcomeBytes, CallsOf, NamespacedCalls, InNamespace;
    if |events| > 1 {
      var init, last := events[..|events| - 1], events[|events| - 1];
      OutcomesSplit(init, turn);
      assert events == init + [last] && events[1..] == init[1..] + [last];
      SnocJournal(init, last, turn);
      SnocJournal(init[1..], last, turn);
      MoveCall(OutcomesOf([events[0]], turn), OutcomesOf(init[1..], turn),
               if IsOutcome(last, turn) then multiset{Call(last.callId.value, last.tool.value)} else multiset{});
    } else {
      assert [events[0]] == events && events[1..] == [];
      NoOutcomesInNone(turn);
    }
  }

  lemma {:induction false} NoOutcomesInNone(turn: string)
    ensures OutcomesOf([], turn) == multiset{} && OutcomeBytes([], turn) == 0
  {
  }

  lemma {:induction false} SplitSubset(a: multiset<Call>, b: multiset<Call>, left: multiset<Call>)
    ensures a + b <= left <==> a <= left && b <= left - a
  {
    if a <= left && b <= left - a {
      assert forall c :: (a + b)[c] <= left[c];
    }
    if a + b <= left {
      assert forall c :: a[c] <= (a + b)[c] && b[c] + a[c] <= left[c];
    }
  }

  lemma {:induction false} OneOutcome(event: Event, turn: string)
    ensures OutcomesOf([event], turn) ==
            if IsOutcome(event, turn) then multiset{Call(event.callId.value, event.tool.value)} else multiset{}
    ensures OutcomeBytes([event], turn) ==
            if IsOutcome(event, turn) then Serialized(event.callId.value, event.output.value) else 0
  {
    hide IsOutcome, Serialized;
    assert [event][..0] == [];
  }

  lemma {:induction false} RowIsOutcome(event: Event, turn: string, calls: multiset<Call>, left: multiset<Call>)
    requires IsWhole(event) && left <= calls && forall c :: c in calls ==> InNamespace(c.name)
    ensures var row := ScanRow(event, turn, calls, left);
            && (row.Ok? <==> OutcomesOf([event], turn) <= left)
            && (row.Ok? ==>
                row.value.0 == OutcomeBytes([event], turn) && row.value.1 == left - OutcomesOf([event], turn))
  {
    hide InNamespace, Serialized, OutcomesOf, OutcomeBytes;
    OneOutcome(event, turn);
    if IsOutcome(event, turn) {
      var call := Call(event.callId.value, event.tool.value);
      assert call in left <==> multiset{call} <= left;
    } else {
      assert left - multiset{} == left;
    }
  }

  /** Over whole rows, a scan succeeds exactly when the outcomes are among the calls left, and adds their bytes. */
  lemma {:induction false} ScanAddsOutcomes(events: seq<Event>, turn: string, calls: multiset<Call>,
                                            left: multiset<Call>, used: nat)
    requires forall i :: 0 <= i < |events| ==> IsWhole(events[i])
    requires left <= calls && forall c :: c in calls ==> InNamespace(c.name)
    ensures ScanRows(events, turn, calls, left, used).Ok? <==> OutcomesOf(events, turn) <= left
    ensures OutcomesOf(events, turn) <= left ==>
              ScanRows(events, turn, calls, left, used) == Ok(used + OutcomeBytes(events, turn))
    decreases |events|
  {
    hide InNamespace, IsWhole, ScanRow, OutcomesOf, OutcomeBytes, ScanRows;
    if events == [] {
      NothingToScan(turn, calls, left, used);
    } else {
      var a, b := OutcomesOf([events[0]], turn), OutcomesOf(events[1..], turn);
      OutcomesSplit(events, turn);
      RowIsOutcome(events[0], turn, calls, left);
      ScanRowsStep(events, turn, calls, left, used);
      SplitSubset(a, b, left);
      var r := ScanRow(events[0], turn, calls, left);
      if r.Ok? {
        assert r.value.1 == left - a && left - a <= calls;
        ScanAddsOutcomes(events[1..], turn, calls, r.value.1, used + r.value.0);
      }
    }
  }

  lemma {:induction false} NothingToScan(turn: string, calls: multiset<Call>, left: multiset<Call>, used: nat)
    ensures ScanRows([], turn, calls, left, used) == Ok(used)
    ensures OutcomesOf([], turn) == multiset{} && OutcomeBytes([], turn) == 0
  {
  }

  lemma {:induction false} ScanRowsStep(events: seq<Event>, turn: string, calls: multiset<Call>, left: multiset<Call>,
                                        used: nat)
    requires events != []
    ensures var r := ScanRow(events[0], turn, calls, left);
            ScanRows(events, turn, calls, left, used) ==
            if r.Err? then Err(r.error) else ScanRows(events[1..], turn, calls, r.value.1, used + r.value.0)
  {
    hide ScanRow;
  }

  /**
   The rebuilt counter: with whole rows, readable calls and no outcome without its call, the bytes of all
   outcomes.
   */
  lemma {:induction false} RebuildCountsOutcomes(events: seq<Event>, turn: string, excluded: set<string>)
    requires forall i :: 0 <= i < |events| ==> IsWhole(events[i])
    requires turn !in excluded
    ensures Rebuild(events, turn, excluded).Ok? <==>
              CallsAreReadable(events, turn) && OutcomesOf(events, turn) <= CallsOf(events, turn)
    ensures CallsAreReadable(events, turn) && OutcomesOf(events, turn) <= CallsOf(events, turn) ==>
              Rebuild(events, turn, excluded) == Ok(QuotaOf(OutcomeBytes(events, turn)))
  {
    hide OutcomesOf, CallsOf, OutcomeBytes, InNamespace, ScanRows, CallsAreReadable;
    var calls := CallsOf(events, turn);
    forall c | c in calls
      ensures InNamespace(c.name)
    {
      CallsAreNamespaced(events, turn, c);
    }
    ScanAddsOutcomes(events, turn, calls, calls, 0);
  }

  // ---------------------------------------------------------------- accepting a response

  datatype ResponseError = TooManyHistoryCalls | ReserveTooSmall | BadCallId | DuplicateCallId

  function HistoryCalls(calls: seq<Call>): seq<Call> {
    if calls == [] then [] else (if IsHistoryTool(calls[0].name) then [calls[0]] else []) + HistoryCalls(calls[1..])
  }

  predicate IdsAreGood(calls: seq<Call>) {
    && (forall i :: 0 <= i < |calls| ==> 1 <= Utf8Bytes(calls[i].id) <= CALL_ID_BYTES)
    && (forall i, j :: 0 <= i < j < |calls| ==> calls[i].id != calls[j].id)
  }

  /** `validate_history_calls_for_response` */
  method ValidateHistoryCalls(calls: seq<Call>, quota: Quota) returns (error: Option<ResponseError>)
    ensures error == None <==> ResponseFits(calls, quota)
    ensures error == Some(TooManyHistoryCalls) <==> |HistoryCalls(calls)| > CALLS_PER_RESPONSE
  {
    hide HistoryCalls, IdsAreGood;
    var history := HistoryCalls(calls);
    if |history| > CALLS_PER_RESPONSE { return Some(TooManyHistoryCalls); }
    if quota.remaining < |history| * RESERVE_BYTES { return Some(ReserveTooSmall); }
    error := CheckIds(history);
  }

  predicate ResponseFits(calls: seq<Call>, quota: Quota) {
    |HistoryCalls(calls)| <= CALLS_PER_RESPONSE
    && RESERVE_BYTES * |HistoryCalls(calls)| <= quota.remaining
    && IdsAreGood(HistoryCalls(calls))
  }

  /** `valid_journal_identity_v1` */
  predicate IsIdentity(s: string) {
    && (exists i :: 0 <= i < |s| && !IsWhitespace(s[i]))
    && Utf8Bytes(s) <= IDENTITY_BYTES
    && forall i :: 0 <= i < |s| ==> !IsControl(s[i])
  }

  /** What the recovery skip that a commit plans for each call demands of it. */
  predicate AreIdentities(calls: seq<Call>) {
    forall i :: 0 <= i < |calls| ==> IsIdentity(calls[i].id) && IsIdentity(calls[i].name)
  }

  predicate AreDistinct(calls: seq<Call>) {
    forall i, j :: 0 <= i < j < |calls| ==> calls[i].id != calls[j].id
  }

  /** A response that passes every check of its calls: the Provider's, the agent's, and those of the commit. */
  predicate IsAdmitted(items: seq<Item>, quota: Quota) {
    var calls := CallsIn(items);
    |items| <= ITEMS_PER_RESPONSE && AreDistinct(calls) && ResponseFits(calls, quota) && AreIdentities(calls)
  }

  method CheckIds(history: seq<Call>) returns (error: Option<ResponseError>)
    ensures error == None <==> IdsAreGood(history)
    ensures error != Some(TooManyHistoryCalls)
  {
    hide Utf8Bytes;
    var seen: set<string> := {};
    for i := 0 to |history|
      invariant forall id :: id in seen <==> exists k :: 0 <= k < i && history[k].id == id
      invariant forall k :: 0 <= k < i ==> 1 <= Utf8Bytes(history[k].id) <= CALL_ID_BYTES
      invariant forall j, k :: 0 <= j < k < i ==> history[j].id != history[k].id
    {
      EmptyIsNoBytes(history[i].id);
      if history[i].id == "" || Utf8Bytes(history[i].id) > CALL_ID_BYTES { return Some(BadCallId); }
      if history[i].id in seen { return Some(DuplicateCallId); }
      seen := seen + {history[i].id};
    }
    return None;
  }

  lemma {:induction false} EmptyIsNoBytes(s: string)
    ensures Utf8Bytes(s) == 0 <==> s == ""
  {
  }

  // ---------------------------------------------------------------- running the calls of a response

  /** The turn as the agent sees it while a batch runs. */
  datatype Live = Live(journal: seq<Event>, quota: Quota)

  /** What the next history result may take: all but the reserve of the history calls behind it. */
  function OutputBudget(quota: Quota, pending: nat): nat {
    var reserve := (if pending > 0 then pending - 1 else 0) * RESERVE_BYTES;
    Min(if quota.remaining >= reserve then quota.remaining - reserve else 0, TOOL_BYTES)
  }

  function Outcome(turn: string, call: Call, output: string): Event {
    Terminal(Some(turn), Some(call.id), Some(call.name), Some(output))
  }

  /** One history call with the result its lookup produced; None is the reserve error. */
  function HistoryStep(turn: string, s: Live, call: Call, pending: nat, produced: string): Option<Live> {
    var budget := OutputBudget(s.quota, pending);
    var output := if Serialized(call.id, produced) > budget then CONTROL_TEXT else produced;
    if Serialized(call.id, output) > budget then None
    else Some(Live(s.journal + [Outcome(turn, call, output)], QuotaOf(s.quota.used + Serialized(call.id, output))))
  }

  /** One call of the batch: any other tool only writes its outcome. */
  function CallStep(turn: string, s: Live, call: Call, pending: nat, produced: string): Option<Live> {
    if IsHistoryTool(call.name) then HistoryStep(turn, s, call, pending, produced)
    else Some(s.(journal := s.journal + [Outcome(turn, call, produced)]))
  }

  /** The calls of a batch in order, each with what it produced. */
  function RunCalls(turn: string, s: Live, calls: seq<Call>, produced: seq<string>): Option<Live>
    requires |calls| == |produced|
    decreases |calls|
  {
    if calls == [] then Some(s)
    else
      var next := CallStep(turn, s, calls[0], |HistoryCalls(calls)|, produced[0]);
      if next.None? then None else RunCalls(turn, next.value, calls[1..], produced[1..])
  }

  /** Where a batch stands: the calls left without an outcome, and whether a reserve error cut it off. */
  datatype BatchRun = BatchRun(state: Live, left: seq<Call>, failed: bool)

  /** The first k calls of a batch. */
  function RunFirst(turn: string, s: Live, calls: seq<Call>, produced: seq<string>, k: nat): BatchRun
    requires |calls| == |produced| && k <= |calls|
    decreases k
  {
    if k == 0 then BatchRun(s, calls, false)
    else
      var next := CallStep(turn, s, calls[0], |HistoryCalls(calls)|, produced[0]);
      if next.None? then BatchRun(s, calls, true) else RunFirst(turn, next.value, calls[1..], produced[1..], k - 1)
  }

  /** The whole batch is its first calls, all of them. */
  lemma {:induction false} RunFirstIsRunCalls(turn: string, s: Live, calls: seq<Call>, produced: seq<string>)
    requires |calls| == |produced|
    ensures var first := RunFirst(turn, s, calls, produced, |calls|);
            RunCalls(turn, s, calls, produced) == (if first.failed then None else Some(first.state))
              && (!first.failed ==> first.left == [])
    decreases |calls|
  {
    hide CallStep, HistoryCalls;
    if calls != [] {
      var next := CallStep(turn, s, calls[0], |HistoryCalls(calls)|, produced[0]);
      if next.Some? { RunFirstIsRunCalls(turn, next.value, calls[1..], produced[1..]); }
    }
  }

  /** Why the calls left of a batch are skipped. */
  datatype SkipReason = ToolLimit | TurnCancelled | CallInDoubt | TurnStalled

  /** The output of a skipped call. */
  function SkipText(reason: SkipReason): string {
    match reason
    case ToolLimit => ErrorText("limit_reached", "tool was not executed: " + "tool limit")
    case TurnCancelled => ErrorText("cancelled", "tool was not executed: " + "cancelled")
    case CallInDoubt => ErrorText("in_doubt", "tool was not executed: " + "in_doubt")
    case TurnStalled => ErrorText("stalled", "tool was not executed: " + "stalled")
  }

  /** `mark_remaining_skipped`: one outcome row for each call that was not executed. */
  function SkipAll(turn: string, journal: seq<Event>, calls: seq<Call>, text: string): seq<Event>
    decreases |calls|
  {
    if calls == [] then journal else SkipAll(turn, journal + [Outcome(turn, calls[0], text)], calls[1..], text)
  }

  /** The stop of a batch before it is through: after some calls, for a reason. */
  datatype Stop = Stop(after: nat, reason: SkipReason)

  /** A batch: its first calls, and if it stops there, the skips of the rest. */
  function RunUntil(turn: string, s: Live, calls: seq<Call>, produced: seq<string>, stop: Option<Stop>): BatchRun
    requires |calls| == |produced| && (stop.Some? ==> stop.value.after <= |calls|)
  {
    var first := RunFirst(turn, s, calls, produced, if stop.Some? then stop.value.after else |calls|);
    if first.failed || stop.None? then first
    else BatchRun(first.state.(journal := SkipAll(turn, first.state.journal, first.left, SkipText(stop.value.reason))),
                  [], false)
  }

  /** The agent's journal and quota fields. */
  class QuotaKeeper {
    const turn: string
    var journal: seq<Event>
    var quota: Quota

    constructor (turn: string, journal: seq<Event>, quota: Quota)
      ensures this.turn == turn && State() == Live(journal, quota)
    {
      this.turn, this.journal, this.quota := turn, journal, quota;
    }

    ghost function State(): Live
      reads this
    {
      Live(journal, quota)
    }

    /** `execute_history_call`, after the lookup produced its result. */
    method ExecuteHistoryCall(call: Call, pending: nat, produced: string) returns (ok: bool)
      modifies this
      ensures var next := HistoryStep(turn, old(State()), call, pending, produced);
              ok == next.Some? && State() == if ok then next.value else old(State())
    {
      hide Serialized;
      var futureReserve := (if pending > 0 then pending - 1 else 0) * RESERVE_BYTES;
      var budget := Min(if quota.remaining >= futureReserve then quota.remaining - futureReserve else 0, TOOL_BYTES);
      var result := produced;
      if Serialized(call.id, result) > budget { result := CONTROL_TEXT; }
      var bytes := Serialized(call.id, result);
      if bytes > budget { return false; }
      var used := quota.used + bytes;
      quota := Quota(used, if used <= TURN_BYTES then TURN_BYTES - used else 0, used >= TURN_BYTES);
      journal := journal + [Outcome(turn, call, result)];
      return true;
    }

    method MarkRemainingSkipped(calls: seq<Call>, reason: SkipReason)
      modifies this`journal
      ensures journal == SkipAll(turn, old(journal), calls, SkipText(reason))
    {
      hide SkipText;
      for i := 0 to |calls|
        invariant SkipAll(turn, old(journal), calls, SkipText(reason)) ==
                    SkipAll(turn, journal, calls[i..], SkipText(reason))
      {
        assert calls[i..][0] == calls[i] && calls[i..][1..] == calls[i + 1..];
        journal := journal + [Outcome(turn, calls[i], SkipText(reason))];
      }
    }

    /** The tool loop over a batch; it ends at a stop, which skips the rest, or at the reserve error, which does not. */
    method RunBatch(calls: seq<Call>, produced: seq<string>, stop: Option<Stop>) returns (ok: bool)
      requires |calls| == |produced| && (stop.Some? ==> stop.value.after <= |calls|)
      modifies this
      ensures var end := RunUntil(turn, old(State()), calls, produced, stop);
              ok == !end.failed && State() == end.state
    {
      hide HistoryStep, HistoryCalls, SkipAll;
      var k := if stop.Some? then stop.value.after else |calls|;
      for i := 0 to k
        invariant RunFirst(turn, old(State()), calls, produced, k) ==
                    RunFirst(turn, State(), calls[i..], produced[i..], k - i)
      {
        assert calls[i..][0] == calls[i] && calls[i..][1..] == calls[i + 1..];
        assert produced[i..][0] == produced[i] && produced[i..][1..] == produced[i + 1..];
        if IsHistoryTool(calls[i].name) {
          ok := ExecuteHistoryCall(calls[i], |HistoryCalls(calls[i..])|, produced[i]);
          if !ok { return; }
        } else {
          journal := journal + [Outcome(turn, calls[i], produced[i])];
        }
      }
      if stop.Some? { MarkRemainingSkipped(calls[k..], stop.value.reason); }
      return true;
    }
  }
}
