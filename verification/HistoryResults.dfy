/**
 What the history quota delivers: the result of every lookup that fits, exactly, and the fallback where
 it does not; which rows a stopped batch writes; and that the accounted bytes are those of the JSON text.
 */
module HistoryResults {
  import opened ByteStrings
  import opened Chars
  import opened ToolNames
  import opened JsonValue
  import opened CanonicalJson
  import opened HistoryQuota

  // ---------------------------------------------------------------- sizes are sizes of JSON texts

  lemma {:induction false} AsciiBytes(s: string)
    requires forall i :: 0 <= i < |s| ==> (s[i] as int) < 0x80
    ensures Utf8Bytes(s) == |s|
    decreases |s|
  {
    if s != "" { AsciiBytes(s[1..]); }
  }

  lemma {:induction false} EscapeTakes(c: char)
    ensures Utf8Bytes(Escape(c)) == EscapedLength(c)
  {
    var e := Escape(c);
    if e == [c] {
      assert e[1..] == "";
    } else {
      AsciiBytes(e);
    }
  }

  lemma {:induction false} Utf8Append(a: string, b: string)
    ensures Utf8Bytes(a + b) == Utf8Bytes(a) + Utf8Bytes(b)
    decreases |a|
  {
    hide Utf8Length;
    if a == "" {
      assert a + b == b;
    } else {
      assert (a + b)[1..] == a[1..] + b;
      Utf8Append(a[1..], b);
    }
  }

  lemma {:induction false} EscapeAllTakes(s: string)
    ensures Utf8Bytes(EscapeAll(s)) == EscapedBytes(s)
    decreases |s|
  {
    hide Escape, EscapedLength, Utf8Length;
    if s != [] {
      EscapeTakes(s[0]);
      EscapeAllTakes(s[1..]);
      Utf8Append(Escape(s[0]), EscapeAll(s[1..]));
    }
  }

  /** `Canon` of an object of one member, and of objects whose keys are given in order. */
  lemma {:induction false} OneMember(key: string, value: Value)
    ensures Canon(Obj([key], [value])) == "{" + (Quote(key) + ":" + Canon(value)) + "}"
  {
    hide Quote;
    assert Sorted([key][1..], [value][1..]) == [];
    assert Sorted([key], [value]) == [(key, value)];
  }

  lemma {:induction false} TwoMembers(first: string, a: Value, second: string, b: Value)
    requires Less(first, second)
    ensures Canon(Obj([first, second], [a, b])) ==
              "{" + (Quote(first) + ":" + Canon(a) + "," + (Quote(second) + ":" + Canon(b))) + "}"
  {
    hide Quote, Less;
    assert [first, second][1..] == [second] && [a, b][1..] == [b];
    OneSorted(second, b);
    var es := [(first, a), (second, b)];
    assert Insert((first, a), [(second, b)]) == [(first, a)] + [(second, b)] == es;
    assert es[1..] == [(second, b)];
    assert JoinEntries([(second, b)]) == Quote(second) + ":" + Canon(b);
    assert JoinEntries(es) == Quote(first) + ":" + Canon(a) + "," + JoinEntries([(second, b)]);
    assert Sorted([first, second], [a, b]) == es;
  }

  lemma {:induction false} OneSorted(key: string, value: Value)
    ensures Sorted([key], [value]) == [(key, value)]
  {
    assert Sorted([key][1..], [value][1..]) == [];
  }

  lemma {:induction false} ThreeMembers(first: string, a: Value, second: string, b: Value, third: string, c: Value)
    requires Less(first, second) && Less(second, third)
    ensures Canon(Obj([first, second, third], [a, b, c])) ==
              "{" + (Quote(first) + ":" + Canon(a) + ","
                     + (Quote(second) + ":" + Canon(b) + "," + (Quote(third) + ":" + Canon(c)))) + "}"
  {
    hide Quote, Less;
    var es := [(first, a), (second, b), (third, c)];
    assert [first, second, third][1..] == [second, third] && [a, b, c][1..] == [b, c];
    assert [second, third][1..] == [third] && [b, c][1..] == [c];
    OneSorted(third, c);
    assert Insert((second, b), [(third, c)]) == [(second, b)] + [(third, c)] == es[1..];
    assert Insert((first, a), es[1..]) == [(first, a)] + es[1..] == es;
    assert es[1..][1..] == [(third, c)];
    hide Canon, Insert, Sorted;
    assert JoinEntries([(third, c)]) == Quote(third) + ":" + Canon(c);
    assert JoinEntries(es[1..]) == Quote(second) + ":" + Canon(b) + "," + JoinEntries([(third, c)]);
    assert JoinEntries(es) == Quote(first) + ":" + Canon(a) + "," + JoinEntries(es[1..]);
    assert Sorted([first, second, third], [a, b, c]) == es;
  }

  lemma {:induction false} PlainEscapes(s: string)
    requires IsPlain(s)
    ensures EscapeAll(s) == s
    decreases |s|
  {
    if s != "" {
      PlainEscapes(s[1..]);
      assert Escape(s[0]) == [s[0]];
    }
  }

  lemma {:induction false} PlainQuotes(s: string)
    requires IsPlain(s)
    ensures Quote(s) == InQuotes(s) && Canon(Str(s)) == InQuotes(s)
  {
    PlainEscapes(s);
  }

  lemma {:induction false} Assoc(a: string, b: string, c: string)
    ensures a + b + c == a + (b + c)
  {
  }

  /** One member inside another, regrouped to the right. */
  lemma {:induction false} Regroup(outer: string, first: string, a: string, second: string, b: string)
    ensures "{" + (outer + ":" + ("{" + (first + ":" + a + "," + (second + ":" + b)) + "}")) + "}" ==
              "{" + (outer + (":{" + (first + (":" + (a + ("," + (second + (":" + (b + "}}")))))))))
  {
    var f, p := second + ":" + b, first + ":" + a + ",";
    var z := second + (":" + (b + "}}"));
    var inner := "{" + (p + f) + "}";
    assert "}" + "}" == "}}" && ":" + "{" == ":{";
    Assoc(second + ":", b, "}}");
    Assoc(second, ":", b + "}}");
    assert f + "}}" == z;
    Assoc(p, f, "}}");
    Assoc("{", p + f, "}}");
    Assoc("{" + (p + f), "}", "}");
    assert inner + "}" == "{" + (p + z);
    Assoc(first + ":" + a, ",", z);
    Assoc(first + ":", a, "," + z);
    Assoc(first, ":", a + ("," + z));
    var y := first + (":" + (a + ("," + z)));
    assert p + z == y;
    Assoc(outer + ":", inner, "}");
    Assoc(outer, ":", inner + "}");
    Assoc(":", "{", y);
    Assoc("{", outer + ":" + inner, "}");
  }

  /** The output of an error result is the JSON text of its error object. */
  lemma {:induction false} ErrorTextIsJson(code: string, message: string)
    requires IsPlain(code) && IsPlain(message)
    ensures ErrorText(code, message) ==
              Canon(Obj(["error"], [Obj(["code", "message"], [Str(code), Str(message)])]))
  {
    ErrorKeys();
    PlainQuotes("error");
    PlainQuotes("code");
    PlainQuotes("message");
    PlainQuotes(code);
    PlainQuotes(message);
    TwoMembers("code", Str(code), "message", Str(message));
    OneMember("error", Obj(["code", "message"], [Str(code), Str(message)]));
    hide Canon, Quote, InQuotes, IsPlain, Less;
    Regroup(InQuotes("error"), InQuotes("code"), InQuotes(code), InQuotes("message"), InQuotes(message));
  }

  lemma {:induction false} ErrorKeys()
    ensures IsPlain("error") && IsPlain("code") && IsPlain("message") && Less("code", "message")
  {
    assert "code"[0] == 'c' && "message"[0] == 'm' && "code" != "";
  }

  /** The accounted size of a history output is that of the item it is replayed in. */
  lemma {:induction false} SerializedIsJson(id: string, output: string)
    ensures Serialized(id, output) ==
              Utf8Bytes(Canon(Obj(["call_id", "output", "type"],
                                  [Str(id), Str(output), Str("function_call_output")])))
  {
    ItemKeys();
    PlainQuotes("call_id");
    PlainQuotes("output");
    PlainQuotes("type");
    PlainQuotes("function_call_output");
    ThreeMembers("call_id", Str(id), "output", Str(output), "type", Str("function_call_output"));
    QuoteTakes(id);
    QuoteTakes(output);
    EnvelopeTakes(Quote(id), Quote(output));
    assert Canon(Str(id)) == Quote(id) && Canon(Str(output)) == Quote(output);
    hide Canon, Quote, InQuotes, IsPlain, Less, Utf8Bytes, EscapedBytes;
  }

  lemma {:induction false} ItemKeys()
    ensures IsPlain("call_id") && IsPlain("output") && IsPlain("type") && IsPlain("function_call_output")
    ensures Less("call_id", "output") && Less("output", "type")
  {
    assert "call_id"[0] == 'c' && "output"[0] == 'o' && "type"[0] == 't';
  }

  lemma {:induction false} QuoteTakes(s: string)
    ensures Utf8Bytes(Quote(s)) == 2 + EscapedBytes(s)
  {
    EscapeAllTakes(s);
    AsciiBytes("\"");
    hide Utf8Bytes, EscapeAll, EscapedBytes;
    Utf8Append("\"" + EscapeAll(s), "\"");
    Utf8Append("\"", EscapeAll(s));
  }

  /** A key of plain characters, a value behind it, and what follows. */
  lemma {:induction false} MemberTakes(key: string, value: string, rest: string)
    requires IsPlain(key)
    ensures Utf8Bytes(InQuotes(key) + ":" + value + "," + rest) == |key| + 4 + Utf8Bytes(value) + Utf8Bytes(rest)
  {
    AsciiBytes(InQuotes(key) + ":");
    AsciiBytes(",");
    hide Utf8Bytes, IsPlain, InQuotes;
    Utf8Append(InQuotes(key) + ":" + value + ",", rest);
    Utf8Append(InQuotes(key) + ":" + value, ",");
    Utf8Append(InQuotes(key) + ":", value);
    assert |InQuotes(key)| == |key| + 2 by { QuotesTakeTwo(key); }
  }

  lemma {:induction false} QuotesTakeTwo(s: string)
    ensures |InQuotes(s)| == |s| + 2
  {
  }

  lemma {:induction false} EnvelopeTakes(id: string, output: string)
    ensures Utf8Bytes("{" + (InQuotes("call_id") + ":" + id + ","
                             + (InQuotes("output") + ":" + output + ","
                                + (InQuotes("type") + ":" + InQuotes("function_call_output")))) + "}") ==
            52 + Utf8Bytes(id) + Utf8Bytes(output)
  {
    ItemKeys();
    var tail := InQuotes("type") + ":" + InQuotes("function_call_output");
    assert Utf8Bytes(tail) == 29 by { TailTakes(); }
    AsciiBytes("{");
    AsciiBytes("}");
    hide Utf8Bytes, IsPlain, InQuotes;
    var middle := InQuotes("output") + ":" + output + "," + tail;
    MemberTakes("output", output, tail);
    MemberTakes("call_id", id, middle);
    var all := InQuotes("call_id") + ":" + id + "," + middle;
    Utf8Append("{" + all, "}");
    Utf8Append("{", all);
    assert |"output"| == 6 && |"call_id"| == 7;
  }

  lemma {:induction false} TailTakes()
    ensures Utf8Bytes(InQuotes("type") + ":" + InQuotes("function_call_output")) == 29
  {
    ItemKeys();
    QuotesTakeTwo("type");
    QuotesTakeTwo("function_call_output");
    PlainInQuotes("type");
    PlainInQuotes("function_call_output");
    AsciiBytes(":");
    hide Utf8Bytes, InQuotes, IsPlain;
    Utf8Append(InQuotes("type") + ":", InQuotes("function_call_output"));
    Utf8Append(InQuotes("type"), ":");
    assert |"type"| == 4 && |"function_call_output"| == 20;
  }

  lemma {:induction false} PlainInQuotes(s: string)
    requires IsPlain(s)
    ensures Utf8Bytes(InQuotes(s)) == |s| + 2
  {
    AsciiBytes(InQuotes(s));
  }

  /** The JSON text of an error object. */
  function ErrorJson(code: string, message: string): string {
    Canon(Obj(["error"], [Obj(["code", "message"], [Str(code), Str(message)])]))
  }

  lemma {:induction false} PlainAppend(a: string, b: string)
    requires IsPlain(a) && IsPlain(b)
    ensures IsPlain(a + b)
  {
  }

  lemma {:induction false} SkipJson(code: string, word: string)
    requires IsPlain(code) && IsPlain(word)
    ensures ErrorText(code, "tool was not executed: " + word) == ErrorJson(code, "tool was not executed: " + word)
  {
    assert IsPlain("tool was not executed: ");
    hide IsPlain, ErrorText, Canon;
    PlainAppend("tool was not executed: ", word);
    ErrorTextIsJson(code, "tool was not executed: " + word);
  }

  /** What a skipped call says, by the reason. */
  lemma {:induction false} SkipTexts()
    ensures SkipText(ToolLimit) == ErrorJson("limit_reached", "tool was not executed: " + "tool limit")
    ensures SkipText(TurnCancelled) == ErrorJson("cancelled", "tool was not executed: " + "cancelled")
    ensures SkipText(CallInDoubt) == ErrorJson("in_doubt", "tool was not executed: " + "in_doubt")
    ensures SkipText(TurnStalled) == ErrorJson("stalled", "tool was not executed: " + "stalled")
  {
    assert IsPlain("limit_reached") && IsPlain("tool limit") && IsPlain("cancelled") && IsPlain("in_doubt");
    assert IsPlain("stalled");
    hide IsPlain, ErrorText, ErrorJson;
    SkipJson("limit_reached", "tool limit");
    SkipJson("cancelled", "cancelled");
    SkipJson("in_doubt", "in_doubt");
    SkipJson("stalled", "stalled");
  }

  /** The fallback of a lookup whose result has no room. */
  lemma {:induction false} FallbackText()
    ensures CONTROL_TEXT ==
              ErrorJson("history_quota_exhausted", "remaining history quota" + " cannot fit this result")
  {
    assert IsPlain("remaining history quota") && IsPlain(" cannot fit this result");
    assert IsPlain("history_quota_exhausted");
    hide IsPlain, ErrorText, ErrorJson;
    FallbackJson();
  }

  lemma {:induction false} FallbackJson()
    requires IsPlain("history_quota_exhausted")
    requires IsPlain("remaining history quota") && IsPlain(" cannot fit this result")
    ensures ErrorText("history_quota_exhausted", "remaining history quota" + " cannot fit this result") ==
              ErrorJson("history_quota_exhausted", "remaining history quota" + " cannot fit this result")
  {
    hide IsPlain, ErrorText, Canon;
    PlainAppend("remaining history quota", " cannot fit this result");
    ErrorTextIsJson("history_quota_exhausted", "remaining history quota" + " cannot fit this result");
  }

  // ---------------------------------------------------------------- results that are delivered

  predicate IsLookup(call: Call) { call.name in {"history_search", "history_turn", "history_artifact"} }

  function Lookups(calls: seq<Call>): nat {
    if calls == [] then 0 else (if IsLookup(calls[0]) then 1 else 0) + Lookups(calls[1..])
  }

  lemma {:induction false} LookupsAreHistory(calls: seq<Call>)
    ensures Lookups(calls) == |HistoryCalls(calls)|
    decreases |calls|
  {
    if calls != [] { LookupsAreHistory(calls[1..]); }
  }

  /** An output has room: within 12288 bytes, and with 512 left of the turn's for each lookup behind the call. */
  predicate HasRoomFor(used: nat, behind: nat, id: string, output: string) {
    Serialized(id, output) <= 12_288 && used + Serialized(id, output) + 512 * behind <= 32_768
  }

  /** The row a lookup leaves: its own result if that has room, and the fallback if not. */
  function Delivered(used: nat, behind: nat, id: string, produced: string): string {
    if HasRoomFor(used, behind, id, produced) then produced else CONTROL_TEXT
  }

  /**
   One call. A lookup whose result has room is delivered as it is and takes exactly its bytes; any other
   gets the fallback, or the reserve error exactly if that has no room either. A tool that is no lookup
   writes its output and leaves the counter alone.
   */
  lemma {:induction false} CallDelivers(turn: string, s: Live, calls: seq<Call>, produced: string)
    requires calls != [] && s.quota == QuotaOf(s.quota.used)
    ensures var call, behind := calls[0], Lookups(calls[1..]);
            var output := if IsLookup(call) then Delivered(s.quota.used, behind, call.id, produced) else produced;
            var row := Terminal(Some(turn), Some(call.id), Some(call.name), Some(output));
            var used := s.quota.used + if IsLookup(call) then Serialized(call.id, output) else 0;
            CallStep(turn, s, call, |HistoryCalls(calls)|, produced) ==
            if IsLookup(call) && !HasRoomFor(s.quota.used, behind, call.id, output) then None
            else Some(Live(s.journal + [row], QuotaOf(used)))
  {
    LookupsAreHistory(calls);
    LookupsAreHistory(calls[1..]);
    SomeBytes(calls[0].id, produced);
    SomeBytes(calls[0].id, CONTROL_TEXT);
    hide Serialized, HistoryCalls;
  }

  lemma {:induction false} SomeBytes(id: string, output: string)
    ensures Serialized(id, output) > 0
  {
  }

  /** Row i of a batch: the output of call i, and the counter before and after it. */
  predicate IsRowOf(turn: string, calls: seq<Call>, produced: seq<string>, rows: seq<Event>, used: seq<nat>, i: nat)
    requires i < |calls| == |produced| && i < |rows| && i + 1 < |used|
  {
    var call := calls[i];
    var output := if IsLookup(call) then Delivered(used[i], Lookups(calls[i + 1..]), call.id, produced[i])
                  else produced[i];
    && rows[i] == Terminal(Some(turn), Some(call.id), Some(call.name), Some(output))
    && used[i + 1] == used[i] + (if IsLookup(call) then Serialized(call.id, output) else 0)
    && (IsLookup(call) ==> Serialized(call.id, output) <= 12_288)
  }

  /** The rows of the first calls of a batch, in order, and the counter along them. */
  ghost predicate AreRowsOf(turn: string, calls: seq<Call>, produced: seq<string>, rows: seq<Event>, used: seq<nat>) {
    && |calls| == |produced| && |rows| <= |calls| && |used| == |rows| + 1
    && forall i: nat :: i < |rows| ==> IsRowOf(turn, calls, produced, rows, used, i)
  }

  lemma {:induction false} RowsCons(turn: string, calls: seq<Call>, produced: seq<string>, row: Event, before: nat,
                                    rows: seq<Event>, used: seq<nat>)
    requires calls != [] && |calls| == |produced| && used != []
    requires IsRowOf(turn, calls, produced, [row], [before, used[0]], 0)
    requires AreRowsOf(turn, calls[1..], produced[1..], rows, used)
    ensures AreRowsOf(turn, calls, produced, [row] + rows, [before] + used)
  {
    hide IsLookup, Lookups, Delivered, Serialized;
    forall i: nat | i < |rows| + 1
      ensures IsRowOf(turn, calls, produced, [row] + rows, [before] + used, i)
    {
      if i > 0 {
        assert IsRowOf(turn, calls[1..], produced[1..], rows, used, i - 1);
        assert calls[1..][i - 1 + 1..] == calls[i + 1..];
      }
    }
  }

  /**
   The first k calls of a batch that meets no reserve error: each row is the call's own result wherever that
   has room.
   */
  lemma {:induction false} FirstDeliver(turn: string, s: Live, calls: seq<Call>, produced: seq<string>, k: nat)
    returns (rows: seq<Event>, used: seq<nat>)
    requires |calls| == |produced| && k <= |calls| && s.quota == QuotaOf(s.quota.used)
    requires !RunFirst(turn, s, calls, produced, k).failed
    ensures AreRowsOf(turn, calls, produced, rows, used) && |rows| == k && used[0] == s.quota.used
    ensures var run := RunFirst(turn, s, calls, produced, k);
            run.state == Live(s.journal + rows, QuotaOf(used[k])) && run.left == calls[k..]
    decreases k
  {
    hide CallStep, HistoryCalls, IsLookup, Lookups, Serialized, Delivered;
    if k == 0 {
      rows, used := [], [s.quota.used];
      assert s.journal + [] == s.journal && calls[0..] == calls;
    } else {
      CallDelivers(turn, s, calls, produced[0]);
      var next := CallStep(turn, s, calls[0], |HistoryCalls(calls)|, produced[0]).value;
      var row := next.journal[|s.journal|];
      rows, used := FirstDeliver(turn, next, calls[1..], produced[1..], k - 1);
      RowsCons(turn, calls, produced, row, s.quota.used, rows, used);
      assert s.journal + [row] + rows == s.journal + ([row] + rows);
      assert calls[1..][k - 1..] == calls[k..];
      rows, used := [row] + rows, [s.quota.used] + used;
    }
  }

  /** One row per skipped call, with the text of the reason. */
  function SkipRows(turn: string, calls: seq<Call>, text: string): seq<Event> {
    seq(|calls|, i requires 0 <= i < |calls| =>
        Terminal(Some(turn), Some(calls[i].id), Some(calls[i].name), Some(text)))
  }

  lemma {:induction false} SkipsAreRows(turn: string, journal: seq<Event>, calls: seq<Call>, text: string)
    ensures SkipAll(turn, journal, calls, text) == journal + SkipRows(turn, calls, text)
    decreases |calls|
  {
    if calls == [] {
      assert journal + SkipRows(turn, calls, text) == journal;
    } else {
      var row := Outcome(turn, calls[0], text);
      SkipsAreRows(turn, journal + [row], calls[1..], text);
      assert SkipRows(turn, calls, text) == [row] + SkipRows(turn, calls[1..], text);
      assert journal + [row] + SkipRows(turn, calls[1..], text) == journal + ([row] + SkipRows(turn, calls[1..], text));
    }
  }

  /**
   A whole batch, wherever it stops: behind the rows there were, one row for each call that ran, its own
   result wherever that has room, then one for each call that was skipped, with the text of the reason;
   and the counter is what the lookups that ran took.
   */
  lemma {:induction false} BatchDelivers(turn: string, s: Live, calls: seq<Call>, produced: seq<string>,
                                         stop: Option<Stop>)
    returns (rows: seq<Event>, used: seq<nat>)
    requires |calls| == |produced| && (stop.Some? ==> stop.value.after <= |calls|) && s.quota == QuotaOf(s.quota.used)
    requires !RunUntil(turn, s, calls, produced, stop).failed
    ensures var k := if stop.Some? then stop.value.after else |calls|;
            var skips := if stop.Some? then SkipRows(turn, calls[k..], SkipText(stop.value.reason)) else [];
            && AreRowsOf(turn, calls, produced, rows, used) && |rows| == k && used[0] == s.quota.used
            && RunUntil(turn, s, calls, produced, stop).state == Live(s.journal + rows + skips, QuotaOf(used[k]))
  {
    hide RunFirst, AreRowsOf, SkipAll, SkipText;
    var k := if stop.Some? then stop.value.after else |calls|;
    rows, used := FirstDeliver(turn, s, calls, produced, k);
    assert |used| == k + 1 by { RowsHaveCounters(turn, calls, produced, rows, used); }
    if stop.Some? { SkipsAreRows(turn, s.journal + rows, calls[k..], SkipText(stop.value.reason)); }
  }

  lemma {:induction false} RowsHaveCounters(turn: string, calls: seq<Call>, produced: seq<string>, rows: seq<Event>,
                                            used: seq<nat>)
    requires AreRowsOf(turn, calls, produced, rows, used)
    ensures |used| == |rows| + 1
  {
  }

  // ---------------------------------------------------------------- which journals are accepted

  /** All calls of the turn's responses, in order. */
  function CallsMade(events: seq<Event>, turn: string): seq<Call> {
    if events == [] then []
    else
      var last := events[|events| - 1];
      CallsMade(events[..|events| - 1], turn)
      + if last.Response? && last.turn == Some(turn) then CallsIn(last.items) else []
  }

  /** The rebuild counts every call of the history namespace as often as it was made, and no other. */
  lemma {:induction false} CallsAreCounted(events: seq<Event>, turn: string, call: Call)
    ensures CallsOf(events, turn)[call] == if "history_" <= call.name then multiset(CallsMade(events, turn))[call]
                                           else 0
    decreases |events|
  {
    hide NamespacedCalls, CallsIn;
    if events != [] {
      var last := events[|events| - 1];
      CallsAreCounted(events[..|events| - 1], turn, call);
      if last.Response? { NamespacedAreCounted(CallsIn(last.items), call); }
    }
  }

  lemma {:induction false} NamespacedAreCounted(calls: seq<Call>, call: Call)
    ensures NamespacedCalls(calls)[call] == if "history_" <= call.name then multiset(calls)[call] else 0
    decreases |calls|
  {
    if calls != [] {
      var init, last := calls[..|calls| - 1], calls[|calls| - 1];
      NamespacedAreCounted(init, call);
      assert calls == init + [last] && multiset(calls) == multiset(init) + multiset{last};
      hide InNamespace;
      assert InNamespace(last.name) <==> "history_" <= last.name by { NamespaceIsPrefix(last.name); }
    }
  }

  lemma {:induction false} NamespaceIsPrefix(name: string)
    ensures InNamespace(name) <==> "history_" <= name
  {
  }

  /**
   A terminal row that no rebuild accepts: one of the turn, of a tool in the namespace, without its call
   id or its output; or one without a turn that carries the id of a call of the turn.
   */
  predicate IsDamaged(event: Event, turn: string, calls: multiset<Call>) {
    && event.Terminal?
    && if event.turn == Some(turn) then
         && event.tool.Some? && "history_" <= event.tool.value
         && (event.callId.None? || event.callId == Some("") || event.output.None?)
       else event.turn.None? && event.callId.Some? && exists call :: call in calls && call.id == event.callId.value
  }

  lemma {:induction false} DamagedRowFails(event: Event, turn: string, calls: multiset<Call>, left: multiset<Call>)
    requires IsDamaged(event, turn, calls) && left <= calls
    ensures ScanRow(event, turn, calls, left).Err?
  {
  }

  lemma {:induction false} SoundRowCounts(event: Event, turn: string, calls: multiset<Call>, left: multiset<Call>)
    requires !IsDamaged(event, turn, calls) && left <= calls && forall c :: c in calls ==> "history_" <= c.name
    ensures var row := ScanRow(event, turn, calls, left);
            && (row.Ok? <==> OutcomesOf([event], turn) <= left)
            && (row.Ok? ==>
                  row.value.0 == OutcomeBytes([event], turn) && row.value.1 == left - OutcomesOf([event], turn))
  {
    OneOutcome(event, turn);
    hide Serialized, OutcomesOf, OutcomeBytes;
    if IsOutcome(event, turn) {
      var call := Call(event.callId.value, event.tool.value);
      assert call in left <==> multiset{call} <= left;
    } else {
      assert left - multiset{} == left && multiset{} <= left;
    }
  }

  lemma {:induction false} ScanExactly(events: seq<Event>, turn: string, calls: multiset<Call>, left: multiset<Call>,
                                       used: nat)
    requires left <= calls && forall c :: c in calls ==> "history_" <= c.name
    ensures var r := ScanRows(events, turn, calls, left, used);
            && (r.Ok? <==>
                  && (forall i :: 0 <= i < |events| ==> !IsDamaged(events[i], turn, calls))
                  && OutcomesOf(events, turn) <= left)
            && (r.Ok? ==> r.value == used + OutcomeBytes(events, turn))
    decreases |events|
  {
    hide IsDamaged, ScanRow, OutcomesOf, OutcomeBytes, ScanRows;
    if events == [] {
      NothingToScan(turn, calls, left, used);
    } else {
      var a := OutcomesOf([events[0]], turn);
      OutcomesSplit(events, turn);
      ScanRowsStep(events, turn, calls, left, used);
      assert forall i :: 0 <= i < |events| - 1 ==> events[1..][i] == events[i + 1];
      if IsDamaged(events[0], turn, calls) {
        DamagedRowFails(events[0], turn, calls, left);
      } else {
        SoundRowCounts(events[0], turn, calls, left);
        SplitSubset(a, OutcomesOf(events[1..], turn), left);
        var r := ScanRow(events[0], turn, calls, left);
        if r.Ok? { ScanExactly(events[1..], turn, calls, r.value.1, used + r.value.0); }
        assert forall i :: 1 <= i < |events| ==> events[i] == events[1..][i - 1];
      }
    }
  }

  /**
   The rebuild accepts a journal exactly if every call of the turn is readable, no row is damaged, and no
   call has more outcomes than occurrences; the counter is then the bytes of those outcomes.
   */
  lemma {:induction false} RebuildExactly(events: seq<Event>, turn: string, excluded: set<string>)
    requires turn !in excluded
    ensures var r := Rebuild(events, turn, excluded);
            && (r.Ok? <==>
                  && CallsAreReadable(events, turn)
                  && (forall i :: 0 <= i < |events| ==> !IsDamaged(events[i], turn, CallsOf(events, turn)))
                  && OutcomesOf(events, turn) <= CallsOf(events, turn))
            && (r.Ok? ==> r.value == QuotaOf(OutcomeBytes(events, turn)))
  {
    var calls := CallsOf(events, turn);
    forall c | c in calls ensures "history_" <= c.name { CallsAreCounted(events, turn, c); }
    hide IsDamaged, OutcomesOf, OutcomeBytes, ScanRows, CallsOf, CallsAreReadable;
    ScanExactly(events, turn, calls, calls, 0);
  }

  /** The quota of so many bytes: what is left of 32768, and whether nothing is. */
  lemma {:induction false} QuotaMeans(used: nat)
    ensures QuotaOf(used).used == used && (QuotaOf(used).exhausted <==> used >= 32_768)
    ensures used <= 32_768 ==> used + QuotaOf(used).remaining == 32_768
    ensures used > 32_768 ==> QuotaOf(used).remaining == 0
  {
  }

  // ---------------------------------------------------------------- which responses are admitted

  /** Two lookups of a response have one id. */
  predicate SharesId(calls: seq<Call>, i: nat, j: nat)
    requires i < j < |calls|
  {
    IsLookup(calls[i]) && IsLookup(calls[j]) && calls[i].id == calls[j].id
  }

  predicate HasGoodIds(calls: seq<Call>) {
    && (forall i :: 0 <= i < |calls| && IsLookup(calls[i]) ==> 1 <= Utf8Bytes(calls[i].id) <= 128)
    && (forall i: nat, j: nat :: i < j < |calls| ==> !SharesId(calls, i, j))
  }

  lemma {:induction false} HistoryCallsAre(calls: seq<Call>, call: Call)
    ensures call in HistoryCalls(calls) <==> call in calls && IsLookup(call)
    decreases |calls|
  {
    if calls != [] {
      HistoryCallsAre(calls[1..], call);
      assert calls == [calls[0]] + calls[1..];
      LookupIsHistory(calls[0]);
      LookupIsHistory(call);
      hide IsLookup, IsHistoryTool;
    }
  }

  lemma {:induction false} LookupIsHistory(call: Call)
    ensures IsLookup(call) <==> IsHistoryTool(call.name)
  {
  }

  /** The id of one call is good, and none of the others shares it. */
  predicate IsNewId(first: Call, rest: seq<Call>) {
    IsLookup(first) ==> 1 <= Utf8Bytes(first.id) <= 128 && forall c :: c in rest && IsLookup(c) ==> c.id != first.id
  }

  lemma {:induction false} GoodIdsTail(first: Call, rest: seq<Call>)
    requires HasGoodIds([first] + rest)
    ensures HasGoodIds(rest) && IsNewId(first, rest)
  {
    hide IsLookup, Utf8Bytes;
    var all := [first] + rest;
    assert all[0] == first;
    forall i | 0 <= i < |rest| && IsLookup(rest[i])
      ensures 1 <= Utf8Bytes(rest[i].id) <= 128
    {
      assert all[i + 1] == rest[i];
    }
    forall i: nat, j: nat | i < j < |rest|
      ensures !SharesId(rest, i, j)
    {
      assert !SharesId(all, i + 1, j + 1) && all[i + 1] == rest[i] && all[j + 1] == rest[j];
    }
    forall c | IsLookup(first) && c in rest && IsLookup(c)
      ensures c.id != first.id
    {
      var j: nat :| j < |rest| && rest[j] == c;
      assert !SharesId(all, 0, j + 1) && all[j + 1] == rest[j];
    }
  }

  lemma {:induction false} GoodIdsFront(first: Call, rest: seq<Call>)
    requires HasGoodIds(rest) && IsNewId(first, rest)
    ensures HasGoodIds([first] + rest)
  {
    hide IsLookup, Utf8Bytes;
    var all := [first] + rest;
    forall i | 0 <= i < |all| && IsLookup(all[i])
      ensures 1 <= Utf8Bytes(all[i].id) <= 128
    {
      assert i > 0 ==> all[i] == rest[i - 1];
    }
    forall i: nat, j: nat | i < j < |all|
      ensures !SharesId(all, i, j)
    {
      assert all[j] == rest[j - 1] && all[j] in rest;
      if i > 0 { assert !SharesId(rest, i - 1, j - 1) && all[i] == rest[i - 1]; }
    }
  }

  /** The same for a list of lookups. */
  predicate IsNewIn(first: Call, history: seq<Call>) {
    1 <= Utf8Bytes(first.id) <= 128 && forall c :: c in history ==> c.id != first.id
  }

  lemma {:induction false} NewIdIs(first: Call, rest: seq<Call>)
    ensures IsNewId(first, rest) <==> (IsLookup(first) ==> IsNewIn(first, HistoryCalls(rest)))
  {
    hide HistoryCalls, Utf8Bytes, IsLookup;
    forall c ensures c in HistoryCalls(rest) <==> c in rest && IsLookup(c) { HistoryCallsAre(rest, c); }
  }

  lemma {:induction false} HistoryFront(calls: seq<Call>)
    requires calls != []
    ensures HistoryCalls(calls) ==
              if IsLookup(calls[0]) then [calls[0]] + HistoryCalls(calls[1..]) else HistoryCalls(calls[1..])
  {
    LookupIsHistory(calls[0]);
    hide IsLookup, IsHistoryTool;
    assert [] + HistoryCalls(calls[1..]) == HistoryCalls(calls[1..]);
  }

  lemma {:induction false} GoodIdsAre(calls: seq<Call>)
    ensures IdsAreGood(HistoryCalls(calls)) <==> HasGoodIds(calls)
    decreases |calls|
  {
    if calls == [] {
      assert HistoryCalls(calls) == [];
    } else {
      hide *;
      var first, rest := calls[0], calls[1..];
      assert calls == [first] + rest;
      GoodIdsAre(rest);
      HistoryFront(calls);
      NewIdIs(first, rest);
      if HasGoodIds(calls) { GoodIdsTail(first, rest); }
      if HasGoodIds(rest) && IsNewId(first, rest) { GoodIdsFront(first, rest); }
      if IsLookup(first) { GoodHistoryFront(first, HistoryCalls(rest)); }
    }
  }

  lemma {:induction false} GoodHistoryFront(first: Call, rest: seq<Call>)
    ensures IdsAreGood([first] + rest) <==> IdsAreGood(rest) && IsNewIn(first, rest)
  {
    hide Utf8Bytes;
    var all := [first] + rest;
    assert all[0] == first && forall i :: 0 <= i < |rest| ==> all[i + 1] == rest[i];
    if IdsAreGood(all) {
      GoodHistoryTail(first, rest);
    }
    if IdsAreGood(rest) && IsNewIn(first, rest) {
      forall i, j | 0 <= i < j < |all|
        ensures all[i].id != all[j].id
      {
        assert all[j] == rest[j - 1] && all[j] in rest && (i > 0 ==> all[i] == rest[i - 1]);
      }
      assert forall i :: 1 <= i < |all| ==> all[i] == rest[i - 1];
    }
  }

  lemma {:induction false} GoodHistoryTail(first: Call, rest: seq<Call>)
    requires IdsAreGood([first] + rest)
    ensures IdsAreGood(rest) && IsNewIn(first, rest)
  {
    hide Utf8Bytes;
    var all := [first] + rest;
    assert all[0] == first && forall i :: 0 <= i < |rest| ==> all[i + 1] == rest[i];
    forall c | c in rest
      ensures c.id != first.id
    {
      var j: nat :| j < |rest| && rest[j] == c;
      assert all[0].id != all[j + 1].id;
    }
  }

  /**
   The check of a response's lookups: at most 8 of them, 512 bytes left for each, and ids of 1 to 128
   bytes that no two of them share. Calls of other tools do not matter.
   */
  lemma {:induction false} AdmissionMeans(calls: seq<Call>, quota: Quota)
    ensures ResponseFits(calls, quota) <==>
              Lookups(calls) <= 8 && 512 * Lookups(calls) <= quota.remaining && HasGoodIds(calls)
  {
    LookupsAreHistory(calls);
    GoodIdsAre(calls);
    hide HasGoodIds, IdsAreGood, Lookups, HistoryCalls;
  }
}
