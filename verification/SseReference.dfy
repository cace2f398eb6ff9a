/**
 The two-pass reading of an event stream: first split the bytes into lines, then interpret the
 blocks of lines between blank ones (sections 9.2.5 and 9.2.6 of the WHATWG HTML Living
 Standard). The incremental decoder is proved to deliver exactly its events, and to stop with
 exactly its error where a budget, the text encoding or the handler ends the stream early.
 */
module SseReference {
  import opened ByteStrings
  import opened Utf8
  import opened Sse

  // ---------------------------------------------------------------- first pass: lines

  /** A terminated line: its content and the length of the CR, LF or CRLF that ended it. */
  datatype RawLine = RawLine(content: bytes, ending: nat)

  datatype Split = Split(lines: seq<RawLine>, tail: bytes)

  predicate IsBreak(b: byte) { b == CR || b == LF }

  function FirstBreak(s: bytes): (i: nat)
    ensures i <= |s| && (i < |s| ==> IsBreak(s[i])) && forall k :: 0 <= k < i ==> !IsBreak(s[k])
  {
    if s == [] || IsBreak(s[0]) then 0 else 1 + FirstBreak(s[1..])
  }

  /** The lines of a stream, and the unterminated rest. */
  function SplitLines(s: bytes): Split
    decreases |s|
  {
    var i := FirstBreak(s);
    if i == |s| then Split([], s)
    else
      var ending := if s[i] == CR && i + 1 < |s| && s[i + 1] == LF then 2 else 1;
      var rest := SplitLines(s[i + ending..]);
      Split([RawLine(s[..i], ending)] + rest.lines, rest.tail)
  }

  /** What the lines and the tail were split from, up to the spelling of line endings. */
  function RawBytes(lines: seq<RawLine>): nat {
    if lines == [] then 0 else RawBytes(lines[..|lines| - 1]) + |lines[|lines| - 1].content| + lines[|lines| - 1].ending
  }

  // ---------------------------------------------------------------- second pass: blocks and events

  /** The text of a line in its place: the first one loses a byte order mark. */
  function TextOf(before: seq<RawLine>, line: RawLine): bytes {
    if before == [] then StripBom(line.content) else line.content
  }

  /** The texts of all lines. */
  function Texts(lines: seq<RawLine>): (texts: seq<bytes>)
    ensures |texts| == |lines|
  {
    if lines == [] then []
    else
      var init := lines[..|lines| - 1];
      Texts(init) + [TextOf(init, lines[|lines| - 1])]
  }

  /** The lines since the last blank one. */
  function OpenBlock(texts: seq<bytes>): seq<bytes> {
    if texts == [] || texts[|texts| - 1] == [] then []
    else OpenBlock(texts[..|texts| - 1]) + [texts[|texts| - 1]]
  }

  predicate IsField(text: bytes, name: bytes) {
    text != [] && text[0] != COLON && FieldName(text) == name
  }

  /** The values of the fields called name, in order. */
  function Values(texts: seq<bytes>, name: bytes): seq<bytes> {
    if texts == [] then []
    else
      var init, last := texts[..|texts| - 1], texts[|texts| - 1];
      if IsField(last, name) then Values(init, name) + [FieldValue(last)] else Values(init, name)
  }

  function LastOf<T>(values: seq<T>, default: T): T {
    if values == [] then default else values[|values| - 1]
  }

  /** The last identifier of the stream so far that holds no NUL. */
  function LastId(texts: seq<bytes>): bytes {
    if texts == [] then []
    else
      var last := texts[|texts| - 1];
      if IsField(last, ID) && 0 !in FieldValue(last) then FieldValue(last) else LastId(texts[..|texts| - 1])
  }

  /** The last reconnection time of a block that parses. */
  function LastRetry(texts: seq<bytes>): Option<nat> {
    if texts == [] then None
    else
      var last := texts[|texts| - 1];
      if IsField(last, RETRY) && ParseRetry(FieldValue(last)).Some? then ParseRetry(FieldValue(last))
      else LastRetry(texts[..|texts| - 1])
  }

  /** Values joined by line feeds. */
  function Join(values: seq<bytes>): bytes {
    if values == [] then []
    else if |values| == 1 then values[0]
    else Join(values[..|values| - 1]) + [LF] + values[|values| - 1]
  }

  /** The event a blank line dispatches after these texts: none if the block holds no data field. */
  function BlockEvents(texts: seq<bytes>): seq<Event> {
    var block := OpenBlock(texts);
    var data := Values(block, DATA);
    if data == [] then []
    else
      var kind := LastOf(Values(block, EVENT), []);
      [Event(if kind == [] then MESSAGE else kind, Join(data), LastId(texts), LastRetry(block))]
  }

  /** All events of a stream of texts: one block's event at each blank line. */
  function Events(texts: seq<bytes>): seq<Event> {
    if texts == [] then []
    else
      var init := texts[..|texts| - 1];
      Events(init) + if texts[|texts| - 1] == [] then BlockEvents(init) else []
  }

  function BlankLines(texts: seq<bytes>): nat {
    if texts == [] then 0 else BlankLines(texts[..|texts| - 1]) + if texts[|texts| - 1] == [] then 1 else 0
  }

  /** The raw bytes of the lines since the last blank one. */
  function OpenBytes(lines: seq<RawLine>): nat {
    if lines == [] || Texts(lines)[|lines| - 1] == [] then 0
    else OpenBytes(lines[..|lines| - 1]) + |lines[|lines| - 1].content| + lines[|lines| - 1].ending
  }

  // ---------------------------------------------------------------- where a stream must stop

  /**
   The budget error of a line with `content` bytes and `total` bytes with its ending, when
   `stream` and `event` bytes may still be charged: the first byte that fits neither decides.
   */
  function BudgetFault(limits: Limits, stream: nat, event: nat, lineRoom: nat, content: nat, total: nat)
    : Option<FeedError>
  {
    var room := if stream <= event then stream else event;
    if lineRoom < content && lineRoom < room then Some(LineTooLarge(limits.line))
    else if room < total then
      Some(if stream <= event then StreamTooLarge(limits.stream) else EventTooLarge(limits.event))
    else None
  }

  function LineBudgetFault(env: Env, before: seq<RawLine>, content: nat, total: nat): Option<FeedError>
    requires RawBytes(before) <= env.limits.stream && OpenBytes(before) <= env.limits.event
  {
    BudgetFault(env.limits, env.limits.stream - RawBytes(before), env.limits.event - OpenBytes(before),
                env.limits.line, content, total)
  }

  /** The error that stops the stream at line `line`, if any, once its bytes were charged. */
  function TextFault(env: Env, before: seq<RawLine>, line: RawLine): Option<FeedError> {
    var text := TextOf(before, line);
    var init := Texts(before);
    if !ValidUtf8(line.content) then Some(InvalidUtf8)
    else if text == [] then
      if BlankLines(init) == env.limits.frames then Some(TooManyFrames(env.limits.frames))
      else if BlockEvents(init) == [] then None
      else
        var code := env.verdict(Events(init) + BlockEvents(init));
        if code.Some? then Some(Handler(code.value)) else None
    else if IsField(text, ID) && 0 !in FieldValue(text) && |FieldValue(text)| > env.limits.eventId
    then Some(EventIdTooLarge(env.limits.eventId))
    else None
  }

  /** What the handler saw, and how the stream ended. */
  datatype Reading = Reading(seen: seq<Event>, error: Option<FeedError>)

  predicate Fits(limits: Limits, lines: seq<RawLine>) {
    RawBytes(lines) <= limits.stream && OpenBytes(lines) <= limits.event
  }

  /** The reading of the remaining lines after `before`, which raised no error. */
  function Read(env: Env, before: seq<RawLine>, lines: seq<RawLine>, tail: bytes): Reading
    requires Fits(env.limits, before)
    decreases |lines|
  {
    if lines == [] then
      Reading(Events(Texts(before)), LineBudgetFault(env, before, |tail|, |tail|))
    else
      var line := lines[0];
      var all := before + [line];
      var budget := LineBudgetFault(env, before, |line.content|, |line.content| + line.ending);
      if budget.Some? then Reading(Events(Texts(before)), budget)
      else
        var fault := TextFault(env, before, line);
        if fault.Some? then Reading(Events(Texts(if fault.value.Handler? then all else before)), fault)
        else
          FitsStep(env, before, line);
          Read(env, all, lines[1..], tail)
  }

  lemma {:induction false} FitsStep(env: Env, before: seq<RawLine>, line: RawLine)
    requires Fits(env.limits, before)
    requires LineBudgetFault(env, before, |line.content|, |line.content| + line.ending) == None
    ensures Fits(env.limits, before + [line])
  {
    assert (before + [line])[..|before|] == before;
  }

  // ---------------------------------------------------------------- the decoder between two lines

  /** Values, each followed by a line feed: what the data buffer holds. */
  function Terminated(values: seq<bytes>): bytes {
    if values == [] then [] else Terminated(values[..|values| - 1]) + values[|values| - 1] + [LF]
  }

  /** The decoder after some complete lines, each field described by the two-pass reading. */
  function StateAfter(lines: seq<RawLine>): State {
    var texts := Texts(lines);
    var block := OpenBlock(texts);
    State([], OpenBytes(lines), BlankLines(texts), RawBytes(lines), false, lines == [],
          Terminated(Values(block, DATA)), LastOf(Values(block, EVENT), []), LastId(texts), LastRetry(block),
          Events(texts))
  }

  lemma {:induction false} TerminatedIsJoin(values: seq<bytes>)
    ensures values == [] ==> Terminated(values) == []
    ensures values != [] ==> Terminated(values) == Join(values) + [LF]
    decreases |values|
  {
    if |values| == 1 {
      assert values[..0] == [];
      assert Terminated(values) == [] + values[0] + [LF];
    } else if values != [] {
      TerminatedIsJoin(values[..|values| - 1]);
    }
  }

  /** One more line at the end of each of the reading's functions. */
  lemma {:induction false} SnocTexts(lines: seq<RawLine>, line: RawLine)
    ensures Texts(lines + [line]) == Texts(lines) + [TextOf(lines, line)]
  {
    assert (lines + [line])[..|lines|] == lines;
  }

  lemma {:induction false} SnocRawBytes(lines: seq<RawLine>, line: RawLine)
    ensures RawBytes(lines + [line]) == RawBytes(lines) + |line.content| + line.ending
  {
    assert (lines + [line])[..|lines|] == lines;
  }

  lemma {:induction false} SnocOpenBytes(lines: seq<RawLine>, line: RawLine)
    ensures OpenBytes(lines + [line]) ==
            if TextOf(lines, line) == [] then 0 else OpenBytes(lines) + |line.content| + line.ending
  {
    SnocTexts(lines, line);
    hide Texts;
    assert (lines + [line])[..|lines|] == lines;
  }

  lemma {:induction false} SnocReading(texts: seq<bytes>, text: bytes)
    ensures var all := texts + [text];
            && OpenBlock(all) == (if text == [] then [] else OpenBlock(texts) + [text])
            && LastId(all) == (if IsField(text, ID) && 0 !in FieldValue(text) then FieldValue(text) else LastId(texts))
            && Events(all) == Events(texts) + (if text == [] then BlockEvents(texts) else [])
            && BlankLines(all) == BlankLines(texts) + (if text == [] then 1 else 0)
  {
    hide FieldValue, IsField, BlockEvents;
    assert (texts + [text])[..|texts|] == texts;
  }

  lemma {:induction false} SnocBlock(block: seq<bytes>, text: bytes)
    ensures Values(block + [text], DATA) ==
              (if IsField(text, DATA) then Values(block, DATA) + [FieldValue(text)] else Values(block, DATA))
    ensures Values(block + [text], EVENT) ==
              (if IsField(text, EVENT) then Values(block, EVENT) + [FieldValue(text)] else Values(block, EVENT))
    ensures LastRetry(block + [text]) ==
            if IsField(text, RETRY) && ParseRetry(FieldValue(text)).Some? then ParseRetry(FieldValue(text))
            else LastRetry(block)
  {
    hide FieldValue, IsField, ParseRetry;
    assert (block + [text])[..|block|] == block;
  }

  lemma {:induction false} SnocTerminated(values: seq<bytes>, value: bytes)
    ensures Terminated(values + [value]) == Terminated(values) + value + [LF]
  {
    assert (values + [value])[..|values|] == values;
  }

  /** The state when a line and its ending were charged but not yet interpreted. */
  function LineRead(lines: seq<RawLine>, content: bytes, charged: nat): State {
    StateAfter(lines).(line := content,
                       eventBytes := OpenBytes(lines) + charged,
                       streamBytes := RawBytes(lines) + charged)
  }

  /** Completing a frame whose data buffer holds these values. */
  lemma {:induction false} CompleteFrameJoins(env: Env, t: State, data: seq<bytes>)
    requires t.data == Terminated(data)
    ensures var event := Event(if t.kind == [] then MESSAGE else t.kind, Join(data), t.lastId, t.retry);
            var code := env.verdict(t.seen + [event]);
            CompleteFrame(env, t) ==
            if t.frames == env.limits.frames then Outcome(t, Some(TooManyFrames(env.limits.frames)))
            else if data == [] then Outcome(t.(frames := t.frames + 1, kind := [], retry := None), None)
            else Outcome(t.(frames := t.frames + 1, data := [], kind := [], retry := None, seen := t.seen + [event]),
                         if code.Some? then Some(Handler(code.value)) else None)
  {
    TerminatedIsJoin(data);
    hide Join, Terminated;
    if data != [] {
      assert t.data[..|t.data| - 1] == Join(data);
    }
  }

  /** A blank line dispatches the event of its block. */
  lemma {:induction false} BlankLineReads(env: Env, lines: seq<RawLine>, line: RawLine)
    requires TextOf(lines, line) == [] && ValidUtf8(line.content)
    ensures var r := FinishLine(env, LineRead(lines, line.content, |line.content| + line.ending));
            && r.error == TextFault(env, lines, line)
            && (r.error == None ==> r.state == StateAfter(lines + [line]))
            && (r.error.Some? ==>
                r.state.seen == Events(Texts(if r.error.value.Handler? then lines + [line] else lines)))
  {
    hide ValidUtf8, CompleteFrame, Terminated, Values, OpenBlock, Events, LastId, LastRetry, Join, Texts, OpenBytes,
         RawBytes, BlankLines, StripBom;
    SnocTexts(lines, line);
    SnocRawBytes(lines, line);
    SnocOpenBytes(lines, line);
    SnocReading(Texts(lines), []);
    EmptyBlock();
    var data := Values(OpenBlock(Texts(lines)), DATA);
    var s := LineRead(lines, line.content, |line.content| + line.ending);
    CompleteFrameJoins(env, s.(atStart := false, line := []), data);
  }

  lemma {:induction false} EmptyBlock()
    ensures Values([], DATA) == [] && Values([], EVENT) == [] && LastRetry([]) == None && Terminated([]) == []
  {
  }

  /** Any other line is a comment or one field of the open block. */
  lemma {:induction false} FieldLineReads(env: Env, lines: seq<RawLine>, line: RawLine)
    requires TextOf(lines, line) != [] && ValidUtf8(line.content)
    ensures var r := FinishLine(env, LineRead(lines, line.content, |line.content| + line.ending));
            && r.error == TextFault(env, lines, line)
            && (r.error == None ==> r.state == StateAfter(lines + [line]))
            && (r.error.Some? ==> !r.error.value.Handler? && r.state.seen == Events(Texts(lines)))
  {
    hide ValidUtf8, FieldValue, FieldName, ParseRetry, BlockEvents, Terminated, Values, OpenBlock, Events, LastId,
         LastRetry, Texts, OpenBytes, RawBytes, BlankLines, StripBom;
    var text := TextOf(lines, line);
    var block := OpenBlock(Texts(lines));
    SnocTexts(lines, line);
    SnocRawBytes(lines, line);
    SnocOpenBytes(lines, line);
    SnocReading(Texts(lines), text);
    SnocBlock(block, text);
    SnocTerminated(Values(block, DATA), FieldValue(text));
  }

  lemma {:induction false} LineReads(env: Env, lines: seq<RawLine>, line: RawLine)
    ensures var r := FinishLine(env, LineRead(lines, line.content, |line.content| + line.ending));
            && r.error == TextFault(env, lines, line)
            && (r.error == None ==> r.state == StateAfter(lines + [line]))
            && (r.error.Some? ==>
                r.state.seen == Events(Texts(if r.error.value.Handler? then lines + [line] else lines)))
  {
    hide Events, StateAfter;
    if !ValidUtf8(line.content) {
      InvalidLineReads(env, lines, line);
    } else if TextOf(lines, line) == [] {
      BlankLineReads(env, lines, line);
    } else {
      FieldLineReads(env, lines, line);
    }
  }

  lemma {:induction false} InvalidLineReads(env: Env, lines: seq<RawLine>, line: RawLine)
    requires !ValidUtf8(line.content)
    ensures var r := FinishLine(env, LineRead(lines, line.content, |line.content| + line.ending));
            r.error == Some(InvalidUtf8) && TextFault(env, lines, line) == Some(InvalidUtf8)
            && r.state.seen == Events(Texts(lines))
  {
  }

  // ---------------------------------------------------------------- the whole stream

  lemma {:induction false} PushAllAppend(env: Env, s: State, a: bytes, b: bytes)
    ensures PushAll(env, s, a + b) ==
            var r := PushAll(env, s, a);
            if r.error.Some? then r else PushAll(env, r.state, b)
    decreases |a|
  {
    hide PushByte;
    if a == [] {
      assert a + b == b;
    } else {
      assert (a + b)[0] == a[0] && (a + b)[1..] == a[1..] + b;
      var r := PushByte(env, s, a[0]);
      if r.error.None? { PushAllAppend(env, r.state, a[1..], b); }
    }
  }

  lemma {:induction false} PushOne(env: Env, s: State, b: byte)
    ensures PushAll(env, s, [b]) == PushByte(env, s, b)
  {
    hide PushByte;
    assert [b][1..] == [];
    var r := PushByte(env, s, b);
    assert r.error.None? ==> PushAll(env, r.state, []) == Outcome(r.state, None);
  }

  /** The bytes of a line's content are buffered, up to the first one that fits no budget. */
  lemma {:induction false} ContentRuns(env: Env, s: State, content: bytes)
    requires !s.pendingCr && forall i :: 0 <= i < |content| ==> !IsBreak(content[i])
    requires s.streamBytes <= env.limits.stream && s.eventBytes <= env.limits.event && |s.line| <= env.limits.line
    ensures var r := PushAll(env, s, content);
            && r.error == BudgetFault(env.limits, env.limits.stream - s.streamBytes, env.limits.event - s.eventBytes,
                                      env.limits.line - |s.line|, |content|, |content|)
            && r.state.seen == s.seen
            && (r.error == None ==> r.state == s.(line := s.line + content,
                                                  eventBytes := s.eventBytes + |content|,
                                                  streamBytes := s.streamBytes + |content|))
    decreases |content|
  {
    hide FinishLine;
    if content == [] {
      assert s.line + content == s.line;
    } else {
      assert !IsBreak(content[0]);
      var r := PushByte(env, s, content[0]);
      if r.error == None {
        assert s.line + [content[0]] + content[1..] == s.line + content;
        ContentRuns(env, r.state, content[1..]);
      }
    }
  }

  /** A state between two lines, with room in every budget. */
  predicate AtLineStart(limits: Limits, s: State) {
    s.line == [] && !s.pendingCr && s.streamBytes <= limits.stream && s.eventBytes <= limits.event
  }

  function Charged(s: State, content: bytes, total: nat): State {
    s.(line := content, eventBytes := s.eventBytes + total, streamBytes := s.streamBytes + total)
  }

  function BudgetFrom(limits: Limits, s: State, content: nat, total: nat): Option<FeedError>
    requires AtLineStart(limits, s)
  {
    BudgetFault(limits, limits.stream - s.streamBytes, limits.event - s.eventBytes, limits.line, content, total)
  }

  /** A line's content and then its ending are charged; what the ending starts is left to b. */
  lemma {:induction false} LineRuns(env: Env, s: State, content: bytes, b: byte)
    requires AtLineStart(env.limits, s) && IsBreak(b)
    requires forall i :: 0 <= i < |content| ==> !IsBreak(content[i])
    ensures var r := PushAll(env, s, content + [b]);
            var budget := BudgetFrom(env.limits, s, |content|, |content| + 1);
            if budget.Some? then r.error == budget && r.state.seen == s.seen
            else r == (if b == LF then FinishLine(env, Charged(s, content, |content| + 1))
                       else Outcome(Charged(s, content, |content| + 1).(pendingCr := true), None))
  {
    hide FinishLine;
    ContentRuns(env, s, content);
    PushAllAppend(env, s, content, [b]);
    var r := PushAll(env, s, content);
    assert s.line + content == content;
    if r.error == None { PushOne(env, r.state, b); }
  }

  /** A CRLF ending: the line feed is charged before the line is interpreted. */
  lemma {:induction false} CrLfRuns(env: Env, s: State, content: bytes)
    requires AtLineStart(env.limits, s)
    requires forall i :: 0 <= i < |content| ==> !IsBreak(content[i])
    ensures var r := PushAll(env, s, content + [CR] + [LF]);
            var budget := BudgetFrom(env.limits, s, |content|, |content| + 2);
            if budget.Some? then r.error == budget && r.state.seen == s.seen
            else r == FinishLine(env, Charged(s, content, |content| + 2))
  {
    hide FinishLine;
    LineRuns(env, s, content, CR);
    PushAllAppend(env, s, content + [CR], [LF]);
    var r := PushAll(env, s, content + [CR]);
    if r.error == None {
      hide PushAll;
      var read := Charged(s, content, |content| + 1).(pendingCr := true);
      PushOne(env, read, LF);
      assert Charge(env.limits, read).error == None ==>
          Charge(env.limits, read).state.(pendingCr := false) == Charged(s, content, |content| + 2);
    }
  }

  /** Pushing bytes and then ending the stream, as the handler and the caller see it. */
  function RunFrom(env: Env, s: State, stream: bytes): Reading {
    var r := PushAll(env, s, stream);
    if r.error.Some? then Reading(r.state.seen, r.error)
    else
      var f := Finish(env, r.state);
      Reading(f.state.seen, f.error)
  }

  /** After a pending carriage return, anything but a line feed finds the line already ended. */
  lemma {:induction false} PendingRuns(env: Env, s: State, rest: bytes)
    requires s.pendingCr && (rest != [] ==> rest[0] != LF)
    requires var r := FinishLine(env, s.(pendingCr := false)); r.error == None ==> !r.state.pendingCr
    ensures var r := FinishLine(env, s.(pendingCr := false));
            RunFrom(env, s, rest) == if r.error.Some? then Reading(r.state.seen, r.error)
                                     else RunFrom(env, r.state, rest)
  {
    hide FinishLine, PushPlain;
  }

  /** From between two lines on, the decoder reads the rest of the stream as the two passes do. */
  lemma {:induction false} RunIsRead(env: Env, lines: seq<RawLine>, stream: bytes)
    requires Fits(env.limits, lines)
    ensures RunFrom(env, StateAfter(lines), stream) ==
              Read(env, lines, SplitLines(stream).lines, SplitLines(stream).tail)
    decreases |stream|
  {
    hide StateAfter, Texts, Events, TextFault, Read, SplitLines, RunFrom, LineBudgetFault;
    var i := FirstBreak(stream);
    if i == |stream| {
      TailRuns(env, lines, stream);
      ReadTail(env, lines, stream);
    } else {
      var line, rest := SplitFirst(stream);
      if line.ending == 2 {
        CrLfThenRest(env, lines, line, rest);
      } else {
        BreakThenRest(env, lines, line, stream[i], rest);
      }
      var split := SplitLines(rest);
      ReadCons(env, lines, line, split.lines, split.tail);
      if LineBudgetFault(env, lines, |line.content|, |line.content| + line.ending) == None
        && TextFault(env, lines, line) == None {
        FitsStep(env, lines, line);
        RunIsRead(env, lines + [line], rest);
      }
    }
  }

  lemma {:induction false} ReadTail(env: Env, before: seq<RawLine>, tail: bytes)
    requires Fits(env.limits, before) && FirstBreak(tail) == |tail|
    ensures SplitLines(tail) == Split([], tail)
    ensures Read(env, before, [], tail) == Reading(Events(Texts(before)), LineBudgetFault(env, before, |tail|, |tail|))
  {
  }

  lemma {:induction false} ReadCons(env: Env, before: seq<RawLine>, line: RawLine, more: seq<RawLine>, tail: bytes)
    requires Fits(env.limits, before)
    ensures var budget := LineBudgetFault(env, before, |line.content|, |line.content| + line.ending);
            var fault := TextFault(env, before, line);
            (budget == None ==> Fits(env.limits, before + [line]))
            && Read(env, before, [line] + more, tail) ==
               if budget.Some? then Reading(Events(Texts(before)), budget)
               else if fault.Some? then
                 Reading(Events(Texts(if fault.value.Handler? then before + [line] else before)), fault)
               else Read(env, before + [line], more, tail)
  {
    hide Texts, Events, TextFault;
    if LineBudgetFault(env, before, |line.content|, |line.content| + line.ending) == None {
      FitsStep(env, before, line);
    }
    assert ([line] + more)[1..] == more;
  }

  /** The first line of a stream and what is behind it. */
  lemma {:induction false} SplitFirst(stream: bytes) returns (line: RawLine, rest: bytes)
    requires FirstBreak(stream) < |stream|
    ensures var b := stream[FirstBreak(stream)];
            && stream == line.content + (if line.ending == 2 then [CR] + [LF] else [b]) + rest && |rest| < |stream|
            && (forall i :: 0 <= i < |line.content| ==> !IsBreak(line.content[i]))
            && (line.ending == 1 || (line.ending == 2 && b == CR))
            && (line.ending == 1 && b == CR && rest != [] ==> rest[0] != LF)
    ensures SplitLines(stream) == Split([line] + SplitLines(rest).lines, SplitLines(rest).tail)
  {
    var i := FirstBreak(stream);
    var ending := if stream[i] == CR && i + 1 < |stream| && stream[i + 1] == LF then 2 else 1;
    line, rest := RawLine(stream[..i], ending), stream[i + ending..];
  }

  lemma {:induction false} TailRuns(env: Env, lines: seq<RawLine>, tail: bytes)
    requires Fits(env.limits, lines) && forall i :: 0 <= i < |tail| ==> !IsBreak(tail[i])
    ensures RunFrom(env, StateAfter(lines), tail)
         == Reading(Events(Texts(lines)), LineBudgetFault(env, lines, |tail|, |tail|))
  {
    ContentRuns(env, StateAfter(lines), tail);
  }

  /** A stream that starts with this line: the line's fault, or what the rest makes of the state behind it. */
  ghost predicate RunsPastLine(env: Env, lines: seq<RawLine>, line: RawLine, stream: bytes, rest: bytes)
    requires Fits(env.limits, lines)
  {
    var budget := LineBudgetFault(env, lines, |line.content|, |line.content| + line.ending);
    RunFrom(env, StateAfter(lines), stream) ==
    if budget.Some? then Reading(Events(Texts(lines)), budget)
    else
      var fault := TextFault(env, lines, line);
      if fault.Some? then Reading(Events(Texts(if fault.value.Handler? then lines + [line] else lines)), fault)
      else RunFrom(env, StateAfter(lines + [line]), rest)
  }

  lemma {:induction false} CrLfThenRest(env: Env, lines: seq<RawLine>, line: RawLine, rest: bytes)
    requires Fits(env.limits, lines) && line.ending == 2
    requires forall i :: 0 <= i < |line.content| ==> !IsBreak(line.content[i])
    ensures RunsPastLine(env, lines, line, line.content + ([CR] + [LF]) + rest, rest)
  {
    hide FinishLine, Texts, Events, TextFault, Finish, Terminated, Values, OpenBlock, LastId, LastRetry, BlankLines,
         RawBytes, OpenBytes;
    var content, s := line.content, StateAfter(lines);
    LineReads(env, lines, line);
    assert LineRead(lines, content, |content| + 2) == Charged(s, content, |content| + 2);
    CrLfRuns(env, s, content);
    PushAllAppend(env, s, content + [CR] + [LF], rest);
    assert content + ([CR] + [LF]) == content + [CR] + [LF];
  }

  lemma {:induction false} BreakThenRest(env: Env, lines: seq<RawLine>, line: RawLine, b: byte, rest: bytes)
    requires Fits(env.limits, lines) && IsBreak(b) && line.ending == 1
    requires forall i :: 0 <= i < |line.content| ==> !IsBreak(line.content[i])
    requires b == CR && rest != [] ==> rest[0] != LF
    ensures RunsPastLine(env, lines, line, line.content + [b] + rest, rest)
  {
    hide FinishLine, Texts, Events, TextFault, Finish, Terminated, Values, OpenBlock, LastId, LastRetry, BlankLines,
         RawBytes, OpenBytes;
    var content, s := line.content, StateAfter(lines);
    LineReads(env, lines, line);
    assert LineRead(lines, content, |content| + 1) == Charged(s, content, |content| + 1);
    LineRuns(env, s, content, b);
    PushAllAppend(env, s, content + [b], rest);
    var read := Charged(s, content, |content| + 1);
    assert read.(pendingCr := true).(pendingCr := false) == read;
    if b == CR { PendingRuns(env, read.(pendingCr := true), rest); }
  }

  /**
   The refinement. On every byte string, within the budgets or not, the decoder delivers exactly
   the events of the two-pass reading and ends with exactly its error.
   */
  lemma {:induction false} DecoderReadsStream(env: Env, stream: bytes)
    ensures RunFrom(env, START, stream) == Read(env, [], SplitLines(stream).lines, SplitLines(stream).tail)
  {
    assert StateAfter([]) == START;
    RunIsRead(env, [], stream);
  }

  // ---------------------------------------------------------------- when the whole stream is delivered

  lemma {:induction false} RawBytesGrow(before: seq<RawLine>, lines: seq<RawLine>)
    ensures RawBytes(before) <= RawBytes(before + lines)
    decreases |lines|
  {
    if lines == [] {
      assert before + lines == before;
    } else {
      RawBytesGrow(before, lines[..|lines| - 1]);
      assert (before + lines)[..|before + lines| - 1] == before + lines[..|lines| - 1];
    }
  }

  /** Line k keeps within the line and event limits and raises no error of its own. */
  ghost predicate LineIsFine(env: Env, lines: seq<RawLine>, k: nat)
    requires k < |lines|
  {
    && |lines[k].content| <= env.limits.line
    && OpenBytes(lines[..k]) + |lines[k].content| + lines[k].ending <= env.limits.event
    && TextFault(env, lines[..k], lines[k]) == None
  }

  /** Every line from k on is fine, the tail fits, and so does the whole stream. */
  ghost predicate StreamIsFine(env: Env, lines: seq<RawLine>, tail: bytes, from: nat) {
    && RawBytes(lines) + |tail| <= env.limits.stream
    && (forall k :: from <= k < |lines| ==> LineIsFine(env, lines, k))
    && |tail| <= env.limits.line
    && OpenBytes(lines) + |tail| <= env.limits.event
  }

  lemma {:induction false} ReadCompletes(env: Env, before: seq<RawLine>, lines: seq<RawLine>, tail: bytes)
    requires Fits(env.limits, before)
    ensures Read(env, before, lines, tail).error == None <==> StreamIsFine(env, before + lines, tail, |before|)
    ensures Read(env, before, lines, tail).error == None ==>
              Read(env, before, lines, tail).seen == Events(Texts(before + lines))
    decreases |lines|
  {
    hide TextFault, Events, Texts, RawBytes, OpenBytes, StreamIsFine;
    if lines == [] {
      assert before + lines == before;
      TailIsFine(env, before, tail);
    } else {
      var line := lines[0];
      assert before + [line] + lines[1..] == before + lines;
      var budget := LineBudgetFault(env, before, |line.content|, |line.content| + line.ending);
      LineThenStreamIsFine(env, before, lines, tail);
      hide LineBudgetFault;
      if budget == None && TextFault(env, before, line) == None {
        FitsStep(env, before, line);
        ReadCompletes(env, before + [line], lines[1..], tail);
      }
    }
  }

  lemma {:induction false} TailIsFine(env: Env, lines: seq<RawLine>, tail: bytes)
    requires Fits(env.limits, lines)
    ensures LineBudgetFault(env, lines, |tail|, |tail|) == None <==> StreamIsFine(env, lines, tail, |lines|)
  {
    hide TextFault, RawBytes, OpenBytes;
  }

  lemma {:induction false} FirstLineIsFine(env: Env, before: seq<RawLine>, lines: seq<RawLine>)
    requires Fits(env.limits, before) && lines != []
    ensures var line := lines[0];
            LineBudgetFault(env, before, |line.content|, |line.content| + line.ending) == None
              && TextFault(env, before, line) == None
            <==> LineIsFine(env, before + lines, |before|) && RawBytes(before + [line]) <= env.limits.stream
  {
    var line, all := lines[0], before + lines;
    assert all[|before|] == line && all[..|before|] == before;
    SnocRawBytes(before, line);
    hide RawBytes, OpenBytes, TextFault;
  }

  /** A stream is fine when its first line raises nothing and the rest is fine. */
  lemma {:induction false} LineThenStreamIsFine(env: Env, before: seq<RawLine>, lines: seq<RawLine>, tail: bytes)
    requires Fits(env.limits, before) && lines != []
    ensures var line := lines[0];
            StreamIsFine(env, before + lines, tail, |before|) <==>
            && LineBudgetFault(env, before, |line.content|, |line.content| + line.ending) == None
            && TextFault(env, before, line) == None
            && StreamIsFine(env, before + [line] + lines[1..], tail, |before| + 1)
  {
    var line, all := lines[0], before + lines;
    FirstLineIsFine(env, before, lines);
    RawBytesGrow(before + [line], lines[1..]);
    hide RawBytes, OpenBytes, TextFault, LineIsFine, LineBudgetFault;
    assert before + [line] + lines[1..] == all;
    assert (forall k :: |before| <= k < |all| ==> LineIsFine(env, all, k)) <==>
           LineIsFine(env, all, |before|) && forall k :: |before| + 1 <= k < |all| ==> LineIsFine(env, all, k);
  }

  /**
   A stream is accepted to its end exactly when its lines, frames and total size keep within the
   limits, its lines are UTF-8 and the handler refuses no event; all events are delivered then.
   */
  lemma {:induction false} DecoderAcceptsStream(env: Env, stream: bytes)
    ensures var split := SplitLines(stream);
            && (RunFrom(env, START, stream).error == None <==> StreamIsFine(env, split.lines, split.tail, 0))
            && (RunFrom(env, START, stream).error == None ==>
                RunFrom(env, START, stream).seen == Events(Texts(split.lines)))
  {
    hide Events, Texts, TextFault;
    DecoderReadsStream(env, stream);
    var split := SplitLines(stream);
    assert [] + split.lines == split.lines;
    ReadCompletes(env, [], split.lines, split.tail);
  }

  // ---------------------------------------------------------------- chunks

  /** The outcome of feeding chunks in turn, and how many bytes were accepted before an error. */
  function PushChunks(env: Env, s: State, chunks: seq<bytes>): (Outcome, nat)
    decreases |chunks|
  {
    if chunks == [] then (Outcome(s, None), 0)
    else
      var r := PushAll(env, s, chunks[0]);
      if r.error.Some? then (r, AcceptedBytes(env, s, chunks[0]))
      else
        var rest := PushChunks(env, r.state, chunks[1..]);
        (rest.0, |chunks[0]| + rest.1)
  }

  /** How many bytes are taken without error. */
  function AcceptedBytes(env: Env, s: State, chunk: bytes): nat
    decreases |chunk|
  {
    if chunk == [] then 0
    else
      var r := PushByte(env, s, chunk[0]);
      if r.error.Some? then 0 else 1 + AcceptedBytes(env, r.state, chunk[1..])
  }

  lemma {:induction false} AcceptedAppend(env: Env, s: State, a: bytes, b: bytes)
    ensures var r := PushAll(env, s, a);
            AcceptedBytes(env, s, a + b) ==
                AcceptedBytes(env, s, a) + (if r.error.Some? then 0 else AcceptedBytes(env, r.state, b))
    ensures PushAll(env, s, a).error == None ==> AcceptedBytes(env, s, a) == |a|
    decreases |a|
  {
    hide PushByte;
    if a == [] {
      assert a + b == b;
    } else {
      assert (a + b)[0] == a[0] && (a + b)[1..] == a[1..] + b;
      var r := PushByte(env, s, a[0]);
      if r.error.None? { AcceptedAppend(env, r.state, a[1..], b); }
    }
  }

  /** However a stream is cut into chunks: the same state, events and error, at the same byte. */
  lemma {:induction false} ChunkingIsIrrelevant(env: Env, s: State, chunks: seq<bytes>)
    ensures PushChunks(env, s, chunks) == (PushAll(env, s, Concat(chunks)), AcceptedBytes(env, s, Concat(chunks)))
    decreases |chunks|
  {
    hide PushAll, AcceptedBytes;
    if chunks == [] {
      EmptyPush(env, s);
    } else {
      PushAllAppend(env, s, chunks[0], Concat(chunks[1..]));
      AcceptedAppend(env, s, chunks[0], Concat(chunks[1..]));
      var r := PushAll(env, s, chunks[0]);
      if r.error.None? { ChunkingIsIrrelevant(env, r.state, chunks[1..]); }
    }
  }

  lemma {:induction false} EmptyPush(env: Env, s: State)
    ensures PushAll(env, s, []) == Outcome(s, None) && AcceptedBytes(env, s, []) == 0
  {
  }

  // ---------------------------------------------------------------- every reachable state

  /** The decoder inside a line: its content so far is buffered, and perhaps its carriage return is pending. */
  function Midway(lines: seq<RawLine>, content: bytes, pendingCr: bool): State {
    LineRead(lines, content, |content| + if pendingCr then 1 else 0).(pendingCr := pendingCr)
  }

  /** The lines of a stream that were interpreted: a last one that ends in a carriage return was not yet. */
  function Interpreted(stream: bytes): seq<RawLine> {
    var lines := SplitLines(stream).lines;
    if lines != [] && stream[|stream| - 1] == CR then lines[..|lines| - 1] else lines
  }

  /** What the two-pass reading says the decoder holds when it accepted a stream behind some lines. */
  function Held(before: seq<RawLine>, stream: bytes): State {
    var split := SplitLines(stream);
    if split.lines != [] && stream[|stream| - 1] == CR then
      Midway(before + Interpreted(stream), split.lines[|split.lines| - 1].content, true)
    else Midway(before + Interpreted(stream), split.tail, false)
  }

  /** Past its first line, what a stream holds is what its rest holds behind that line. */
  lemma {:induction false} HeldPastLine(before: seq<RawLine>, line: RawLine, stream: bytes, rest: bytes)
    requires SplitLines(stream) == Split([line] + SplitLines(rest).lines, SplitLines(rest).tail)
    requires rest != [] ==> stream != [] && stream[|stream| - 1] == rest[|rest| - 1]
    requires rest == [] ==> stream != [] && stream[|stream| - 1] != CR
    ensures Held(before, stream) == Held(before + [line], rest)
  {
    var more := SplitLines(rest).lines;
    if more == [] {
      NoBreakLeft(rest);
      hide SplitLines, Midway, FirstBreak;
      assert [line] + [] == [line] && before + [line] + [] == before + [line];
    } else {
      hide SplitLines, Midway, FirstBreak;
      ConsLines(before, line, more);
    }
  }

  lemma {:induction false} NoBreakLeft(rest: bytes)
    requires SplitLines(rest).lines == []
    ensures SplitLines(rest).tail == rest && (rest != [] ==> rest[|rest| - 1] != CR)
  {
  }

  lemma {:induction false} ConsLines(before: seq<RawLine>, line: RawLine, more: seq<RawLine>)
    requires more != []
    ensures before + ([line] + more) == before + [line] + more
    ensures before + ([line] + more)[..|more|] == before + [line] + more[..|more| - 1]
    ensures ([line] + more)[|more|] == more[|more| - 1]
  {
    assert ([line] + more)[..|more|] == [line] + more[..|more| - 1];
  }

  /** The decoder between two lines, after a stream it accepted: exactly what the reading says. */
  lemma {:induction false} AcceptedIsHeld(env: Env, before: seq<RawLine>, stream: bytes)
    requires Fits(env.limits, before)
    ensures PushAll(env, StateAfter(before), stream).error == None ==>
              PushAll(env, StateAfter(before), stream).state == Held(before, stream)
    decreases |stream|
  {
    hide StateAfter, Texts, Events, TextFault, LineBudgetFault, PushAll;
    if PushAll(env, StateAfter(before), stream).error == None {
      if FirstBreak(stream) == |stream| {
        TailIsHeld(env, before, stream);
      } else {
        var line, rest := SplitFirst(stream);
        if rest == [] && line.ending == 1 && stream[|stream| - 1] == CR {
          PendingIsHeld(env, before, line, stream);
        } else {
          LinePushed(env, before, line, stream, rest);
          HeldPastLine(before, line, stream, rest);
          AcceptedIsHeld(env, before + [line], rest);
        }
      }
    }
  }

  lemma {:induction false} TailIsHeld(env: Env, before: seq<RawLine>, tail: bytes)
    requires Fits(env.limits, before) && FirstBreak(tail) == |tail|
    requires PushAll(env, StateAfter(before), tail).error == None
    ensures PushAll(env, StateAfter(before), tail).state == Held(before, tail)
  {
    hide Texts, Events, PushAll;
    ContentRuns(env, StateAfter(before), tail);
    assert before + [] == before && [] + tail == tail;
    assert SplitLines(tail) == Split([], tail);
  }

  lemma {:induction false} PendingIsHeld(env: Env, before: seq<RawLine>, line: RawLine, stream: bytes)
    requires Fits(env.limits, before) && stream == line.content + [CR]
    requires SplitLines(stream) == Split([line], [])
    requires forall i :: 0 <= i < |line.content| ==> !IsBreak(line.content[i])
    requires PushAll(env, StateAfter(before), stream).error == None
    ensures PushAll(env, StateAfter(before), stream).state == Held(before, stream)
  {
    hide Texts, Events, PushAll, FinishLine, SplitLines;
    LineRuns(env, StateAfter(before), line.content, CR);
    assert before + [line][..0] == before;
  }

  /** A line that was accepted with what follows it leaves the decoder between two lines. */
  lemma {:induction false} LinePushed(env: Env, before: seq<RawLine>, line: RawLine, stream: bytes, rest: bytes)
    requires Fits(env.limits, before) && FirstBreak(stream) < |stream|
    requires var b := stream[FirstBreak(stream)];
             && stream == line.content + (if line.ending == 2 then [CR] + [LF] else [b]) + rest
             && (line.ending == 1 || (line.ending == 2 && b == CR))
             && (line.ending == 1 && b == CR ==> rest != [] && rest[0] != LF)
    requires forall i :: 0 <= i < |line.content| ==> !IsBreak(line.content[i])
    requires PushAll(env, StateAfter(before), stream).error == None
    ensures Fits(env.limits, before + [line])
    ensures PushAll(env, StateAfter(before), stream) == PushAll(env, StateAfter(before + [line]), rest)
  {
    hide FinishLine, Texts, Events, TextFault, Terminated, Values, OpenBlock, LastId, LastRetry, BlankLines,
         RawBytes, OpenBytes, PushAll;
    var content, s, b := line.content, StateAfter(before), stream[FirstBreak(stream)];
    var total := |content| + line.ending;
    var read := Charged(s, content, total);
    LineReads(env, before, line);
    assert LineRead(before, content, total) == read;
    if line.ending == 2 {
      CrLfRuns(env, s, content);
      PushAllAppend(env, s, content + [CR] + [LF], rest);
      assert content + ([CR] + [LF]) == content + [CR] + [LF];
    } else {
      LineRuns(env, s, content, b);
      PushAllAppend(env, s, content + [b], rest);
      if b == CR {
        PendingPushes(env, read.(pendingCr := true), rest);
        assert read.(pendingCr := true).(pendingCr := false) == read;
      }
    }
    assert LineBudgetFault(env, before, |content|, total) == None;
    FitsStep(env, before, line);
  }

  lemma {:induction false} PendingPushes(env: Env, s: State, rest: bytes)
    requires s.pendingCr && rest != [] && rest[0] != LF
    requires var r := FinishLine(env, s.(pendingCr := false)); r.error == None ==> !r.state.pendingCr
    ensures var r := FinishLine(env, s.(pendingCr := false));
            PushAll(env, s, rest) == if r.error.Some? then r else PushAll(env, r.state, rest)
  {
    hide FinishLine, PushPlain;
  }

  /** The raw bytes up to the last blank line: those of completed frames. */
  function ClosedBytes(lines: seq<RawLine>): nat {
    if lines == [] then 0
    else if Texts(lines)[|lines| - 1] == [] then RawBytes(lines)
    else ClosedBytes(lines[..|lines| - 1])
  }

  lemma {:induction false} ClosedAndOpen(lines: seq<RawLine>)
    ensures RawBytes(lines) == ClosedBytes(lines) + OpenBytes(lines)
    decreases |lines|
  {
    hide Texts;
    if lines != [] { ClosedAndOpen(lines[..|lines| - 1]); }
  }

  /**
   Every state a decoder can be in, after any chunks: all limits hold, error or not. After chunks
   it accepted, each of its fields is the one the two-pass reading gives, and the stream counter is
   every accepted byte: those of completed frames and those charged to the open one. Ending the
   stream keeps the limits too.
   */
  lemma {:induction false} EveryReachableState(env: Env, chunks: seq<bytes>)
    ensures var r := PushChunks(env, START, chunks).0;
            && WithinLimits(env.limits, r.state)
            && WithinLimits(env.limits, Finish(env, r.state).state)
            && (r.error == None ==>
                  && r.state == Held([], Concat(chunks))
                  && r.state.streamBytes == |Concat(chunks)|
                  && r.state.streamBytes == ClosedBytes(Interpreted(Concat(chunks))) + r.state.eventBytes)
  {
    hide WithinLimits, PushAll, PushChunks, Finish, Concat, Interpreted;
    var stream := Concat(chunks);
    var lines := Interpreted(stream);
    ChunkingIsIrrelevant(env, START, chunks);
    StartWithinLimits(env.limits);
    PushAllWithinLimits(env, START, stream);
    FinishWithinLimits(env, PushAll(env, START, stream).state);
    assert StateAfter([]) == START;
    AcceptedIsHeld(env, [], stream);
    assert [] + lines == lines;
    ClosedAndOpen(lines);
  }

  // ---------------------------------------------------------------- the Provider's loop

  /**
   The Provider's loop: a fresh decoder is fed chunk after chunk and then finished. The sink sees
   the two-pass reading of the concatenated stream, whatever the chunks.
   */
  method DecodeStream(limits: Limits, chunks: seq<bytes>, sink: EventSink) returns (error: Option<FeedError>)
    requires sink.seen == []
    modifies sink
    ensures var split := SplitLines(Concat(chunks));
            Reading(sink.seen, error) == Read(Env(limits, sink.verdict), [], split.lines, split.tail)
  {
    hide PushAll, Read, Finish;
    ghost var env := Env(limits, sink.verdict);
    DecoderReadsStream(env, Concat(chunks));
    EmptyPush(env, START);
    var decoder := new BoundedSseDecoder(limits);
    for i := 0 to |chunks|
      invariant decoder.Valid() && !decoder.failed && !decoder.finished && decoder.limits == limits
      invariant fresh(decoder)
      invariant PushAll(env, START, Concat(chunks[..i])) == Outcome(decoder.Current(sink.seen), None)
    {
      ConcatSplit(chunks[..i], chunks[i..]);
      ConcatSplit(chunks[..i], [chunks[i]]);
      assert chunks[..i] + chunks[i..] == chunks && chunks[..i] + [chunks[i]] == chunks[..i + 1];
      assert Concat([chunks[i]]) == chunks[i];
      assert Concat(chunks[i..]) == chunks[i] + Concat(chunks[i + 1..]);
      ghost var done, rest := Concat(chunks[..i]), Concat(chunks[i + 1..]);
      assert done + (chunks[i] + rest) == done + chunks[i] + rest;
      PushAllAppend(env, START, done, chunks[i]);
      PushAllAppend(env, START, done + chunks[i], rest);
      error := decoder.PushChunk(chunks[i], sink);
      if error.Some? { return; }
    }
    assert chunks[..|chunks|] == chunks;
    error := decoder.FinishStream(sink);
  }

  lemma {:induction false} ConcatSplit(a: seq<bytes>, b: seq<bytes>)
    ensures Concat(a + b) == Concat(a) + Concat(b)
    decreases |a|
  {
    if a == [] {
      assert a + b == b;
    } else {
      assert (a + b)[1..] == a[1..] + b;
      ConcatSplit(a[1..], b);
    }
  }
}
