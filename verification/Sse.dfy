/**
 The bounded incremental decoder of server-sent events: a byte automaton with one byte of
 carriage-return look-ahead, four budgets and sticky failure.
 */
module Sse {
  import opened ByteStrings
  import opened Utf8

  const LF: byte := 10
  const CR: byte := 13
  const COLON: byte := 58
  const SPACE: byte := 32
  const BOM: bytes := [0xEF, 0xBB, 0xBF]
  const DATA: bytes := [100, 97, 116, 97]
  const EVENT: bytes := [101, 118, 101, 110, 116]
  const ID: bytes := [105, 100]
  const RETRY: bytes := [114, 101, 116, 114, 121]
  const MESSAGE: bytes := [109, 101, 115, 115, 97, 103, 101]
  const U64_BOUND: nat := 0x1_0000_0000_0000_0000

  datatype Event = Event(kind: bytes, data: bytes, id: bytes, retry: Option<nat>)

  datatype Limits = Limits(line: nat, event: nat, frames: nat, stream: nat, eventId: nat)

  datatype FeedError =
    | LineTooLarge(limit: nat)
    | EventTooLarge(limit: nat)
    | TooManyFrames(limit: nat)
    | StreamTooLarge(limit: nat)
    | InvalidUtf8
    | EventIdTooLarge(limit: nat)
    | DecoderFinished
    | DecoderFailed
    | Handler(code: nat)

  /** The handler's answer to the events it was given so far, the newest last. */
  type Verdict = seq<Event> -> Option<nat>

  datatype Env = Env(limits: Limits, verdict: Verdict)

  /** The decoder's fields, and the events the handler has seen. */
  datatype State = State(
    line: bytes,
    eventBytes: nat,
    frames: nat,
    streamBytes: nat,
    pendingCr: bool,
    atStart: bool,
    data: bytes,
    kind: bytes,
    lastId: bytes,
    retry: Option<nat>,
    seen: seq<Event>)

  datatype Outcome = Outcome(state: State, error: Option<FeedError>)

  // ---------------------------------------------------------------- reading one field line

  function StripBom(line: bytes): bytes {
    if BOM <= line then line[|BOM|..] else line
  }

  /** The position of the first byte b of s, or |s|. */
  function Find(s: bytes, b: byte): (i: nat)
    ensures i <= |s| && (i < |s| ==> s[i] == b) && forall k :: 0 <= k < i ==> s[k] != b
  {
    if s == [] || s[0] == b then 0 else 1 + Find(s[1..], b)
  }

  function FieldName(line: bytes): bytes { line[..Find(line, COLON)] }

  /** What follows the first colon, without one leading space. */
  function FieldValue(line: bytes): (value: bytes)
    ensures |FieldName(line)| + |value| <= |line|
  {
    var i := Find(line, COLON);
    if i == |line| then []
    else if i + 1 < |line| && line[i + 1] == SPACE then line[i + 2..]
    else line[i + 1..]
  }

  predicate IsDigits(s: bytes) { forall i :: 0 <= i < |s| ==> 48 <= s[i] < 58 }

  function Decimal(s: bytes): nat
    requires IsDigits(s)
  {
    if s == [] then 0 else 10 * Decimal(s[..|s| - 1]) + (s[|s| - 1] - 48)
  }

  /** `parse::<u64>` of a value made of digits only. */
  function ParseRetry(value: bytes): Option<nat> {
    if value != [] && IsDigits(value) && Decimal(value) < U64_BOUND then Some(Decimal(value)) else None
  }

  // ---------------------------------------------------------------- the automaton

  function Charge(limits: Limits, s: State): Outcome {
    if s.streamBytes == limits.stream then Outcome(s, Some(StreamTooLarge(limits.stream)))
    else if s.eventBytes == limits.event then Outcome(s, Some(EventTooLarge(limits.event)))
    else Outcome(s.(streamBytes := s.streamBytes + 1, eventBytes := s.eventBytes + 1), None)
  }

  function CompleteFrame(env: Env, s: State): Outcome {
    if s.frames == env.limits.frames then Outcome(s, Some(TooManyFrames(env.limits.frames)))
    else
      var counted := s.(frames := s.frames + 1);
      if s.data == [] then Outcome(counted.(kind := [], retry := None), None)
      else
        var data := if s.data[|s.data| - 1] == LF then s.data[..|s.data| - 1] else s.data;
        var event := Event(if s.kind == [] then MESSAGE else s.kind, data, s.lastId, s.retry);
        var seen := s.seen + [event];
        var code := env.verdict(seen);
        Outcome(counted.(data := [], kind := [], retry := None, seen := seen),
                if code.Some? then Some(Handler(code.value)) else None)
  }

  function ApplyField(limits: Limits, s: State, line: bytes): Outcome {
    var name, value := FieldName(line), FieldValue(line);
    if name == DATA then Outcome(s.(data := s.data + value + [LF]), None)
    else if name == EVENT then Outcome(s.(kind := value), None)
    else if name == ID && 0 !in value then
      if |value| > limits.eventId then Outcome(s, Some(EventIdTooLarge(limits.eventId)))
      else Outcome(s.(lastId := value), None)
    else if name == RETRY && ParseRetry(value).Some? then Outcome(s.(retry := ParseRetry(value)), None)
    else Outcome(s, None)
  }

  function FinishLine(env: Env, s: State): Outcome {
    if !ValidUtf8(s.line) then Outcome(s, Some(InvalidUtf8))
    else
      var line := if s.atStart then StripBom(s.line) else s.line;
      var t := s.(atStart := false);
      if line == [] then
        var r := CompleteFrame(env, t.(line := []));
        if r.error.Some? then r else Outcome(r.state.(eventBytes := 0), None)
      else if line[0] == COLON then Outcome(t.(line := []), None)
      else
        var r := ApplyField(env.limits, t, line);
        if r.error.Some? then r else Outcome(r.state.(line := []), None)
  }

  /** A byte when no carriage return is pending. */
  function PushPlain(env: Env, s: State, b: byte): Outcome {
    var r := Charge(env.limits, s);
    if r.error.Some? then r
    else if b == CR then Outcome(r.state.(pendingCr := true), None)
    else if b == LF then FinishLine(env, r.state)
    else if |s.line| == env.limits.line then Outcome(r.state, Some(LineTooLarge(env.limits.line)))
    else Outcome(r.state.(line := s.line + [b]), None)
  }

  function PushByte(env: Env, s: State, b: byte): Outcome {
    if !s.pendingCr then PushPlain(env, s, b)
    else if b == LF then
      var r := Charge(env.limits, s);
      if r.error.Some? then r else FinishLine(env, r.state.(pendingCr := false))
    else
      var r := FinishLine(env, s.(pendingCr := false));
      if r.error.Some? then r else PushPlain(env, r.state, b)
  }

  /** The bytes of a chunk, up to the first error. */
  function PushAll(env: Env, s: State, chunk: bytes): Outcome
    decreases |chunk|
  {
    if chunk == [] then Outcome(s, None)
    else
      var r := PushByte(env, s, chunk[0]);
      if r.error.Some? then r else PushAll(env, r.state, chunk[1..])
  }

  /** The end of the stream: flush a pending carriage return, drop the unterminated frame. */
  function Finish(env: Env, s: State): Outcome {
    var r := if s.pendingCr then FinishLine(env, s.(pendingCr := false)) else Outcome(s, None);
    if r.error.Some? then r
    else Outcome(r.state.(line := [], data := [], kind := [], retry := None, eventBytes := 0), None)
  }

  const START := State([], 0, 0, 0, false, true, [], [], [], None, [])

  // ---------------------------------------------------------------- resource invariant

  /** Every buffer and counter within its limit; retained bytes are bytes of the current frame. */
  predicate WithinLimits(limits: Limits, s: State) {
    && |s.line| <= limits.line
    && s.eventBytes <= limits.event
    && s.streamBytes <= limits.stream
    && s.frames <= limits.frames
    && |s.lastId| <= limits.eventId
    && s.eventBytes <= s.streamBytes
    && |s.line| + |s.data| + |s.kind| + (if s.pendingCr then 1 else 0) <= s.eventBytes
  }

  lemma {:induction false} StartWithinLimits(limits: Limits)
    ensures WithinLimits(limits, START)
  {
  }

  lemma {:induction false} CompleteFrameWithinLimits(env: Env, s: State)
    requires WithinLimits(env.limits, s) && s.line == []
    ensures var t := CompleteFrame(env, s).state;
            WithinLimits(env.limits, t) && (CompleteFrame(env, s).error == None ==> t.data == [] && t.kind == [])
            && t == s.(frames := t.frames, data := t.data, kind := t.kind, retry := t.retry, seen := t.seen)
  {
  }

  lemma {:induction false} ApplyFieldWithinLimits(limits: Limits, s: State, line: bytes)
    requires WithinLimits(limits, s) && !s.pendingCr && |line| <= |s.line|
    requires |s.line| + |s.data| + |s.kind| < s.eventBytes
    ensures var r := ApplyField(limits, s, line);
            && r.state ==
                 s.(data := r.state.data, kind := r.state.kind, lastId := r.state.lastId, retry := r.state.retry)
            && (r.error.Some? ==> r.state == s)
            && WithinLimits(limits, r.state.(line := []))
  {
    hide ParseRetry, FieldName;
    var name, value := FieldName(line), FieldValue(line);
    assert name == DATA ==> |s.data + value + [LF]| <= |s.data| + |s.line| + 1;
  }

  /** Ending a line, with its line ending already charged, keeps the limits, error or not. */
  lemma {:induction false} FinishLineWithinLimits(env: Env, s: State)
    requires WithinLimits(env.limits, s) && !s.pendingCr && |s.line| + |s.data| + |s.kind| < s.eventBytes
    ensures WithinLimits(env.limits, FinishLine(env, s).state)
    ensures !FinishLine(env, s).state.pendingCr
    ensures FinishLine(env, s).state.streamBytes == s.streamBytes
  {
    hide ValidUtf8, CompleteFrame, ApplyField;
    var line := if s.atStart then StripBom(s.line) else s.line;
    var t := s.(atStart := false);
    if ValidUtf8(s.line) && line == [] {
      CompleteFrameWithinLimits(env, t.(line := []));
    } else if ValidUtf8(s.line) && line[0] != COLON {
      ApplyFieldWithinLimits(env.limits, t, line);
    }
  }

  lemma {:induction false} PushByteWithinLimits(env: Env, s: State, b: byte)
    requires WithinLimits(env.limits, s)
    ensures WithinLimits(env.limits, PushByte(env, s, b).state)
    ensures PushByte(env, s, b).error == None ==> PushByte(env, s, b).state.streamBytes == s.streamBytes + 1
  {
    hide FinishLine;
    var charged := Charge(env.limits, s).state;
    if s.pendingCr && b == LF {
      if Charge(env.limits, s).error == None {
        FinishLineWithinLimits(env, charged.(pendingCr := false));
      }
    } else if s.pendingCr {
      var flushed := s.(pendingCr := false);
      FinishLineWithinLimits(env, flushed);
      if FinishLine(env, flushed).error == None {
        PushPlainWithinLimits(env, FinishLine(env, flushed).state, b);
      }
    } else {
      PushPlainWithinLimits(env, s, b);
    }
  }

  lemma {:induction false} PushPlainWithinLimits(env: Env, s: State, b: byte)
    requires WithinLimits(env.limits, s) && !s.pendingCr
    ensures WithinLimits(env.limits, PushPlain(env, s, b).state)
    ensures PushPlain(env, s, b).error == None ==> PushPlain(env, s, b).state.streamBytes == s.streamBytes + 1
  {
    hide FinishLine;
    if Charge(env.limits, s).error == None && b == LF {
      FinishLineWithinLimits(env, Charge(env.limits, s).state);
    }
  }

  /** The limits hold after any input, also in the state a failure leaves behind. */
  lemma {:induction false} PushAllWithinLimits(env: Env, s: State, chunk: bytes)
    requires WithinLimits(env.limits, s)
    ensures WithinLimits(env.limits, PushAll(env, s, chunk).state)
    ensures PushAll(env, s, chunk).error == None ==> PushAll(env, s, chunk).state.streamBytes == s.streamBytes + |chunk|
    decreases |chunk|
  {
    hide WithinLimits, PushByte;
    if chunk != [] {
      PushByteWithinLimits(env, s, chunk[0]);
      if PushByte(env, s, chunk[0]).error == None {
        PushAllWithinLimits(env, PushByte(env, s, chunk[0]).state, chunk[1..]);
      }
    }
  }

  lemma {:induction false} FinishWithinLimits(env: Env, s: State)
    requires WithinLimits(env.limits, s)
    ensures WithinLimits(env.limits, Finish(env, s).state)
  {
    hide FinishLine;
    if s.pendingCr { FinishLineWithinLimits(env, s.(pendingCr := false)); }
  }

  /** The events seen count towards no limit. */
  lemma {:induction false} SeenIsNoLimit(limits: Limits, s: State, seen: seq<Event>)
    ensures WithinLimits(limits, s) <==> WithinLimits(limits, s.(seen := seen))
  {
  }

  // ---------------------------------------------------------------- the decoder object

  /** The event handler: it remembers what it saw and may refuse any event. */
  class EventSink {
    var seen: seq<Event>
    const verdict: Verdict

    constructor (verdict: Verdict)
      ensures seen == [] && this.verdict == verdict
    {
      seen := [];
      this.verdict := verdict;
    }

    method OnEvent(event: Event) returns (refusal: Option<nat>)
      modifies this
      ensures seen == old(seen) + [event] && refusal == verdict(seen)
    {
      seen := seen + [event];
      refusal := verdict(seen);
    }
  }

  class BoundedSseDecoder {
    const limits: Limits
    var line: bytes
    var eventBytes: nat
    var frames: nat
    var streamBytes: nat
    var pendingCr: bool
    var atStart: bool
    var data: bytes
    var kind: bytes
    var lastId: bytes
    var retry: Option<nat>
    var finished: bool
    var failed: bool

    constructor (limits: Limits)
      ensures this.limits == limits && !finished && !failed
      ensures Current([]) == START && Valid()
    {
      this.limits := limits;
      line, eventBytes, frames, streamBytes := [], 0, 0, 0;
      pendingCr, atStart := false, true;
      data, kind, lastId, retry := [], [], [], None;
      finished, failed := false, false;
    }

    ghost function Current(seen: seq<Event>): State
      reads this
    {
      State(line, eventBytes, frames, streamBytes, pendingCr, atStart, data, kind, lastId, retry, seen)
    }

    ghost predicate Valid()
      reads this
    {
      WithinLimits(limits, Current([]))
    }

    ghost function EnvOf(sink: EventSink): Env { Env(limits, sink.verdict) }

    method ChargeRawByte(ghost seen: seq<Event>) returns (error: Option<FeedError>)
      modifies this`streamBytes, this`eventBytes
      ensures Outcome(Current(seen), error) == Charge(limits, old(Current(seen)))
    {
      if streamBytes == limits.stream { return Some(StreamTooLarge(limits.stream)); }
      if eventBytes == limits.event { return Some(EventTooLarge(limits.event)); }
      streamBytes := streamBytes + 1;
      eventBytes := eventBytes + 1;
      return None;
    }

    method DispatchFrame(sink: EventSink) returns (error: Option<FeedError>)
      modifies this`frames, this`data, this`kind, this`retry, sink
      ensures Outcome(Current(sink.seen), error) == CompleteFrame(EnvOf(sink), old(Current(sink.seen)))
    {
      if frames == limits.frames { return Some(TooManyFrames(limits.frames)); }
      frames := frames + 1;
      if data == [] {
        kind, retry := [], None;
        return None;
      }
      if data[|data| - 1] == LF {
        data := data[..|data| - 1];
      }
      var event := Event(if kind == [] then MESSAGE else kind, data, lastId, retry);
      data, kind, retry := [], [], None;
      var refusal := sink.OnEvent(event);
      error := if refusal.Some? then Some(Handler(refusal.value)) else None;
    }

    method EndLine(sink: EventSink) returns (error: Option<FeedError>)
      modifies this`line, this`atStart, this`frames, this`data, this`kind, this`retry, this`lastId, this`eventBytes,
               sink
      ensures Outcome(Current(sink.seen), error) == FinishLine(EnvOf(sink), old(Current(sink.seen)))
    {
      hide ValidUtf8, StripBom, FieldName, FieldValue, Decimal;
      if !ValidUtf8(line) { return Some(InvalidUtf8); }
      var text := line;
      if atStart {
        atStart := false;
        text := StripBom(line);
      }
      if text == [] {
        line := [];
        error := DispatchFrame(sink);
        if error.None? { eventBytes := 0; }
        return;
      }
      if text[0] != COLON {
        var name, value := FieldName(text), FieldValue(text);
        if name == DATA {
          data := data + value;
          data := data + [LF];
        } else if name == EVENT {
          kind := value;
        } else if name == ID && 0 !in value {
          if |value| > limits.eventId { return Some(EventIdTooLarge(limits.eventId)); }
          lastId := value;
        } else if name == RETRY && IsDigits(value) {
          var milliseconds := ParseRetry(value);
          if milliseconds.Some? { retry := milliseconds; }
        }
      }
      line := [];
      return None;
    }

    method PushOne(byte: byte, sink: EventSink) returns (error: Option<FeedError>)
      modifies this, sink
      ensures Outcome(Current(sink.seen), error) == PushByte(EnvOf(sink), old(Current(sink.seen)), byte)
      ensures finished == old(finished) && failed == old(failed)
    {
      hide FinishLine, Charge;
      if pendingCr {
        if byte == LF {
          error := ChargeRawByte(sink.seen);
          if error.Some? { return; }
          pendingCr := false;
          error := EndLine(sink);
          return;
        }
        pendingCr := false;
        error := EndLine(sink);
        if error.Some? { return; }
      }
      error := ChargeRawByte(sink.seen);
      if error.Some? { return; }
      if byte == CR {
        pendingCr := true;
      } else if byte == LF {
        error := EndLine(sink);
      } else {
        if |line| == limits.line { return Some(LineTooLarge(limits.line)); }
        line := line + [byte];
      }
    }

    method PushInner(chunk: bytes, sink: EventSink) returns (error: Option<FeedError>)
      modifies this, sink
      ensures Outcome(Current(sink.seen), error) == PushAll(EnvOf(sink), old(Current(sink.seen)), chunk)
      ensures finished == old(finished) && failed == old(failed)
    {
      hide PushByte;
      ghost var start := Current(sink.seen);
      for i := 0 to |chunk|
        invariant finished == old(finished) && failed == old(failed)
        invariant PushAll(EnvOf(sink), start, chunk) == PushAll(EnvOf(sink), Current(sink.seen), chunk[i..])
      {
        assert chunk[i..][0] == chunk[i] && chunk[i..][1..] == chunk[i + 1..];
        error := PushOne(chunk[i], sink);
        if error.Some? { return; }
      }
      return None;
    }

    /** Feeds a chunk: the automaton's outcome, and a failure that every later call repeats. */
    method PushChunk(chunk: bytes, sink: EventSink) returns (error: Option<FeedError>)
      requires Valid()
      modifies this, sink
      ensures Valid() && finished == old(finished)
      ensures old(failed) ==> error == Some(DecoderFailed) && unchanged(this) && unchanged(sink) && failed
      ensures !old(failed) && finished ==> error == Some(DecoderFinished) && unchanged(this) && unchanged(sink)
      ensures !old(failed) && !finished ==>
                Outcome(Current(sink.seen), error) == PushAll(EnvOf(sink), old(Current(sink.seen)), chunk)
                && failed == error.Some?
    {
      if failed { return Some(DecoderFailed); }
      if finished { return Some(DecoderFinished); }
      PushAllWithinLimits(EnvOf(sink), Current(sink.seen), chunk);
      error := PushInner(chunk, sink);
      if error.Some? { failed := true; }
    }

    /** Ends the stream; a second end, or an end after a failure, is an error. */
    method FinishStream(sink: EventSink) returns (error: Option<FeedError>)
      requires Valid()
      modifies this, sink
      ensures Valid()
      ensures old(failed) ==> error == Some(DecoderFailed) && unchanged(this) && unchanged(sink)
      ensures !old(failed) && old(finished) ==> error == Some(DecoderFinished) && unchanged(this) && unchanged(sink)
      ensures !old(failed) && !old(finished) ==>
                Outcome(Current(sink.seen), error) == Finish(EnvOf(sink), old(Current(sink.seen)))
                && failed == error.Some? && finished == error.None?
    {
      hide FinishLine, WithinLimits;
      if failed { return Some(DecoderFailed); }
      if finished { return Some(DecoderFinished); }
      SeenIsNoLimit(limits, Current([]), sink.seen);
      FinishWithinLimits(EnvOf(sink), Current(sink.seen));
      ghost var end := Finish(EnvOf(sink), Current(sink.seen)).state;
      SeenIsNoLimit(limits, end, []);
      if pendingCr {
        pendingCr := false;
        error := EndLine(sink);
        if error.Some? {
          failed := true;
          return;
        }
      }
      line, data, kind, retry, eventBytes := [], [], [], None, 0;
      finished := true;
      return None;
    }
  }
}
