/**
 What the field syntax of an event stream means, said of its spelling: names and values, the byte order
 mark, reconnection times, and that a stream printed from events delivers exactly these events.
 */
module SseLaws {
  import opened ByteStrings
  import opened Utf8
  import opened Sse
  import opened SseReference

  /** The bytes of an ASCII text. */
  function Ascii(s: string): bytes
    requires forall i :: 0 <= i < |s| ==> (s[i] as int) < 128
  {
    seq(|s|, i requires 0 <= i < |s| => s[i] as int)
  }

  lemma {:induction false} NamesAreSpelled()
    ensures Ascii("data") == DATA && Ascii("event") == EVENT && Ascii("id") == ID && Ascii("retry") == RETRY
    ensures Ascii("message") == MESSAGE && Ascii(":") == [COLON] && Ascii(" ") == [SPACE] && Ascii("\n") == [LF]
    ensures Ascii("\r") == [CR]
  {
  }

  // ---------------------------------------------------------------- one line

  lemma {:induction false} FindIs(s: bytes, b: byte, i: nat)
    requires i <= |s| && b !in s[..i] && (i < |s| ==> s[i] == b)
    ensures Find(s, b) == i
  {
    assert forall k :: 0 <= k < i ==> s[..i][k] == s[k];
  }

  /**
   A name without a colon and a value: one space behind the colon belongs to neither, and a second one to
   the value.
   */
  lemma {:induction false} SpelledFields(name: bytes, value: bytes)
    requires COLON !in name
    ensures FieldName(name + [COLON, SPACE] + value) == name && FieldValue(name + [COLON, SPACE] + value) == value
    ensures value == [] || value[0] != SPACE ==>
              FieldName(name + [COLON] + value) == name && FieldValue(name + [COLON] + value) == value
    ensures FieldName(name) == name && FieldValue(name) == []
  {
    var spaced, tight := name + [COLON, SPACE] + value, name + [COLON] + value;
    assert spaced[..|name|] == name && tight[..|name|] == name && name[..|name|] == name;
    FindIs(spaced, COLON, |name|);
    FindIs(tight, COLON, |name|);
    FindIs(name, COLON, |name|);
    assert spaced[|name| + 2..] == value && tight[|name| + 1..] == value;
  }

  /** A byte order mark is taken off once, and nothing else is. */
  lemma {:induction false} ByteOrderMark(text: bytes)
    ensures StripBom([0xEF, 0xBB, 0xBF] + text) == text
    ensures !([0xEF, 0xBB, 0xBF] <= text) ==> StripBom(text) == text
  {
    assert ([0xEF, 0xBB, 0xBF] + text)[3..] == text;
  }

  // ---------------------------------------------------------------- reconnection times

  /** The decimal spelling of a number. */
  function Digits(n: nat): (s: bytes)
    ensures s != []
  {
    if n < 10 then [48 + n] else Digits(n / 10) + [48 + n % 10]
  }

  function LeadingZeros(k: nat): (s: bytes)
    ensures |s| == k
  {
    seq(k, i => 48)
  }

  lemma {:induction false} DigitsDenote(n: nat, k: nat)
    ensures IsDigits(LeadingZeros(k) + Digits(n)) && Decimal(LeadingZeros(k) + Digits(n)) == n
    decreases n, k
  {
    var s := LeadingZeros(k) + Digits(n);
    if n >= 10 {
      DigitsDenote(n / 10, k);
      assert s[..|s| - 1] == LeadingZeros(k) + Digits(n / 10);
    } else {
      ZerosDenote(k);
      assert s[..|s| - 1] == LeadingZeros(k);
    }
  }

  lemma {:induction false} ZerosDenote(k: nat)
    ensures IsDigits(LeadingZeros(k)) && Decimal(LeadingZeros(k)) == 0
    decreases k
  {
    if k > 0 {
      ZerosDenote(k - 1);
      assert LeadingZeros(k)[..k - 1] == LeadingZeros(k - 1);
    }
  }

  /** Digits spell the number they denote, with zeros in front. */
  lemma {:induction false} DenotedIsSpelled(s: bytes) returns (k: nat)
    requires s != [] && IsDigits(s)
    ensures s == LeadingZeros(k) + Digits(Decimal(s))
    decreases |s|
  {
    var init, d := s[..|s| - 1], s[|s| - 1] - 48;
    assert s == init + [48 + d];
    if init == [] {
      assert Decimal(s) == d;
      return 0;
    }
    k := DenotedIsSpelled(init);
    var m := Decimal(init);
    if m == 0 {
      assert LeadingZeros(k) + [48] == LeadingZeros(k + 1);
      k := k + 1;
    } else {
      assert Decimal(s) / 10 == m && Decimal(s) % 10 == d;
      assert LeadingZeros(k) + Digits(m) + [48 + d] == LeadingZeros(k) + (Digits(m) + [48 + d]);
    }
  }

  /** The value of a `retry` field counts exactly if it spells a number below 2^64 in decimal, leading zeros allowed. */
  lemma {:induction false} RetrySpelled(value: bytes, n: nat)
    ensures ParseRetry(value) == Some(n) <==>
              n < 0x1_0000_0000_0000_0000 && exists k: nat :: value == LeadingZeros(k) + Digits(n)
  {
    hide Digits, Decimal;
    if ParseRetry(value) == Some(n) {
      var k := DenotedIsSpelled(value);
    }
    forall k: nat | value == LeadingZeros(k) + Digits(n)
      ensures value != [] && IsDigits(value) && Decimal(value) == n
    {
      DigitsDenote(n, k);
    }
  }

  // ---------------------------------------------------------------- printed events

  function Field(name: bytes, value: bytes): bytes { name + [COLON, SPACE] + value }

  predicate IsLineText(s: bytes) { CR !in s && LF !in s }

  /** The pieces of a text between its line feeds. */
  function Pieces(s: bytes): (pieces: seq<bytes>)
    ensures pieces != []
    decreases |s|
  {
    var i := FirstLf(s);
    if i == |s| then [s] else [s[..i]] + Pieces(s[i + 1..])
  }

  function FirstLf(s: bytes): (i: nat)
    ensures i <= |s| && (i < |s| ==> s[i] == LF) && forall k :: 0 <= k < i ==> s[k] != LF
  {
    if s == [] || s[0] == LF then 0 else 1 + FirstLf(s[1..])
  }

  function DataLines(pieces: seq<bytes>): (lines: seq<bytes>)
    ensures |lines| == |pieces|
  {
    seq(|pieces|, i requires 0 <= i < |pieces| => Field(DATA, pieces[i]))
  }

  /** The lines of one event: its fields, its data line by line, and a blank line. */
  function Block(e: Event): seq<bytes> {
    [Field(EVENT, e.kind)] + [Field(ID, e.id)]
    + (if e.retry.Some? then [Field(RETRY, Digits(e.retry.value))] else []) + DataLines(Pieces(e.data)) + [[]]
  }

  function Blocks(events: seq<Event>): seq<bytes> {
    if events == [] then [] else Block(events[0]) + Blocks(events[1..])
  }

  /** Lines, each ended by a line feed. */
  function Printed(lines: seq<bytes>): bytes {
    if lines == [] then [] else lines[0] + [LF] + Printed(lines[1..])
  }

  /**
   An event that has a spelling: a kind of one line, an identifier of one line without NUL, no carriage
   return in the data.
   */
  predicate IsPrintable(e: Event) {
    && e.kind != [] && IsLineText(e.kind) && IsLineText(e.id) && 0 !in e.id && CR !in e.data
    && (e.retry.Some? ==> e.retry.value < U64_BOUND)
  }

  lemma {:induction false} JoinCons(first: bytes, rest: seq<bytes>)
    requires rest != []
    ensures Join([first] + rest) == first + [LF] + Join(rest)
    decreases |rest|
  {
    var all := [first] + rest;
    if |rest| > 1 {
      JoinCons(first, rest[..|rest| - 1]);
      assert all[..|all| - 1] == [first] + rest[..|rest| - 1];
    } else {
      assert all[..1] == [first];
    }
  }

  lemma {:induction false} PiecesJoin(s: bytes)
    ensures Join(Pieces(s)) == s
    ensures CR !in s ==> forall i :: 0 <= i < |Pieces(s)| ==> IsLineText(Pieces(s)[i])
    decreases |s|
  {
    var i := FirstLf(s);
    if i < |s| {
      PiecesJoin(s[i + 1..]);
      JoinCons(s[..i], Pieces(s[i + 1..]));
      assert s == s[..i] + [LF] + s[i + 1..];
    }
  }

  // ---------------------------------------------------------------- reading them back

  lemma {:induction false} FieldIs(name: bytes, value: bytes, wanted: bytes)
    requires name != [] && COLON !in name
    ensures IsField(Field(name, value), wanted) <==> name == wanted
    ensures FieldValue(Field(name, value)) == value && Field(name, value) != []
  {
    hide FieldName, FieldValue;
    SpelledFields(name, value);
    assert Field(name, value)[0] == name[0];
  }

  /** What a reading of texts holds between two lines. */
  datatype Held = Held(values: seq<bytes>, kinds: seq<bytes>, id: bytes, retry: Option<nat>, events: seq<Event>)

  function HeldIn(texts: seq<bytes>): Held {
    var block := OpenBlock(texts);
    Held(Values(block, DATA), Values(block, EVENT), LastId(texts), LastRetry(block), Events(texts))
  }

  /** One field line more. */
  lemma {:induction false} FieldRead(texts: seq<bytes>, name: bytes, value: bytes)
    requires name in {DATA, EVENT, ID, RETRY} && (name == ID ==> 0 !in value)
    ensures var h := HeldIn(texts);
            HeldIn(texts + [Field(name, value)]) ==
            h.(values := if name == DATA then h.values + [value] else h.values,
               kinds := if name == EVENT then h.kinds + [value] else h.kinds,
               id := if name == ID then value else h.id,
               retry := if name == RETRY && ParseRetry(value).Some? then ParseRetry(value) else h.retry)
  {
    var line := Field(name, value);
    hide ParseRetry, FieldValue, Values, LastRetry, LastId, OpenBlock, Events, BlockEvents, Field;
    FieldIs(name, value, DATA);
    FieldIs(name, value, EVENT);
    FieldIs(name, value, ID);
    FieldIs(name, value, RETRY);
    hide IsField;
    SnocReading(texts, line);
    SnocBlock(OpenBlock(texts), line);
  }

  lemma {:induction false} DataRead(texts: seq<bytes>, pieces: seq<bytes>)
    ensures HeldIn(texts + DataLines(pieces)) == HeldIn(texts).(values := HeldIn(texts).values + pieces)
    decreases |pieces|
  {
    hide HeldIn;
    if pieces == [] {
      assert texts + DataLines(pieces) == texts;
      assert HeldIn(texts).values + pieces == HeldIn(texts).values;
    } else {
      var init, last := pieces[..|pieces| - 1], pieces[|pieces| - 1];
      assert init + [last] == pieces;
      DataRead(texts, init);
      assert texts + DataLines(pieces) == texts + DataLines(init) + [Field(DATA, last)];
      FieldRead(texts + DataLines(init), DATA, last);
      assert HeldIn(texts).values + init + [last] == HeldIn(texts).values + pieces;
    }
  }

  /** The blank line ends the block: one event, and an empty block behind it. */
  lemma {:induction false} BlankRead(texts: seq<bytes>)
    ensures var h := HeldIn(texts);
            HeldIn(texts + [[]]) ==
            Held([], [], h.id, None,
                 h.events + if h.values == [] then []
                            else [Event(if LastOf(h.kinds, []) == [] then MESSAGE else LastOf(h.kinds, []),
                                        Join(h.values), h.id, h.retry)])
  {
    hide Values, LastRetry, LastId, OpenBlock, Events, Join;
    SnocReading(texts, []);
    EmptyBlock();
    assert !IsField([], ID);
  }

  lemma {:induction false} ParsesDigits(n: nat)
    requires n < U64_BOUND
    ensures ParseRetry(Digits(n)) == Some(n)
  {
    hide ParseRetry, Digits;
    assert LeadingZeros(0) + Digits(n) == Digits(n);
    RetrySpelled(Digits(n), n);
  }

  /** A printed event is read as that event. */
  lemma {:induction false} BlockRead(texts: seq<bytes>, e: Event)
    requires IsPrintable(e)
    requires var h := HeldIn(texts); h.values == [] && h.kinds == [] && h.retry == None
    ensures HeldIn(texts + Block(e)) == Held([], [], e.id, None, HeldIn(texts).events + [e])
  {
    hide HeldIn, Join, Pieces, Digits, Field, ParseRetry;
    var kind := texts + [Field(EVENT, e.kind)];
    FieldRead(texts, EVENT, e.kind);
    var id := kind + [Field(ID, e.id)];
    FieldRead(kind, ID, e.id);
    var retry := id + if e.retry.Some? then [Field(RETRY, Digits(e.retry.value))] else [];
    if e.retry.Some? {
      FieldRead(id, RETRY, Digits(e.retry.value));
      ParsesDigits(e.retry.value);
    } else {
      assert retry == id;
    }
    var data := retry + DataLines(Pieces(e.data));
    DataRead(retry, Pieces(e.data));
    BlankRead(data);
    PiecesJoin(e.data);
    assert [] + Pieces(e.data) == Pieces(e.data) && [] + [e.kind] == [e.kind];
    assert texts + Block(e) == data + [[]];
  }

  lemma {:induction false} BlocksRead(texts: seq<bytes>, events: seq<Event>)
    requires forall i :: 0 <= i < |events| ==> IsPrintable(events[i])
    requires var h := HeldIn(texts); h.values == [] && h.kinds == [] && h.retry == None
    ensures HeldIn(texts + Blocks(events)).events == HeldIn(texts).events + events
    decreases |events|
  {
    hide HeldIn, Block, IsPrintable;
    if events == [] {
      assert texts + [] == texts && HeldIn(texts).events + events == HeldIn(texts).events;
    } else {
      BlockRead(texts, events[0]);
      BlocksRead(texts + Block(events[0]), events[1..]);
      assert texts + Blocks(events) == texts + Block(events[0]) + Blocks(events[1..]);
      assert HeldIn(texts).events + [events[0]] + events[1..] == HeldIn(texts).events + events;
    }
  }

  // ---------------------------------------------------------------- as a stream

  function RawOf(lines: seq<bytes>): (raw: seq<RawLine>)
    ensures |raw| == |lines|
  {
    seq(|lines|, i requires 0 <= i < |lines| => RawLine(lines[i], 1))
  }

  lemma {:induction false} SplitOfPrinted(lines: seq<bytes>)
    requires forall i :: 0 <= i < |lines| ==> IsLineText(lines[i])
    ensures SplitLines(Printed(lines)) == Split(RawOf(lines), [])
    decreases |lines|
  {
    hide SplitLines, IsLineText;
    if lines == [] {
      NothingToSplit();
      assert RawOf(lines) == [];
    } else {
      SplitOfPrinted(lines[1..]);
      SplitBehind(lines[0], Printed(lines[1..]));
      assert RawOf(lines) == [RawLine(lines[0], 1)] + RawOf(lines[1..]);
    }
  }

  lemma {:induction false} NothingToSplit()
    ensures SplitLines([]) == Split([], [])
  {
  }

  lemma {:induction false} SplitBehind(line: bytes, rest: bytes)
    requires IsLineText(line)
    ensures SplitLines(line + [LF] + rest) == Split([RawLine(line, 1)] + SplitLines(rest).lines, SplitLines(rest).tail)
  {
    hide IsLineText, FirstBreak;
    var s := line + [LF] + rest;
    BreakBehind(line, rest);
    assert s[|line|] == LF && s[..|line|] == line && s[|line| + 1..] == rest;
  }

  lemma {:induction false} BreakBehind(line: bytes, rest: bytes)
    requires IsLineText(line)
    ensures FirstBreak(line + [LF] + rest) == |line|
  {
    var s := line + [LF] + rest;
    assert forall k :: 0 <= k < |line| ==> s[k] == line[k];
    assert s[|line|] == LF;
  }

  lemma {:induction false} TextsOfRaw(lines: seq<bytes>)
    requires lines == [] || !(BOM <= lines[0])
    ensures Texts(RawOf(lines)) == lines
    decreases |lines|
  {
    if lines != [] {
      var init := lines[..|lines| - 1];
      TextsOfRaw(init);
      assert RawOf(lines)[..|lines| - 1] == RawOf(init);
    }
  }

  lemma {:induction false} BlockIsLines(e: Event)
    requires IsPrintable(e)
    ensures forall i :: 0 <= i < |Block(e)| ==> IsLineText(Block(e)[i])
  {
    hide Pieces, Digits;
    PiecesJoin(e.data);
    NamesAreLines();
    assert forall n: nat :: IsLineText(Digits(n)) by {
      forall n: nat ensures IsLineText(Digits(n)) { DigitsAreLine(n); }
    }
  }

  lemma {:induction false} NamesAreLines()
    ensures IsLineText(DATA) && IsLineText(EVENT) && IsLineText(ID) && IsLineText(RETRY)
  {
  }

  lemma {:induction false} DigitsAreLine(n: nat)
    ensures IsLineText(Digits(n))
    decreases n
  {
    if n >= 10 { DigitsAreLine(n / 10); }
  }

  lemma {:induction false} BlocksAreLines(events: seq<Event>)
    requires forall i :: 0 <= i < |events| ==> IsPrintable(events[i])
    ensures forall i :: 0 <= i < |Blocks(events)| ==> IsLineText(Blocks(events)[i])
    ensures Blocks(events) == [] || !(BOM <= Blocks(events)[0])
    decreases |events|
  {
    hide IsPrintable, IsLineText;
    if events != [] {
      BlocksAreLines(events[1..]);
      BlockIsLines(events[0]);
      assert Blocks(events)[0] == Field(EVENT, events[0].kind) && Blocks(events)[0][0] == EVENT[0];
    }
  }

  /**
   The round trip. A stream printed from any events, accepted to its end, delivers exactly these events:
   kind, data of any number of lines, identifier and reconnection time.
   */
  lemma {:induction false} PrintedEventsAreDelivered(env: Env, events: seq<Event>)
    requires forall i :: 0 <= i < |events| ==> IsPrintable(events[i])
    ensures var run := RunFrom(env, START, Printed(Blocks(events))); run.error == None ==> run.seen == events
  {
    hide IsPrintable, RunFrom, Blocks, Texts, Events, StreamIsFine;
    BlocksAreLines(events);
    SplitOfPrinted(Blocks(events));
    TextsOfRaw(Blocks(events));
    DecoderAcceptsStream(env, Printed(Blocks(events)));
    NothingHeld();
    BlocksRead([], events);
    assert [] + Blocks(events) == Blocks(events) && [] + events == events;
  }

  lemma {:induction false} NothingHeld()
    ensures HeldIn([]) == Held([], [], [], None, [])
  {
  }

  lemma {:induction false} AsciiFirst(b: byte, rest: bytes)
    requires b < 0x80
    ensures ValidUtf8([b] + rest) <==> ValidUtf8(rest)
  {
    assert ScalarLength([b] + rest) == 1 && ([b] + rest)[1..] == rest;
    hide ScalarLength;
  }

  lemma {:induction false} AsciiThenValid(s: bytes, rest: bytes)
    requires ValidUtf8(rest) && forall i :: 0 <= i < |s| ==> s[i] < 0x80
    ensures ValidUtf8(s + rest)
    decreases |s|
  {
    hide ValidUtf8;
    if s == [] {
      assert s + rest == rest;
    } else {
      AsciiThenValid(s[1..], rest);
      AsciiFirst(s[0], s[1..] + rest);
      assert s + rest == [s[0]] + (s[1..] + rest);
    }
  }

  /** The smallest stream: one data line and a blank one deliver exactly what the line says behind `data: `. */
  lemma {:induction false} DataLineDelivers(env: Env, x: bytes)
    requires IsLineText(x) && ValidUtf8(x) && HasRoomFor(env, x)
    ensures RunFrom(env, START, Ascii("data: ") + x + Ascii("\n\n")) ==
              Reading([Event(Ascii("message"), x, [], None)], None)
  {
    var line := Field(DATA, x);
    var lines := [line] + [[]];
    NamesAreSpelled();
    assert Ascii("data: ") == DATA + [COLON, SPACE] && Ascii("\n\n") == [LF, LF];
    PrintedTwo(line, []);
    var stream := Ascii("data: ") + x + Ascii("\n\n");
    assert stream == Printed(lines);
    NamesAreLines();
    SplitOfPrinted(lines);
    DecoderReadsStream(env, stream);
    DataLineReads(env, x);
  }

  lemma {:induction false} PrintedTwo(first: bytes, second: bytes)
    ensures Printed([first] + [second]) == first + [LF] + second + [LF]
  {
    var lines: seq<bytes> := [first] + [second];
    assert lines[1..] == [second] && Printed(lines[1..]) == second + [LF] + Printed(lines[1..][1..]);
    assert Printed(lines[1..][1..]) == [];
  }

  /** The limits leave room for one data line and the blank one behind it, and the handler takes the event. */
  predicate HasRoomFor(env: Env, x: bytes) {
    && |x| + 6 <= env.limits.line && |x| + 8 <= env.limits.event && |x| + 8 <= env.limits.stream
    && env.limits.frames > 0 && env.verdict([Event(MESSAGE, x, [], None)]) == None
  }

  lemma {:induction false} DataLineIsFine(env: Env, x: bytes)
    requires ValidUtf8(x) && HasRoomFor(env, x)
    ensures var first := RawLine(Field(DATA, x), 1);
            && Fits(env.limits, []) && LineBudgetFault(env, [], |x| + 6, |x| + 7) == None
            && TextFault(env, [], first) == None
  {
    FieldIs(DATA, x, ID);
    AsciiThenValid(DATA + [COLON, SPACE], x);
    LinesBefore(RawLine(Field(DATA, x), 1));
    hide ValidUtf8, FieldValue, FieldName, StripBom, IsField, Texts, RawBytes, OpenBytes;
  }

  lemma {:induction false} BlankLineIsFine(env: Env, x: bytes)
    requires HasRoomFor(env, x)
    ensures var first, blank := RawLine(Field(DATA, x), 1), RawLine([], 1);
            && Fits(env.limits, [first]) && LineBudgetFault(env, [first], 0, 1) == None
            && TextFault(env, [first], blank) == None
            && Fits(env.limits, [first] + [blank]) && LineBudgetFault(env, [first] + [blank], 0, 0) == None
            && Events(Texts([first] + [blank])) == [Event(MESSAGE, x, [], None)]
  {
    var line := Field(DATA, x);
    assert line[0] == DATA[0];
    LinesBefore(RawLine(line, 1));
    NothingHeld();
    FieldRead([], DATA, x);
    BlankRead([line]);
    OnePiece(x);
    assert [] + [line] == [line] && [] + [x] == [x];
    SnocReading([line], []);
    hide Values, LastRetry, LastId, OpenBlock, Events, Join, FieldValue, FieldName, StripBom, Texts, RawBytes,
         OpenBytes,
         BlankLines, BlockEvents;
    assert ValidUtf8([]);
    assert Events([line]) == [] && [] + BlockEvents([line]) == BlockEvents([line]);
    assert Events([line]) + BlockEvents([line]) == [Event(MESSAGE, x, [], None)];
  }

  lemma {:induction false} DataLineReads(env: Env, x: bytes)
    requires ValidUtf8(x) && HasRoomFor(env, x)
    ensures Read(env, [], RawOf([Field(DATA, x)] + [[]]), []) == Reading([Event(MESSAGE, x, [], None)], None)
  {
    var first, blank := RawLine(Field(DATA, x), 1), RawLine([], 1);
    assert RawOf([Field(DATA, x)] + [[]]) == [first] + [blank] && [] + [first] == [first] && [blank] + [] == [blank];
    DataLineIsFine(env, x);
    BlankLineIsFine(env, x);
    hide Read, Events, Texts, TextFault, LineBudgetFault, Fits;
    ReadCons(env, [], first, [blank], []);
    ReadCons(env, [first], blank, [], []);
    ReadTail(env, [first] + [blank], []);
  }

  lemma {:induction false} OnePiece(x: bytes)
    ensures Join([x]) == x && LastOf<bytes>([], []) == []
  {
  }

  /** What the reading of one line that is no byte order mark and not blank, and of a blank one behind it, counts. */
  lemma {:induction false} LinesBefore(first: RawLine)
    requires first.content != [] && !(BOM <= first.content)
    ensures RawBytes([]) == 0 && OpenBytes([]) == 0 && Texts([]) == [] && BlankLines([]) == 0
    ensures TextOf([], first) == first.content && Texts([first]) == [first.content] && BlankLines([first.content]) == 0
    ensures RawBytes([first]) == |first.content| + first.ending && OpenBytes([first]) == |first.content| + first.ending
    ensures var blank := RawLine([], 1);
            && TextOf([first], blank) == [] && Texts([first] + [blank]) == [first.content] + [[]]
            && OpenBytes([first] + [blank]) == 0 && RawBytes([first] + [blank]) == |first.content| + first.ending + 1
  {
    assert [first][..0] == [] && [first.content][..0] == [];
    SnocTexts([first], RawLine([], 1));
    SnocRawBytes([first], RawLine([], 1));
    SnocOpenBytes([first], RawLine([], 1));
  }
}
