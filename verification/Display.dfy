/**
 Bounded rendering of external text: the one-pass capped renderer shows exactly what sanitising
 the whole text and then truncating it would, and so does the capped JSON writer, however the
 serialiser splits its writes and wherever the cap cuts the text.
 */
module Display {
  import opened ByteStrings
  import opened Scalars
  import opened Utf8

  const MAX_DISPLAY_BYTES: nat := 16 * 1024
  const MAX_RAW_BYTES: nat := MAX_DISPLAY_BYTES * 4
  const NEWLINE: scalar := 0x0A

  /** <truncated> */
  const SUFFIX: bytes := [0x3C, 0x74, 0x72, 0x75, 0x6E, 0x63, 0x61, 0x74, 0x65, 0x64, 0x3E]

  /** `is_presentation_control`; the first two ranges are `char::is_control`. */
  predicate IsPresentationControl(c: scalar) {
    || c < 0x20
    || 0x7F <= c <= 0x9F
    || c in {0xAD, 0x34F, 0x61C, 0x115F, 0x1160, 0x17B4, 0x17B5, 0x180E}
    || 0x200B <= c <= 0x200F
    || 0x2028 <= c <= 0x202E
    || 0x2060 <= c <= 0x206F
    || c == 0x3164
    || 0xFE00 <= c <= 0xFE0F
    || c == 0xFEFF
    || 0xFFF9 <= c <= 0xFFFB
    || c == 0xFFA0
    || 0x1BCA0 <= c <= 0x1BCA3
    || 0x1D173 <= c <= 0x1D17A
    || c == 0xE0001
    || 0xE0020 <= c <= 0xE007F
    || 0xE0100 <= c <= 0xE01EF
  }

  function SanitizeText(t: text): (r: text)
    ensures |r| == |t|
  {
    if t == [] then []
    else
      var c := if t[0] == NEWLINE then NEWLINE else if IsPresentationControl(t[0]) then REPLACEMENT else t[0];
      [c] + SanitizeText(t[1..])
  }

  function ReplaceNewlines(t: text): (r: text)
    ensures |r| == |t|
  {
    if t == [] then [] else [if t[0] == NEWLINE then REPLACEMENT else t[0]] + ReplaceNewlines(t[1..])
  }

  function SanitizeSingleLine(t: text): text { ReplaceNewlines(SanitizeText(t)) }

  function TruncatedPrefix(s: bytes, max: nat): bytes {
    var end := if max < |SUFFIX| then 0 else Min(max - |SUFFIX|, |s|);
    s[..BoundaryAtOrBefore(s, end)] + SUFFIX
  }

  function TruncateUtf8(s: bytes, max: nat): bytes {
    if |s| <= max then s else TruncatedPrefix(s, max)
  }

  /** What is shown of a text: all of it, sanitised, and then truncated. */
  function Shown(t: text): bytes { TruncateUtf8(Utf8Of(SanitizeSingleLine(t)), MAX_DISPLAY_BYTES) }

  // ---------------------------------------------------------------- sanitising

  function SanitizeScalar(c: scalar): scalar { if IsPresentationControl(c) then REPLACEMENT else c }

  /** Sanitising works on one scalar after the other. */
  lemma {:induction false} SanitizeCons(c: scalar, rest: text)
    ensures SanitizeSingleLine([c] + rest) == [SanitizeScalar(c)] + SanitizeSingleLine(rest)
  {
    assert IsPresentationControl(NEWLINE);
    hide IsPresentationControl;
    assert ([c] + rest)[1..] == rest;
    assert SanitizeText([c] + rest)[1..] == SanitizeText(rest);
  }

  lemma {:induction false} SanitizeAppend(a: text, b: text)
    ensures SanitizeSingleLine(a + b) == SanitizeSingleLine(a) + SanitizeSingleLine(b)
    decreases |a|
  {
    if a == [] {
      assert a + b == b;
    } else {
      hide SanitizeSingleLine, SanitizeScalar;
      assert a == [a[0]] + a[1..] && a + b == [a[0]] + (a[1..] + b);
      SanitizeCons(a[0], a[1..]);
      SanitizeCons(a[0], a[1..] + b);
      SanitizeAppend(a[1..], b);
    }
  }

  /** Sanitised text has no control left in it, a replacement exactly where one was, and is otherwise unchanged. */
  lemma {:induction false} SanitizedScalars(t: text)
    ensures |SanitizeSingleLine(t)| == |t|
    ensures forall i :: 0 <= i < |t| ==>
              SanitizeSingleLine(t)[i] == SanitizeScalar(t[i]) && !IsPresentationControl(SanitizeSingleLine(t)[i])
    decreases |t|
  {
    assert IsPresentationControl(NEWLINE) && !IsPresentationControl(REPLACEMENT);
    hide IsPresentationControl;
    if t != [] {
      SanitizedScalars(t[1..]);
      SanitizeCons(t[0], t[1..]);
      assert t == [t[0]] + t[1..];
    }
  }

  lemma {:induction false} SanitizeOne(c: scalar)
    ensures SanitizeSingleLine([c]) == [SanitizeScalar(c)]
  {
    SanitizedScalars([c]);
  }

  /** Sanitising keeps at least three quarters of the bytes. */
  lemma {:induction false} SanitizedIsNotMuchShorter(t: text)
    ensures 4 * |Utf8Of(SanitizeSingleLine(t))| >= 3 * |Utf8Of(t)|
    decreases |t|
  {
    hide IsPresentationControl, Encode, SanitizeSingleLine;
    if t == [] {
    } else {
      SanitizedIsNotMuchShorter(t[1..]);
      assert t == [t[0]] + t[1..];
      SanitizeAppend([t[0]], t[1..]);
      SanitizeOne(t[0]);
      assert SanitizeSingleLine(t)[1..] == SanitizeSingleLine(t[1..]);
    }
  }

  // ---------------------------------------------------------------- truncating

  /** The floor of a position depends only on the bytes up to it. */
  lemma {:induction false} FloorOfPrefix(a: bytes, b: bytes, i: nat)
    requires i < |a|
    ensures BoundaryAtOrBefore(a + b, i) == BoundaryAtOrBefore(a, i)
    decreases i
  {
    assert (a + b)[i] == a[i];
    if !IsBoundary(a, i) { FloorOfPrefix(a, b, i - 1); }
  }

  /** A text that is too long is cut within its first bytes, whatever follows them. */
  lemma {:induction false} CutIsInPrefix(a: bytes, b: bytes, max: nat)
    requires |SUFFIX| <= max < |a| + |b| && max - |SUFFIX| < |a|
    ensures TruncateUtf8(a + b, max) == TruncatedPrefix(a, max)
  {
    FloorOfPrefix(a, b, max - |SUFFIX|);
    var n := BoundaryAtOrBefore(a, max - |SUFFIX|);
    assert (a + b)[..n] == a[..n];
  }

  /** Nothing after a part that is already too long when sanitised can be seen. */
  lemma {:induction false} LongPrefixDecides(prefix: text, a: text, b: text)
    requires |Utf8Of(SanitizeSingleLine(prefix))| > MAX_DISPLAY_BYTES
    ensures Shown(prefix + a) == Shown(prefix + b)
  {
    hide SanitizeSingleLine, Utf8Of, TruncateUtf8, TruncatedPrefix;
    var p := SanitizeSingleLine(prefix);
    SanitizeAppend(prefix, a);
    SanitizeAppend(prefix, b);
    Utf8Append(p, SanitizeSingleLine(a));
    Utf8Append(p, SanitizeSingleLine(b));
    CutIsInPrefix(Utf8Of(p), Utf8Of(SanitizeSingleLine(a)), MAX_DISPLAY_BYTES);
    CutIsInPrefix(Utf8Of(p), Utf8Of(SanitizeSingleLine(b)), MAX_DISPLAY_BYTES);
  }

  /**
   What is shown is within the limit; when cut, it is the longest prefix of whole scalars that leaves room
   for the suffix.
   */
  lemma {:induction false} ShownIsBounded(t: text)
    ensures |Shown(t)| <= MAX_DISPLAY_BYTES
    ensures var s := Utf8Of(SanitizeSingleLine(t));
            |s| > MAX_DISPLAY_BYTES ==>
              exists n :: MAX_DISPLAY_BYTES - |SUFFIX| - 3 <= n <= MAX_DISPLAY_BYTES - |SUFFIX| && IsBoundary(s, n)
                          && (forall k :: n < k <= MAX_DISPLAY_BYTES - |SUFFIX| ==> !IsBoundary(s, k))
                          && Shown(t) == s[..n] + SUFFIX
  {
    var s := Utf8Of(SanitizeSingleLine(t));
    if |s| > MAX_DISPLAY_BYTES {
      Utf8IsValid(SanitizeSingleLine(t));
      var end: nat := MAX_DISPLAY_BYTES - |SUFFIX|;
      var lo, hi := BoundariesNear(s, end);
      var n := BoundaryAtOrBefore(s, end);
      assert Shown(t) == s[..n] + SUFFIX;
    }
  }

  method TruncateByLoop(s: bytes, max: nat) returns (r: bytes)
    ensures r == TruncatedPrefix(s, max)
  {
    var end: nat := if max < |SUFFIX| then 0 else max - |SUFFIX|;
    if |s| < end { end := |s|; }
    ghost var start := end;
    while !IsBoundary(s, end)
      invariant end <= |s| && BoundaryAtOrBefore(s, end) == BoundaryAtOrBefore(s, start)
      decreases end
    {
      end := end - 1;
    }
    r := s[..end] + SUFFIX;
  }

  /** The one-pass renderer. */
  method TextForDisplay(t: text) returns (output: bytes)
    ensures output == Shown(t)
  {
    hide SanitizeSingleLine, IsPresentationControl, Utf8Of, TruncatedPrefix, Encode;
    SanitizeNothing();
    output := [];
    for i := 0 to |t|
      invariant output == Utf8Of(SanitizeSingleLine(t[..i])) && |output| <= MAX_DISPLAY_BYTES
    {
      var c := if IsPresentationControl(t[i]) then REPLACEMENT else t[i];
      OneMore(t, i);
      if |output| + Width(c) > MAX_DISPLAY_BYTES {
        CutIsInPrefix(output, Encode(c) + Utf8Of(SanitizeSingleLine(t[i + 1..])), MAX_DISPLAY_BYTES);
        output := TruncateByLoop(output, MAX_DISPLAY_BYTES);
        return;
      }
      output := output + Encode(c);
    }
    assert t[..|t|] == t;
  }

  lemma {:induction false} SanitizeNothing()
    ensures Utf8Of(SanitizeSingleLine([])) == []
  {
  }

  /** The text around its i-th scalar, sanitised and encoded. */
  lemma {:induction false} OneMore(t: text, i: nat)
    requires i < |t|
    ensures var before, c, after :=
              Utf8Of(SanitizeSingleLine(t[..i])), Encode(SanitizeScalar(t[i])), Utf8Of(SanitizeSingleLine(t[i + 1..]));
            && Utf8Of(SanitizeSingleLine(t[..i + 1])) == before + c
            && Utf8Of(SanitizeSingleLine(t)) == before + (c + after)
  {
    hide SanitizeSingleLine, SanitizeScalar, Encode;
    assert t[..i + 1] == t[..i] + [t[i]] && t == t[..i + 1] + t[i + 1..];
    SanitizeOne(t[i]);
    SanitizeAppend(t[..i], [t[i]]);
    SanitizeAppend(t[..i + 1], t[i + 1..]);
    Utf8Append(SanitizeSingleLine(t[..i]), [SanitizeScalar(t[i])]);
    Utf8Append(SanitizeSingleLine(t[..i + 1]), SanitizeSingleLine(t[i + 1..]));
    assert Utf8Of([SanitizeScalar(t[i])]) == Encode(SanitizeScalar(t[i])) + Utf8Of([]);
  }

  // ---------------------------------------------------------------- the capped JSON writer

  function Capped(s: bytes): bytes { s[..Min(|s|, MAX_RAW_BYTES)] }

  class JsonDisplayWriter {
    var raw: bytes
    var truncated: bool

    ghost predicate Valid()
      reads this
    {
      |raw| <= MAX_RAW_BYTES
    }

    constructor ()
      ensures Valid() && raw == [] && !truncated
    {
      raw, truncated := [], false;
    }

    /** The bytes taken, or none when the prefix is full. */
    method Write(piece: bytes) returns (written: Option<nat>)
      requires Valid()
      modifies this
      ensures Valid() && raw == Capped(old(raw) + piece)
      ensures written.Some? ==> written.value == |raw| - |old(raw)| && (piece != [] ==> written.value > 0)
      ensures written.None? <==> piece != [] && |old(raw)| == MAX_RAW_BYTES
      ensures truncated <==> old(truncated) || |old(raw)| + |piece| > MAX_RAW_BYTES
    {
      var available := MAX_RAW_BYTES - |raw|;
      var n := Min(available, |piece|);
      if n < |piece| {
        truncated := true;
        if n == 0 {
          assert raw == Capped(raw + piece);
          return None;
        }
      }
      assert raw + piece[..n] == Capped(raw + piece);
      raw := raw + piece[..n];
      return Some(n);
    }

    /** `std::io::Write::write_all` over this writer. */
    method WriteAll(piece: bytes) returns (ok: bool)
      requires Valid()
      modifies this
      ensures Valid() && raw == Capped(old(raw) + piece)
      ensures ok <==> |old(raw)| + |piece| <= MAX_RAW_BYTES
      ensures truncated <==> old(truncated) || !ok
    {
      var at := 0;
      while at < |piece|
        invariant 0 <= at <= |piece| && Valid() && raw == old(raw) + piece[..at]
        invariant truncated ==> old(truncated) || |old(raw)| + |piece| > MAX_RAW_BYTES
        invariant old(truncated) ==> truncated
      {
        ghost var before := raw;
        assert before + piece[at..] == old(raw) + piece;
        var written := Write(piece[at..]);
        if written.None? { return false; }
        at := at + written.value;
        assert raw == old(raw) + piece[..at];
      }
      assert piece[..at] == piece;
      return true;
    }

    /** `serde_json::to_writer`: the serialiser's pieces in order, up to the first failure. */
    method Serialize(pieces: seq<bytes>) returns (ok: bool)
      requires Valid() && raw == [] && !truncated
      modifies this
      ensures Valid() && raw == Capped(Concat(pieces))
      ensures truncated <==> !ok
    {
      assert Concat(pieces) == [] + Concat(pieces);
      for i := 0 to |pieces|
        invariant Valid() && !truncated && Concat(pieces) == raw + Concat(pieces[i..])
      {
        assert pieces[i..][0] == pieces[i] && pieces[i..][1..] == pieces[i + 1..];
        ghost var before := raw;
        assert before + (pieces[i] + Concat(pieces[i + 1..])) == before + pieces[i] + Concat(pieces[i + 1..]);
        ok := WriteAll(pieces[i]);
        if !ok { return; }
      }
      return true;
    }
  }

  const TOO_DEEP: string := "<external JSON exceeds display depth limit>"
  const UNSERIALIZABLE: string := "<unserializable external JSON>"

  datatype Rendering = Message(message: string) | Text(shown: bytes)

  /** Decoding a capped serialisation, even one cut inside a scalar, shows the same as the whole. */
  lemma {:induction false} CappedShowsTheSame(t: text)
    ensures Shown(Lossy(Capped(Utf8Of(t)))) == Shown(t)
  {
    hide Utf8Of, Lossy, Shown;
    var raw := Utf8Of(t);
    if |raw| <= MAX_RAW_BYTES {
      assert Capped(raw) == raw;
      LossyInvertsUtf8(t);
    } else {
      var n, tail := LossyOfCut(t, MAX_RAW_BYTES);
      SanitizedIsNotMuchShorter(t[..n]);
      LongPrefixDecides(t[..n], tail, t[n..]);
      assert t[..n] + t[n..] == t;
    }
  }

  /** `json_for_display`, for a value whose serialisation is well-formed text. */
  method JsonForDisplay(pieces: seq<bytes>, tooDeep: bool, ghost t: text) returns (r: Rendering)
    requires Concat(pieces) == Utf8Of(t)
    ensures r == if tooDeep then Message(TOO_DEEP) else Text(Shown(t))
  {
    hide Shown, Utf8Of, Concat, Lossy;
    if tooDeep { return Message(TOO_DEEP); }
    var writer := new JsonDisplayWriter();
    var ok := writer.Serialize(pieces);
    if !ok && !writer.truncated { return Message(UNSERIALIZABLE); }
    CappedShowsTheSame(t);
    var shown := TextForDisplay(Lossy(writer.raw));
    return Text(shown);
  }
}
