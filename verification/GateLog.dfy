/**
 The append-only execution-gate log: 64-byte ACTIVE/CLEAN records, the reader that accepts
 or quarantines a log, and the language it accepts.
 */
module GateLog {
  import opened ByteStrings

  const MAGIC: bytes := [0x4F, 0x58, 0x45, 0x47, 0x53, 0x54, 0x30, 0x31]
  const RECORD_BYTES: nat := 64
  const CHECKSUM_OFFSET: nat := 32
  const ACTIVE: byte := 1
  const CLEAN: byte := 2
  const MAX_LOG_BYTES: nat := 16 * 1024 * 1024

  /**
   SHA-256 is an arbitrary function to 32 bytes: nothing here depends on more. Every such
   function is `Sum` of some Sha256.
   */
  datatype Sha256 = Sha256(f: bytes -> bytes) {
    function Sum(message: bytes): (digest: bytes)
      ensures |digest| == 32
    {
      var d := f(message);
      if |d| == 32 then d else Zeros(32)
    }
  }

  ghost predicate IsGeneration(g: bytes) {
    |g| == 16 && exists i :: 0 <= i < 16 && g[i] != 0
  }

  function Body(kind: byte, generation: bytes): bytes {
    MAGIC + [kind] + Zeros(7) + generation
  }

  function Encode(hash: Sha256, kind: byte, generation: bytes): (record: bytes)
    requires |generation| == 16
    ensures |record| == RECORD_BYTES
  {
    Body(kind, generation) + hash.Sum(Body(kind, generation))
  }

  /** Whether a byte string is all zero, as `iter().all(|byte| *byte == 0)` computes it. */
  predicate AllZero(s: bytes) {
    forall i :: 0 <= i < |s| ==> s[i] == 0
  }

  function Decode(hash: Sha256, record: bytes): (r: Option<(byte, bytes)>)
    requires |record| == RECORD_BYTES
  {
    if record[..8] != MAGIC
       || (record[8] != ACTIVE && record[8] != CLEAN)
       || !AllZero(record[9..16])
    then None
    else if record[CHECKSUM_OFFSET..] != hash.Sum(record[..CHECKSUM_OFFSET]) then None
    else if AllZero(record[16..32]) then None
    else Some((record[8], record[16..32]))
  }

  lemma {:induction false} EncodeParts(hash: Sha256, kind: byte, generation: bytes)
    requires |generation| == 16
    ensures var r := Encode(hash, kind, generation);
            r[..8] == MAGIC && r[8] == kind && r[9..16] == Zeros(7) && r[16..32] == generation
            && r[..32] == Body(kind, generation) && r[32..] == hash.Sum(r[..32])
  {
    var b := Body(kind, generation);
    var r := Encode(hash, kind, generation);
    DropConcat(b, hash.Sum(b));
    assert r[..32] == b;
    assert b[..8] == MAGIC && b[8] == kind && b[9..16] == Zeros(7) && b[16..32] == generation;
    assert r[..8] == b[..8] && r[9..16] == b[9..16] && r[16..32] == b[16..32];
  }

  /**
   A record decodes to (kind, generation) exactly when it is the encoding of that pair, the
   kind is ACTIVE or CLEAN and the generation is a non-zero 16-byte identity: decoding
   accepts no second spelling of any record.
   */
  lemma {:induction false} DecodeInvertsEncode(hash: Sha256, record: bytes, kind: byte, generation: bytes)
    requires |record| == RECORD_BYTES
    ensures Decode(hash, record) == Some((kind, generation))
       <==> (kind == ACTIVE || kind == CLEAN) && IsGeneration(generation)
            && record == Encode(hash, kind, generation)
  {
    if (kind == ACTIVE || kind == CLEAN) && IsGeneration(generation)
       && record == Encode(hash, kind, generation) {
      EncodeParts(hash, kind, generation);
    }
    if Decode(hash, record) == Some((kind, generation)) {
      var head := record[..32];
      assert record == head + record[32..];
      assert record[9..16] == Zeros(7);
      assert record[..8] == head[..8] && record[9..16] == head[9..16] && record[16..32] == head[16..32];
      HeadParts(head);
      assert head == Body(kind, generation);
    }
  }

  lemma {:induction false} HeadParts(s: bytes)
    requires |s| == 32
    ensures s == s[..8] + [s[8]] + s[9..16] + s[16..32]
  {
  }

  // ---------------------------------------------------------------- reading a log

  datatype GateState = Idle | Live(generation: bytes)

  datatype GateError =
    | LogTooLarge
    | IncompleteRecord
    | InvalidRecord(index: nat)
    | StateMachineViolation(index: nat)
    | ContainmentUnproven

  /** One step of the generation state machine. */
  function Advance(state: GateState, kind: byte, generation: bytes): Option<GateState> {
    match state
    case Idle => if kind == ACTIVE then Some(Live(generation)) else None
    case Live(active) => if kind == CLEAN && active == generation then Some(Idle) else None
  }

  /** What the records of `rest`, the first of them numbered `index`, make of `state`. */
  function Scan(hash: Sha256, rest: bytes, index: nat, state: GateState): Result<GateState, GateError>
    requires |rest| % 64 == 0
  {
    if rest == [] then Ok(state)
    else
      match Decode(hash, rest[..RECORD_BYTES])
      case None => Err(InvalidRecord(index))
      case Some(entry) =>
        match Advance(state, entry.0, entry.1)
        case None => Err(StateMachineViolation(index))
        case Some(next) => Scan(hash, rest[RECORD_BYTES..], index + 1, next)
  }

  /** The scan, one record at a time. */
  lemma {:induction false} ScanRecord(hash: Sha256, rest: bytes, index: nat, state: GateState)
    requires |rest| % 64 == 0 && rest != []
    ensures var entry := Decode(hash, rest[..RECORD_BYTES]);
            Scan(hash, rest, index, state) ==
            if entry.None? then Err(InvalidRecord(index))
            else
              var next := Advance(state, entry.value.0, entry.value.1);
              if next.None? then Err(StateMachineViolation(index))
              else Scan(hash, rest[RECORD_BYTES..], index + 1, next.value)
  {
    hide Decode, Advance;
  }

  lemma {:induction false} ScanNothing(hash: Sha256, index: nat, state: GateState)
    ensures Scan(hash, [], index, state) == Ok(state)
  {
  }

  /** The verdict on a whole log. */
  function Verdict(hash: Sha256, log: bytes): Result<(), GateError> {
    if |log| > MAX_LOG_BYTES then Err(LogTooLarge)
    else if |log| % 64 != 0 then Err(IncompleteRecord)
    else
      match Scan(hash, log, 0, Idle)
      case Err(error) => Err(error)
      case Ok(Idle) => Ok(())
      case Ok(Live(_)) => Err(ContainmentUnproven)
  }

  predicate Accepts(hash: Sha256, log: bytes) {
    Verdict(hash, log).Ok?
  }

  /** The gate file: its bytes and the position of the open handle. */
  class GateFile {
    var content: bytes
    var cursor: nat

    constructor (initial: bytes)
      ensures content == initial && cursor == 0
    {
      content := initial;
      cursor := 0;
    }

    /** `read_exact` of one record. */
    method ReadRecord() returns (record: bytes)
      requires cursor + RECORD_BYTES <= |content|
      modifies this`cursor
      ensures record == content[old(cursor)..old(cursor) + RECORD_BYTES]
      ensures cursor == old(cursor) + RECORD_BYTES
    {
      record := content[cursor..cursor + RECORD_BYTES];
      cursor := cursor + RECORD_BYTES;
    }

    /** Reads the whole log; the content never changes and an accepted log leaves the handle at its end. */
    method ReadState(hash: Sha256) returns (r: Result<(), GateError>)
      modifies this`cursor
      ensures r == Verdict(hash, content)
      ensures r.Ok? ==> cursor == |content|
    {
      if |content| > MAX_LOG_BYTES { return Err(LogTooLarge); }
      if |content| % 64 != 0 { return Err(IncompleteRecord); }
      hide Scan;
      cursor := 0;
      var scanned := ScanRecords(hash);
      if scanned.Err? { return Err(scanned.error); }
      cursor := |content|;
      r := if scanned.value.Idle? then Ok(()) else Err(ContainmentUnproven);
    }

    method ScanRecords(hash: Sha256) returns (r: Result<GateState, GateError>)
      requires |content| % 64 == 0 && cursor == 0
      modifies this`cursor
      ensures r == Scan(hash, content, 0, Idle)
    {
      hide Scan, Decode, Advance;
      var state := Idle;
      var index: nat := 0;
      assert content[0..] == content;
      while index < |content| / 64
        invariant index * 64 == cursor <= |content|
        invariant Scan(hash, content, 0, Idle) == Scan(hash, content[cursor..], index, state)
      {
        ScanRecord(hash, content[cursor..], index, state);
        ghost var rest := content[cursor..];
        var record := ReadRecord();
        assert record == rest[..RECORD_BYTES] && content[cursor..] == rest[RECORD_BYTES..];
        var decoded := Decode(hash, record);
        if decoded.None? { return Err(InvalidRecord(index)); }
        var next := Advance(state, decoded.value.0, decoded.value.1);
        if next.None? { return Err(StateMachineViolation(index)); }
        state := next.value;
        index := index + 1;
      }
      assert Scan(hash, [], index, state) == Ok(state) by { ScanNothing(hash, index, state); }
      return Ok(state);
    }

    /** Appends one record at the end of the file. */
    method AppendState(hash: Sha256, kind: byte, generation: bytes)
      requires |generation| == 16
      modifies this
      ensures content == old(content) + Encode(hash, kind, generation)
      ensures cursor == |content|
    {
      content := content + Encode(hash, kind, generation);
      cursor := |content|;
    }

    /** The reset of a completed log before a new generation: `set_len(0)` and a seek to the start. */
    method Reset()
      modifies this
      ensures content == [] && cursor == 0
    {
      content := [];
      cursor := 0;
    }

    /**
     A guardian opens its generation: exactly behind an accepted log, which it replaces by its
     ACTIVE record. No non-empty part of that record is accepted, so whatever a crash leaves of it
     keeps the next generation out; a refused log is left as it was.
     */
    method OpenGeneration(hash: Sha256, generation: bytes) returns (r: Result<(), GateError>)
      requires IsGeneration(generation)
      modifies this
      ensures r.Ok? <==> Accepts(hash, old(content))
      ensures r.Err? ==> r == Verdict(hash, old(content)) && content == old(content)
      ensures r.Ok? ==> content == Encode(hash, ACTIVE, generation) && cursor == |content|
      ensures r.Ok? ==> forall cut: nat :: cut <= |content| ==> (Accepts(hash, content[..cut]) <==> cut == 0)
    {
      hide Encode, Verdict;
      r := ReadState(hash);
      if r.Ok? {
        Reset();
        AppendState(hash, ACTIVE, generation);
        assert content == Encode(hash, ACTIVE, generation);
        OpenLogIsRefused(hash, generation);
      }
    }

    /** And closes it: only with the last byte of CLEAN is the log accepted again. */
    method CloseGeneration(hash: Sha256, generation: bytes)
      requires IsGeneration(generation) && content == Encode(hash, ACTIVE, generation)
      modifies this
      ensures Accepts(hash, content) && old(content) <= content && |content| == 128 && cursor == |content|
      ensures forall cut: nat :: |old(content)| <= cut < |content| ==> !Accepts(hash, content[..cut])
    {
      hide Accepts;
      AppendState(hash, CLEAN, generation);
      assert content[..128] == content;
      TornGenerationAcceptedOnlyWhole(hash, generation, 128);
      forall cut: nat | 64 <= cut < 128 ensures !Accepts(hash, content[..cut]) {
        TornGenerationAcceptedOnlyWhole(hash, generation, cut);
      }
    }
  }

  // ---------------------------------------------------------------- the accepted language

  /** The log of completed generations gs: ACTIVE(g) CLEAN(g) for each g in turn. */
  function PairLog(hash: Sha256, gs: seq<bytes>): (log: bytes)
    requires forall g :: g in gs ==> |g| == 16
    ensures |log| == 128 * |gs| && |log| % 64 == 0
  {
    if gs == [] then []
    else Encode(hash, ACTIVE, gs[0]) + Encode(hash, CLEAN, gs[0]) + PairLog(hash, gs[1..])
  }

  ghost predicate AreGenerations(gs: seq<bytes>) {
    forall i :: 0 <= i < |gs| ==> IsGeneration(gs[i])
  }

  ghost predicate IsPairLog(hash: Sha256, gs: seq<bytes>, log: bytes) {
    AreGenerations(gs) && log == PairLog(hash, gs)
  }

  /** A log that ends idle starts with an ACTIVE record, if with any. */
  lemma {:induction false} StartsWithActive(hash: Sha256, log: bytes, index: nat) returns (g: bytes)
    requires |log| % 64 == 0 && log != [] && Scan(hash, log, index, Idle) == Ok(Idle)
    ensures IsGeneration(g) && log[..64] == Encode(hash, ACTIVE, g)
            && Scan(hash, log[64..], index + 1, Live(g)) == Ok(Idle)
  {
    hide Scan, Decode, Encode, IsGeneration;
    ScanRecord(hash, log, index, Idle);
    g := Decode(hash, log[..64]).value.1;
    DecodeInvertsEncode(hash, log[..64], ACTIVE, g);
  }

  /** And goes on with the CLEAN record of that generation. */
  lemma {:induction false} GoesOnWithClean(hash: Sha256, log: bytes, index: nat, g: bytes)
    requires |log| % 64 == 0 && Scan(hash, log, index, Live(g)) == Ok(Idle)
    ensures log != [] && IsGeneration(g) && log[..64] == Encode(hash, CLEAN, g)
            && Scan(hash, log[64..], index + 1, Idle) == Ok(Idle)
  {
    hide Scan, Decode, Encode, IsGeneration;
    if log == [] {
      ScanNothing(hash, index, Live(g));
    } else {
      ScanRecord(hash, log, index, Live(g));
      DecodeInvertsEncode(hash, log[..64], CLEAN, g);
    }
  }

  /** An accepted log splits into matching pairs. */
  lemma {:induction false} ScanAcceptsPairs(hash: Sha256, log: bytes, index: nat) returns (gs: seq<bytes>)
    requires |log| % 64 == 0 && Scan(hash, log, index, Idle) == Ok(Idle)
    ensures IsPairLog(hash, gs, log)
    decreases |log|
  {
    hide Scan, Encode, IsGeneration, IsPairLog, PairLog, AreGenerations;
    if log == [] {
      NoPairs(hash);
      return [];
    }
    var g := StartsWithActive(hash, log, index);
    GoesOnWithClean(hash, log[64..], index + 1, g);
    var rest := ScanAcceptsPairs(hash, log[64..][64..], index + 2);
    gs := [g] + rest;
    TwoRecords(log);
    ConsPair(hash, g, rest, log[64..][64..]);
  }

  lemma {:induction false} NoPairs(hash: Sha256)
    ensures IsPairLog(hash, [], [])
  {
  }

  lemma {:induction false} TwoRecords(log: bytes)
    requires |log| >= 128
    ensures log == log[..64] + log[64..][..64] + log[64..][64..]
  {
  }

  lemma {:induction false} ConsPair(hash: Sha256, g: bytes, rest: seq<bytes>, log: bytes)
    requires IsGeneration(g) && IsPairLog(hash, rest, log)
    ensures IsPairLog(hash, [g] + rest, Encode(hash, ACTIVE, g) + Encode(hash, CLEAN, g) + log)
  {
    PairLogCons(hash, g, rest);
  }

  lemma {:induction false} PairLogCons(hash: Sha256, g: bytes, rest: seq<bytes>)
    requires IsGeneration(g) && AreGenerations(rest)
    ensures AreGenerations([g] + rest)
    ensures PairLog(hash, [g] + rest) == Encode(hash, ACTIVE, g) + Encode(hash, CLEAN, g) + PairLog(hash, rest)
  {
    assert ([g] + rest)[1..] == rest;
  }

  /** A matching pair at the front of a log brings the scan back to Idle. */
  lemma {:induction false} ScanPair(hash: Sha256, g: bytes, rest: bytes, index: nat)
    requires IsGeneration(g) && |rest| % 64 == 0
    ensures Scan(hash, Encode(hash, ACTIVE, g) + Encode(hash, CLEAN, g) + rest, index, Idle)
         == Scan(hash, rest, index + 2, Idle)
  {
    var a, c := Encode(hash, ACTIVE, g), Encode(hash, CLEAN, g);
    DecodeInvertsEncode(hash, a, ACTIVE, g);
    DecodeInvertsEncode(hash, c, CLEAN, g);
    var log := a + c + rest;
    assert log[..64] == a && log[64..] == c + rest;
    assert (c + rest)[..64] == c && (c + rest)[64..] == rest;
  }

  lemma {:induction false} PairsScanIdle(hash: Sha256, gs: seq<bytes>, index: nat)
    requires AreGenerations(gs)
    ensures Scan(hash, PairLog(hash, gs), index, Idle) == Ok(Idle)
    decreases |gs|
  {
    if gs != [] {
      PairsScanIdle(hash, gs[1..], index + 2);
      ScanPair(hash, gs[0], PairLog(hash, gs[1..]), index);
    }
  }

  /** The gate language: a log is accepted iff it fits 16 MiB and is a sequence of matching pairs. */
  lemma {:induction false} GateLanguage(hash: Sha256, log: bytes)
    ensures Accepts(hash, log) <==> |log| <= MAX_LOG_BYTES && exists gs :: IsPairLog(hash, gs, log)
  {
    if Accepts(hash, log) {
      var gs := ScanAcceptsPairs(hash, log, 0);
    }
    forall gs | IsPairLog(hash, gs, log)
      ensures Scan(hash, log, 0, Idle) == Ok(Idle)
    {
      PairsScanIdle(hash, gs, 0);
    }
  }

  /**
   A crash may cut one generation's writes anywhere: of all the prefixes of ACTIVE(g) CLEAN(g)
   only the empty one and the whole pair are accepted again.
   */
  lemma {:induction false} TornGenerationAcceptedOnlyWhole(hash: Sha256, g: bytes, cut: nat)
    requires IsGeneration(g) && cut <= 128
    ensures Accepts(hash, (Encode(hash, ACTIVE, g) + Encode(hash, CLEAN, g))[..cut]) <==> cut == 0 || cut == 128
  {
    var a, c := Encode(hash, ACTIVE, g), Encode(hash, CLEAN, g);
    var log := (a + c)[..cut];
    GateLanguage(hash, log);
    if cut == 0 {
      assert IsPairLog(hash, [], log);
    } else if cut == 128 {
      assert log == a + c + PairLog(hash, [g][1..]);
      assert IsPairLog(hash, [g], log);
    } else {
      assert forall gs :: IsPairLog(hash, gs, log) ==> |log| == 128 * |gs|;
    }
  }

  /** Of the prefixes of a lone ACTIVE record only the empty one is accepted. */
  lemma {:induction false} OpenLogIsRefused(hash: Sha256, g: bytes)
    requires IsGeneration(g)
    ensures forall cut: nat :: cut <= RECORD_BYTES ==> (Accepts(hash, Encode(hash, ACTIVE, g)[..cut]) <==> cut == 0)
  {
    hide Accepts, Encode;
    var a, c := Encode(hash, ACTIVE, g), Encode(hash, CLEAN, g);
    forall cut: nat | cut <= RECORD_BYTES
      ensures Accepts(hash, a[..cut]) <==> cut == 0
    {
      assert a[..cut] == (a + c)[..cut];
      TornGenerationAcceptedOnlyWhole(hash, g, cut);
    }
  }
}
