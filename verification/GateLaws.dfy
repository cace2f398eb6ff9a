/**
 The gate log by its bytes: how a record is spelled, and which of its errors a refused log is given.
 */
module GateLaws {
  import opened ByteStrings
  import opened GateLog

  /** "OXEGST01", one byte for the kind, seven zeros, the generation, and the SHA-256 of these 32 bytes. */
  ghost predicate IsSpelled(hash: Sha256, record: bytes, kind: int, generation: bytes) {
    && |record| == 64 && |generation| == 16
    && record[0] == 'O' as int && record[1] == 'X' as int && record[2] == 'E' as int && record[3] == 'G' as int
    && record[4] == 'S' as int && record[5] == 'T' as int && record[6] == '0' as int && record[7] == '1' as int
    && record[8] == kind
    && (forall i :: 9 <= i < 16 ==> record[i] == 0)
    && record[16..32] == generation
    && record[32..64] == hash.Sum(record[..32])
  }

  lemma {:induction false} EncodeMeans(hash: Sha256, record: bytes, kind: byte, generation: bytes)
    requires |generation| == 16
    ensures record == Encode(hash, kind, generation) <==> IsSpelled(hash, record, kind, generation)
  {
    EncodeParts(hash, kind, generation);
    EncodeHasMagic(hash, kind, generation);
    var r := Encode(hash, kind, generation);
    assert forall i :: 9 <= i < 16 ==> r[i] == r[9..16][i - 9];
    assert r[32..64] == r[32..];
    if IsSpelled(hash, record, kind, generation) {
      var head := record[..32];
      hide Encode, IsSpelled;
      HeadIs(record, kind, generation, hash);
      assert record == head + record[32..64];
    }
  }

  lemma {:induction false} EncodeHasMagic(hash: Sha256, kind: byte, generation: bytes)
    requires |generation| == 16
    ensures var r := Encode(hash, kind, generation);
            && r[0] == 'O' as int && r[1] == 'X' as int && r[2] == 'E' as int && r[3] == 'G' as int
            && r[4] == 'S' as int && r[5] == 'T' as int && r[6] == '0' as int && r[7] == '1' as int
  {
  }

  lemma {:induction false} HeadIs(record: bytes, kind: byte, generation: bytes, hash: Sha256)
    requires IsSpelled(hash, record, kind, generation)
    ensures record[..32] == Body(kind, generation)
    ensures record == Encode(hash, kind, generation)
  {
    var head, body := record[..32], Body(kind, generation);
    assert forall i :: 16 <= i < 32 ==> record[i] == record[16..32][i - 16];
    forall i | 0 <= i < 32 ensures head[i] == body[i] {
    }
    assert head == body;
    assert record == head + record[32..64];
  }

  /** The k-th 64 bytes of a log. */
  function RecordAt(log: bytes, k: nat): bytes
    requires 64 * (k + 1) <= |log|
  {
    log[64 * k..64 * (k + 1)]
  }

  /** What is left of a log behind its first n records. */
  function From(log: bytes, n: nat): (rest: bytes)
    requires 64 * n <= |log|
    ensures |log| % 64 == 0 ==> |rest| % 64 == 0
  {
    log[64 * n..]
  }

  /** A record of either kind and any generation but zero. */
  ghost predicate IsRecord(hash: Sha256, record: bytes) {
    exists generation :: IsGeneration(generation)
                         && (IsSpelled(hash, record, 1, generation) || IsSpelled(hash, record, 2, generation))
  }

  /** The records before the n-th open and close one generation after the other. */
  ghost predicate AlternatesUpTo(hash: Sha256, log: bytes, n: nat)
    requires 64 * n <= |log|
  {
    forall k :: 0 <= k < n ==> FollowsAt(hash, log, k)
  }

  /** An opening record at an even place; at an odd one the closing record of the generation before it. */
  ghost predicate FollowsAt(hash: Sha256, log: bytes, k: nat)
    requires 64 * (k + 1) <= |log|
  {
    exists generation :: IsGeneration(generation) && IsRecordAt(hash, log, k, generation)
  }

  ghost predicate IsRecordAt(hash: Sha256, log: bytes, k: nat, generation: bytes)
    requires 64 * (k + 1) <= |log|
  {
    if k % 2 == 0 then IsSpelled(hash, RecordAt(log, k), 1, generation)
    else IsSpelled(hash, RecordAt(log, k), 2, generation) && RecordAt(log, k - 1)[16..32] == generation
  }

  /** What the generation state machine is in behind n records that alternate. */
  function StateBehind(log: bytes, n: nat): GateState
    requires 64 * n <= |log|
  {
    if n % 2 == 0 then Idle else Live(RecordAt(log, n - 1)[16..32])
  }

  lemma {:induction false} DecodeMeans(hash: Sha256, record: bytes)
    requires |record| == 64
    ensures Decode(hash, record).Some? <==> IsRecord(hash, record)
    ensures Decode(hash, record).Some? ==>
              var (kind, generation) := Decode(hash, record).value;
              (kind == 1 || kind == 2) && IsGeneration(generation) && IsSpelled(hash, record, kind, generation)
    ensures forall kind: byte, generation ::
              ((kind == 1 || kind == 2) && IsGeneration(generation) && IsSpelled(hash, record, kind, generation)) ==>
                Decode(hash, record) == Some((kind, generation))
  {
    hide Decode, Encode, IsSpelled, IsGeneration;
    if Decode(hash, record).Some? {
      var (kind, generation) := Decode(hash, record).value;
      DecodeInvertsEncode(hash, record, kind, generation);
      GenerationLength(generation);
      EncodeMeans(hash, record, kind, generation);
    }
    forall kind: byte, generation | (kind == 1 || kind == 2) && IsGeneration(generation)
      && IsSpelled(hash, record, kind, generation)
      ensures Decode(hash, record) == Some((kind, generation))
    {
      GenerationLength(generation);
      EncodeMeans(hash, record, kind, generation);
      DecodeInvertsEncode(hash, record, kind, generation);
    }
  }

  lemma {:induction false} GenerationLength(generation: bytes)
    requires IsGeneration(generation)
    ensures |generation| == 16
  {
  }

  /** Behind n records that alternate the scan is in the state they leave; the next one decides. */
  lemma {:induction false} ScanFollows(hash: Sha256, log: bytes, n: nat)
    requires |log| % 64 == 0 && 64 * n <= |log| && AlternatesUpTo(hash, log, n)
    ensures Scan(hash, log, 0, Idle) == Scan(hash, From(log, n), n, StateBehind(log, n))
    decreases n
  {
    if n == 0 {
      hide Scan;
      assert From(log, 0) == log;
    } else {
      var k := n - 1;
      assert FollowsAt(hash, log, k);
      AlternatesBefore(hash, log, n);
      hide Scan, StateBehind, FollowsAt, AlternatesUpTo;
      ScanFollows(hash, log, k);
      ScanGoesOn(hash, log, k);
    }
  }

  lemma {:induction false} AlternatesBefore(hash: Sha256, log: bytes, n: nat)
    requires 0 < n && 64 * n <= |log| && AlternatesUpTo(hash, log, n)
    ensures AlternatesUpTo(hash, log, n - 1)
  {
    hide FollowsAt;
  }

  lemma {:induction false} ScanGoesOn(hash: Sha256, log: bytes, k: nat)
    requires |log| % 64 == 0 && 64 * (k + 1) <= |log| && FollowsAt(hash, log, k)
    ensures Scan(hash, From(log, k), k, StateBehind(log, k)) ==
              Scan(hash, From(log, k + 1), k + 1, StateBehind(log, k + 1))
  {
    var kind, generation := DecodedAt(hash, log, k);
    RecordIsFirst(log, k);
    assert StateBehind(log, k + 1) == if kind == 1 then Live(generation) else Idle;
    assert StateBehind(log, k) == if kind == 2 then Live(generation) else Idle;
    hide Scan, Decode, FollowsAt, RecordAt, StateBehind, From;
    ScanOne(hash, From(log, k), k, kind, generation);
  }

  lemma {:induction false} ScanOne(hash: Sha256, rest: bytes, k: nat, kind: byte, generation: bytes)
    requires |rest| % 64 == 0 && rest != [] && (kind == 1 || kind == 2)
    requires Decode(hash, rest[..64]) == Some((kind, generation))
    ensures Scan(hash, rest, k, if kind == 2 then Live(generation) else Idle) ==
              Scan(hash, rest[64..], k + 1, if kind == 1 then Live(generation) else Idle)
  {
    hide Scan, Decode;
    ScanRecord(hash, rest, k, if kind == 2 then Live(generation) else Idle);
  }

  /** What a record that follows decodes to. */
  lemma {:induction false} DecodedAt(hash: Sha256, log: bytes, k: nat) returns (kind: byte, generation: bytes)
    requires 64 * (k + 1) <= |log| && FollowsAt(hash, log, k)
    ensures Decode(hash, RecordAt(log, k)) == Some((kind, generation)) && kind == (if k % 2 == 0 then 1 else 2)
    ensures RecordAt(log, k)[16..32] == generation && (kind == 2 ==> RecordAt(log, k - 1)[16..32] == generation)
  {
    generation :| IsGeneration(generation) && IsRecordAt(hash, log, k, generation);
    kind := if k % 2 == 0 then 1 else 2;
    hide Decode, IsSpelled, IsGeneration, RecordAt;
    assert IsSpelled(hash, RecordAt(log, k), kind, generation);
    DecodeMeans(hash, RecordAt(log, k));
    SpelledGeneration(hash, RecordAt(log, k), kind, generation);
  }

  lemma {:induction false} SpelledGeneration(hash: Sha256, record: bytes, kind: byte, generation: bytes)
    requires IsSpelled(hash, record, kind, generation)
    ensures |record| == 64 && record[16..32] == generation && record[8] == kind
  {
  }

  lemma {:induction false} RecordIsFirst(log: bytes, k: nat)
    requires 64 * (k + 1) <= |log|
    ensures From(log, k) != [] && From(log, k)[..64] == RecordAt(log, k) && From(log, k)[64..] == From(log, k + 1)
  {
  }

  /** The first record that does not follow, if one does not. */
  lemma {:induction false} FirstBad(hash: Sha256, log: bytes, from: nat) returns (n: nat)
    requires |log| % 64 == 0 && 64 * from <= |log| && AlternatesUpTo(hash, log, from)
    ensures from <= n && 64 * n <= |log| && AlternatesUpTo(hash, log, n)
    ensures 64 * n < |log| ==> !FollowsAt(hash, log, n)
    decreases |log| - 64 * from
  {
    hide FollowsAt;
    if 64 * from < |log| && FollowsAt(hash, log, from) {
      n := FirstBad(hash, log, from + 1);
    } else {
      n := from;
    }
  }

  /** Too large; torn; a bad record; a good one in the wrong place; or a generation left open. */
  ghost predicate IsVerdictOf(hash: Sha256, log: bytes, verdict: Result<(), GateError>) {
    if |log| > 0x100_0000 then verdict == Err(LogTooLarge)
    else if |log| % 64 != 0 then verdict == Err(IncompleteRecord)
    else exists n: nat ::
      && 64 * n <= |log| && AlternatesUpTo(hash, log, n)
      && IsVerdictAt(hash, log, n, verdict)
  }

  ghost predicate IsVerdictAt(hash: Sha256, log: bytes, n: nat, verdict: Result<(), GateError>)
    requires |log| % 64 == 0 && 64 * n <= |log|
  {
    if 64 * n == |log| then verdict == if n % 2 == 0 then Ok(()) else Err(ContainmentUnproven)
    else
      && !FollowsAt(hash, log, n)
      && verdict == Err(if IsRecord(hash, RecordAt(log, n)) then StateMachineViolation(n) else InvalidRecord(n))
  }

  /** The verdict on a log names the first record at which it stops being one. */
  lemma {:induction false} VerdictMeans(hash: Sha256, log: bytes)
    ensures IsVerdictOf(hash, log, Verdict(hash, log))
  {
    if |log| <= MAX_LOG_BYTES && |log| % 64 == 0 {
      AlternatesToNone(hash, log);
      var n := FirstBad(hash, log, 0);
      ScanFollows(hash, log, n);
      hide AlternatesUpTo, Scan, IsRecord, FollowsAt;
      if 64 * n == |log| {
        assert From(log, n) == [];
        ScanNothing(hash, n, StateBehind(log, n));
      } else {
        ScanStops(hash, log, n);
      }
      assert IsVerdictAt(hash, log, n, Verdict(hash, log));
    }
  }

  lemma {:induction false} AlternatesToNone(hash: Sha256, log: bytes)
    ensures AlternatesUpTo(hash, log, 0)
  {
  }

  lemma {:induction false} ScanStops(hash: Sha256, log: bytes, n: nat)
    requires |log| % 64 == 0 && 64 * n < |log| && !FollowsAt(hash, log, n)
    ensures Scan(hash, From(log, n), n, StateBehind(log, n)) ==
              Err(if IsRecord(hash, RecordAt(log, n)) then StateMachineViolation(n) else InvalidRecord(n))
  {
    hide Scan, Decode, IsSpelled, IsGeneration, IsRecord;
    ScanRecord(hash, From(log, n), n, StateBehind(log, n));
    RecordIsFirst(log, n);
    DecodeMeans(hash, RecordAt(log, n));
    var entry := Decode(hash, RecordAt(log, n));
    if entry.Some? {
      assert !IsRecordAt(hash, log, n, entry.value.1);
    }
  }
}
