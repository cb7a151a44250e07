/** The bytes of a staged run file, position by position. */
module FileLayout {
  import opened Prelude
  import opened RunFormat
  import opened RunHeaders
  import opened RunFiles

  /** The base-256 digit of a number at place `k`, counted from the lowest. */
  function Digit(n: nat, k: nat): nat {
    if k == 0 then n % 256 else Digit(n / 256, k - 1)
  }

  /** These bytes are the number's digits, lowest first. */
  ghost predicate Writes(part: seq<byte>, n: nat) {
    forall i | 0 <= i < |part| :: part[i] == Digit(n, i)
  }

  lemma {:induction false} LittleEndianDigits(n: nat, width: nat)
    ensures Writes(LittleEndian(n, width), n)
  {
    if width > 0 {
      LittleEndianDigits(n / 256, width - 1);
      assert forall i | 0 < i < width :: LittleEndian(n, width)[i] == LittleEndian(n / 256, width - 1)[i - 1];
    }
  }

  lemma WritesUnique(a: seq<byte>, b: seq<byte>, n: nat)
    requires Writes(a, n) && Writes(b, n) && |a| == |b|
    ensures a == b
  {
  }

  /** The kind's number in the file format. */
  function KindNumber(kind: RunKind): byte {
    if kind.Nodes? then 1 else if kind.RelationshipsOutbound? then 2 else if kind.RelationshipsInbound? then 3
    else if kind.Filters? then 4 else if kind.FilterDictionary? then 5 else if kind.Resolution? then 6
    else if kind.TenantValues? then 7 else if kind.TenantDictionary? then 8 else if kind.RelationshipIdentities? then 9
    else 10
  }

  /** The 128 header bytes: "PGRUN001", version 1, the kind, a zero byte, the length 128, the two
      identifiers, four numbers, a checksum and zeros. */
  ghost predicate HeaderAt(bytes: seq<byte>, h: RunHeader, crc: nat) {
    && |bytes| == 128
    && bytes[0..8] == [0x50, 0x47, 0x52, 0x55, 0x4E, 0x30, 0x30, 0x31]
    && bytes[8..10] == [1, 0] && bytes[10..12] == [KindNumber(h.kind), 0] && bytes[12..16] == [128, 0, 0, 0]
    && bytes[16..32] == h.graphId && bytes[32..48] == h.buildId
    && Writes(bytes[48..56], h.fingerprint) && Writes(bytes[56..64], h.recordCount)
    && Writes(bytes[64..72], h.payloadLen) && Writes(bytes[72..76], h.payloadCrc) && Writes(bytes[76..80], crc)
    && forall i | 80 <= i < 128 :: bytes[i] == 0
  }

  lemma SmallNumbers()
    ensures LittleEndian(1, 2) == [1, 0] && LittleEndian(128, 4) == [128, 0, 0, 0]
  {
    assert LittleEndian(1, 2) == [1] + LittleEndian(0, 1);
    assert LittleEndian(128, 4) == [128] + LittleEndian(0, 3);
    ZeroBytes(1);
    ZeroBytes(3);
  }

  lemma LaidOutIsAt(bytes: seq<byte>, h: RunHeader, crc: nat)
    requires LaidOut(bytes, h, crc)
    ensures HeaderAt(bytes, h, crc)
  {
    SmallNumbers();
    LittleEndianDigits(h.fingerprint, 8);
    LittleEndianDigits(h.recordCount, 8);
    LittleEndianDigits(h.payloadLen, 8);
    LittleEndianDigits(h.payloadCrc, 4);
    LittleEndianDigits(crc, 4);
    forall i | 80 <= i < 128
      ensures bytes[i] == 0
    {
      assert bytes[i] == bytes[80..][i - 80];
    }
  }

  lemma NumberIs(part: seq<byte>, n: nat, width: nat)
    requires Writes(part, n) && |part| == width
    ensures part == LittleEndian(n, width)
  {
    LittleEndianDigits(n, width);
    WritesUnique(part, LittleEndian(n, width), n);
  }

  lemma AtIsLaidOut(bytes: seq<byte>, h: RunHeader, crc: nat)
    requires HeaderAt(bytes, h, crc)
    ensures LaidOut(bytes, h, crc)
  {
    SmallNumbers();
    NumberIs(bytes[48..56], h.fingerprint, 8);
    NumberIs(bytes[56..64], h.recordCount, 8);
    NumberIs(bytes[64..72], h.payloadLen, 8);
    NumberIs(bytes[72..76], h.payloadCrc, 4);
    NumberIs(bytes[76..80], crc, 4);
    ZeroTail(bytes);
  }

  lemma ZeroTail(bytes: seq<byte>)
    requires |bytes| == 128 && forall i | 80 <= i < 128 :: bytes[i] == 0
    ensures bytes[80..] == Zeros(48)
  {
  }

  /** Every header byte has its place, and the checksum is that of the header with its own field zero. */
  lemma HeaderPlaces(checksum: Checksum, h: RunHeader, blank: seq<byte>)
    requires h.WellFormed() && HeaderAt(blank, h, 0)
    ensures HeaderAt(HeaderBytes(checksum, h), h, checksum(blank))
  {
    AtIsLaidOut(blank, h, 0);
    LaidOutIsSealed(blank, h, 0);
    SealedIsLaidOut(h, checksum(blank));
    LaidOutIsAt(Sealed(h, checksum(blank)), h, checksum(blank));
  }

  /** The bytes the first `k` records take: two four-byte lengths, the key and the value each. */
  function SizeBefore(records: seq<RunRecord>, k: nat): nat
    requires k <= |records|
  {
    if k == 0 then 0 else SizeBefore(records, k - 1) + 8 + |records[k - 1].key| + |records[k - 1].value|
  }

  /** These bytes are the record: key length, value length, key, value. */
  ghost predicate WritesRecord(part: seq<byte>, r: RunRecord) {
    && |part| == 8 + |r.key| + |r.value|
    && Writes(part[0..4], |r.key|) && Writes(part[4..8], |r.value|)
    && part[8..8 + |r.key|] == r.key && part[8 + |r.key|..] == r.value
  }

  lemma EncodeWrites(r: RunRecord)
    ensures WritesRecord(r.Encode(), r)
  {
    LittleEndianDigits(|r.key|, 4);
    LittleEndianDigits(|r.value|, 4);
    var part := r.Encode();
    assert part[0..4] == LittleEndian(|r.key|, 4) && part[4..8] == LittleEndian(|r.value|, 4);
  }

  lemma {:induction false} PayloadSize(records: seq<RunRecord>, k: nat)
    requires k <= |records|
    ensures |PayloadTo(records, k)| == SizeBefore(records, k)
  {
    if k > 0 {
      PayloadSize(records, k - 1);
    }
  }

  /** A file holds the header of these fields and, right behind it and end to end, the records. */
  ghost predicate FileOf(file: seq<byte>, h: RunHeader, crc: nat, records: seq<RunRecord>) {
    && |file| == 128 + SizeBefore(records, |records|)
    && HeaderAt(file[..128], h, crc)
    && forall k | 0 <= k < |records| :: RecordIn(file, records, k)
  }

  ghost predicate RecordIn(file: seq<byte>, records: seq<RunRecord>, k: nat)
    requires k < |records|
  {
    var from, to := 128 + SizeBefore(records, k), 128 + SizeBefore(records, k + 1);
    to <= |file| && WritesRecord(file[from..to], records[k])
  }

  lemma StoredRecordIn(file: seq<byte>, records: seq<RunRecord>, k: nat)
    requires |file| >= HEADER_SIZE && file[HEADER_SIZE..] == Payload(records) && k < |records|
    ensures RecordIn(file, records, k)
  {
    PayloadSize(records, k);
    StoredBytes(file, records, k, |PayloadTo(records, k)|);
    EncodeWrites(records[k]);
  }

  /** A staged run's file, byte by byte. */
  lemma StoredFile(checksum: Checksum, run: StagedRun, records: seq<RunRecord>, maxRecordBytes: nat, blank: seq<byte>)
    requires Stores(checksum, run, records, maxRecordBytes) && HeaderAt(blank, run.header, 0)
    ensures FileOf(run.file, run.header, checksum(blank), records)
    ensures run.header.recordCount == |records| && run.header.payloadLen == SizeBefore(records, |records|)
    ensures run.header.payloadCrc == checksum(run.file[128..])
  {
    HeaderPlaces(checksum, run.header, blank);
    PayloadSize(records, |records|);
    forall k | 0 <= k < |records|
      ensures RecordIn(run.file, records, k)
    {
      StoredRecordIn(run.file, records, k);
    }
  }

  /** The blank header a checksum is taken over. */
  lemma BlankHeader(h: RunHeader) returns (blank: seq<byte>)
    requires h.WellFormed()
    ensures HeaderAt(blank, h, 0)
  {
    SealedIsLaidOut(h, 0);
    LaidOutIsAt(Sealed(h, 0), h, 0);
    blank := Sealed(h, 0);
  }
}
