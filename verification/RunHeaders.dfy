/** Run headers round-trip: decoding inverts encoding, and whatever decoding accepts re-encodes to
    the same bytes. */
module RunHeaders {
  import opened Prelude
  import opened RunFormat

  /** Where each field sits. */
  predicate LaidOut(bytes: seq<byte>, h: RunHeader, crc: nat) {
    && |bytes| == HEADER_SIZE
    && bytes[0..8] == MAGIC
    && bytes[8..10] == LittleEndian(VERSION, 2)
    && bytes[10..12] == [h.kind.ToByte(), 0]
    && bytes[12..16] == LittleEndian(HEADER_SIZE, 4)
    && bytes[16..32] == h.graphId
    && bytes[32..48] == h.buildId
    && bytes[48..56] == LittleEndian(h.fingerprint, 8)
    && bytes[56..64] == LittleEndian(h.recordCount, 8)
    && bytes[64..72] == LittleEndian(h.payloadLen, 8)
    && bytes[72..76] == LittleEndian(h.payloadCrc, 4)
    && bytes[76..80] == LittleEndian(crc, 4)
    && bytes[80..] == Zeros(48)
  }

  /** The half of the header before the counters. */
  function Identity(h: RunHeader): seq<byte> {
    MAGIC + LittleEndian(VERSION, 2) + [h.kind.ToByte(), 0] + LittleEndian(HEADER_SIZE, 4) + h.graphId + h.buildId
  }

  /** The half from the counters on. */
  function Counters(h: RunHeader, crc: nat): seq<byte> {
    LittleEndian(h.fingerprint, 8) + LittleEndian(h.recordCount, 8) + LittleEndian(h.payloadLen, 8)
    + LittleEndian(h.payloadCrc, 4) + LittleEndian(crc, 4) + Zeros(48)
  }

  lemma IdentityLaidOut(h: RunHeader, front: seq<byte>)
    requires |h.graphId| == |h.buildId| == 16 && front == Identity(h)
    ensures |front| == 48 && front[0..8] == MAGIC && front[8..10] == LittleEndian(VERSION, 2)
    ensures front[10..12] == [h.kind.ToByte(), 0] && front[12..16] == LittleEndian(HEADER_SIZE, 4)
    ensures front[16..32] == h.graphId && front[32..48] == h.buildId
  {
  }

  lemma CountersLaidOut(h: RunHeader, crc: nat, back: seq<byte>)
    requires back == Counters(h, crc)
    ensures |back| == 80 && back[0..8] == LittleEndian(h.fingerprint, 8)
    ensures back[8..16] == LittleEndian(h.recordCount, 8) && back[16..24] == LittleEndian(h.payloadLen, 8)
    ensures back[24..28] == LittleEndian(h.payloadCrc, 4) && back[28..32] == LittleEndian(crc, 4)
    ensures back[32..] == Zeros(48)
  {
  }

  lemma SealedHalves(h: RunHeader, crc: nat)
    ensures Sealed(h, crc) == Identity(h) + Counters(h, crc)
  {
  }

  lemma Halves(front: seq<byte>, back: seq<byte>, bytes: seq<byte>)
    requires |front| == 48 && |back| == 80 && bytes == front + back
    ensures bytes[0..8] == front[0..8] && bytes[8..10] == front[8..10] && bytes[10..12] == front[10..12]
    ensures bytes[12..16] == front[12..16] && bytes[16..32] == front[16..32] && bytes[32..48] == front[32..48]
    ensures bytes[48..56] == back[0..8] && bytes[56..64] == back[8..16] && bytes[64..72] == back[16..24]
    ensures bytes[72..76] == back[24..28] && bytes[76..80] == back[28..32] && bytes[80..] == back[32..]
  {
  }

  lemma SealedIsLaidOut(h: RunHeader, crc: nat)
    requires h.WellFormed()
    ensures LaidOut(Sealed(h, crc), h, crc)
  {
    IdentityLaidOut(h, Identity(h));
    CountersLaidOut(h, crc, Counters(h, crc));
    SealedHalves(h, crc);
    Halves(Identity(h), Counters(h, crc), Sealed(h, crc));
  }

  lemma LaidOutIsSealed(bytes: seq<byte>, h: RunHeader, crc: nat)
    requires LaidOut(bytes, h, crc)
    ensures bytes == Sealed(h, crc)
  {
    assert bytes == bytes[0..8] + bytes[8..10] + bytes[10..12] + bytes[12..16] + bytes[16..32] + bytes[32..48]
                    + bytes[48..56] + bytes[56..64] + bytes[64..72] + bytes[72..76] + bytes[76..80] + bytes[80..];
  }

  /** Zeroing the checksum field of a sealed header. */
  lemma Blanked(bytes: seq<byte>, h: RunHeader, crc: nat)
    requires LaidOut(bytes, h, crc)
    ensures bytes[..HEADER_CRC_OFFSET] + Zeros(4) + bytes[HEADER_CRC_OFFSET + 4..] == Sealed(h, 0)
  {
    var blank := bytes[..HEADER_CRC_OFFSET] + Zeros(4) + bytes[HEADER_CRC_OFFSET + 4..];
    ZeroBytes(4);
    assert blank[..76] == bytes[..76] && blank[80..] == bytes[80..] && blank[76..80] == Zeros(4);
    assert forall i, j | 0 <= i < j <= 76 :: blank[i..j] == bytes[i..j];
    LaidOutIsSealed(blank, h, 0);
  }

  lemma NumbersDecode(bytes: seq<byte>, h: RunHeader, crc: nat)
    requires h.WellFormed() && crc <= U32_MAX && LaidOut(bytes, h, crc)
    ensures ReadNumber(bytes, 8, 2) == VERSION && ReadNumber(bytes, 12, 4) == HEADER_SIZE
    ensures ReadNumber(bytes, 48, 8) == h.fingerprint && ReadNumber(bytes, 56, 8) == h.recordCount
    ensures ReadNumber(bytes, 64, 8) == h.payloadLen && ReadNumber(bytes, 72, 4) == h.payloadCrc
    ensures ReadNumber(bytes, HEADER_CRC_OFFSET, 4) == crc
  {
    Spans();
    NumberSurvives(VERSION, 2);
    NumberSurvives(HEADER_SIZE, 4);
    NumberSurvives(h.fingerprint, 8);
    NumberSurvives(h.recordCount, 8);
    NumberSurvives(h.payloadLen, 8);
    NumberSurvives(h.payloadCrc, 4);
    NumberSurvives(crc, 4);
  }

  lemma DecodeInvertsEncode(checksum: Checksum, h: RunHeader)
    requires h.WellFormed()
    ensures |HeaderBytes(checksum, h)| == HEADER_SIZE
    ensures Decode(checksum, HeaderBytes(checksum, h)) == Ok(h)
  {
    var crc := checksum(Sealed(h, 0));
    var bytes := Sealed(h, crc);
    SealedIsLaidOut(h, crc);
    Blanked(bytes, h, crc);
    NumbersDecode(bytes, h, crc);
    assert bytes[10] == bytes[10..12][0] && bytes[11] == bytes[10..12][1];
    forall i | 80 <= i < |bytes|
      ensures bytes[i] == 0
    {
      assert bytes[i] == bytes[80..][i - 80];
    }
  }

  lemma AcceptedReencodes(checksum: Checksum, bytes: seq<byte>)
    requires |bytes| == HEADER_SIZE && Decode(checksum, bytes).Ok?
    ensures Decode(checksum, bytes).value.WellFormed()
    ensures HeaderBytes(checksum, Decode(checksum, bytes).value) == bytes
  {
    var h := Decode(checksum, bytes).value;
    Spans();
    BytesSurvive(bytes[8..10]);
    BytesSurvive(bytes[12..16]);
    BytesSurvive(bytes[48..56]);
    BytesSurvive(bytes[56..64]);
    BytesSurvive(bytes[64..72]);
    BytesSurvive(bytes[72..76]);
    BytesSurvive(bytes[76..80]);
    var crc := ReadNumber(bytes, HEADER_CRC_OFFSET, 4);
    assert bytes[80..] == Zeros(48);
    assert bytes[10..12] == [h.kind.ToByte(), 0];
    LaidOutIsSealed(bytes, h, crc);
    Blanked(bytes, h, crc);
  }

  /** Decoding accepts exactly the encodings of well-formed headers. */
  lemma HeaderRoundTrip(checksum: Checksum, bytes: seq<byte>, h: RunHeader)
    requires |bytes| == HEADER_SIZE
    ensures Decode(checksum, bytes) == Ok(h) <==> h.WellFormed() && bytes == HeaderBytes(checksum, h)
  {
    if h.WellFormed() {
      DecodeInvertsEncode(checksum, h);
    }
    if Decode(checksum, bytes).Ok? {
      AcceptedReencodes(checksum, bytes);
    }
  }

  /** Overwrite one field of a buffer. */
  method CopyInto(buffer: array<byte>, offset: nat, field: seq<byte>)
    requires offset + |field| <= buffer.Length
    modifies buffer
    ensures buffer[..] == old(buffer[..offset]) + field + old(buffer[offset + |field|..])
  {
    forall i | 0 <= i < |field| {
      buffer[offset + i] := field[i];
    }
  }

  /** A blank buffer written up to `done`. */
  predicate WrittenTo(bytes: seq<byte>, done: seq<byte>) {
    |done| <= |bytes| == HEADER_SIZE && bytes == done + Zeros(HEADER_SIZE - |done|)
  }

  /** Write the next field of a header that is blank from there on. */
  method WriteNext(buffer: array<byte>, offset: nat, field: seq<byte>, ghost done: seq<byte>)
    requires WrittenTo(buffer[..], done) && offset == |done| && offset + |field| <= HEADER_SIZE
    modifies buffer
    ensures WrittenTo(buffer[..], done + field)
  {
    CopyInto(buffer, offset, field);
  }

  /** Fill a header buffer field by field, then seal it with its own checksum. */
  method EncodeHeader(checksum: Checksum, h: RunHeader) returns (buffer: array<byte>)
    requires h.WellFormed()
    ensures fresh(buffer) && buffer[..] == HeaderBytes(checksum, h)
  {
    buffer := new byte[HEADER_SIZE](_ => 0);
    assert WrittenTo(buffer[..], []);
    WriteNext(buffer, 0, MAGIC, []);
    WriteNext(buffer, 8, LittleEndian(VERSION, 2), MAGIC);
    ghost var done := MAGIC + LittleEndian(VERSION, 2);
    WriteNext(buffer, 10, [h.kind.ToByte(), 0], done);
    done := done + [h.kind.ToByte(), 0];
    WriteNext(buffer, 12, LittleEndian(HEADER_SIZE, 4), done);
    done := done + LittleEndian(HEADER_SIZE, 4);
    WriteNext(buffer, 16, h.graphId, done);
    done := done + h.graphId;
    WriteNext(buffer, 32, h.buildId, done);
    done := done + h.buildId;
    WriteNext(buffer, 48, LittleEndian(h.fingerprint, 8), done);
    done := done + LittleEndian(h.fingerprint, 8);
    WriteNext(buffer, 56, LittleEndian(h.recordCount, 8), done);
    done := done + LittleEndian(h.recordCount, 8);
    WriteNext(buffer, 64, LittleEndian(h.payloadLen, 8), done);
    done := done + LittleEndian(h.payloadLen, 8);
    WriteNext(buffer, 72, LittleEndian(h.payloadCrc, 4), done);
    done := done + LittleEndian(h.payloadCrc, 4);
    assert buffer[..] == Sealed(h, 0) by {
      ZeroBytes(4);
      assert Zeros(52) == Zeros(4) + Zeros(48);
    }
    WriteNext(buffer, HEADER_CRC_OFFSET, LittleEndian(checksum(buffer[..]), 4), done);
  }
}
