/** The binary format of a staged external-sort run: little-endian fields, a 128-byte checksummed
    header and length-prefixed records. The checksum is an arbitrary function. */
module RunFormat {
  import opened Prelude
  import opened Ordering

  type Checksum = seq<byte> -> u32

  function LittleEndian(n: nat, width: nat): (bytes: seq<byte>)
    ensures |bytes| == width
  {
    if width == 0 then [] else [n % 256] + LittleEndian(n / 256, width - 1)
  }

  function FromLittleEndian(bytes: seq<byte>): nat {
    if bytes == [] then 0 else bytes[0] + 256 * FromLittleEndian(bytes[1..])
  }

  /** How many values fit in that many bytes. */
  function Span(width: nat): nat {
    if width == 0 then 1 else 256 * Span(width - 1)
  }

  lemma Spans()
    ensures Span(2) == U16_MAX + 1 && Span(4) == U32_MAX + 1 && Span(8) == U64_MAX + 1
  {
    assert Span(1) == 256 && Span(3) == 0x100_0000;
    assert Span(5) == 0x100_0000_0000 && Span(6) == 0x1_0000_0000_0000 && Span(7) == 0x100_0000_0000_0000;
  }

  lemma {:induction false} NumberSurvives(n: nat, width: nat)
    requires n < Span(width)
    ensures FromLittleEndian(LittleEndian(n, width)) == n
  {
    if width > 0 {
      NumberSurvives(n / 256, width - 1);
      assert LittleEndian(n, width)[1..] == LittleEndian(n / 256, width - 1);
    }
  }

  lemma {:induction false} BytesSurvive(bytes: seq<byte>)
    ensures FromLittleEndian(bytes) < Span(|bytes|)
    ensures LittleEndian(FromLittleEndian(bytes), |bytes|) == bytes
  {
    if bytes != [] {
      BytesSurvive(bytes[1..]);
      var low, high := bytes[0], FromLittleEndian(bytes[1..]);
      assert (low + 256 * high) % 256 == low && (low + 256 * high) / 256 == high;
    }
  }

  /** Lexicographic order on byte strings. */
  predicate BytesLe(a: seq<byte>, b: seq<byte>) {
    a == [] || (b != [] && (a[0] < b[0] || (a[0] == b[0] && BytesLe(a[1..], b[1..]))))
  }

  lemma {:induction false} BytesTotal(a: seq<byte>, b: seq<byte>)
    ensures BytesLe(a, b) || BytesLe(b, a)
  {
    if a != [] && b != [] {
      BytesTotal(a[1..], b[1..]);
    }
  }

  lemma {:induction false} BytesAntisymmetric(a: seq<byte>, b: seq<byte>)
    requires BytesLe(a, b) && BytesLe(b, a)
    ensures a == b
  {
    if a != [] && b != [] {
      BytesAntisymmetric(a[1..], b[1..]);
      assert a == [a[0]] + a[1..] && b == [b[0]] + b[1..];
    }
  }

  lemma {:induction false} BytesTransitive(a: seq<byte>, b: seq<byte>, c: seq<byte>)
    requires BytesLe(a, b) && BytesLe(b, c)
    ensures BytesLe(a, c)
  {
    if a != [] && a[0] == b[0] == c[0] {
      BytesTransitive(a[1..], b[1..], c[1..]);
    }
  }

  datatype RunRecord = RunRecord(key: seq<byte>, value: seq<byte>) {
    function EncodedLen(): nat {
      8 + |key| + |value|
    }

    function Encode(): (bytes: seq<byte>)
      ensures |bytes| == EncodedLen()
    {
      LittleEndian(|key|, 4) + LittleEndian(|value|, 4) + key + value
    }

    predicate Fits(maxRecordBytes: nat) {
      EncodedLen() <= maxRecordBytes && |key| <= U32_MAX && |value| <= U32_MAX
    }
  }

  /** Records order by key, then by value. */
  predicate RecordLe(a: RunRecord, b: RunRecord) {
    if a.key == b.key then BytesLe(a.value, b.value) else BytesLe(a.key, b.key)
  }

  lemma RecordOrder()
    ensures TotalOrder(RecordLe)
  {
    forall a, b: RunRecord
      ensures RecordLe(a, b) || RecordLe(b, a)
    {
      BytesTotal(a.key, b.key);
      BytesTotal(a.value, b.value);
    }
    forall a, b: RunRecord | RecordLe(a, b) && RecordLe(b, a)
      ensures a == b
    {
      if a.key == b.key {
        BytesAntisymmetric(a.value, b.value);
      } else {
        BytesAntisymmetric(a.key, b.key);
      }
    }
    forall a, b, c: RunRecord | RecordLe(a, b) && RecordLe(b, c)
      ensures RecordLe(a, c)
    {
      RecordTransitive(a, b, c);
    }
  }

  lemma RecordTransitive(a: RunRecord, b: RunRecord, c: RunRecord)
    requires RecordLe(a, b) && RecordLe(b, c)
    ensures RecordLe(a, c)
  {
    if a.key == b.key == c.key {
      BytesTransitive(a.value, b.value, c.value);
    } else if a.key != b.key && b.key != c.key {
      BytesTransitive(a.key, b.key, c.key);
      if a.key == c.key {
        BytesAntisymmetric(a.key, b.key);
      }
    }
  }

  /** The two strings agree before position `k`; there the first has ended or holds the smaller byte. */
  ghost predicate SmallerAt(a: seq<byte>, b: seq<byte>, k: nat) {
    && k <= |a| && k < |b|
    && (forall i | 0 <= i < k :: a[i] == b[i])
    && (k == |a| || a[k] < b[k])
  }

  /** The key is the smaller one at the first byte where the keys differ; with equal keys the value is,
      or the values are equal too. */
  ghost predicate InOrder(a: RunRecord, b: RunRecord) {
    || (exists k :: SmallerAt(a.key, b.key, k))
    || (a.key == b.key && (a.value == b.value || exists k :: SmallerAt(a.value, b.value, k)))
  }

  ghost predicate AllInOrder(records: seq<RunRecord>) {
    forall i, j | 0 <= i < j < |records| :: InOrder(records[i], records[j])
  }

  lemma SmallerFurther(a: seq<byte>, b: seq<byte>, k: nat)
    requires a != [] && b != [] && a[0] == b[0]
    ensures SmallerAt(a[1..], b[1..], k) <==> SmallerAt(a, b, k + 1)
  {
    if SmallerAt(a[1..], b[1..], k) {
      forall i | 0 <= i < k + 1
        ensures a[i] == b[i]
      {
        assert i == 0 || a[1..][i - 1] == b[1..][i - 1];
      }
    }
    if SmallerAt(a, b, k + 1) {
      assert forall i | 0 <= i < k :: a[1..][i] == a[i + 1] && b[1..][i] == b[i + 1];
    }
  }

  /** Of two different byte strings one is smaller at the first position where they differ, and that
      one comes first. */
  lemma {:induction false} BytesOrderByByte(a: seq<byte>, b: seq<byte>)
    ensures BytesLe(a, b) <==> a == b || exists k :: SmallerAt(a, b, k)
  {
    if a != [] && b != [] && a[0] == b[0] {
      assert a == [a[0]] + a[1..] && b == [b[0]] + b[1..];
      BytesOrderByByte(a[1..], b[1..]);
      if k: nat :| SmallerAt(a[1..], b[1..], k) {
        SmallerFurther(a, b, k);
      }
      if k: nat :| SmallerAt(a, b, k) {
        assert k > 0;
        SmallerFurther(a, b, k - 1);
      }
    } else if b != [] && (a == [] || a[0] < b[0]) {
      assert SmallerAt(a, b, 0);
    }
  }

  lemma {:induction false} OneIsSmaller(a: seq<byte>, b: seq<byte>)
    requires a != b
    ensures (exists k :: SmallerAt(a, b, k)) <==> !exists k :: SmallerAt(b, a, k)
  {
    BytesOrderByByte(a, b);
    BytesOrderByByte(b, a);
    BytesTotal(a, b);
    if BytesLe(a, b) && BytesLe(b, a) {
      BytesAntisymmetric(a, b);
    }
  }

  /** The record order, byte by byte: by key, then by value; and it leaves no two records unordered. */
  lemma RecordOrderByByte(a: RunRecord, b: RunRecord)
    ensures RecordLe(a, b) <==> InOrder(a, b)
    ensures a != b ==> (InOrder(a, b) <==> !InOrder(b, a))
  {
    BytesOrderByByte(a.key, b.key);
    BytesOrderByByte(a.value, b.value);
    if a.key != b.key {
      OneIsSmaller(a.key, b.key);
    } else if a.value != b.value {
      NoneSmaller(a.key);
      OneIsSmaller(a.value, b.value);
    }
    if a.key == b.key {
      NoneSmaller(a.key);
    }
  }

  lemma NoneSmaller(a: seq<byte>)
    ensures forall k :: !SmallerAt(a, a, k)
  {
  }

  /** A sorted list of records, seen byte by byte. */
  lemma SortedIsInOrder(records: seq<RunRecord>)
    ensures Sorted(records, RecordLe) <==> AllInOrder(records)
  {
    forall i, j | 0 <= i < j < |records|
      ensures RecordLe(records[i], records[j]) <==> InOrder(records[i], records[j])
    {
      RecordOrderByByte(records[i], records[j]);
    }
  }

  /** The encodings of the first `n` records, end to end. */
  function PayloadTo(records: seq<RunRecord>, n: nat): seq<byte>
    requires n <= |records|
  {
    if n == 0 then [] else PayloadTo(records, n - 1) + records[n - 1].Encode()
  }

  function Payload(records: seq<RunRecord>): seq<byte> {
    PayloadTo(records, |records|)
  }

  predicate AllFit(records: seq<RunRecord>, maxRecordBytes: nat) {
    forall i | 0 <= i < |records| :: records[i].Fits(maxRecordBytes)
  }

  lemma {:induction false} PayloadAgrees(a: seq<RunRecord>, b: seq<RunRecord>, n: nat)
    requires n <= |a| && n <= |b| && forall i | 0 <= i < n :: a[i] == b[i]
    ensures PayloadTo(a, n) == PayloadTo(b, n)
  {
    if n > 0 {
      PayloadAgrees(a, b, n - 1);
    }
  }

  lemma {:induction false} PayloadPrefix(records: seq<RunRecord>, n: nat, m: nat)
    requires n <= m <= |records|
    ensures PayloadTo(records, n) <= PayloadTo(records, m)
  {
    if n < m {
      PayloadPrefix(records, n, m - 1);
    }
  }

  datatype RunKind =
    | Nodes | RelationshipsOutbound | RelationshipsInbound | Filters | FilterDictionary | Resolution
    | TenantValues | TenantDictionary | RelationshipIdentities | RelationshipsByIdentity
  {
    function ToByte(): byte {
      match this
      case Nodes => 1
      case RelationshipsOutbound => 2
      case RelationshipsInbound => 3
      case Filters => 4
      case FilterDictionary => 5
      case Resolution => 6
      case TenantValues => 7
      case TenantDictionary => 8
      case RelationshipIdentities => 9
      case RelationshipsByIdentity => 10
    }
  }

  function KindFromByte(value: byte): Result<RunKind> {
    match value
    case 1 => Ok(Nodes)
    case 2 => Ok(RelationshipsOutbound)
    case 3 => Ok(RelationshipsInbound)
    case 4 => Ok(Filters)
    case 5 => Ok(FilterDictionary)
    case 6 => Ok(Resolution)
    case 7 => Ok(TenantValues)
    case 8 => Ok(TenantDictionary)
    case 9 => Ok(RelationshipIdentities)
    case 10 => Ok(RelationshipsByIdentity)
    case _ => Err(CorruptFile)
  }

  /** The bytes of "PGRUN001". */
  const MAGIC: seq<byte> := [0x50, 0x47, 0x52, 0x55, 0x4E, 0x30, 0x30, 0x31]
  const VERSION: nat := 1
  const HEADER_SIZE: nat := 128
  const HEADER_CRC_OFFSET: nat := 76

  datatype RunHeader = RunHeader(
    kind: RunKind,
    graphId: seq<byte>,
    buildId: seq<byte>,
    fingerprint: nat,
    recordCount: nat,
    payloadLen: nat,
    payloadCrc: nat)
  {
    predicate WellFormed() {
      && |graphId| == 16 && |buildId| == 16
      && fingerprint <= U64_MAX && recordCount <= U64_MAX && payloadLen <= U64_MAX && payloadCrc <= U32_MAX
    }

    predicate SameBuildAs(other: RunHeader) {
      kind == other.kind && graphId == other.graphId && buildId == other.buildId && fingerprint == other.fingerprint
    }
  }

  function Zeros(n: nat): (z: seq<byte>) {
    seq(n, _ => 0)
  }

  /** The header fields in file order, up to the checksum. */
  function Fields(h: RunHeader): seq<byte> {
    MAGIC + LittleEndian(VERSION, 2) + [h.kind.ToByte(), 0] + LittleEndian(HEADER_SIZE, 4)
    + h.graphId + h.buildId
    + LittleEndian(h.fingerprint, 8) + LittleEndian(h.recordCount, 8) + LittleEndian(h.payloadLen, 8)
    + LittleEndian(h.payloadCrc, 4)
  }

  /** A header carrying a given checksum value. */
  function Sealed(h: RunHeader, crc: nat): (bytes: seq<byte>) {
    Fields(h) + LittleEndian(crc, 4) + Zeros(48)
  }

  /** The encoded header: sealed with the checksum of itself with that field zero. */
  function HeaderBytes(checksum: Checksum, h: RunHeader): seq<byte> {
    Sealed(h, checksum(Sealed(h, 0)))
  }

  function ReadNumber(bytes: seq<byte>, offset: nat, width: nat): nat
    requires offset + width <= |bytes|
  {
    FromLittleEndian(bytes[offset..offset + width])
  }

  function Decode(checksum: Checksum, bytes: seq<byte>): Result<RunHeader>
    requires |bytes| == HEADER_SIZE
  {
    if bytes[0..8] != MAGIC then Err(CorruptFile)
    else if ReadNumber(bytes, 8, 2) != VERSION then Err(CorruptFile)
    else if ReadNumber(bytes, 12, 4) != HEADER_SIZE then Err(CorruptFile)
    else if bytes[11] != 0 || (exists i | 80 <= i < |bytes| :: bytes[i] != 0) then Err(CorruptFile)
    else
      var blank := bytes[..HEADER_CRC_OFFSET] + Zeros(4) + bytes[HEADER_CRC_OFFSET + 4..];
      if checksum(blank) != ReadNumber(bytes, HEADER_CRC_OFFSET, 4) then Err(CorruptFile)
      else
        var kind :- KindFromByte(bytes[10]);
        Ok(RunHeader(kind, bytes[16..32], bytes[32..48], ReadNumber(bytes, 48, 8), ReadNumber(bytes, 56, 8),
                     ReadNumber(bytes, 64, 8), ReadNumber(bytes, 72, 4)))
  }

  lemma ZeroBytes(width: nat)
    ensures LittleEndian(0, width) == Zeros(width)
  {
  }
}
