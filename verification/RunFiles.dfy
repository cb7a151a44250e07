/** Staged run files: the writer, the checking reader, and the round trip between them. */
module RunFiles {
  import opened Prelude
  import opened Ordering
  import opened RunFormat
  import opened RunHeaders

  datatype StagedRun = StagedRun(header: RunHeader, file: seq<byte>)

  /** The file opens: header, length and payload checksum agree. */
  ghost predicate Intact(checksum: Checksum, run: StagedRun) {
    && run.header.WellFormed()
    && |run.file| == HEADER_SIZE + run.header.payloadLen <= U64_MAX
    && run.file[..HEADER_SIZE] == HeaderBytes(checksum, run.header)
    && checksum(run.file[HEADER_SIZE..]) == run.header.payloadCrc
  }

  /** The run is a sorted list of records, each within the limits. */
  ghost predicate Stores(checksum: Checksum, run: StagedRun, records: seq<RunRecord>, maxRecordBytes: nat) {
    && Intact(checksum, run)
    && run.file[HEADER_SIZE..] == Payload(records) && run.header.recordCount == |records|
    && Sorted(records, RecordLe) && AllFit(records, maxRecordBytes)
  }

  /** A record's bytes found at a position. */
  ghost predicate RecordAt(bytes: seq<byte>, pos: nat, r: RunRecord) {
    && pos + r.EncodedLen() <= |bytes|
    && ReadNumber(bytes, pos, 4) == |r.key| && ReadNumber(bytes, pos + 4, 4) == |r.value|
    && bytes[pos + 8..pos + 8 + |r.key|] == r.key
    && bytes[pos + 8 + |r.key|..pos + r.EncodedLen()] == r.value
  }

  lemma SubSlice(bytes: seq<byte>, start: nat, end: nat, i: nat, j: nat)
    requires start <= end <= |bytes| && i <= j <= end - start
    ensures bytes[start..end][i..j] == bytes[start + i..start + j]
  {
    var part, same := bytes[start..end][i..j], bytes[start + i..start + j];
    forall k | 0 <= k < j - i
      ensures part[k] == same[k]
    {
    }
  }

  lemma Splice(bytes: seq<byte>, start: nat, mid: nat, end: nat)
    requires start <= mid <= end <= |bytes|
    ensures bytes[start..end] == bytes[start..mid] + bytes[mid..end]
  {
  }

  lemma EncodingParts(r: RunRecord, part: seq<byte>)
    requires |part| == r.EncodedLen()
    ensures part == r.Encode() <==>
              && part[0..4] == LittleEndian(|r.key|, 4) && part[4..8] == LittleEndian(|r.value|, 4)
              && part[8..8 + |r.key|] == r.key && part[8 + |r.key|..r.EncodedLen()] == r.value
  {
    assert part == part[0..4] + part[4..8] + part[8..8 + |r.key|] + part[8 + |r.key|..r.EncodedLen()];
  }

  lemma LengthField(bytes: seq<byte>, pos: nat, n: nat)
    requires pos + 4 <= |bytes| && n <= U32_MAX
    ensures ReadNumber(bytes, pos, 4) == n <==> bytes[pos..pos + 4] == LittleEndian(n, 4)
  {
    Spans();
    NumberSurvives(n, 4);
    BytesSurvive(bytes[pos..pos + 4]);
  }

  lemma RecordAtIsEncoding(bytes: seq<byte>, pos: nat, r: RunRecord)
    requires pos + r.EncodedLen() <= |bytes| && |r.key| <= U32_MAX && |r.value| <= U32_MAX
    ensures RecordAt(bytes, pos, r) <==> bytes[pos..pos + r.EncodedLen()] == r.Encode()
  {
    var end := pos + r.EncodedLen();
    EncodingParts(r, bytes[pos..end]);
    SubSlice(bytes, pos, end, 0, 4);
    SubSlice(bytes, pos, end, 4, 8);
    SubSlice(bytes, pos, end, 8, 8 + |r.key|);
    SubSlice(bytes, pos, end, 8 + |r.key|, r.EncodedLen());
    LengthField(bytes, pos, |r.key|);
    LengthField(bytes, pos + 4, |r.value|);
  }

  lemma RecordAtUnique(bytes: seq<byte>, pos: nat, r: RunRecord, s: RunRecord)
    requires RecordAt(bytes, pos, r) && RecordAt(bytes, pos, s)
    ensures r == s
  {
  }

  /** The next record of a payload sits right after those before it. */
  lemma PayloadHolds(all: seq<RunRecord>, n: nat)
    requires n < |all|
    ensures var from, to := |PayloadTo(all, n)|, |PayloadTo(all, n)| + all[n].EncodedLen();
            to <= |Payload(all)| && Payload(all)[from..to] == all[n].Encode()
  {
    PayloadPrefix(all, n + 1, |all|);
  }

  lemma TailSlice(bytes: seq<byte>, start: nat, tail: seq<byte>, i: nat, size: nat)
    requires start <= |bytes| && bytes[start..] == tail && i + size <= |tail|
    ensures start + i + size <= |bytes| && bytes[start + i..start + i + size] == tail[i..i + size]
  {
    var part, same := bytes[start + i..start + i + size], tail[i..i + size];
    forall k | 0 <= k < size
      ensures part[k] == same[k]
    {
      assert bytes[start..][i + k] == tail[i + k];
    }
  }

  lemma StoredBytes(file: seq<byte>, all: seq<RunRecord>, n: nat, from: nat)
    requires |file| >= HEADER_SIZE && file[HEADER_SIZE..] == Payload(all) && n < |all| && from == |PayloadTo(all, n)|
    ensures HEADER_SIZE + from + all[n].EncodedLen() <= |file|
    ensures file[HEADER_SIZE + from..HEADER_SIZE + from + all[n].EncodedLen()] == all[n].Encode()
  {
    PayloadHolds(all, n);
    TailHolds(file, Payload(all), from, all[n].Encode());
  }

  lemma TailHolds(file: seq<byte>, tail: seq<byte>, from: nat, part: seq<byte>)
    requires |file| >= HEADER_SIZE && file[HEADER_SIZE..] == tail
    requires from + |part| <= |tail| && tail[from..from + |part|] == part
    ensures HEADER_SIZE + from + |part| <= |file|
    ensures file[HEADER_SIZE + from..HEADER_SIZE + from + |part|] == part
  {
    TailSlice(file, HEADER_SIZE, tail, from, |part|);
  }

  /** Where a reader of a stored run stands after a prefix of its records. */
  lemma StoredNext(checksum: Checksum, run: StagedRun, maxRecordBytes: nat, n: nat, all: seq<RunRecord>)
    requires Stores(checksum, run, all, maxRecordBytes) && n < |all|
    ensures RecordAt(run.file, HEADER_SIZE + |PayloadTo(all, n)|, all[n]) && all[n].Fits(maxRecordBytes)
    ensures n > 0 ==> RecordLe(all[n - 1], all[n])
  {
    assert all[n].Fits(maxRecordBytes);
    StoredBytes(run.file, all, n, |PayloadTo(all, n)|);
    RecordAtIsEncoding(run.file, HEADER_SIZE + |PayloadTo(all, n)|, all[n]);
  }

  /** What a reader has read so far. */
  ghost predicate ReadUpTo(run: StagedRun, payloadRead: nat, seen: seq<RunRecord>, maxRecordBytes: nat) {
    && payloadRead == |Payload(seen)|
    && HEADER_SIZE + payloadRead <= |run.file|
    && run.file[HEADER_SIZE..HEADER_SIZE + payloadRead] == Payload(seen)
    && Sorted(seen, RecordLe) && AllFit(seen, maxRecordBytes)
  }

  lemma PayloadPushed(seen: seq<RunRecord>, r: RunRecord)
    ensures Payload(seen + [r]) == Payload(seen) + r.Encode()
  {
    PayloadAgrees(seen, seen + [r], |seen|);
  }

  lemma ReadOneMore(run: StagedRun, payloadRead: nat, seen: seq<RunRecord>, maxRecordBytes: nat, r: RunRecord)
    requires ReadUpTo(run, payloadRead, seen, maxRecordBytes)
    requires RecordAt(run.file, HEADER_SIZE + payloadRead, r) && r.Fits(maxRecordBytes)
    requires seen != [] ==> RecordLe(seen[|seen| - 1], r)
    ensures ReadUpTo(run, payloadRead + r.EncodedLen(), seen + [r], maxRecordBytes)
  {
    assert Sorted(seen + [r], RecordLe) by {
      RecordOrder();
      SortedAppends(seen, r, RecordLe);
    }
    BytesReadMore(run.file, payloadRead, payloadRead + r.EncodedLen(), seen, r);
  }

  lemma BytesReadMore(file: seq<byte>, payloadRead: nat, end: nat, seen: seq<RunRecord>, r: RunRecord)
    requires RecordAt(file, HEADER_SIZE + payloadRead, r) && |r.key| <= U32_MAX && |r.value| <= U32_MAX
    requires file[HEADER_SIZE..HEADER_SIZE + payloadRead] == Payload(seen) && end == payloadRead + r.EncodedLen()
    ensures HEADER_SIZE + end <= |file| && file[HEADER_SIZE..HEADER_SIZE + end] == Payload(seen + [r])
    ensures end == |Payload(seen + [r])|
  {
    RecordAtIsEncoding(file, HEADER_SIZE + payloadRead, r);
    Splice(file, HEADER_SIZE, HEADER_SIZE + payloadRead, HEADER_SIZE + end);
    PayloadPushed(seen, r);
  }

  lemma PayloadLenPushed(seen: seq<RunRecord>, r: RunRecord)
    ensures |Payload(seen + [r])| == |Payload(seen)| + r.EncodedLen()
  {
    PayloadPushed(seen, r);
  }

  /** What a reader that has returned `seen` returns next, if the run stores `all`. */
  function NextOf(seen: seq<RunRecord>, all: seq<RunRecord>): Option<RunRecord> {
    if |seen| < |all| then Some(all[|seen|]) else None
  }

  ghost predicate ReaderExpects(run: StagedRun, maxRecordBytes: nat, payloadRead: nat, seen: seq<RunRecord>, all: seq<RunRecord>) {
    match NextOf(seen, all)
    case None => payloadRead == run.header.payloadLen
    case Some(r) =>
      && RecordAt(run.file, HEADER_SIZE + payloadRead, r) && r.Fits(maxRecordBytes)
      && (seen != [] ==> RecordLe(seen[|seen| - 1], r))
  }

  lemma StoredExpects(checksum: Checksum, run: StagedRun, maxRecordBytes: nat, seen: seq<RunRecord>, all: seq<RunRecord>)
    requires Stores(checksum, run, all, maxRecordBytes) && seen <= all
    ensures ReaderExpects(run, maxRecordBytes, |Payload(seen)|, seen, all)
  {
    PayloadAgrees(seen, all, |seen|);
    assert |Payload(seen)| == |PayloadTo(all, |seen|)|;
    if |seen| < |all| {
      assert NextOf(seen, all) == Some(all[|seen|]);
      assert seen != [] ==> seen[|seen| - 1] == all[|seen| - 1];
      StoredNext(checksum, run, maxRecordBytes, |seen|, all);
    }
  }

  lemma NumberFits(bytes: seq<byte>, pos: nat)
    requires pos + 4 <= |bytes|
    ensures ReadNumber(bytes, pos, 4) <= U32_MAX
  {
    Spans();
    BytesSurvive(bytes[pos..pos + 4]);
  }

  /** A reader's state after returning `seen`. */
  ghost predicate Standing(run: StagedRun, maxRecordBytes: nat, remaining: nat, payloadRead: nat,
                           previous: Option<RunRecord>, seen: seq<RunRecord>)
  {
    && remaining + |seen| == run.header.recordCount
    && ReadUpTo(run, payloadRead, seen, maxRecordBytes)
    && previous == if seen == [] then None else Some(seen[|seen| - 1])
  }

  /** A record is what the file holds next and is in order and within the limits. */
  ghost predicate Follows(run: StagedRun, maxRecordBytes: nat, payloadRead: nat, previous: Option<RunRecord>, r: RunRecord) {
    && RecordAt(run.file, HEADER_SIZE + payloadRead, r) && r.Fits(maxRecordBytes)
    && (previous.Some? ==> RecordLe(previous.value, r))
  }

  lemma StandsAfter(run: StagedRun, maxRecordBytes: nat, remaining: nat, payloadRead: nat,
                    previous: Option<RunRecord>, seen: seq<RunRecord>, r: RunRecord)
    requires Standing(run, maxRecordBytes, remaining, payloadRead, previous, seen) && remaining > 0
    requires Follows(run, maxRecordBytes, payloadRead, previous, r)
    ensures Standing(run, maxRecordBytes, remaining - 1, payloadRead + r.EncodedLen(), Some(r), seen + [r])
  {
    ReadOneMore(run, payloadRead, seen, maxRecordBytes, r);
  }

  /** What the lengths at a position cut out is the record there. */
  lemma FoundAt(bytes: seq<byte>, pos: nat, keyLen: nat, valueLen: nat, record: RunRecord)
    requires pos + 8 + keyLen + valueLen <= |bytes|
    requires ReadNumber(bytes, pos, 4) == keyLen && ReadNumber(bytes, pos + 4, 4) == valueLen
    requires record == RunRecord(bytes[pos + 8..pos + 8 + keyLen], bytes[pos + 8 + keyLen..pos + (8 + keyLen + valueLen)])
    ensures RecordAt(bytes, pos, record) && record.EncodedLen() == 8 + keyLen + valueLen
    ensures forall other | RecordAt(bytes, pos, other) :: other == record
  {
    forall other | RecordAt(bytes, pos, other)
      ensures other == record
    {
      RecordAtUnique(bytes, pos, other, record);
    }
  }

  class RunReader {
    const run: StagedRun
    const maxRecordBytes: nat
    var remaining: nat
    var payloadRead: nat
    var previous: Option<RunRecord>
    ghost const checksum: Checksum
    /** The records returned so far. */
    ghost var seen: seq<RunRecord>

    ghost predicate Valid()
      reads this
    {
      && Intact(checksum, run)
      && Standing(run, maxRecordBytes, remaining, payloadRead, previous, seen)
    }

    constructor (ghost checksum: Checksum, run: StagedRun, maxRecordBytes: nat)
      requires Intact(checksum, run)
      ensures Valid() && seen == []
      ensures this.checksum == checksum && this.run == run && this.maxRecordBytes == maxRecordBytes
    {
      this.checksum, this.run, this.maxRecordBytes := checksum, run, maxRecordBytes;
      remaining, payloadRead, previous, seen := run.header.recordCount, 0, None, [];
    }

    /** Open a staged file, refusing it unless its header is the expected one and its length and
        payload checksum match. */
    static method Open(checksum: Checksum, run: StagedRun, maxRecordBytes: nat) returns (r: Result<RunReader>)
      requires run.header.WellFormed()
      ensures r.Ok? <==> Intact(checksum, run)
      ensures r.Ok? ==> fresh(r.value) && r.value.Valid() && r.value.seen == []
                        && r.value.checksum == checksum && r.value.run == run
                        && r.value.maxRecordBytes == maxRecordBytes
    {
      var file := run.file;
      if |file| < HEADER_SIZE {
        return Err(CorruptFile);
      }
      HeaderRoundTrip(checksum, file[..HEADER_SIZE], run.header);
      var header := Decode(checksum, file[..HEADER_SIZE]);
      if header.Err? {
        return Err(header.error);
      }
      if header.value != run.header {
        return Err(CorruptFile);
      }
      if HEADER_SIZE + run.header.payloadLen > U64_MAX || |file| != HEADER_SIZE + run.header.payloadLen {
        return Err(CorruptFile);
      }
      if checksum(file[HEADER_SIZE..]) != run.header.payloadCrc {
        return Err(CorruptFile);
      }
      var reader := new RunReader(checksum, run, maxRecordBytes);
      return Ok(reader);
    }

    /** Decode the record at the read position, within the record and payload limits. */
    method TakeRecord() returns (r: Result<RunRecord>)
      requires Valid()
      ensures r.Ok? ==> RecordAt(run.file, HEADER_SIZE + payloadRead, r.value) && r.value.Fits(maxRecordBytes)
      ensures forall record | RecordAt(run.file, HEADER_SIZE + payloadRead, record) && record.Fits(maxRecordBytes) ::
                r == Ok(record)
    {
      var pos := HEADER_SIZE + payloadRead;
      if pos + 8 > |run.file| {
        return Err(CorruptFile);
      }
      var keyLen := ReadNumber(run.file, pos, 4);
      var valueLen := ReadNumber(run.file, pos + 4, 4);
      NumberFits(run.file, pos);
      NumberFits(run.file, pos + 4);
      var encoded := 8 + keyLen + valueLen;
      if encoded > maxRecordBytes {
        return Err(CorruptFile);
      }
      if payloadRead + encoded > run.header.payloadLen {
        return Err(CorruptFile);
      }
      var record := RunRecord(run.file[pos + 8..pos + 8 + keyLen], run.file[pos + 8 + keyLen..pos + encoded]);
      FoundAt(run.file, pos, keyLen, valueLen, record);
      return Ok(record);
    }

    /** Check and decode what comes next without moving. */
    method Peek(ghost all: seq<RunRecord>) returns (r: Result<Option<RunRecord>>)
      requires Valid()
      ensures r == Ok(None) ==> remaining == 0 && payloadRead == run.header.payloadLen
      ensures r.Ok? && r.value.Some? ==> remaining > 0 && Follows(run, maxRecordBytes, payloadRead, previous, r.value.value)
      ensures ReaderExpects(run, maxRecordBytes, payloadRead, seen, all) && |all| == run.header.recordCount ==>
                r == Ok(NextOf(seen, all))
    {
      if remaining == 0 {
        if payloadRead != run.header.payloadLen {
          return Err(CorruptFile);
        }
        return Ok(None);
      }
      var record :- TakeRecord();
      if previous.Some? && !RecordLe(previous.value, record) {
        return Err(CorruptFile);
      }
      return Ok(Some(record));
    }

    /** Read one record. A run that stores `all` yields those records in order and then ends; every
        record returned is what the file holds next, and the end is reported only when they are the
        whole payload. */
    method NextRecord(ghost all: seq<RunRecord>) returns (r: Result<Option<RunRecord>>)
      requires Valid()
      modifies this
      ensures Valid()
      ensures seen == match r { case Ok(Some(record)) => old(seen) + [record] case _ => old(seen) }
      ensures r == Ok(None) ==> Stores(checksum, run, seen, maxRecordBytes)
      ensures Stores(checksum, run, all, maxRecordBytes) && old(seen) <= all ==> r == Ok(NextOf(old(seen), all))
      ensures r.Ok? && r.value.Some? ==> remaining < old(remaining)
    {
      if Stores(checksum, run, all, maxRecordBytes) && seen <= all {
        StoredExpects(checksum, run, maxRecordBytes, seen, all);
      }
      r := Peek(all);
      if r.Ok? && r.value.Some? {
        var record := r.value.value;
        StandsAfter(run, maxRecordBytes, remaining, payloadRead, previous, seen, record);
        previous := Some(record);
        remaining := remaining - 1;
        payloadRead := payloadRead + record.EncodedLen();
        seen := seen + [record];
      }
    }
  }

  lemma NextUnique(checksum: Checksum, run: StagedRun, a: seq<RunRecord>, b: seq<RunRecord>, maxRecordBytes: nat, n: nat)
    requires Stores(checksum, run, a, maxRecordBytes) && Stores(checksum, run, b, maxRecordBytes)
    requires n < |a| && n < |b| && PayloadTo(a, n) == PayloadTo(b, n)
    ensures a[n] == b[n]
  {
    StoredNext(checksum, run, maxRecordBytes, n, a);
    StoredNext(checksum, run, maxRecordBytes, n, b);
    var pos := HEADER_SIZE + |PayloadTo(a, n)|;
    assert RecordAt(run.file, pos, a[n]);
    assert RecordAt(run.file, pos, b[n]);
    RecordAtUnique(run.file, pos, a[n], b[n]);
  }

  /** Two lists stored by the same run are the same list. */
  lemma {:induction false} StoresUnique(checksum: Checksum, run: StagedRun, a: seq<RunRecord>, b: seq<RunRecord>, maxRecordBytes: nat,
                                             n: nat)
    requires Stores(checksum, run, a, maxRecordBytes) && Stores(checksum, run, b, maxRecordBytes)
    requires n <= |a|
    ensures forall i | 0 <= i < n :: a[i] == b[i]
  {
    if n > 0 {
      StoresUnique(checksum, run, a, b, maxRecordBytes, n - 1);
      PayloadAgrees(a, b, n - 1);
      NextUnique(checksum, run, a, b, maxRecordBytes, n - 1);
    }
  }

  /** The records a run stores. */
  ghost function ContentsOf(checksum: Checksum, run: StagedRun, maxRecordBytes: nat): seq<RunRecord> {
    if records: seq<RunRecord> :| Stores(checksum, run, records, maxRecordBytes) then records else []
  }

  lemma ContentsAre(checksum: Checksum, run: StagedRun, records: seq<RunRecord>, maxRecordBytes: nat)
    requires Stores(checksum, run, records, maxRecordBytes)
    ensures ContentsOf(checksum, run, maxRecordBytes) == records
  {
    StoresUnique(checksum, run, records, ContentsOf(checksum, run, maxRecordBytes), maxRecordBytes, |records|);
  }

  /** Read a whole run back. It succeeds with `records` exactly when the file stores `records`. */
  method Replay(checksum: Checksum, run: StagedRun, maxRecordBytes: nat) returns (r: Result<seq<RunRecord>>)
    requires run.header.WellFormed()
    ensures r.Ok? ==> Stores(checksum, run, r.value, maxRecordBytes)
    ensures forall all | Stores(checksum, run, all, maxRecordBytes) :: r == Ok(all)
  {
    ghost var contents := ContentsOf(checksum, run, maxRecordBytes);
    forall all | Stores(checksum, run, all, maxRecordBytes)
      ensures all == contents
    {
      ContentsAre(checksum, run, all, maxRecordBytes);
    }
    var reader :- RunReader.Open(checksum, run, maxRecordBytes);
    var records := [];
    while true
      invariant reader.Valid() && records == reader.seen && fresh(reader)
      invariant reader.checksum == checksum && reader.run == run && reader.maxRecordBytes == maxRecordBytes
      invariant Stores(checksum, run, contents, maxRecordBytes) ==> records <= contents
      decreases reader.remaining
    {
      var record :- reader.NextRecord(contents);
      match record
      case None =>
        return Ok(records);
      case Some(one) =>
        records := records + [one];
    }
  }

  /** What the writer requires of its input. */
  ghost predicate Writable(records: seq<RunRecord>, recordCount: nat, payloadLen: nat, maxRecordBytes: nat) {
    && Sorted(records, RecordLe) && AllFit(records, maxRecordBytes)
    && |records| == recordCount && |Payload(records)| == payloadLen
  }

  /** The first `n` records are in order and within the limits. */
  ghost predicate CheckedTo(records: seq<RunRecord>, n: nat, maxRecordBytes: nat)
    requires n <= |records|
  {
    && (forall i, j | 0 <= i < j < n :: RecordLe(records[i], records[j]))
    && (forall i | 0 <= i < n :: records[i].Fits(maxRecordBytes))
  }

  lemma CheckedOneMore(records: seq<RunRecord>, n: nat, maxRecordBytes: nat)
    requires n < |records| && CheckedTo(records, n, maxRecordBytes) && records[n].Fits(maxRecordBytes)
    requires n > 0 ==> RecordLe(records[n - 1], records[n])
    ensures CheckedTo(records, n + 1, maxRecordBytes)
  {
    forall i | 0 <= i < n
      ensures RecordLe(records[i], records[n])
    {
      RecordOrder();
      assert i == n - 1 || RecordLe(records[i], records[n - 1]);
    }
  }

  /** Append every record's encoding to the payload, refusing unsorted or oversized ones. */
  method WritePayload(records: seq<RunRecord>, maxRecordBytes: nat) returns (r: Result<seq<byte>>)
    ensures r.Ok? <==> CheckedTo(records, |records|, maxRecordBytes) && |records| <= U64_MAX && |Payload(records)| <= U64_MAX
    ensures r.Ok? ==> r.value == Payload(records)
  {
    var payload: seq<byte> := [];
    var written, previous := 0, None;
    while written < |records|
      invariant 0 <= written <= |records|
      invariant payload == PayloadTo(records, written)
      invariant previous == if written == 0 then None else Some(records[written - 1])
      invariant CheckedTo(records, written, maxRecordBytes)
      invariant written <= U64_MAX && |payload| <= U64_MAX
    {
      var record := records[written];
      PayloadPrefix(records, written + 1, |records|);
      if previous.Some? && !RecordLe(previous.value, record) {
        return Err(CorruptFile);
      }
      if record.EncodedLen() > maxRecordBytes || |record.key| > U32_MAX || |record.value| > U32_MAX {
        return Err(CorruptFile);
      }
      CheckedOneMore(records, written, maxRecordBytes);
      payload := payload + record.Encode();
      written := written + 1;
      previous := Some(record);
      if written > U64_MAX || |payload| > U64_MAX {
        return Err(Internal);
      }
    }
    return Ok(payload);
  }

  /** Write a run file: refused unless the records are sorted, within the limits and add up to the
      declared count and length; then the file stores exactly those records. */
  method WriteRunFile(checksum: Checksum, declared: RunHeader, records: seq<RunRecord>, maxRecordBytes: nat)
    returns (r: Result<StagedRun>)
    requires declared.WellFormed() && HEADER_SIZE + declared.payloadLen <= U64_MAX
    ensures r.Ok? <==> Writable(records, declared.recordCount, declared.payloadLen, maxRecordBytes)
    ensures r.Ok? ==> Stores(checksum, r.value, records, maxRecordBytes)
                      && r.value.header == declared.(payloadCrc := checksum(Payload(records)))
  {
    var payload :- WritePayload(records, maxRecordBytes);
    if |records| != declared.recordCount || |payload| != declared.payloadLen {
      return Err(CorruptFile);
    }
    var header := declared.(payloadCrc := checksum(payload));
    DecodeInvertsEncode(checksum, header);
    var buffer := EncodeHeader(checksum, header);
    var run := StagedRun(header, buffer[..] + payload);
    assert run.file[HEADER_SIZE..] == payload && run.file[..HEADER_SIZE] == buffer[..];
    var reopened := RunReader.Open(checksum, run, maxRecordBytes);
    return match reopened case Ok(_) => Ok(run) case Err(error) => Err(error);
  }
}
