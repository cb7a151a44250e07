/** What a run collector holds, when its file slots suffice, and where a sort stands between records. */
module CollectorState {
  import opened Prelude
  import opened Ordering
  import opened RunFormat
  import opened RunFiles
  import opened RunMerges
  import opened FileLayout

  /** What a collector holds: staged runs and buffered records, together everything pushed. */
  ghost predicate Collecting(workspace: RunWorkspace, kind: RunKind, maxRecordBytes: nat, records: seq<RunRecord>,
                             payloadLen: nat, runs: seq<StagedRun>, pushed: seq<RunRecord>)
  {
    && workspace.Staged(kind, runs, maxRecordBytes)
    && payloadLen == |Payload(records)| <= U64_MAX
    && multiset(pushed) == Load(workspace.checksum, runs, maxRecordBytes) + multiset(records)
    && |Payload(pushed)| == SumBytes(runs) + payloadLen
  }

  /** Live files after `flushes` flushes, `held` of them this collector's and `foreign` not: one slot
      is always kept free for a merge output, and a second flush needs three beyond the foreign ones. */
  predicate Tidy(maxFiles: nat, foreign: nat, held: nat, flushes: nat) {
    && (flushes == 0 <==> held == 0) && (flushes == 1 ==> held == 1) && foreign + held <= maxFiles
    && (maxFiles < 3 ==> held == flushes)
    && (maxFiles >= 3 ==> held <= 1 || foreign + held + 2 <= maxFiles)
    && (maxFiles >= 3 && flushes >= 2 ==> foreign + 3 <= maxFiles)
  }

  /** Whether the files suffice for one more flush that a final merge can still follow. */
  predicate FilesSuffice(maxFiles: nat, foreign: nat, flushes: nat) {
    if flushes == 0 then foreign < maxFiles else foreign + 3 <= maxFiles
  }

  /** When one more flush is bound to succeed: the buffer is within the record limits, everything so
      far fits one file, and the file slots suffice. */
  predicate CanFlush(records: seq<RunRecord>, maxRecordBytes: nat, pushed: seq<RunRecord>, maxFiles: nat, foreign: nat,
                     flushes: nat)
  {
    && AllFit(records, maxRecordBytes) && HEADER_SIZE + |Payload(pushed)| <= U64_MAX
    && FilesSuffice(maxFiles, foreign, flushes)
  }

  predicate NeedsRoom(maxFiles: nat, active: nat, held: nat) {
    maxFiles >= 3 && active + 1 >= maxFiles && held >= 2
  }

  /** How many runs a collector holds after staging one more and making room again. */
  function HeldAfter(maxFiles: nat, active: nat, held: nat): nat {
    if NeedsRoom(maxFiles, active + 1, held + 1) then 1 else held + 1
  }

  /** Whether staging the buffer as one more run succeeds. */
  predicate StageFits(records: seq<RunRecord>, payloadLen: nat, maxRecordBytes: nat, maxFiles: nat, active: nat) {
    AllFit(records, maxRecordBytes) && HEADER_SIZE + payloadLen <= U64_MAX && active < maxFiles
  }

  /** Whether making room after it does: a merge then needs a slot, and its output holds everything. */
  predicate TidyFits(pushed: seq<RunRecord>, maxFiles: nat, active: nat, held: nat) {
    NeedsRoom(maxFiles, active + 1, held + 1) ==> active + 1 < maxFiles && HEADER_SIZE + |Payload(pushed)| <= U64_MAX
  }

  /** Exactly when a tidy collector's flush succeeds. */
  predicate FlushFits(records: seq<RunRecord>, payloadLen: nat, maxRecordBytes: nat, pushed: seq<RunRecord>,
                      maxFiles: nat, active: nat, held: nat)
  {
    StageFits(records, payloadLen, maxRecordBytes, maxFiles, active) && TidyFits(pushed, maxFiles, active, held)
  }

  lemma CanFlushFits(records: seq<RunRecord>, payloadLen: nat, maxRecordBytes: nat, pushed: seq<RunRecord>,
                     maxFiles: nat, foreign: nat, held: nat, flushes: nat)
    requires Held(maxFiles, foreign, flushes) == Some(held)
    requires payloadLen <= |Payload(pushed)|
    requires CanFlush(records, maxRecordBytes, pushed, maxFiles, foreign, flushes)
    ensures FlushFits(records, payloadLen, maxRecordBytes, pushed, maxFiles, foreign + held, held)
  {
    HeldIsTidy(maxFiles, foreign, flushes);
    FlushKeepsTidy(maxFiles, foreign, held, flushes);
  }

  /** A flush finds a slot for its run, and one for the output of any merge it calls for. */
  predicate SlotsFound(maxFiles: nat, active: nat, held: nat) {
    active < maxFiles && (NeedsRoom(maxFiles, active + 1, held + 1) ==> active + 1 < maxFiles)
  }

  /** How many runs one more flush leaves, if it finds its slots. */
  function HeldNext(maxFiles: nat, active: nat, held: nat): Option<nat> {
    if SlotsFound(maxFiles, active, held) then Some(HeldAfter(maxFiles, active, held)) else None
  }

  /** How many runs a collector holds after a number of flushes, provided each found its slots. */
  function Held(maxFiles: nat, foreign: nat, flushes: nat): Option<nat> {
    if flushes == 0 then if foreign <= maxFiles then Some(0) else None
    else
      match Held(maxFiles, foreign, flushes - 1)
      case None => None
      case Some(held) => HeldNext(maxFiles, foreign + held, held)
  }

  /** A tidy collector needs no room before a flush, and is tidy again after it unless the merge that
      makes room had no slot for its output; with files to spare it always has. */
  lemma FlushKeepsTidy(maxFiles: nat, foreign: nat, held: nat, flushes: nat)
    requires Tidy(maxFiles, foreign, held, flushes)
    ensures !NeedsRoom(maxFiles, foreign + held, held)
    ensures foreign + held < maxFiles && (NeedsRoom(maxFiles, foreign + held + 1, held + 1) ==> foreign + held + 1 < maxFiles)
            ==> Tidy(maxFiles, foreign, HeldAfter(maxFiles, foreign + held, held), flushes + 1)
    ensures FilesSuffice(maxFiles, foreign, flushes) ==>
              && foreign + held < maxFiles
              && (NeedsRoom(maxFiles, foreign + held + 1, held + 1) ==> foreign + held + 1 < maxFiles)
  {
  }

  /** A collector whose flushes found their slots is tidy. */
  lemma {:induction false} HeldIsTidy(maxFiles: nat, foreign: nat, flushes: nat)
    ensures var held := Held(maxFiles, foreign, flushes); held.Some? ==> Tidy(maxFiles, foreign, held.value, flushes)
  {
    if flushes > 0 {
      HeldIsTidy(maxFiles, foreign, flushes - 1);
      var before := Held(maxFiles, foreign, flushes - 1);
      if before.Some? {
        FlushKeepsTidy(maxFiles, foreign, before.value, flushes - 1);
      }
    }
  }

  lemma FewFlushesHoldOne(maxFiles: nat, foreign: nat, flushes: nat)
    ensures flushes <= 1 && Held(maxFiles, foreign, flushes).Some? ==> Held(maxFiles, foreign, flushes).value <= 1
  {
    HeldIsTidy(maxFiles, foreign, flushes);
  }

  lemma HeldNeedsNoRoom(maxFiles: nat, foreign: nat, flushes: nat, active: nat, held: nat)
    requires Held(maxFiles, foreign, flushes) == Some(held) && active == foreign + held
    ensures !NeedsRoom(maxFiles, active, held)
  {
    HeldIsTidy(maxFiles, foreign, flushes);
  }

  lemma FlushHolds(maxFiles: nat, foreign: nat, flushes: nat, active: nat, held: nat, after: nat)
    requires Held(maxFiles, foreign, flushes) == Some(held) && active == foreign + held
    requires HeldNext(maxFiles, active, held) == Some(after)
    ensures Held(maxFiles, foreign, flushes + 1) == Some(after)
  {
  }

  lemma MergedCollects(workspace: RunWorkspace, kind: RunKind, maxRecordBytes: nat, records: seq<RunRecord>,
                       payloadLen: nat, runs: seq<StagedRun>, pushed: seq<RunRecord>, run: StagedRun)
    requires Collecting(workspace, kind, maxRecordBytes, records, payloadLen, runs, pushed)
    requires Replaces(workspace, kind, runs, run, maxRecordBytes)
    ensures Collecting(workspace, kind, maxRecordBytes, records, payloadLen, [run], pushed)
  {
    LoadOne(workspace.checksum, run, maxRecordBytes);
  }

  /** A run of this build holding exactly these records. */
  ghost predicate StagesSorted(workspace: RunWorkspace, kind: RunKind, records: seq<RunRecord>, maxRecordBytes: nat,
                               run: StagedRun)
  {
    && workspace.StagedOne(kind, run, maxRecordBytes)
    && multiset(ContentsOf(workspace.checksum, run, maxRecordBytes)) == multiset(records)
  }

  /** A flush turns the buffer into a run. */
  lemma FlushedCollects(workspace: RunWorkspace, kind: RunKind, maxRecordBytes: nat, records: seq<RunRecord>,
                        payloadLen: nat, runs: seq<StagedRun>, pushed: seq<RunRecord>, run: StagedRun)
    requires Collecting(workspace, kind, maxRecordBytes, records, payloadLen, runs, pushed)
    requires StagesSorted(workspace, kind, records, maxRecordBytes, run)
    ensures Collecting(workspace, kind, maxRecordBytes, [], 0, runs + [run], pushed)
  {
    var sorted := ContentsOf(workspace.checksum, run, maxRecordBytes);
    PayloadLenPermutes(sorted, records);
    StoredSizes(workspace.checksum, run, sorted, maxRecordBytes);
    LoadOne(workspace.checksum, run, maxRecordBytes);
    LoadConcat(workspace.checksum, runs, [run], maxRecordBytes);
    StagedParts(workspace, kind, runs, [run], maxRecordBytes);
    assert workspace.Staged(kind, [run][..0], maxRecordBytes);
  }

  lemma PushedCollects(workspace: RunWorkspace, kind: RunKind, maxRecordBytes: nat, records: seq<RunRecord>,
                       payloadLen: nat, runs: seq<StagedRun>, pushed: seq<RunRecord>, record: RunRecord)
    requires Collecting(workspace, kind, maxRecordBytes, records, payloadLen, runs, pushed)
    requires payloadLen + record.EncodedLen() <= U64_MAX
    ensures Collecting(workspace, kind, maxRecordBytes, records + [record], payloadLen + record.EncodedLen(), runs,
                       pushed + [record])
  {
    PayloadLenPushed(records, record);
    PayloadLenPushed(pushed, record);
  }

  lemma SortedIsWritable(records: seq<RunRecord>, sorted: seq<RunRecord>, maxRecordBytes: nat)
    requires Sorted(sorted, RecordLe) && multiset(sorted) == multiset(records)
    ensures Writable(sorted, |records|, |Payload(records)|, maxRecordBytes) <==> AllFit(records, maxRecordBytes)
  {
    PayloadLenPermutes(sorted, records);
    assert |multiset(sorted)| == |sorted| && |multiset(records)| == |records|;
    forall i | 0 <= i < |sorted|
      ensures sorted[i] in records
    {
      assert sorted[i] in multiset(sorted);
    }
    forall i | 0 <= i < |records|
      ensures records[i] in sorted
    {
      assert records[i] in multiset(records);
    }
  }

  /** Whether the records overflow one buffer, so that more than one run is written. */
  predicate NeedsSpill(records: seq<RunRecord>, targetBytes: nat) {
    |records| >= 2 && |Payload(records)| > targetBytes
  }

  /** Exactly when an external sort succeeds, given how many live files belong to others. */
  predicate Sortable(records: seq<RunRecord>, targetBytes: nat, maxRecordBytes: nat, maxFiles: nat, foreign: nat) {
    && targetBytes != 0 && maxRecordBytes >= 8
    && (records != [] ==>
          && AllFit(records, maxRecordBytes) && HEADER_SIZE + |Payload(records)| <= U64_MAX
          && (if NeedsSpill(records, targetBytes) then foreign + 3 <= maxFiles else foreign < maxFiles))
  }

  /** What the first `i` records leave: the bytes still buffered, and how often the buffer was flushed. */
  function Spilled(records: seq<RunRecord>, targetBytes: nat, i: nat): (nat, nat)
    requires i <= |records|
  {
    if i == 0 then (0, 0)
    else
      var (buffered, flushes) := Spilled(records, targetBytes, i - 1);
      var encoded := records[i - 1].EncodedLen();
      if buffered != 0 && buffered + encoded > targetBytes then (encoded, flushes + 1) else (buffered + encoded, flushes)
  }

  /** How many runs collecting the records writes. */
  function FlushCount(records: seq<RunRecord>, targetBytes: nat): nat {
    Spilled(records, targetBytes, |records|).1 + if records == [] then 0 else 1
  }

  /** Whether more than one run is left when every record has been collected, so that the last step is
      a merge: merging on the way may have left one. */
  predicate MergesAtEnd(records: seq<RunRecord>, targetBytes: nat, maxFiles: nat, foreign: nat) {
    match Held(maxFiles, foreign, FlushCount(records, targetBytes))
    case Some(held) => held > 1
    case None => false
  }

  /** The condition, in the records' own lengths. */
  lemma SortableByLengths(records: seq<RunRecord>, targetBytes: nat, maxRecordBytes: nat, maxFiles: nat, foreign: nat, total: nat)
    requires total == SizeBefore(records, |records|)
    ensures Sortable(records, targetBytes, maxRecordBytes, maxFiles, foreign) <==>
            && targetBytes > 0 && maxRecordBytes >= 8
            && (forall r <- records :: 8 + |r.key| + |r.value| <= maxRecordBytes
                                       && |r.key| <= 0xFFFF_FFFF && |r.value| <= 0xFFFF_FFFF)
            && (records != [] ==> 128 + total <= 0xFFFF_FFFF_FFFF_FFFF)
            && (records != [] ==> foreign < maxFiles)
            && (|records| > 1 && total > targetBytes ==> foreign + 3 <= maxFiles)
  {
    PayloadSize(records, |records|);
    assert AllFit(records, maxRecordBytes) <==> forall r <- records :: r.Fits(maxRecordBytes);
  }

  /** The buffer once a record is taken, flushed first if it spills. */
  function BufferAfter(buffer: seq<RunRecord>, spills: bool, record: RunRecord): seq<RunRecord> {
    if spills then [record] else buffer + [record]
  }

  function FlushesAfter(flushes: nat, spills: bool): nat {
    if spills then flushes + 1 else flushes
  }

  /** Where a collector stands after the first `i` records. */
  ghost predicate Midway(records: seq<RunRecord>, i: nat, targetBytes: nat, buffer: seq<RunRecord>, flushes: nat) {
    && |buffer| <= i <= |records| && (i > 0 ==> buffer != [])
    && (forall j | 0 <= j < |buffer| :: buffer[j] == records[i - |buffer| + j])
    && (flushes == 0 ==> |buffer| == i && (i <= 1 || |PayloadTo(records, i)| <= targetBytes))
    && (flushes > 0 ==> i >= 2 && |PayloadTo(records, i)| > targetBytes)
  }

  /** ... and how full the buffer is by then. */
  ghost predicate Filled(records: seq<RunRecord>, i: nat, targetBytes: nat, buffer: seq<RunRecord>, flushes: nat) {
    i <= |records| && Spilled(records, targetBytes, i) == (|Payload(buffer)|, flushes)
  }

  lemma {:induction false} SpillOverflows(records: seq<RunRecord>, targetBytes: nat, i: nat)
    requires i <= |records| && Spilled(records, targetBytes, i).1 > 0
    ensures NeedsSpill(records, targetBytes)
  {
    var (buffered, flushes) := Spilled(records, targetBytes, i - 1);
    if flushes > 0 {
      SpillOverflows(records, targetBytes, i - 1);
    } else {
      SpilledBytes(records, targetBytes, i - 1);
      SizeGrows(records, i - 1);
      PayloadPrefix(records, i, |records|);
    }
  }

  lemma {:induction false} SpilledBytes(records: seq<RunRecord>, targetBytes: nat, i: nat)
    requires i <= |records| && Spilled(records, targetBytes, i).1 == 0
    ensures Spilled(records, targetBytes, i).0 == |PayloadTo(records, i)|
  {
    if i > 0 {
      SpilledBytes(records, targetBytes, i - 1);
      SizeGrows(records, i - 1);
    }
  }

  lemma FilledAdvances(records: seq<RunRecord>, i: nat, targetBytes: nat, buffer: seq<RunRecord>, flushes: nat, spills: bool)
    requires Filled(records, i, targetBytes, buffer, flushes) && i < |records|
    requires spills <==> |Payload(buffer)| != 0 && |Payload(buffer)| + records[i].EncodedLen() > targetBytes
    ensures Filled(records, i + 1, targetBytes, BufferAfter(buffer, spills, records[i]), FlushesAfter(flushes, spills))
  {
    PayloadLenPushed(if spills then [] else buffer, records[i]);
    assert [] + [records[i]] == [records[i]];
  }

  lemma PrefixGrows(pushed: seq<RunRecord>, records: seq<RunRecord>)
    requires pushed <= records && |pushed| < |records|
    ensures pushed + [records[|pushed|]] <= records
  {
  }

  lemma SizeGrows(records: seq<RunRecord>, i: nat)
    requires i < |records|
    ensures |PayloadTo(records, i + 1)| == |PayloadTo(records, i)| + records[i].EncodedLen()
  {
  }

  lemma MidwayAdvances(records: seq<RunRecord>, i: nat, targetBytes: nat, buffer: seq<RunRecord>, flushes: nat, spills: bool)
    requires Midway(records, i, targetBytes, buffer, flushes) && i < |records|
    requires spills <==> |Payload(buffer)| != 0 && |Payload(buffer)| + records[i].EncodedLen() > targetBytes
    ensures Midway(records, i + 1, targetBytes, BufferAfter(buffer, spills, records[i]), FlushesAfter(flushes, spills))
  {
    var size, sizeNow, sizeNext := |Payload(buffer)|, |PayloadTo(records, i)|, |PayloadTo(records, i + 1)|;
    assert size >= 8 * |buffer| by {
      CountBelowBytes(buffer, |buffer|);
    }
    assert sizeNext == sizeNow + records[i].EncodedLen() by {
      SizeGrows(records, i);
    }
    assert flushes == 0 ==> size == sizeNow by {
      if flushes == 0 {
        PayloadAgrees(buffer, records, i);
      }
    }
  }

  /** What the sort as a whole needs covers each flush on the way. */
  lemma SortableCoversFlush(records: seq<RunRecord>, i: nat, targetBytes: nat, maxRecordBytes: nat,
                            maxFiles: nat, foreign: nat, buffer: seq<RunRecord>, flushes: nat, pushed: seq<RunRecord>)
    requires Midway(records, i, targetBytes, buffer, flushes) && pushed <= records && |pushed| == i && records != []
    ensures Sortable(records, targetBytes, maxRecordBytes, maxFiles, foreign) ==>
              CanFlush(buffer, maxRecordBytes, pushed, maxFiles, foreign, flushes)
  {
    PayloadAgrees(pushed, records, i);
    PayloadPrefix(records, i, |records|);
  }

  /** After the last flush, the final merge has a slot exactly when the files sufficed all along. */
  lemma FinalSlot(maxFiles: nat, foreign: nat, held: nat, flushes: nat)
    requires Held(maxFiles, foreign, flushes) == Some(held) && flushes >= 1
    ensures (held > 1 ==> foreign + held < maxFiles)
       <==> if flushes >= 2 then foreign + 3 <= maxFiles else foreign < maxFiles
  {
    HeldIsTidy(maxFiles, foreign, flushes);
  }

  lemma FitTransfers(a: seq<RunRecord>, b: seq<RunRecord>, maxRecordBytes: nat)
    requires AllFit(a, maxRecordBytes) && multiset(a) == multiset(b)
    ensures AllFit(b, maxRecordBytes)
  {
    forall i | 0 <= i < |b|
      ensures b[i].Fits(maxRecordBytes)
    {
      assert b[i] in multiset(a);
      var j :| 0 <= j < |a| && a[j] == b[i];
      assert a[j].Fits(maxRecordBytes);
    }
  }

  /** A run replacing everything collected holds what was pushed, which therefore fits. */
  lemma ReplacementHoldsPushed(workspace: RunWorkspace, kind: RunKind, maxRecordBytes: nat, runs: seq<StagedRun>,
                               pushed: seq<RunRecord>, run: StagedRun)
    requires Collecting(workspace, kind, maxRecordBytes, [], 0, runs, pushed)
    requires Replaces(workspace, kind, runs, run, maxRecordBytes)
    ensures StagesSorted(workspace, kind, pushed, maxRecordBytes, run)
    ensures AllFit(pushed, maxRecordBytes) && HEADER_SIZE + |Payload(pushed)| <= U64_MAX
  {
    ReplacementIsIntact(workspace, kind, runs, run, maxRecordBytes);
    assert [run][|[run]| - 1] == run;
    FitTransfers(ContentsOf(workspace.checksum, run, maxRecordBytes), pushed, maxRecordBytes);
  }
}
