/** The external sort as a whole: exactly when it succeeds, what it yields, and that nothing else is
    observable. */
module ExternalSort {
  import opened Prelude
  import opened Ordering
  import opened RunFormat
  import opened RunFiles
  import opened RunMerges
  import opened FileLayout
  import opened CollectorState
  import opened Collector

  /** Where a sort stands: the collector has taken a prefix of the records. */
  ghost predicate Underway(collector: RunCollector, records: seq<RunRecord>, i: nat)
    reads collector, collector.workspace
  {
    && collector.Valid() && collector.pushed <= records && |collector.pushed| == i
    && Midway(records, i, collector.targetBytes, collector.records, collector.flushes)
    && Filled(records, i, collector.targetBytes, collector.records, collector.flushes)
  }

  /** What the sort as a whole needs covers the next flush. */
  lemma CanSortFlushes(collector: RunCollector, records: seq<RunRecord>, i: nat)
    requires Underway(collector, records, i) && records != [] && CanSort(collector, records)
    ensures FlushFits(collector.records, collector.payloadLen, collector.maxRecordBytes, collector.pushed,
                      collector.workspace.maxFiles, collector.workspace.activeFiles, |collector.runs|)
  {
    SortableCoversFlush(records, i, collector.targetBytes, collector.maxRecordBytes, collector.workspace.maxFiles,
                        collector.foreign, collector.records, collector.flushes, collector.pushed);
    CanFlushFits(collector.records, collector.payloadLen, collector.maxRecordBytes, collector.pushed,
                 collector.workspace.maxFiles, collector.foreign, |collector.runs|, collector.flushes);
  }

  /** Whether this collector could sort the records. */
  ghost predicate CanSort(collector: RunCollector, records: seq<RunRecord>) {
    Sortable(records, collector.targetBytes, collector.maxRecordBytes, collector.workspace.maxFiles, collector.foreign)
  }

  /** Push the next record, or show that the whole sort could not succeed. */
  method PushNext(collector: RunCollector, records: seq<RunRecord>, i: nat) returns (r: Result<()>)
    requires Underway(collector, records, i) && i < |records|
    requires collector.targetBytes <= U64_MAX && collector.maxRecordBytes <= U64_MAX
    modifies collector, collector.workspace
    ensures collector.Accounts()
    ensures r.Ok? ==> Underway(collector, records, i + 1)
    ensures r.Err? ==> !CanSort(collector, records)
  {
    if CanSort(collector, records) {
      CanSortFlushes(collector, records, i);
    }
    ghost var spills, buffer, flushes := collector.Spills(records[i]), collector.records, collector.flushes;
    MidwayAdvances(records, i, collector.targetBytes, buffer, flushes, spills);
    FilledAdvances(records, i, collector.targetBytes, buffer, flushes, spills);
    PrefixGrows(collector.pushed, records);
    r := collector.Push(records[i]);
  }

  /** Everything has been collected into runs. */
  ghost predicate Collected(collector: RunCollector, records: seq<RunRecord>)
    reads collector, collector.workspace
  {
    && collector.Valid() && collector.records == [] && collector.pushed == records
    && (collector.flushes == 0 <==> records == [])
    && (collector.flushes >= 2 <==> NeedsSpill(records, collector.targetBytes))
    && collector.flushes == FlushCount(records, collector.targetBytes)
  }

  /** Push every record and finish. */
  method CollectAll(collector: RunCollector, records: seq<RunRecord>) returns (r: Result<seq<StagedRun>>)
    requires collector.Valid() && collector.pushed == [] && collector.records == [] && collector.flushes == 0
    requires collector.targetBytes <= U64_MAX && collector.maxRecordBytes <= U64_MAX
    modifies collector, collector.workspace
    ensures collector.Accounts()
    ensures r.Ok? ==> r.value == collector.runs && Collected(collector, records)
    ensures r.Err? ==> !CanSort(collector, records)
  {
    for i := 0 to |records|
      invariant Underway(collector, records, i)
    {
      var pushed :- PushNext(collector, records, i);
    }
    r := FinishSort(collector, records);
  }

  /** Finish after the last record, or show that the whole sort could not succeed. */
  method FinishSort(collector: RunCollector, records: seq<RunRecord>) returns (r: Result<seq<StagedRun>>)
    requires Underway(collector, records, |records|)
    modifies collector, collector.workspace
    ensures collector.Accounts()
    ensures r.Ok? ==> r.value == collector.runs && Collected(collector, records)
    ensures r.Err? ==> !CanSort(collector, records)
  {
    if records != [] && CanSort(collector, records) {
      CanSortFlushes(collector, records, |records|);
    }
    r := collector.Finish();
  }

  /** The outcome of a sort: nothing for no records, else one staged run holding exactly them, sorted. */
  ghost predicate Yields(workspace: RunWorkspace, kind: RunKind, records: seq<RunRecord>, maxRecordBytes: nat,
                         outcome: Option<StagedRun>)
  {
    match outcome
    case None => records == []
    case Some(run) => records != [] && StagesSorted(workspace, kind, records, maxRecordBytes, run)
  }

  /** The file of a run of this build, byte by byte: its header and the records in key order. */
  ghost predicate OrderedFile(workspace: RunWorkspace, kind: RunKind, sorted: seq<RunRecord>, run: StagedRun) {
    && AllInOrder(sorted) && |run.file| >= 128
    && run.header == RunHeader(kind, workspace.graphId, workspace.buildId, workspace.fingerprint, |sorted|,
                               SizeBefore(sorted, |sorted|), workspace.checksum(run.file[128..]))
    && exists blank :: HeaderAt(blank, run.header, 0) && FileOf(run.file, run.header, workspace.checksum(blank), sorted)
  }

  /** ... which holds these records, each as often as it occurs. */
  ghost predicate OrderedFileOf(workspace: RunWorkspace, kind: RunKind, records: seq<RunRecord>, run: StagedRun) {
    exists sorted: seq<RunRecord> :: multiset(sorted) == multiset(records) && OrderedFile(workspace, kind, sorted, run)
  }

  /** The outcome of a sort is such a file: keys never decrease, byte by byte, nor do values of one key. */
  lemma YieldsOrderedFile(workspace: RunWorkspace, kind: RunKind, records: seq<RunRecord>, maxRecordBytes: nat, run: StagedRun)
    requires StagesSorted(workspace, kind, records, maxRecordBytes, run)
    ensures OrderedFileOf(workspace, kind, records, run)
  {
    var sorted := ContentsOf(workspace.checksum, run, maxRecordBytes);
    var blank := BlankHeader(run.header);
    StoredFile(workspace.checksum, run, sorted, maxRecordBytes, blank);
    SortedIsInOrder(sorted);
    assert OrderedFile(workspace, kind, sorted, run);
  }

  /** A single run is already the sort of what it holds. */
  lemma SingleReplaces(workspace: RunWorkspace, kind: RunKind, runs: seq<StagedRun>, maxRecordBytes: nat)
    requires workspace.Staged(kind, runs, maxRecordBytes) && |runs| == 1
    ensures Replaces(workspace, kind, runs, runs[0], maxRecordBytes)
  {
    assert runs == [runs[0]];
    LoadOne(workspace.checksum, runs[0], maxRecordBytes);
  }

  /** Turn collected runs into at most one: nothing, the only run, or a merge of several. */
  method FinishSingle(collector: RunCollector, fanout: nat, ghost records: seq<RunRecord>)
    returns (r: Result<Option<StagedRun>>)
    requires Collected(collector, records) && collector.targetBytes != 0 && collector.maxRecordBytes >= 8
    modifies collector.workspace
    ensures collector.workspace.Valid()
    ensures collector.workspace.activeFiles == collector.foreign + (if r.Ok? && r.value.Some? then 1 else 0)
    ensures r.Ok? <==> CanSort(collector, records) && (|collector.runs| > 1 ==> 2 <= fanout)
    ensures r.Ok? ==> Yields(collector.workspace, collector.kind, records, collector.maxRecordBytes, r.value)
  {
    var runs := collector.runs;
    if |runs| == 0 {
      return Ok(None);
    }
    FinalSlot(collector.workspace.maxFiles, collector.foreign, |runs|, collector.flushes);
    var merged;
    if |runs| == 1 {
      SingleReplaces(collector.workspace, collector.kind, runs, collector.maxRecordBytes);
      merged := Ok(runs[0]);
    } else {
      merged := MergeRuns(collector.workspace, collector.kind, runs, fanout, collector.maxRecordBytes);
    }
    if merged.Err? {
      return Err(merged.error);
    }
    ReplacementHoldsPushed(collector.workspace, collector.kind, collector.maxRecordBytes, runs, records, merged.value);
    return Ok(Some(merged.value));
  }

  /** Sort records that may not fit in memory: collect them into runs, then merge the runs down to one.
      The result is the sorted arrangement of every record, duplicates kept. */
  method Sort(workspace: RunWorkspace, kind: RunKind, targetBytes: nat, maxRecordBytes: nat, fanout: nat,
              records: seq<RunRecord>)
    returns (r: Result<Option<StagedRun>>)
    requires workspace.Valid() && targetBytes <= U64_MAX && maxRecordBytes <= U64_MAX
    modifies workspace
    ensures workspace.Valid()
    ensures workspace.activeFiles == old(workspace.activeFiles) + (if r.Ok? && r.value.Some? then 1 else 0)
    ensures r.Ok? <==> && Sortable(records, targetBytes, maxRecordBytes, workspace.maxFiles, old(workspace.activeFiles))
                       && (MergesAtEnd(records, targetBytes, workspace.maxFiles, old(workspace.activeFiles)) ==> 2 <= fanout)
    ensures r.Ok? ==> Yields(workspace, kind, records, maxRecordBytes, r.value)
    ensures r.Ok? && r.value.Some? ==> OrderedFileOf(workspace, kind, records, r.value.value)
  {
    var collector :- RunCollector.Create(workspace, kind, targetBytes, maxRecordBytes);
    var collected := CollectAll(collector, records);
    if collected.Err? {
      workspace.ReleaseFiles(|collector.runs|);
      return Err(collected.error);
    }
    r := FinishSingle(collector, fanout, records);
    if r.Ok? && r.value.Some? {
      YieldsOrderedFile(workspace, kind, records, maxRecordBytes, r.value.value);
    }
  }

  /** Only a sort that overflows one buffer ever ends in a merge, so any other accepts every fanout. */
  lemma MergeNeedsSpill(records: seq<RunRecord>, targetBytes: nat, maxFiles: nat, foreign: nat)
    requires MergesAtEnd(records, targetBytes, maxFiles, foreign)
    ensures NeedsSpill(records, targetBytes)
  {
    FewFlushesHoldOne(maxFiles, foreign, FlushCount(records, targetBytes));
    if Spilled(records, targetBytes, |records|).1 > 0 {
      SpillOverflows(records, targetBytes, |records|);
    }
  }

  /** Two sorts of the same records by the same build, in whatever workspaces: the target, the file
      limit, the files others hold, the fanout, the record limit and the arrival order are
      unobservable in what they leave behind. */
  lemma OutcomeDetermined(a: RunWorkspace, b: RunWorkspace, kind: RunKind, records: seq<RunRecord>, shuffled: seq<RunRecord>,
                          x: Option<StagedRun>, y: Option<StagedRun>, maxA: nat, maxB: nat)
    requires a.checksum == b.checksum && a.graphId == b.graphId && a.buildId == b.buildId && a.fingerprint == b.fingerprint
    requires multiset(records) == multiset(shuffled)
    requires Yields(a, kind, records, maxA, x) && Yields(b, kind, shuffled, maxB, y)
    ensures x == y
  {
    assert |multiset(records)| == |records| && |multiset(shuffled)| == |shuffled|;
    if x.Some? && y.Some? {
      RunDetermined(a, b, kind, records, shuffled, x.value, y.value, maxA, maxB);
    }
  }

  /** A staged sorted run is one file, determined by the build, the kind and the multiset of records. */
  lemma RunDetermined(a: RunWorkspace, b: RunWorkspace, kind: RunKind, records: seq<RunRecord>, shuffled: seq<RunRecord>,
                      x: StagedRun, y: StagedRun, maxA: nat, maxB: nat)
    requires a.checksum == b.checksum && a.graphId == b.graphId && a.buildId == b.buildId && a.fingerprint == b.fingerprint
    requires multiset(records) == multiset(shuffled)
    requires StagesSorted(a, kind, records, maxA, x) && StagesSorted(b, kind, shuffled, maxB, y)
    ensures x == y
  {
    RecordOrder();
    SortedUnique(ContentsOf(a.checksum, x, maxA), ContentsOf(b.checksum, y, maxB), RecordLe);
    assert x.file == x.file[..HEADER_SIZE] + x.file[HEADER_SIZE..];
    assert y.file == y.file[..HEADER_SIZE] + y.file[HEADER_SIZE..];
  }
}
