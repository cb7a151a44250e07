/** The build workspace with its hard live-file limit, and multi-pass merging inside it. */
module RunMerges {
  import opened Prelude
  import opened Ordering
  import opened RunFormat
  import opened RunFiles
  import opened Merging

  lemma {:induction false} PayloadLenConcat(a: seq<RunRecord>, b: seq<RunRecord>)
    ensures |Payload(a + b)| == |Payload(a)| + |Payload(b)|
    decreases |b|
  {
    if b == [] {
      assert a + b == a;
    } else {
      var front := b[..|b| - 1];
      PayloadLenConcat(a, front);
      PayloadAgrees(b, front, |front|);
      PayloadAgrees(a + b, a + front, |a + front|);
    }
  }

  lemma PayloadLenWithout(b: seq<RunRecord>, j: nat)
    requires j < |b|
    ensures |Payload(b)| == |Payload(Removed(b, j))| + b[j].EncodedLen()
  {
    var left, right := b[..j], b[j + 1..];
    assert b == left + [b[j]] + right;
    PayloadLenConcat(left + [b[j]], right);
    PayloadLenConcat(left, right);
    PayloadAgrees(left + [b[j]], left, j);
  }

  /** Reordering records does not change how many bytes they take. */
  lemma {:induction false} PayloadLenPermutes(a: seq<RunRecord>, b: seq<RunRecord>)
    requires multiset(a) == multiset(b)
    ensures |Payload(a)| == |Payload(b)|
    decreases |a|
  {
    assert |multiset(a)| == |a| && |multiset(b)| == |b|;
    if a != [] {
      assert a[0] in multiset(b);
      var j :| 0 <= j < |b| && b[j] == a[0];
      PayloadLenWithout(a, 0);
      PayloadLenWithout(b, j);
      Without(a, 0);
      Without(b, j);
      Cancel(multiset(Removed(a, 0)), multiset(Removed(b, j)), a[0]);
      PayloadLenPermutes(Removed(a, 0), Removed(b, j));
    }
  }

  /** Every record the runs store, as a multiset. */
  ghost function Load(checksum: Checksum, runs: seq<StagedRun>, maxRecordBytes: nat): multiset<RunRecord> {
    if runs == [] then multiset{}
    else Load(checksum, runs[..|runs| - 1], maxRecordBytes)
         + multiset(ContentsOf(checksum, runs[|runs| - 1], maxRecordBytes))
  }

  /** The payload bytes the run headers declare. */
  function SumBytes(runs: seq<StagedRun>): nat {
    if runs == [] then 0 else SumBytes(runs[..|runs| - 1]) + runs[|runs| - 1].header.payloadLen
  }

  function SumRecords(runs: seq<StagedRun>): nat {
    if runs == [] then 0 else SumRecords(runs[..|runs| - 1]) + runs[|runs| - 1].header.recordCount
  }

  lemma {:induction false} LoadConcat(checksum: Checksum, a: seq<StagedRun>, b: seq<StagedRun>, maxRecordBytes: nat)
    ensures Load(checksum, a + b, maxRecordBytes) == Load(checksum, a, maxRecordBytes) + Load(checksum, b, maxRecordBytes)
    ensures SumBytes(a + b) == SumBytes(a) + SumBytes(b)
    decreases |b|
  {
    if b == [] {
      assert a + b == a;
    } else {
      assert (a + b)[..|a + b| - 1] == a + b[..|b| - 1];
      LoadConcat(checksum, a, b[..|b| - 1], maxRecordBytes);
    }
  }

  lemma FlattenLast(checksum: Checksum, runs: seq<StagedRun>, maxRecordBytes: nat)
    requires runs != []
    ensures Flatten(ListsOf(checksum, runs, maxRecordBytes), |runs|)
         == Flatten(ListsOf(checksum, runs[..|runs| - 1], maxRecordBytes), |runs| - 1)
            + ContentsOf(checksum, runs[|runs| - 1], maxRecordBytes)
  {
    var front := runs[..|runs| - 1];
    FlattenAgrees(ListsOf(checksum, runs, maxRecordBytes), ListsOf(checksum, front, maxRecordBytes), |front|);
  }

  /** The runs' lists end to end hold their load, and are as long as the headers add up to. */
  lemma {:induction false} LoadIsFlatten(checksum: Checksum, runs: seq<StagedRun>, maxRecordBytes: nat)
    requires AllStored(checksum, runs, maxRecordBytes)
    ensures var all := Flatten(ListsOf(checksum, runs, maxRecordBytes), |runs|);
            multiset(all) == Load(checksum, runs, maxRecordBytes) && |Payload(all)| == SumBytes(runs) && |all| == SumRecords(runs)
  {
    if runs != [] {
      var front, last := runs[..|runs| - 1], runs[|runs| - 1];
      LoadIsFlatten(checksum, front, maxRecordBytes);
      FlattenLast(checksum, runs, maxRecordBytes);
      StoredSizes(checksum, last, ContentsOf(checksum, last, maxRecordBytes), maxRecordBytes);
      PayloadLenConcat(Flatten(ListsOf(checksum, front, maxRecordBytes), |front|), ContentsOf(checksum, last, maxRecordBytes));
    }
  }

  lemma StoredSizes(checksum: Checksum, run: StagedRun, records: seq<RunRecord>, maxRecordBytes: nat)
    requires Stores(checksum, run, records, maxRecordBytes)
    ensures |records| == run.header.recordCount && |Payload(records)| == run.header.payloadLen
  {
  }

  /** A record takes at least eight bytes, so counts stay below byte totals. */
  lemma {:induction false} CountBelowBytes(records: seq<RunRecord>, n: nat)
    requires n <= |records|
    ensures 8 * n <= |PayloadTo(records, n)|
  {
    if n > 0 {
      CountBelowBytes(records, n - 1);
    }
  }

  class RunWorkspace {
    const checksum: Checksum
    const graphId: seq<byte>
    const buildId: seq<byte>
    const fingerprint: nat
    const maxFiles: nat
    /** Live run files of this build, whoever holds them. */
    var activeFiles: nat

    ghost predicate Valid()
      reads this
    {
      && |graphId| == 16 && |buildId| == 16 && fingerprint <= U64_MAX
      && 0 < maxFiles && activeFiles <= maxFiles
    }

    constructor (checksum: Checksum, graphId: seq<byte>, buildId: seq<byte>, fingerprint: nat, maxFiles: nat)
      requires |graphId| == 16 && |buildId| == 16 && fingerprint <= U64_MAX && 0 < maxFiles
      ensures Valid() && activeFiles == 0
      ensures this.checksum == checksum && this.maxFiles == maxFiles
      ensures this.graphId == graphId && this.buildId == buildId && this.fingerprint == fingerprint
    {
      this.checksum, this.graphId, this.buildId, this.fingerprint := checksum, graphId, buildId, fingerprint;
      this.maxFiles, activeFiles := maxFiles, 0;
    }

    /** A workspace needs room for at least one file. */
    static method Create(checksum: Checksum, graphId: seq<byte>, buildId: seq<byte>, fingerprint: nat, maxFiles: nat)
      returns (r: Result<RunWorkspace>)
      requires |graphId| == 16 && |buildId| == 16 && fingerprint <= U64_MAX
      ensures r.Ok? <==> maxFiles != 0
      ensures r.Ok? ==> && fresh(r.value) && r.value.Valid() && r.value.activeFiles == 0 && r.value.maxFiles == maxFiles
                        && r.value.checksum == checksum && r.value.graphId == graphId && r.value.buildId == buildId
                        && r.value.fingerprint == fingerprint
    {
      if maxFiles == 0 {
        return Err(Internal);
      }
      var workspace := new RunWorkspace(checksum, graphId, buildId, fingerprint, maxFiles);
      return Ok(workspace);
    }

    /** The header a run of this build declares. */
    function Declared(kind: RunKind, recordCount: nat, payloadLen: nat): RunHeader {
      RunHeader(kind, graphId, buildId, fingerprint, recordCount, payloadLen, 0)
    }

    /** The run belongs to this build and kind. */
    predicate Labelled(kind: RunKind, run: StagedRun) {
      run.header.SameBuildAs(Declared(kind, 0, 0))
    }

    /** A run of this build that stores what its header says. */
    ghost predicate StagedOne(kind: RunKind, run: StagedRun, maxRecordBytes: nat) {
      Stores(checksum, run, ContentsOf(checksum, run, maxRecordBytes), maxRecordBytes) && Labelled(kind, run)
    }

    ghost predicate Staged(kind: RunKind, runs: seq<StagedRun>, maxRecordBytes: nat) {
      runs == [] || (Staged(kind, runs[..|runs| - 1], maxRecordBytes)
                     && StagedOne(kind, runs[|runs| - 1], maxRecordBytes))
    }

    /** Take a file slot, or refuse at the limit. */
    method AllocateFile() returns (r: Result<()>)
      requires Valid()
      modifies this
      ensures Valid()
      ensures r == if old(activeFiles) < maxFiles then Ok(()) else Err(FileLimit)
      ensures activeFiles == if r.Ok? then old(activeFiles) + 1 else old(activeFiles)
    {
      if activeFiles >= maxFiles {
        return Err(FileLimit);
      }
      activeFiles := activeFiles + 1;
      return Ok(());
    }

    /** Drop the slots of runs that are no longer held. */
    method ReleaseFiles(count: nat)
      requires Valid() && count <= activeFiles
      modifies this
      ensures Valid() && activeFiles == old(activeFiles) - count
    {
      for dropped := 0 to count
        invariant Valid() && activeFiles == old(activeFiles) - dropped
      {
        activeFiles := SaturatingSub(activeFiles, 1);
      }
    }

    /** Stage a run file. A refused file holds no slot. */
    method WriteRun(kind: RunKind, recordCount: nat, payloadLen: nat, records: seq<RunRecord>, maxRecordBytes: nat)
      returns (r: Result<StagedRun>)
      requires Valid() && recordCount <= U64_MAX && payloadLen <= U64_MAX
      modifies this
      ensures Valid()
      ensures r.Ok? <==> && Writable(records, recordCount, payloadLen, maxRecordBytes)
                         && HEADER_SIZE + payloadLen <= U64_MAX && old(activeFiles) < maxFiles
      ensures r.Ok? ==> Stores(checksum, r.value, records, maxRecordBytes) && Labelled(kind, r.value)
      ensures r.Ok? ==> |r.value.file| >= 128
      ensures r.Ok? ==> r.value.header == RunHeader(kind, graphId, buildId, fingerprint, recordCount, payloadLen,
                                                    checksum(r.value.file[128..]))
      ensures activeFiles == if r.Ok? then old(activeFiles) + 1 else old(activeFiles)
    {
      if HEADER_SIZE + payloadLen > U64_MAX {
        return Err(Internal);
      }
      var slot :- AllocateFile();
      r := WriteRunFile(checksum, Declared(kind, recordCount, payloadLen), records, maxRecordBytes);
      if r.Err? {
        ReleaseFiles(1);
      }
    }
  }

  /** A run belongs to a build and kind exactly when its header names them. */
  lemma LabelledByFields(workspace: RunWorkspace, kind: RunKind, run: StagedRun)
    ensures workspace.Labelled(kind, run) <==>
            && run.header.kind == kind && run.header.graphId == workspace.graphId
            && run.header.buildId == workspace.buildId && run.header.fingerprint == workspace.fingerprint
  {
  }

  lemma {:induction false} StagedAt(workspace: RunWorkspace, kind: RunKind, runs: seq<StagedRun>, maxRecordBytes: nat, i: nat)
    requires workspace.Staged(kind, runs, maxRecordBytes) && i < |runs|
    ensures workspace.StagedOne(kind, runs[i], maxRecordBytes)
    decreases |runs|
  {
    if i < |runs| - 1 {
      StagedAt(workspace, kind, runs[..|runs| - 1], maxRecordBytes, i);
    }
  }

  lemma StagedAll(workspace: RunWorkspace, kind: RunKind, runs: seq<StagedRun>, maxRecordBytes: nat)
    requires workspace.Staged(kind, runs, maxRecordBytes)
    ensures AllStored(workspace.checksum, runs, maxRecordBytes)
    ensures forall i | 0 <= i < |runs| :: workspace.Labelled(kind, runs[i])
  {
    forall i | 0 <= i < |runs|
      ensures workspace.StagedOne(kind, runs[i], maxRecordBytes)
    {
      StagedAt(workspace, kind, runs, maxRecordBytes, i);
    }
  }

  lemma {:induction false} StagedParts(workspace: RunWorkspace, kind: RunKind, a: seq<StagedRun>, b: seq<StagedRun>,
                                       maxRecordBytes: nat)
    ensures workspace.Staged(kind, a + b, maxRecordBytes)
       <==> workspace.Staged(kind, a, maxRecordBytes) && workspace.Staged(kind, b, maxRecordBytes)
    decreases |b|
  {
    if b == [] {
      assert a + b == a;
    } else {
      assert (a + b)[..|a + b| - 1] == a + b[..|b| - 1];
      StagedParts(workspace, kind, a, b[..|b| - 1], maxRecordBytes);
    }
  }

  /** Add up the declared sizes, or stop where a 64-bit total would overflow. */
  method AddUp(runs: seq<StagedRun>) returns (r: Result<(nat, nat)>)
    ensures r.Ok? <==> SumRecords(runs) <= U64_MAX && SumBytes(runs) <= U64_MAX
    ensures r.Ok? ==> r.value == (SumRecords(runs), SumBytes(runs))
  {
    var records, bytes := 0, 0;
    for i := 0 to |runs|
      invariant records == SumRecords(runs[..i]) && bytes == SumBytes(runs[..i])
      invariant records <= U64_MAX && bytes <= U64_MAX
    {
      SumsGrow(runs, i + 1);
      assert runs[..i + 1][..i] == runs[..i];
      records := records + runs[i].header.recordCount;
      bytes := bytes + runs[i].header.payloadLen;
      if records > U64_MAX || bytes > U64_MAX {
        return Err(Internal);
      }
    }
    assert runs[..|runs|] == runs;
    return Ok((records, bytes));
  }

  lemma {:induction false} SumsGrow(runs: seq<StagedRun>, n: nat)
    requires n <= |runs|
    ensures SumRecords(runs[..n]) <= SumRecords(runs) && SumBytes(runs[..n]) <= SumBytes(runs)
    decreases |runs|
  {
    if n < |runs| {
      SumsGrow(runs[..|runs| - 1], n);
      assert runs[..|runs| - 1][..n] == runs[..n];
    } else {
      assert runs[..n] == runs;
    }
  }

  lemma GroupSizes(checksum: Checksum, group: seq<StagedRun>, records: seq<RunRecord>, maxRecordBytes: nat)
    requires AllStored(checksum, group, maxRecordBytes)
    requires SortedUnion(ListsOf(checksum, group, maxRecordBytes), records)
    ensures multiset(records) == Load(checksum, group, maxRecordBytes)
    ensures |records| == SumRecords(group) && |Payload(records)| == SumBytes(group)
    ensures 8 * SumRecords(group) <= SumBytes(group)
  {
    var all := Flatten(ListsOf(checksum, group, maxRecordBytes), |group|);
    LoadIsFlatten(checksum, group, maxRecordBytes);
    PayloadLenPermutes(records, all);
    assert |multiset(records)| == |records| && |multiset(all)| == |all|;
    CountBelowBytes(records, |records|);
  }

  /** Everything the group stores is within the record limits. */
  lemma {:induction false} LoadFits(checksum: Checksum, runs: seq<StagedRun>, maxRecordBytes: nat, r: RunRecord)
    requires AllStored(checksum, runs, maxRecordBytes) && r in Load(checksum, runs, maxRecordBytes)
    ensures r.Fits(maxRecordBytes)
  {
    var last := runs[|runs| - 1];
    assert Stores(checksum, last, ContentsOf(checksum, last, maxRecordBytes), maxRecordBytes);
    if r in multiset(ContentsOf(checksum, last, maxRecordBytes)) {
      assert r in ContentsOf(checksum, last, maxRecordBytes);
    } else {
      LoadFits(checksum, runs[..|runs| - 1], maxRecordBytes, r);
    }
  }

  lemma MergedIsWritable(checksum: Checksum, group: seq<StagedRun>, records: seq<RunRecord>, maxRecordBytes: nat)
    requires AllStored(checksum, group, maxRecordBytes)
    requires SortedUnion(ListsOf(checksum, group, maxRecordBytes), records)
    ensures Writable(records, SumRecords(group), SumBytes(group), maxRecordBytes)
  {
    GroupSizes(checksum, group, records, maxRecordBytes);
    forall i | 0 <= i < |records|
      ensures records[i].Fits(maxRecordBytes)
    {
      assert records[i] in multiset(records);
      LoadFits(checksum, group, maxRecordBytes, records[i]);
    }
  }

  /** One staged run replaces others holding the same records. */
  ghost predicate Replaces(workspace: RunWorkspace, kind: RunKind, runs: seq<StagedRun>, run: StagedRun, maxRecordBytes: nat) {
    && workspace.Staged(kind, [run], maxRecordBytes)
    && multiset(ContentsOf(workspace.checksum, run, maxRecordBytes)) == Load(workspace.checksum, runs, maxRecordBytes)
    && run.header.payloadLen == SumBytes(runs)
  }

  /** Merge a group of runs into one and drop the group. It fails exactly when the output's length
      would overflow or there is no file slot for it. */
  method MergeGroup(workspace: RunWorkspace, kind: RunKind, group: seq<StagedRun>, maxRecordBytes: nat)
    returns (r: Result<StagedRun>)
    requires workspace.Valid() && workspace.Staged(kind, group, maxRecordBytes)
    requires group != [] && |group| <= workspace.activeFiles
    modifies workspace
    ensures workspace.Valid()
    ensures r.Ok? <==> HEADER_SIZE + SumBytes(group) <= U64_MAX && old(workspace.activeFiles) < workspace.maxFiles
    ensures r.Ok? ==> Replaces(workspace, kind, group, r.value, maxRecordBytes)
    ensures workspace.activeFiles == old(workspace.activeFiles) - |group| + (if r.Ok? then 1 else 0)
  {
    r := MergeIntoRun(workspace, kind, group, maxRecordBytes);
    workspace.ReleaseFiles(|group|);
  }

  /** Write the merged records of a group to a new run, still holding the group. */
  method MergeIntoRun(workspace: RunWorkspace, kind: RunKind, group: seq<StagedRun>, maxRecordBytes: nat)
    returns (r: Result<StagedRun>)
    requires workspace.Valid() && workspace.Staged(kind, group, maxRecordBytes) && group != []
    modifies workspace
    ensures workspace.Valid()
    ensures r.Ok? <==> HEADER_SIZE + SumBytes(group) <= U64_MAX && old(workspace.activeFiles) < workspace.maxFiles
    ensures r.Ok? ==> Replaces(workspace, kind, group, r.value, maxRecordBytes)
    ensures workspace.activeFiles == old(workspace.activeFiles) + (if r.Ok? then 1 else 0)
  {
    ghost var checksum := workspace.checksum;
    StagedAll(workspace, kind, group, maxRecordBytes);
    if exists i | 0 <= i < |group| :: !group[i].header.SameBuildAs(group[0].header) {
      return Err(CorruptFile);
    }
    LoadIsFlatten(checksum, group, maxRecordBytes);
    CountBelowBytes(Flatten(ListsOf(checksum, group, maxRecordBytes), |group|), SumRecords(group));
    var totals :- AddUp(group);
    var result := MergeRecords(workspace.checksum, group, maxRecordBytes);
    match result {
      case Ok(records) =>
        r := WriteMerged(workspace, kind, group, totals.0, totals.1, records, maxRecordBytes);
      case Err(error) =>
        return Err(error);
    }
  }

  method WriteMerged(workspace: RunWorkspace, kind: RunKind, group: seq<StagedRun>, recordCount: nat, payloadLen: nat,
                     records: seq<RunRecord>, maxRecordBytes: nat)
    returns (r: Result<StagedRun>)
    requires workspace.Valid() && workspace.Staged(kind, group, maxRecordBytes) && group != []
    requires SortedUnion(ListsOf(workspace.checksum, group, maxRecordBytes), records)
    requires recordCount == SumRecords(group) <= U64_MAX && payloadLen == SumBytes(group) <= U64_MAX
    modifies workspace
    ensures workspace.Valid()
    ensures r.Ok? <==> HEADER_SIZE + SumBytes(group) <= U64_MAX && old(workspace.activeFiles) < workspace.maxFiles
    ensures r.Ok? ==> Replaces(workspace, kind, group, r.value, maxRecordBytes)
    ensures workspace.activeFiles == old(workspace.activeFiles) + (if r.Ok? then 1 else 0)
  {
    StagedAll(workspace, kind, group, maxRecordBytes);
    MergedIsWritable(workspace.checksum, group, records, maxRecordBytes);
    GroupSizes(workspace.checksum, group, records, maxRecordBytes);
    r := workspace.WriteRun(group[0].header.kind, recordCount, payloadLen, records, maxRecordBytes);
    if r.Ok? {
      ContentsAre(workspace.checksum, r.value, records, maxRecordBytes);
    }
  }

  /** The next runs to merge together, at most `fanout` of them. */
  function TakeRunGroup(pending: seq<StagedRun>, fanout: nat): (group: seq<StagedRun>)
    ensures group <= pending && |group| == if |pending| < fanout then |pending| else fanout
  {
    if |pending| < fanout then pending else pending[..fanout]
  }

  /** Where a merge pass stands: what has come out and what is pending together hold the load. */
  ghost predicate MidPass(workspace: RunWorkspace, kind: RunKind, runs: seq<StagedRun>, next: seq<StagedRun>,
                          pending: seq<StagedRun>, maxRecordBytes: nat)
  {
    && workspace.Staged(kind, next, maxRecordBytes) && workspace.Staged(kind, pending, maxRecordBytes)
    && Load(workspace.checksum, next, maxRecordBytes) + Load(workspace.checksum, pending, maxRecordBytes)
       == Load(workspace.checksum, runs, maxRecordBytes)
    && SumBytes(next) + SumBytes(pending) == SumBytes(runs)
  }

  lemma LoadOne(checksum: Checksum, run: StagedRun, maxRecordBytes: nat)
    ensures Load(checksum, [run], maxRecordBytes) == multiset(ContentsOf(checksum, run, maxRecordBytes))
    ensures SumBytes([run]) == run.header.payloadLen
  {
    assert [run][..0] == [];
  }

  /** Swapping a group for a run with the same load changes no totals. */
  lemma LoadSwaps(checksum: Checksum, next: seq<StagedRun>, group: seq<StagedRun>, rest: seq<StagedRun>, out: StagedRun,
                  maxRecordBytes: nat)
    requires multiset(ContentsOf(checksum, out, maxRecordBytes)) == Load(checksum, group, maxRecordBytes)
    requires out.header.payloadLen == SumBytes(group)
    ensures Load(checksum, next + [out], maxRecordBytes) + Load(checksum, rest, maxRecordBytes)
         == Load(checksum, next, maxRecordBytes) + Load(checksum, group + rest, maxRecordBytes)
    ensures SumBytes(next + [out]) + SumBytes(rest) == SumBytes(next) + SumBytes(group + rest)
  {
    LoadOne(checksum, out, maxRecordBytes);
    LoadConcat(checksum, group, rest, maxRecordBytes);
    LoadConcat(checksum, next, [out], maxRecordBytes);
  }

  lemma PassAdvances(workspace: RunWorkspace, kind: RunKind, runs: seq<StagedRun>, next: seq<StagedRun>,
                     group: seq<StagedRun>, rest: seq<StagedRun>, out: StagedRun, maxRecordBytes: nat)
    requires MidPass(workspace, kind, runs, next, group + rest, maxRecordBytes)
    requires Replaces(workspace, kind, group, out, maxRecordBytes)
    ensures MidPass(workspace, kind, runs, next + [out], rest, maxRecordBytes)
  {
    LoadSwaps(workspace.checksum, next, group, rest, out, maxRecordBytes);
    StagedParts(workspace, kind, group, rest, maxRecordBytes);
    StagedParts(workspace, kind, next, [out], maxRecordBytes);
  }

  /** A group about to be merged is staged and no larger than the whole. */
  lemma GroupOf(workspace: RunWorkspace, kind: RunKind, runs: seq<StagedRun>, next: seq<StagedRun>,
                group: seq<StagedRun>, rest: seq<StagedRun>, maxRecordBytes: nat)
    requires MidPass(workspace, kind, runs, next, group + rest, maxRecordBytes)
    ensures workspace.Staged(kind, group, maxRecordBytes) && SumBytes(group) <= SumBytes(runs)
  {
    LoadConcat(workspace.checksum, group, rest, maxRecordBytes);
    StagedParts(workspace, kind, group, rest, maxRecordBytes);
  }

  /** Reduce one group: a single run passes through, more are merged. */
  method ReduceGroup(workspace: RunWorkspace, kind: RunKind, group: seq<StagedRun>, maxRecordBytes: nat)
    returns (r: Result<StagedRun>)
    requires workspace.Valid() && workspace.Staged(kind, group, maxRecordBytes)
    requires group != [] && |group| <= workspace.activeFiles
    modifies workspace
    ensures workspace.Valid()
    ensures r.Ok? <==> |group| == 1
                       || (HEADER_SIZE + SumBytes(group) <= U64_MAX && old(workspace.activeFiles) < workspace.maxFiles)
    ensures r.Ok? ==> Replaces(workspace, kind, group, r.value, maxRecordBytes)
    ensures workspace.activeFiles == old(workspace.activeFiles) - |group| + (if r.Ok? then 1 else 0)
  {
    if |group| == 1 {
      LoadOne(workspace.checksum, group[0], maxRecordBytes);
      assert group == [group[0]];
      return Ok(group[0]);
    }
    r := MergeGroup(workspace, kind, group, maxRecordBytes);
  }

  /** Take the next group off the pending runs and put what it reduces to behind the output. On
      failure every run of the pass is dropped. */
  method ReduceNext(workspace: RunWorkspace, kind: RunKind, ghost runs: seq<StagedRun>, next: seq<StagedRun>,
                    pending: seq<StagedRun>, fanout: nat, maxRecordBytes: nat)
    returns (r: Result<(seq<StagedRun>, seq<StagedRun>)>)
    requires workspace.Valid() && MidPass(workspace, kind, runs, next, pending, maxRecordBytes)
    requires pending != [] && 2 <= fanout && |next| + |pending| <= workspace.activeFiles
    modifies workspace
    ensures workspace.Valid()
    ensures old(workspace.activeFiles) < workspace.maxFiles && HEADER_SIZE + SumBytes(runs) <= U64_MAX ==> r.Ok?
    ensures r.Ok? ==> MidPass(workspace, kind, runs, r.value.0, r.value.1, maxRecordBytes)
    ensures r.Ok? ==> |r.value.0| == |next| + 1 && |r.value.1| == SaturatingSub(|pending|, fanout)
    ensures r.Ok? && |pending| > 1 ==> old(workspace.activeFiles) < workspace.maxFiles
    ensures workspace.activeFiles == old(workspace.activeFiles) - |next| - |pending|
                                     + (if r.Ok? then |r.value.0| + |r.value.1| else 0)
  {
    var group := TakeRunGroup(pending, fanout);
    var rest := pending[|group|..];
    assert pending == group + rest;
    GroupOf(workspace, kind, runs, next, group, rest, maxRecordBytes);
    var reduced := ReduceGroup(workspace, kind, group, maxRecordBytes);
    if reduced.Err? {
      workspace.ReleaseFiles(|next| + |rest|);
      return Err(reduced.error);
    }
    PassAdvances(workspace, kind, runs, next, group, rest, reduced.value, maxRecordBytes);
    return Ok((next + [reduced.value], rest));
  }

  /** One pass: merge the runs in groups of `fanout`, a group of one passing through. */
  method MergePass(workspace: RunWorkspace, kind: RunKind, runs: seq<StagedRun>, fanout: nat, maxRecordBytes: nat)
    returns (r: Result<seq<StagedRun>>)
    requires workspace.Valid() && workspace.Staged(kind, runs, maxRecordBytes)
    requires 1 < |runs| <= workspace.activeFiles && 2 <= fanout
    modifies workspace
    ensures workspace.Valid()
    ensures old(workspace.activeFiles) < workspace.maxFiles && HEADER_SIZE + SumBytes(runs) <= U64_MAX ==> r.Ok?
    ensures r.Ok? ==> old(workspace.activeFiles) < workspace.maxFiles
    ensures r.Ok? ==> MidPass(workspace, kind, runs, r.value, [], maxRecordBytes) && 1 <= |r.value| < |runs|
    ensures workspace.activeFiles == old(workspace.activeFiles) - |runs| + (if r.Ok? then |r.value| else 0)
  {
    var next, pending := [], runs;
    while |pending| > 0
      invariant workspace.Valid() && MidPass(workspace, kind, runs, next, pending, maxRecordBytes)
      invariant workspace.activeFiles == old(workspace.activeFiles) - |runs| + |next| + |pending|
      invariant (|pending| == |runs| && |next| == 0) || (1 <= |next| && |next| + |pending| < |runs|)
      invariant |pending| < |runs| ==> old(workspace.activeFiles) < workspace.maxFiles
      decreases |pending|
    {
      var step :- ReduceNext(workspace, kind, runs, next, pending, fanout, maxRecordBytes);
      next, pending := step.0, step.1;
    }
    assert pending == [];
    return Ok(next);
  }

  lemma LastRunReplaces(workspace: RunWorkspace, kind: RunKind, runs: seq<StagedRun>, last: seq<StagedRun>, maxRecordBytes: nat)
    requires MidPass(workspace, kind, runs, last, [], maxRecordBytes) && |last| == 1
    ensures Replaces(workspace, kind, runs, last[0], maxRecordBytes)
  {
    assert last == [last[0]];
    LoadOne(workspace.checksum, last[0], maxRecordBytes);
  }

  lemma PassesCompose(workspace: RunWorkspace, kind: RunKind, runs: seq<StagedRun>, mid: seq<StagedRun>, last: seq<StagedRun>,
                      maxRecordBytes: nat)
    requires MidPass(workspace, kind, runs, mid, [], maxRecordBytes)
    requires MidPass(workspace, kind, mid, last, [], maxRecordBytes)
    ensures MidPass(workspace, kind, runs, last, [], maxRecordBytes) && SumBytes(mid) == SumBytes(runs)
  {
  }

  /** Repeat passes until one run is left. */
  method MergeDown(workspace: RunWorkspace, kind: RunKind, runs: seq<StagedRun>, fanout: nat, maxRecordBytes: nat)
    returns (r: Result<StagedRun>)
    requires workspace.Valid() && workspace.Staged(kind, runs, maxRecordBytes)
    requires 1 <= |runs| <= workspace.activeFiles && 2 <= fanout
    modifies workspace
    ensures workspace.Valid()
    ensures |runs| == 1 || (old(workspace.activeFiles) < workspace.maxFiles && HEADER_SIZE + SumBytes(runs) <= U64_MAX) ==> r.Ok?
    ensures r.Ok? ==> |runs| == 1 || old(workspace.activeFiles) < workspace.maxFiles
    ensures r.Ok? ==> Replaces(workspace, kind, runs, r.value, maxRecordBytes)
    ensures workspace.activeFiles == old(workspace.activeFiles) - |runs| + (if r.Ok? then 1 else 0)
  {
    var current := runs;
    while |current| > 1
      invariant workspace.Valid() && 1 <= |current| <= |runs|
      invariant MidPass(workspace, kind, runs, current, [], maxRecordBytes)
      invariant workspace.activeFiles == old(workspace.activeFiles) - |runs| + |current|
      invariant |current| < |runs| ==> old(workspace.activeFiles) < workspace.maxFiles
      decreases |current|
    {
      var next :- MergePass(workspace, kind, current, fanout, maxRecordBytes);
      PassesCompose(workspace, kind, runs, current, next, maxRecordBytes);
      current := next;
    }
    LastRunReplaces(workspace, kind, runs, current, maxRecordBytes);
    return Ok(current[0]);
  }

  lemma ReplacementIsIntact(workspace: RunWorkspace, kind: RunKind, runs: seq<StagedRun>, run: StagedRun, maxRecordBytes: nat)
    requires Replaces(workspace, kind, runs, run, maxRecordBytes)
    ensures HEADER_SIZE + SumBytes(runs) <= U64_MAX
  {
    StagedAll(workspace, kind, [run], maxRecordBytes);
    assert Intact(workspace.checksum, [run][0]);
  }

  /** Merge runs down to one, pass by pass. It fails exactly when there is nothing to merge, the
      fanout is below two, or a merge is needed and there is no slot for its output or its length
      would overflow. */
  method MergeRuns(workspace: RunWorkspace, kind: RunKind, runs: seq<StagedRun>, fanout: nat, maxRecordBytes: nat)
    returns (r: Result<StagedRun>)
    requires workspace.Valid() && workspace.Staged(kind, runs, maxRecordBytes) && |runs| <= workspace.activeFiles
    modifies workspace
    ensures workspace.Valid()
    ensures r.Ok? <==> && runs != [] && 2 <= fanout
                       && (|runs| > 1 ==> old(workspace.activeFiles) < workspace.maxFiles
                                          && HEADER_SIZE + SumBytes(runs) <= U64_MAX)
    ensures r.Ok? ==> Replaces(workspace, kind, runs, r.value, maxRecordBytes)
    ensures workspace.activeFiles == old(workspace.activeFiles) - |runs| + (if r.Ok? then 1 else 0)
  {
    if runs == [] {
      return Err(Internal);
    }
    if fanout < 2 {
      workspace.ReleaseFiles(|runs|);
      return Err(Internal);
    }
    r := MergeDown(workspace, kind, runs, fanout, maxRecordBytes);
    if r.Ok? {
      ReplacementIsIntact(workspace, kind, runs, r.value, maxRecordBytes);
    }
  }
}
