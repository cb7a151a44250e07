/** The byte-bounded run collector, which merges as it goes to stay within the live-file limit. */
module Collector {
  import opened Prelude
  import opened Ordering
  import opened RunFormat
  import opened RunFiles
  import opened RunMerges
  import opened CollectorState

  const ONLINE_MERGE_FANOUT: nat := 4

  /** Sort a buffer. Records that compare equal are equal, so the order is the only freedom left. */
  method SortRecords(records: seq<RunRecord>, ghost maxRecordBytes: nat) returns (sorted: seq<RunRecord>)
    ensures Sorted(sorted, RecordLe) && multiset(sorted) == multiset(records) && |sorted| == |records|
    ensures Writable(sorted, |records|, |Payload(records)|, maxRecordBytes) <==> AllFit(records, maxRecordBytes)
  {
    RecordOrder();
    sorted := SortUnstable(records, RecordLe);
    SortedIsWritable(records, sorted, maxRecordBytes);
    assert |multiset(sorted)| == |sorted| && |multiset(records)| == |records|;
  }

  /** Sort a buffer and stage it as a run. */
  method WriteSorted(workspace: RunWorkspace, kind: RunKind, records: seq<RunRecord>, payloadLen: nat, maxRecordBytes: nat)
    returns (r: Result<StagedRun>)
    requires workspace.Valid() && payloadLen == |Payload(records)| <= U64_MAX
    modifies workspace
    ensures workspace.Valid()
    ensures r.Ok? <==> AllFit(records, maxRecordBytes) && HEADER_SIZE + payloadLen <= U64_MAX
                       && old(workspace.activeFiles) < workspace.maxFiles
    ensures r.Ok? ==> StagesSorted(workspace, kind, records, maxRecordBytes, r.value)
    ensures workspace.activeFiles == old(workspace.activeFiles) + (if r.Ok? then 1 else 0)
  {
    CountBelowBytes(records, |records|);
    var sorted := SortRecords(records, maxRecordBytes);
    r := workspace.WriteRun(kind, |sorted|, payloadLen, sorted, maxRecordBytes);
    if r.Ok? {
      ContentsAre(workspace.checksum, r.value, sorted, maxRecordBytes);
    }
  }

  class RunCollector {
    const workspace: RunWorkspace
    const kind: RunKind
    const targetBytes: nat
    const maxRecordBytes: nat
    var records: seq<RunRecord>
    var payloadLen: nat
    var runs: seq<StagedRun>
    /** Live files that belong to others. */
    ghost const foreign: nat
    ghost var pushed: seq<RunRecord>
    ghost var flushes: nat

    /** The live-file count is the foreign files and this collector's runs. */
    ghost predicate Accounts()
      reads `runs, workspace
    {
      workspace.Valid() && workspace.activeFiles == foreign + |runs|
    }

    ghost predicate Collects()
      reads `records, `payloadLen, `runs, `pushed
    {
      Collecting(workspace, kind, maxRecordBytes, records, payloadLen, runs, pushed)
    }

    ghost predicate Valid()
      reads this, workspace
    {
      && Accounts() && Collects()
      && Held(workspace.maxFiles, foreign, flushes) == Some(|runs|)
    }

    constructor (workspace: RunWorkspace, kind: RunKind, targetBytes: nat, maxRecordBytes: nat)
      requires workspace.Valid()
      ensures Valid() && runs == [] && records == [] && pushed == [] && flushes == 0
      ensures foreign == workspace.activeFiles && this.workspace == workspace && this.kind == kind
      ensures this.targetBytes == targetBytes && this.maxRecordBytes == maxRecordBytes
    {
      this.workspace, this.kind, this.targetBytes, this.maxRecordBytes := workspace, kind, targetBytes, maxRecordBytes;
      records, payloadLen, runs, foreign, pushed, flushes := [], 0, [], workspace.activeFiles, [], 0;
    }

    /** A collector needs a positive target and room for a record header. */
    static method Create(workspace: RunWorkspace, kind: RunKind, targetBytes: nat, maxRecordBytes: nat)
      returns (r: Result<RunCollector>)
      requires workspace.Valid()
      ensures r.Ok? <==> targetBytes != 0 && maxRecordBytes >= 8
      ensures r.Ok? ==> && fresh(r.value) && r.value.Valid() && r.value.pushed == [] && r.value.flushes == 0
                        && r.value.records == [] && r.value.foreign == workspace.activeFiles
                        && r.value.workspace == workspace && r.value.kind == kind
                        && r.value.targetBytes == targetBytes && r.value.maxRecordBytes == maxRecordBytes
    {
      if targetBytes == 0 || maxRecordBytes < 8 {
        return Err(Internal);
      }
      var collector := new RunCollector(workspace, kind, targetBytes, maxRecordBytes);
      return Ok(collector);
    }

    /** If the next file would take the last slot, merge the staged runs into one. */
    method MakeFileRoom() returns (r: Result<()>)
      requires Accounts() && Collects()
      modifies this, workspace
      ensures Accounts()
      ensures records == old(records) && payloadLen == old(payloadLen) && pushed == old(pushed) && flushes == old(flushes)
      ensures r.Ok? <==> NeedsRoom(workspace.maxFiles, old(workspace.activeFiles), |old(runs)|) ==>
                           old(workspace.activeFiles) < workspace.maxFiles && HEADER_SIZE + SumBytes(old(runs)) <= U64_MAX
      ensures r.Ok? ==> Collects()
                        && |runs| == if NeedsRoom(workspace.maxFiles, old(workspace.activeFiles), |old(runs)|) then 1 else |old(runs)|
      ensures r.Err? ==> runs == []
      ensures !NeedsRoom(workspace.maxFiles, old(workspace.activeFiles), |old(runs)|) ==> runs == old(runs)
    {
      if workspace.maxFiles < 3 {
        return Ok(());
      }
      if workspace.activeFiles + 1 < workspace.maxFiles || |runs| < 2 {
        return Ok(());
      }
      var available := SaturatingSub(workspace.maxFiles, 1);
      var capped := if ONLINE_MERGE_FANOUT < available then ONLINE_MERGE_FANOUT else available;
      var fanout := if capped < 2 then 2 else capped;
      var taken := runs;
      runs := [];
      var merged :- MergeRuns(workspace, kind, taken, fanout, maxRecordBytes);
      MergedCollects(workspace, kind, maxRecordBytes, records, payloadLen, taken, pushed, merged);
      runs := [merged];
      return Ok(());
    }

    /** Sort the buffer and write it to a run. */
    method StageBuffer() returns (r: Result<()>)
      requires Accounts() && Collects()
      modifies `records, `payloadLen, `runs, workspace
      ensures Accounts() && records == [] && payloadLen == 0 && unchanged(`pushed, `flushes)
      ensures r.Ok? <==> StageFits(old(records), old(payloadLen), maxRecordBytes, workspace.maxFiles, old(workspace.activeFiles))
      ensures if r.Ok? then Collects() && |runs| == |old(runs)| + 1 else runs == old(runs)
    {
      var taken, length := records, payloadLen;
      records, payloadLen := [], 0;
      var run :- WriteSorted(workspace, kind, taken, length, maxRecordBytes);
      AddRun(run, taken, length);
      return Ok(());
    }

    /** Hold the run the buffer has become. */
    method AddRun(run: StagedRun, ghost taken: seq<RunRecord>, ghost length: nat)
      requires Collecting(workspace, kind, maxRecordBytes, taken, length, runs, pushed) && records == [] && payloadLen == 0
      requires StagesSorted(workspace, kind, taken, maxRecordBytes, run)
      modifies `runs
      ensures Collects() && runs == old(runs) + [run]
    {
      FlushedCollects(workspace, kind, maxRecordBytes, taken, length, runs, pushed, run);
      runs := runs + [run];
    }

    /** Stage the buffer, then merge if that took the last free slot. A buffer that cannot be staged is
        lost; a merge that fails loses the runs. */
    method StageAndTidy() returns (r: Result<()>)
      requires Accounts() && Collects()
      modifies this, workspace
      ensures Accounts() && pushed == old(pushed) && flushes == old(flushes) && records == [] && payloadLen == 0
      ensures r.Ok? <==> FlushFits(old(records), old(payloadLen), maxRecordBytes, pushed, workspace.maxFiles,
                                   old(workspace.activeFiles), |old(runs)|)
      ensures r.Ok? ==> Collects() && HeldNext(workspace.maxFiles, old(workspace.activeFiles), |old(runs)|) == Some(|runs|)
      ensures r.Err? ==>
                runs == if StageFits(old(records), old(payloadLen), maxRecordBytes, workspace.maxFiles, old(workspace.activeFiles))
                        then [] else old(runs)
    {
      var staged :- StageBuffer();
      r := MakeFileRoom();
    }

    /** Make room, stage the buffer and make room again. A tidy collector needs no room beforehand. */
    method RoomThenStage() returns (r: Result<()>)
      requires Accounts() && Collects() && !NeedsRoom(workspace.maxFiles, workspace.activeFiles, |runs|)
      modifies this, workspace
      ensures Accounts() && pushed == old(pushed) && flushes == old(flushes) && records == [] && payloadLen == 0
      ensures r.Ok? <==> FlushFits(old(records), old(payloadLen), maxRecordBytes, pushed, workspace.maxFiles,
                                   old(workspace.activeFiles), |old(runs)|)
      ensures r.Ok? ==> Collects() && HeldNext(workspace.maxFiles, old(workspace.activeFiles), |old(runs)|) == Some(|runs|)
      ensures r.Err? ==>
                runs == if StageFits(old(records), old(payloadLen), maxRecordBytes, workspace.maxFiles, old(workspace.activeFiles))
                        then [] else old(runs)
    {
      var room := MakeFileRoom();
      match room {
        case Ok(_) =>
          r := StageAndTidy();
        case Err(error) =>
          return Err(error);
      }
    }

    /** Flush a buffer that holds something. */
    method FlushFull() returns (r: Result<()>)
      requires Valid()
      modifies this, workspace
      ensures Accounts() && pushed == old(pushed) && records == [] && payloadLen == 0
      ensures r.Ok? <==> FlushFits(old(records), old(payloadLen), maxRecordBytes, pushed, workspace.maxFiles,
                                   old(workspace.activeFiles), |old(runs)|)
      ensures r.Ok? ==> Valid() && flushes == old(flushes) + 1
      ensures r.Err? ==>
                runs == if StageFits(old(records), old(payloadLen), maxRecordBytes, workspace.maxFiles, old(workspace.activeFiles))
                        then [] else old(runs)
    {
      ghost var active, held := workspace.activeFiles, |runs|;
      HeldNeedsNoRoom(workspace.maxFiles, foreign, flushes, active, held);
      r := RoomThenStage();
      if r.Ok? {
        CountFlush(active, held);
      }
    }

    ghost method CountFlush(active: nat, held: nat)
      requires Held(workspace.maxFiles, foreign, flushes) == Some(held) && active == foreign + held
      requires HeldNext(workspace.maxFiles, active, held) == Some(|runs|)
      modifies `flushes
      ensures Held(workspace.maxFiles, foreign, flushes) == Some(|runs|) && flushes == old(flushes) + 1
    {
      FlushHolds(workspace.maxFiles, foreign, flushes, active, held, |runs|);
      flushes := flushes + 1;
    }

    /** Sort and stage the buffered records, keeping one file slot free. An empty buffer changes nothing.
        Any other flush succeeds exactly when every buffered record is within the limits and the files
        and the totals suffice for the new run and for the merge it may call for. */
    method Flush() returns (r: Result<()>)
      requires Valid()
      modifies this, workspace
      ensures Accounts() && pushed == old(pushed)
      ensures old(records) == [] ==> r.Ok? && unchanged(this) && unchanged(workspace)
      ensures r.Ok? <==> old(records) == [] || FlushFits(old(records), old(payloadLen), maxRecordBytes, pushed,
                                                        workspace.maxFiles, old(workspace.activeFiles), |old(runs)|)
      ensures r.Ok? ==> Valid() && flushes == old(flushes) + (if old(records) == [] then 0 else 1)
      ensures records == [] && (old(records) != [] ==> payloadLen == 0)
      ensures r.Err? ==>
                runs == if StageFits(old(records), old(payloadLen), maxRecordBytes, workspace.maxFiles, old(workspace.activeFiles))
                        then [] else old(runs)
    {
      if records == [] {
        return Ok(());
      }
      r := FlushFull();
    }

    /** Whether buffering one more record would pass the target, so that the buffer is flushed first. */
    predicate Spills(record: RunRecord)
      reads this
    {
      payloadLen != 0 && payloadLen + record.EncodedLen() > targetBytes
    }

    /** Put one record in the buffer. */
    method Buffer(record: RunRecord) returns (r: Result<()>)
      requires Valid()
      modifies this
      ensures r.Ok? <==> old(payloadLen) + record.EncodedLen() <= U64_MAX
      ensures r.Ok? ==> Valid() && pushed == old(pushed) + [record] && records == old(records) + [record]
      ensures runs == old(runs) && flushes == old(flushes)
    {
      if payloadLen + record.EncodedLen() > U64_MAX {
        records := records + [record];
        return Err(Internal);
      }
      PushedCollects(workspace, kind, maxRecordBytes, records, payloadLen, runs, pushed, record);
      records, payloadLen, pushed := records + [record], payloadLen + record.EncodedLen(), pushed + [record];
      return Ok(());
    }

    /** Flush first if the record would take the buffer past its target. */
    method MakeRoomFor(record: RunRecord) returns (r: Result<()>)
      requires Valid() && targetBytes <= U64_MAX && record.EncodedLen() <= U64_MAX
      modifies this, workspace
      ensures Accounts() && pushed == old(pushed)
      ensures r.Ok? <==> (old(Spills(record)) ==>
                            FlushFits(old(records), old(payloadLen), maxRecordBytes, pushed, workspace.maxFiles,
                                      old(workspace.activeFiles), |old(runs)|))
      ensures r.Ok? ==> Valid() && payloadLen + record.EncodedLen() <= U64_MAX
                        && records == (if old(Spills(record)) then [] else old(records))
                        && flushes == FlushesAfter(old(flushes), old(Spills(record)))
      ensures r.Err? ==>
                && records == []
                && runs == if StageFits(old(records), old(payloadLen), maxRecordBytes, workspace.maxFiles, old(workspace.activeFiles))
                           then [] else old(runs)
    {
      if payloadLen != 0 && payloadLen + record.EncodedLen() > targetBytes {
        r := Flush();
      } else {
        r := Ok(());
      }
    }

    /** Take one record. A record above the limit is refused and changes nothing; any other is buffered,
        after a flush exactly when it would pass the target, and refused exactly when that flush fails. */
    method Push(record: RunRecord) returns (r: Result<()>)
      requires Valid() && targetBytes <= U64_MAX && maxRecordBytes <= U64_MAX
      modifies this, workspace
      ensures Accounts()
      ensures r.Ok? <==> && record.EncodedLen() <= maxRecordBytes
                         && (old(Spills(record)) ==>
                               FlushFits(old(records), old(payloadLen), maxRecordBytes, old(pushed), workspace.maxFiles,
                                         old(workspace.activeFiles), |old(runs)|))
      ensures r.Ok? ==> && Valid() && pushed == old(pushed) + [record]
                        && records == BufferAfter(old(records), old(Spills(record)), record)
                        && flushes == FlushesAfter(old(flushes), old(Spills(record)))
      ensures record.EncodedLen() > maxRecordBytes ==>
                && r == Err(if record.EncodedLen() > U64_MAX then Internal else CorruptFile)
                && unchanged(this) && unchanged(workspace)
      ensures r.Err? && record.EncodedLen() <= maxRecordBytes ==>
                && pushed == old(pushed) && records == []
                && runs == if StageFits(old(records), old(payloadLen), maxRecordBytes, workspace.maxFiles, old(workspace.activeFiles))
                           then [] else old(runs)
    {
      var encoded := record.EncodedLen();
      if encoded > U64_MAX {
        return Err(Internal);
      }
      if encoded > maxRecordBytes {
        return Err(CorruptFile);
      }
      var room :- MakeRoomFor(record);
      r := Buffer(record);
    }

    /** Flush what is buffered and hand the runs over. */
    method Finish() returns (r: Result<seq<StagedRun>>)
      requires Valid()
      modifies this, workspace
      ensures Accounts() && pushed == old(pushed)
      ensures r.Ok? <==> old(records) == [] || FlushFits(old(records), old(payloadLen), maxRecordBytes, pushed,
                                                        workspace.maxFiles, old(workspace.activeFiles), |old(runs)|)
      ensures r.Ok? ==> Valid() && records == [] && r.value == runs
                        && flushes == old(flushes) + (if old(records) == [] then 0 else 1)
    {
      var flushed :- Flush();
      return Ok(runs);
    }
  }
}
