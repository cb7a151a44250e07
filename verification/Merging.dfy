/** Merging sorted runs: what is left in each run while records are taken smallest first, and the
    iterator that does so over run readers. */
module Merging {
  import opened Prelude
  import opened Ordering
  import opened RunFormat
  import opened RunFiles

  /** How many records of each list have been taken. */
  ghost predicate Cursors(contents: seq<seq<RunRecord>>, taken: seq<nat>) {
    |taken| == |contents| && forall i | 0 <= i < |taken| :: taken[i] <= |contents[i]|
  }

  /** Everything in the first `k` lists. */
  function Flatten(contents: seq<seq<RunRecord>>, k: nat): seq<RunRecord>
    requires k <= |contents|
  {
    if k == 0 then [] else Flatten(contents, k - 1) + contents[k - 1]
  }

  /** The records not yet taken from the first `k` lists. */
  ghost function Left(contents: seq<seq<RunRecord>>, taken: seq<nat>, k: nat): multiset<RunRecord>
    requires Cursors(contents, taken) && k <= |contents|
  {
    if k == 0 then multiset{} else Left(contents, taken, k - 1) + multiset(contents[k - 1][taken[k - 1]..])
  }

  lemma {:induction false} LeftAtStart(contents: seq<seq<RunRecord>>, taken: seq<nat>, k: nat)
    requires Cursors(contents, taken) && k <= |contents| && forall i | 0 <= i < k :: taken[i] == 0
    ensures Left(contents, taken, k) == multiset(Flatten(contents, k))
  {
    if k > 0 {
      LeftAtStart(contents, taken, k - 1);
      assert contents[k - 1][0..] == contents[k - 1];
    }
  }

  lemma {:induction false} LeftAtEnd(contents: seq<seq<RunRecord>>, taken: seq<nat>, k: nat)
    requires Cursors(contents, taken) && k <= |contents| && forall i | 0 <= i < k :: taken[i] == |contents[i]|
    ensures Left(contents, taken, k) == multiset{}
  {
    if k > 0 {
      LeftAtEnd(contents, taken, k - 1);
    }
  }

  lemma {:induction false} LeftAgrees(contents: seq<seq<RunRecord>>, a: seq<nat>, b: seq<nat>, k: nat)
    requires Cursors(contents, a) && Cursors(contents, b) && k <= |contents| && forall i | 0 <= i < k :: a[i] == b[i]
    ensures Left(contents, a, k) == Left(contents, b, k)
  {
    if k > 0 {
      LeftAgrees(contents, a, b, k - 1);
    }
  }

  lemma FirstOfTail(list: seq<RunRecord>, t: nat)
    requires t < |list|
    ensures multiset(list[t..]) == multiset(list[t + 1..]) + multiset{list[t]}
  {
    assert list[t..] == [list[t]] + list[t + 1..];
  }

  lemma LeftSplits(contents: seq<seq<RunRecord>>, taken: seq<nat>, k: nat, front: multiset<RunRecord>, last: multiset<RunRecord>)
    requires Cursors(contents, taken) && 0 < k <= |contents|
    requires front == Left(contents, taken, k - 1) && last == multiset(contents[k - 1][taken[k - 1]..])
    ensures Left(contents, taken, k) == front + last
  {
  }

  lemma OneMoves(a: multiset<RunRecord>, b: multiset<RunRecord>, x: RunRecord)
    ensures a + (b + multiset{x}) == (a + b) + multiset{x}
    ensures (a + multiset{x}) + b == (a + b) + multiset{x}
  {
  }

  /** Taking the head of list `s` takes exactly that record from what is left. */
  lemma {:induction false} LeftAfterTaking(contents: seq<seq<RunRecord>>, taken: seq<nat>, after: seq<nat>, s: nat, k: nat)
    requires Cursors(contents, taken) && Cursors(contents, after) && s < k <= |contents| && taken[s] < |contents[s]|
    requires after == taken[s := taken[s] + 1]
    ensures Left(contents, taken, k) == Left(contents, after, k) + multiset{contents[s][taken[s]]}
  {
    var x, front, last := contents[s][taken[s]], Left(contents, after, k - 1), multiset(contents[k - 1][after[k - 1]..]);
    if s == k - 1 {
      LeftAgrees(contents, taken, after, s);
      FirstOfTail(contents[s], taken[s]);
      LeftSplits(contents, taken, k, front, last + multiset{x});
    } else {
      LeftAfterTaking(contents, taken, after, s, k - 1);
      LeftSplits(contents, taken, k, front + multiset{x}, last);
    }
    LeftSplits(contents, after, k, front, last);
    OneMoves(front, last, x);
  }

  /** The next record of list `i` is `r`. */
  ghost predicate Head(contents: seq<seq<RunRecord>>, taken: seq<nat>, i: nat, r: RunRecord)
    requires Cursors(contents, taken)
  {
    i < |contents| && taken[i] < |contents[i]| && contents[i][taken[i]] == r
  }

  ghost predicate AllSorted(contents: seq<seq<RunRecord>>) {
    forall i | 0 <= i < |contents| :: Sorted(contents[i], RecordLe)
  }

  /** `out` is a sorted part of the lists' records, none above any record not yet taken. */
  ghost predicate Merged(contents: seq<seq<RunRecord>>, taken: seq<nat>, out: seq<RunRecord>) {
    && Cursors(contents, taken) && AllSorted(contents)
    && multiset(out) + Left(contents, taken, |contents|) == multiset(Flatten(contents, |contents|))
    && Sorted(out, RecordLe)
    && (forall i, r | out != [] && Head(contents, taken, i, r) :: RecordLe(out[|out| - 1], r))
  }

  /** The head of list `s` is no larger than any other head. */
  ghost predicate LeastHead(contents: seq<seq<RunRecord>>, taken: seq<nat>, s: nat)
    requires Cursors(contents, taken)
  {
    s < |contents| && taken[s] < |contents[s]|
    && forall i, r | Head(contents, taken, i, r) :: RecordLe(contents[s][taken[s]], r)
  }

  lemma TakingLeastStaysMerged(contents: seq<seq<RunRecord>>, taken: seq<nat>, out: seq<RunRecord>, s: nat)
    requires Merged(contents, taken, out) && LeastHead(contents, taken, s)
    ensures Merged(contents, taken[s := taken[s] + 1], out + [contents[s][taken[s]]])
  {
    var x, after := contents[s][taken[s]], taken[s := taken[s] + 1];
    LeftAfterTaking(contents, taken, after, s, |contents|);
    assert Head(contents, taken, s, x);
    assert Sorted(out + [x], RecordLe) by {
      RecordOrder();
      SortedAppends(out, x, RecordLe);
    }
    forall i, r | Head(contents, after, i, r)
      ensures RecordLe(x, r)
    {
      if i == s {
        assert RecordLe(contents[s][taken[s]], contents[s][taken[s] + 1]);
      } else {
        assert Head(contents, taken, i, r);
      }
    }
  }

  /** `out` is a sorted arrangement of everything in the lists, duplicates kept. */
  ghost predicate SortedUnion(contents: seq<seq<RunRecord>>, out: seq<RunRecord>) {
    Sorted(out, RecordLe) && multiset(out) == multiset(Flatten(contents, |contents|))
  }

  lemma MergedAtEnd(contents: seq<seq<RunRecord>>, taken: seq<nat>, out: seq<RunRecord>)
    requires Merged(contents, taken, out) && forall i | 0 <= i < |contents| :: taken[i] == |contents[i]|
    ensures SortedUnion(contents, out)
  {
    LeftAtEnd(contents, taken, |contents|);
  }

  /** The merge heap holds at most one entry a source: that source's next record. */
  ghost predicate HeapOfHeads(heap: map<nat, RunRecord>, contents: seq<seq<RunRecord>>, taken: seq<nat>)
    requires Cursors(contents, taken)
  {
    && (forall i | i in heap :: Head(contents, taken, i, heap[i]))
    && (forall i | 0 <= i < |contents| && taken[i] < |contents[i]| :: i in heap)
  }

  /** Heap entries order by record, then by source. */
  predicate EntryLe(a: RunRecord, i: nat, b: RunRecord, j: nat) {
    if a == b then i <= j else RecordLe(a, b)
  }

  predicate IsLeast(heap: map<nat, RunRecord>, least: nat) {
    least in heap && forall i | i in heap :: EntryLe(heap[least], least, heap[i], i)
  }

  /** The source of the least entry. */
  method LeastEntry(heap: map<nat, RunRecord>, sources: nat) returns (least: nat)
    requires heap != map[] && forall i | i in heap :: i < sources
    ensures IsLeast(heap, least)
  {
    var best: Option<nat> := None;
    for i := 0 to sources
      invariant best.Some? ==> best.value in heap && best.value < i
      invariant forall j | j in heap && j < i :: best.Some? && EntryLe(heap[best.value], best.value, heap[j], j)
    {
      if i in heap && (best.None? || !EntryLe(heap[best.value], best.value, heap[i], i)) {
        if best.Some? {
          NewLeast(heap, i, best.value);
        }
        EntryReflexive(heap[i], i);
        best := Some(i);
      }
    }
    assert exists i :: i in heap;
    least := best.value;
  }

  lemma EntryReflexive(r: RunRecord, i: nat)
    ensures EntryLe(r, i, r, i)
  {
  }

  lemma NewLeast(heap: map<nat, RunRecord>, i: nat, best: nat)
    requires i in heap && best in heap && !EntryLe(heap[best], best, heap[i], i) && best < i
    ensures forall j | j in heap && EntryLe(heap[best], best, heap[j], j) :: EntryLe(heap[i], i, heap[j], j)
  {
    RecordOrder();
    forall j | j in heap && EntryLe(heap[best], best, heap[j], j)
      ensures EntryLe(heap[i], i, heap[j], j)
    {
      assert RecordLe(heap[i], heap[best]) && RecordLe(heap[best], heap[j]);
    }
  }

  lemma LeastEntryIsLeastHead(heap: map<nat, RunRecord>, contents: seq<seq<RunRecord>>, taken: seq<nat>, s: nat)
    requires Cursors(contents, taken) && HeapOfHeads(heap, contents, taken)
    requires IsLeast(heap, s)
    ensures LeastHead(contents, taken, s) && heap[s] == contents[s][taken[s]]
  {
    assert Head(contents, taken, s, heap[s]);
    RecordOrder();
    forall i, r | Head(contents, taken, i, r)
      ensures RecordLe(contents[s][taken[s]], r)
    {
      assert i in heap && heap[i] == r;
    }
  }

  lemma {:induction false} FlattenAgrees(a: seq<seq<RunRecord>>, b: seq<seq<RunRecord>>, k: nat)
    requires k <= |a| && k <= |b| && forall i | 0 <= i < k :: a[i] == b[i]
    ensures Flatten(a, k) == Flatten(b, k)
  {
    if k > 0 {
      FlattenAgrees(a, b, k - 1);
    }
  }

  lemma {:induction false} LeftSame(a: seq<seq<RunRecord>>, b: seq<seq<RunRecord>>, taken: seq<nat>, k: nat)
    requires Cursors(a, taken) && Cursors(b, taken) && k <= |a| == |b| && forall i | 0 <= i < k :: a[i] == b[i]
    ensures Left(a, taken, k) == Left(b, taken, k)
  {
    if k > 0 {
      LeftSame(a, b, taken, k - 1);
    }
  }

  /** Reading one more record of list `s` adds exactly that record to what is left. */
  lemma {:induction false} LeftExtends(contents: seq<seq<RunRecord>>, longer: seq<seq<RunRecord>>, taken: seq<nat>, s: nat,
                                      r: RunRecord, k: nat)
    requires Cursors(contents, taken) && Cursors(longer, taken) && s < k <= |contents| == |longer|
    requires longer == contents[s := contents[s] + [r]]
    ensures Left(longer, taken, k) == Left(contents, taken, k) + multiset{r}
  {
    var front, last := Left(contents, taken, k - 1), multiset(contents[k - 1][taken[k - 1]..]);
    if s == k - 1 {
      LeftSame(contents, longer, taken, s);
      TailExtends(contents[s], taken[s], r);
      LeftSplits(longer, taken, k, front, last + multiset{r});
    } else {
      LeftExtends(contents, longer, taken, s, r, k - 1);
      LeftSplits(longer, taken, k, front + multiset{r}, last);
    }
    LeftSplits(contents, taken, k, front, last);
    OneMoves(front, last, r);
  }

  lemma TailExtends(list: seq<RunRecord>, t: nat, r: RunRecord)
    requires t <= |list|
    ensures multiset((list + [r])[t..]) == multiset(list[t..]) + multiset{r}
  {
    assert (list + [r])[t..] == list[t..] + [r];
  }

  lemma FlattenSplits(contents: seq<seq<RunRecord>>, k: nat, front: multiset<RunRecord>, last: multiset<RunRecord>)
    requires 0 < k <= |contents| && front == multiset(Flatten(contents, k - 1)) && last == multiset(contents[k - 1])
    ensures multiset(Flatten(contents, k)) == front + last
  {
  }

  lemma {:induction false} FlattenExtends(contents: seq<seq<RunRecord>>, longer: seq<seq<RunRecord>>, s: nat, r: RunRecord, k: nat)
    requires s < k <= |contents| == |longer| && longer == contents[s := contents[s] + [r]]
    ensures multiset(Flatten(longer, k)) == multiset(Flatten(contents, k)) + multiset{r}
  {
    var front, last := multiset(Flatten(contents, k - 1)), multiset(contents[k - 1]);
    if s == k - 1 {
      FlattenAgrees(contents, longer, s);
      FlattenSplits(longer, k, front, last + multiset{r});
    } else {
      FlattenExtends(contents, longer, s, r, k - 1);
      FlattenSplits(longer, k, front + multiset{r}, last);
    }
    FlattenSplits(contents, k, front, last);
    OneMoves(front, last, r);
  }

  lemma PoolExtends(contents: seq<seq<RunRecord>>, longer: seq<seq<RunRecord>>, taken: seq<nat>, out: seq<RunRecord>,
                    s: nat, r: RunRecord)
    requires Cursors(contents, taken) && Cursors(longer, taken) && s < |contents| == |longer|
    requires longer == contents[s := contents[s] + [r]]
    requires multiset(out) + Left(contents, taken, |contents|) == multiset(Flatten(contents, |contents|))
    ensures multiset(out) + Left(longer, taken, |longer|) == multiset(Flatten(longer, |longer|))
  {
    LeftExtends(contents, longer, taken, s, r, |contents|);
    FlattenExtends(contents, longer, s, r, |contents|);
    OneMoves(multiset(out), Left(contents, taken, |contents|), r);
  }

  /** A list may grow by a record not below its last one nor below anything already out. */
  lemma ExtendingStaysMerged(contents: seq<seq<RunRecord>>, longer: seq<seq<RunRecord>>, taken: seq<nat>, out: seq<RunRecord>,
                             s: nat, r: RunRecord)
    requires Merged(contents, taken, out) && s < |contents| && taken[s] == |contents[s]|
    requires longer == contents[s := contents[s] + [r]]
    requires contents[s] != [] ==> RecordLe(contents[s][|contents[s]| - 1], r)
    requires out != [] ==> RecordLe(out[|out| - 1], r)
    ensures Merged(longer, taken, out)
  {
    PoolExtends(contents, longer, taken, out, s, r);
    RecordOrder();
    SortedAppends(contents[s], r, RecordLe);
    forall i, h | out != [] && Head(longer, taken, i, h)
      ensures RecordLe(out[|out| - 1], h)
    {
      assert i == s || Head(contents, taken, i, h);
    }
  }

  /** A merge in progress: what has been read of each list, how much of it has come out, the heap and
      what has come out. The heap holds what has been read but is not out. */
  datatype Merge = Merge(seen: seq<seq<RunRecord>>, taken: seq<nat>, heap: map<nat, RunRecord>, out: seq<RunRecord>) {
    ghost predicate Sound() {
      && Merged(seen, taken, out) && HeapOfHeads(heap, seen, taken)
      && forall i | 0 <= i < |seen| :: |seen[i]| <= taken[i] + 1
    }

    /** The entry of list `s` comes out. */
    function Popped(s: nat): Merge
      requires s in heap && s < |taken|
    {
      Merge(seen, taken[s := taken[s] + 1], heap - {s}, out + [heap[s]])
    }

    /** One more record of list `s` is read. */
    function Pushed(s: nat, r: RunRecord): Merge
      requires s < |seen|
    {
      Merge(seen[s := seen[s] + [r]], taken, heap[s := r], out)
    }
  }

  lemma HeadInRange(m: Merge, s: nat)
    requires m.Sound() && s in m.heap
    ensures s < |m.seen| == |m.taken| && m.taken[s] + 1 == |m.seen[s]| && m.heap[s] == m.seen[s][m.taken[s]]
  {
    assert Head(m.seen, m.taken, s, m.heap[s]);
  }

  lemma HeapInRange(m: Merge)
    requires m.Sound()
    ensures forall i | i in m.heap :: i < |m.seen|
  {
    forall i | i in m.heap
      ensures i < |m.seen|
    {
      HeadInRange(m, i);
    }
  }

  lemma PoppedHeap(m: Merge, s: nat)
    requires m.Sound() && s in m.heap && s < |m.taken|
    ensures Cursors(m.seen, m.Popped(s).taken) && HeapOfHeads(m.Popped(s).heap, m.seen, m.Popped(s).taken)
  {
    HeadInRange(m, s);
    var p := m.Popped(s);
    forall i | i in p.heap
      ensures Head(m.seen, p.taken, i, p.heap[i])
    {
      assert Head(m.seen, m.taken, i, m.heap[i]);
    }
  }

  lemma PoppedIsSound(m: Merge, s: nat)
    requires m.Sound() && IsLeast(m.heap, s)
    ensures s < |m.seen| == |m.taken| && m.Popped(s).Sound()
    ensures m.seen[s] != [] && m.heap[s] == m.seen[s][|m.seen[s]| - 1] && m.Popped(s).taken[s] == |m.seen[s]|
  {
    HeadInRange(m, s);
    LeastEntryIsLeastHead(m.heap, m.seen, m.taken, s);
    TakingLeastStaysMerged(m.seen, m.taken, m.out, s);
    PoppedHeap(m, s);
  }

  lemma PushedHeap(m: Merge, s: nat, r: RunRecord)
    requires HeapOfHeadsOf(m) && s < |m.seen| && m.taken[s] == |m.seen[s]|
    ensures HeapOfHeadsOf(m.Pushed(s, r))
  {
    var p := m.Pushed(s, r);
    forall i | i in p.heap
      ensures Head(p.seen, p.taken, i, p.heap[i])
    {
      assert i == s || Head(m.seen, m.taken, i, m.heap[i]);
    }
  }

  ghost predicate HeapOfHeadsOf(m: Merge) {
    Cursors(m.seen, m.taken) && HeapOfHeads(m.heap, m.seen, m.taken)
  }

  lemma PushedIsSound(m: Merge, s: nat, r: RunRecord)
    requires m.Sound() && s < |m.seen| && m.taken[s] == |m.seen[s]|
    requires m.seen[s] != [] ==> RecordLe(m.seen[s][|m.seen[s]| - 1], r)
    requires m.out != [] ==> RecordLe(m.out[|m.out| - 1], r)
    ensures m.Pushed(s, r).Sound()
  {
    ExtendingStaysMerged(m.seen, m.Pushed(s, r).seen, m.taken, m.out, s, r);
    PushedHeap(m, s, r);
  }

  lemma ExhaustedIsMerged(m: Merge)
    requires m.Sound() && m.heap == map[]
    ensures SortedUnion(m.seen, m.out)
  {
    MergedAtEnd(m.seen, m.taken, m.out);
  }

  /** A merge of `count` lists before anything has been read. */
  function Blank(count: nat): Merge {
    Merge(seq(count, _ => []), seq(count, _ => 0), map[], [])
  }

  lemma BlankIsSound(count: nat)
    ensures Blank(count).Sound()
  {
    LeftAtStart(Blank(count).seen, Blank(count).taken, count);
  }

  /** The records each run stores. */
  ghost function ListsOf(checksum: Checksum, runs: seq<StagedRun>, maxRecordBytes: nat): (lists: seq<seq<RunRecord>>)
    ensures |lists| == |runs|
  {
    seq(|runs|, i requires 0 <= i < |runs| => ContentsOf(checksum, runs[i], maxRecordBytes))
  }

  ghost predicate AllStored(checksum: Checksum, runs: seq<StagedRun>, maxRecordBytes: nat) {
    forall i | 0 <= i < |runs| :: Stores(checksum, runs[i], ContentsOf(checksum, runs[i], maxRecordBytes), maxRecordBytes)
  }

  /** A reader that has returned `seen` of a run, which is a prefix of what the run stores if it stores
      anything. */
  ghost predicate Reads(reader: RunReader, checksum: Checksum, run: StagedRun, maxRecordBytes: nat, seen: seq<RunRecord>)
    reads reader
  {
    && reader.Valid() && reader.seen == seen
    && reader.checksum == checksum && reader.run == run && reader.maxRecordBytes == maxRecordBytes
    && (var all := ContentsOf(checksum, run, maxRecordBytes); Stores(checksum, run, all, maxRecordBytes) ==> seen <= all)
  }

  /** One reader for each run. */
  ghost predicate AllRead(readers: seq<RunReader>, checksum: Checksum, runs: seq<StagedRun>, maxRecordBytes: nat,
                          seen: seq<seq<RunRecord>>)
    reads readers
  {
    && |readers| == |runs| == |seen|
    && (forall i, j | 0 <= i < j < |readers| :: readers[i] != readers[j])
    && (forall i | 0 <= i < |readers| :: Reads(readers[i], checksum, runs[i], maxRecordBytes, seen[i]))
  }

  /** Of the first `k` runs, those with no entry in the heap have been read to their end. */
  ghost predicate Ended(checksum: Checksum, runs: seq<StagedRun>, maxRecordBytes: nat, m: Merge, k: nat) {
    && k <= |runs| == |m.seen|
    && forall i | 0 <= i < k && i !in m.heap :: Stores(checksum, runs[i], m.seen[i], maxRecordBytes)
  }

  /** Each run stores exactly what has been read of it. */
  ghost predicate AllEnded(checksum: Checksum, runs: seq<StagedRun>, maxRecordBytes: nat, seen: seq<seq<RunRecord>>) {
    && |runs| == |seen|
    && forall i | 0 <= i < |runs| :: Stores(checksum, runs[i], seen[i], maxRecordBytes)
  }

  /** The entry of list `s` comes out and its place is refilled, unless the list has ended. */
  function Moved(m: Merge, s: nat, next: Option<RunRecord>): Merge
    requires s in m.heap && s < |m.taken| && s < |m.seen|
  {
    match next
    case None => m.Popped(s)
    case Some(r) => m.Popped(s).Pushed(s, r)
  }

  lemma MovedIsSound(m: Merge, s: nat, next: Option<RunRecord>)
    requires m.Sound() && IsLeast(m.heap, s) && s < |m.taken| && s < |m.seen|
    requires next.Some? && m.seen[s] != [] ==> RecordLe(m.seen[s][|m.seen[s]| - 1], next.value)
    ensures Moved(m, s, next).Sound()
  {
    PoppedIsSound(m, s);
    if next.Some? {
      PushedIsSound(m.Popped(s), s, next.value);
    }
  }

  lemma MovedEnded(checksum: Checksum, runs: seq<StagedRun>, maxRecordBytes: nat, m: Merge, s: nat, next: Option<RunRecord>)
    requires Ended(checksum, runs, maxRecordBytes, m, |runs|) && s in m.heap && s < |m.taken| && s < |m.seen|
    requires next.None? ==> Stores(checksum, runs[s], m.seen[s], maxRecordBytes)
    ensures Ended(checksum, runs, maxRecordBytes, Moved(m, s, next), |runs|)
  {
  }

  lemma NextContinues(seen: seq<RunRecord>, all: seq<RunRecord>, r: RunRecord)
    requires seen <= all && NextOf(seen, all) == Some(r)
    ensures seen + [r] <= all
  {
  }

  /** Read one record: it continues the run in order, or the run ends, or the run is damaged. */
  method ReadOn(reader: RunReader, ghost checksum: Checksum, ghost run: StagedRun, ghost maxRecordBytes: nat,
                ghost seen: seq<RunRecord>)
    returns (next: Result<Option<RunRecord>>)
    requires Reads(reader, checksum, run, maxRecordBytes, seen)
    modifies reader
    ensures match next
            case Ok(Some(r)) =>
              Reads(reader, checksum, run, maxRecordBytes, seen + [r]) && (seen != [] ==> RecordLe(seen[|seen| - 1], r))
            case Ok(None) =>
              Reads(reader, checksum, run, maxRecordBytes, seen) && Stores(checksum, run, seen, maxRecordBytes)
            case Err(_) =>
              !Stores(checksum, run, ContentsOf(checksum, run, maxRecordBytes), maxRecordBytes)
  {
    ghost var all := ContentsOf(checksum, run, maxRecordBytes);
    next := reader.NextRecord(all);
    match next
    case Ok(Some(r)) =>
      if Stores(checksum, run, all, maxRecordBytes) {
        NextContinues(seen, all, r);
      }
      assert Sorted(reader.seen, RecordLe) && reader.seen == seen + [r];
      assert seen != [] ==> RecordLe(reader.seen[|seen| - 1], reader.seen[|seen|]);
    case _ =>
  }

  /** Read one record of run `s`, the other readers staying where they are. */
  method ReadRun(readers: seq<RunReader>, s: nat, ghost checksum: Checksum, ghost runs: seq<StagedRun>,
                 ghost maxRecordBytes: nat, ghost seen: seq<seq<RunRecord>>)
    returns (next: Result<Option<RunRecord>>)
    requires AllRead(readers, checksum, runs, maxRecordBytes, seen) && s < |readers|
    modifies readers[s]
    ensures match next
            case Ok(Some(r)) =>
              && AllRead(readers, checksum, runs, maxRecordBytes, seen[s := seen[s] + [r]])
              && (seen[s] != [] ==> RecordLe(seen[s][|seen[s]| - 1], r))
            case Ok(None) =>
              AllRead(readers, checksum, runs, maxRecordBytes, seen) && Stores(checksum, runs[s], seen[s], maxRecordBytes)
            case Err(_) =>
              !AllStored(checksum, runs, maxRecordBytes)
  {
    next := ReadOn(readers[s], checksum, runs[s], maxRecordBytes, seen[s]);
    assert forall i | 0 <= i < |readers| && i != s :: readers[i] != readers[s];
  }

  class MergeIterator {
    const readers: seq<RunReader>
    var heap: map<nat, RunRecord>
    ghost const checksum: Checksum
    ghost const runs: seq<StagedRun>
    ghost const maxRecordBytes: nat
    /** What has been read of each run, how much of it has been returned, and the records returned. */
    ghost var seen: seq<seq<RunRecord>>
    ghost var taken: seq<nat>
    ghost var emitted: seq<RunRecord>

    constructor (readers: seq<RunReader>, ghost checksum: Checksum, ghost runs: seq<StagedRun>, ghost maxRecordBytes: nat,
                 heap: map<nat, RunRecord>, ghost m: Merge)
      requires m.heap == heap
      ensures this.readers == readers && this.checksum == checksum && this.runs == runs && this.maxRecordBytes == maxRecordBytes
      ensures State() == m
    {
      this.readers, this.checksum, this.runs, this.maxRecordBytes := readers, checksum, runs, maxRecordBytes;
      this.heap, seen, taken, emitted := heap, m.seen, m.taken, m.out;
    }

    ghost function State(): Merge
      reads this
    {
      Merge(seen, taken, heap, emitted)
    }

    ghost predicate Valid()
      reads this, readers
    {
      && State().Sound() && AllRead(readers, checksum, runs, maxRecordBytes, seen)
      && Ended(checksum, runs, maxRecordBytes, State(), |runs|)
    }

    /** Take the entry of run `s` off the heap and put the record read after it, if any, in its place. */
    method Move(s: nat, next: Option<RunRecord>, ghost m: Merge) returns (entry: RunRecord)
      requires m == State() && s in m.heap && s < |m.taken| && s < |m.seen|
      requires AllRead(readers, checksum, runs, maxRecordBytes, Moved(m, s, next).seen)
      modifies this
      ensures State() == Moved(m, s, next) && emitted == m.out + [entry]
      ensures AllRead(readers, checksum, runs, maxRecordBytes, seen)
    {
      ghost var moved := Moved(m, s, next);
      entry := heap[s];
      heap := heap - {s};
      if next.Some? {
        heap := heap[s := next.value];
      }
      seen, taken, emitted := moved.seen, moved.taken, moved.out;
    }

    /** Hand out the entry of run `s`, the least, and read that run on. */
    method Draw(s: nat, ghost m: Merge) returns (r: Result<RunRecord>)
      requires m == State() && m.Sound() && IsLeast(m.heap, s) && s < |m.seen| == |m.taken|
      requires AllRead(readers, checksum, runs, maxRecordBytes, m.seen) && Ended(checksum, runs, maxRecordBytes, m, |runs|)
      modifies this, readers
      ensures r.Ok? ==> Valid() && emitted == m.out + [r.value]
      ensures r.Err? ==> !AllStored(checksum, runs, maxRecordBytes)
    {
      var next := ReadRun(readers, s, checksum, runs, maxRecordBytes, m.seen);
      match next
      case Err(error) =>
        heap := heap - {s};
        return Err(error);
      case Ok(record) =>
        MovedIsSound(m, s, record);
        MovedEnded(checksum, runs, maxRecordBytes, m, s, record);
        var entry := Move(s, record, m);
        return Ok(entry);
    }

    /** Return the least record among the runs' next ones. The end comes when every run has been read
        to its end: each then stores what was read of it, and what has come out is their sorted union.
        An error comes only from a damaged run. */
    method Next() returns (r: Option<Result<RunRecord>>)
      requires Valid()
      modifies this, readers
      ensures r.None? ==> && unchanged(this) && unchanged(readers) && SortedUnion(seen, emitted)
                          && AllEnded(checksum, runs, maxRecordBytes, seen)
      ensures r.Some? && r.value.Ok? ==> Valid() && emitted == old(emitted) + [r.value.value]
      ensures r.Some? && r.value.Err? ==> !AllStored(checksum, runs, maxRecordBytes)
    {
      if heap == map[] {
        ExhaustedIsMerged(State());
        return None;
      }
      HeapInRange(State());
      var s := LeastEntry(heap, |readers|);
      HeadInRange(State(), s);
      var drawn := Draw(s, State());
      return Some(drawn);
    }

    /** Draw every record. It succeeds exactly when no run is damaged. */
    method Drain() returns (r: Result<seq<RunRecord>>)
      requires Valid() && emitted == []
      modifies this, readers
      ensures r.Ok? ==> AllEnded(checksum, runs, maxRecordBytes, seen) && SortedUnion(seen, r.value)
      ensures r.Err? ==> !AllStored(checksum, runs, maxRecordBytes)
    {
      var records := [];
      while true
        invariant Valid() && records == emitted
        decreases RecordTotal(runs, |runs|) - |emitted|
      {
        var next := Next();
        if next.None? {
          return Ok(records);
        }
        match next.value {
          case Ok(record) =>
            records := records + [record];
            EmittedBounded();
          case Err(error) =>
            return Err(error);
        }
      }
    }

    lemma EmittedBounded()
      requires Valid()
      ensures |emitted| <= RecordTotal(runs, |runs|)
    {
      OutBounded(runs, State());
    }
  }

  /** The records the first `k` run headers declare. */
  function RecordTotal(runs: seq<StagedRun>, k: nat): nat
    requires k <= |runs|
  {
    if k == 0 then 0 else RecordTotal(runs, k - 1) + runs[k - 1].header.recordCount
  }

  lemma {:induction false} FlattenBounded(runs: seq<StagedRun>, seen: seq<seq<RunRecord>>, k: nat)
    requires k <= |runs| == |seen| && forall i | 0 <= i < |runs| :: |seen[i]| <= runs[i].header.recordCount
    ensures |Flatten(seen, k)| <= RecordTotal(runs, k)
  {
    if k > 0 {
      FlattenBounded(runs, seen, k - 1);
    }
  }

  lemma OutBounded(runs: seq<StagedRun>, m: Merge)
    requires Merged(m.seen, m.taken, m.out) && |runs| == |m.seen|
    requires forall i | 0 <= i < |runs| :: |m.seen[i]| <= runs[i].header.recordCount
    ensures |m.out| <= RecordTotal(runs, |runs|)
  {
    var all := Flatten(m.seen, |m.seen|);
    assert |multiset(m.out)| == |m.out| && |multiset(all)| == |all|;
    FlattenBounded(runs, m.seen, |runs|);
  }

  ghost predicate HeadersOk(runs: seq<StagedRun>) {
    forall i | 0 <= i < |runs| :: runs[i].header.WellFormed()
  }

  lemma BlankGrows(readers: seq<RunReader>, checksum: Checksum, runs: seq<StagedRun>, maxRecordBytes: nat, reader: RunReader)
    requires |readers| < |runs| && AllRead(readers, checksum, runs[..|readers|], maxRecordBytes, Blank(|readers|).seen)
    requires reader !in readers && Reads(reader, checksum, runs[|readers|], maxRecordBytes, [])
    ensures AllRead(readers + [reader], checksum, runs[..|readers| + 1], maxRecordBytes, Blank(|readers| + 1).seen)
  {
  }

  /** Open a reader on every run. */
  method OpenReaders(checksum: Checksum, runs: seq<StagedRun>, maxRecordBytes: nat) returns (r: Result<seq<RunReader>>)
    requires HeadersOk(runs)
    ensures r.Ok? ==> fresh(r.value) && AllRead(r.value, checksum, runs, maxRecordBytes, Blank(|runs|).seen)
    ensures r.Err? ==> !AllStored(checksum, runs, maxRecordBytes)
  {
    var readers := [];
    for i := 0 to |runs|
      invariant |readers| == i && fresh(readers)
      invariant AllRead(readers, checksum, runs[..i], maxRecordBytes, Blank(i).seen)
    {
      var reader :- RunReader.Open(checksum, runs[i], maxRecordBytes);
      assert reader !in readers;
      BlankGrows(readers, checksum, runs, maxRecordBytes, reader);
      readers := readers + [reader];
    }
    assert runs[..|runs|] == runs;
    return Ok(readers);
  }

  /** The first `k` runs have their first record in the heap, if any; the others have not been read. */
  ghost predicate PrimedTo(checksum: Checksum, runs: seq<StagedRun>, maxRecordBytes: nat, m: Merge, k: nat) {
    && m.Sound() && m.out == [] && Ended(checksum, runs, maxRecordBytes, m, k)
    && forall i | k <= i < |runs| :: m.seen[i] == [] && m.taken[i] == 0
  }

  lemma BlankIsPrimed(checksum: Checksum, runs: seq<StagedRun>, maxRecordBytes: nat)
    ensures PrimedTo(checksum, runs, maxRecordBytes, Blank(|runs|), 0)
  {
    BlankIsSound(|runs|);
  }

  /** The merge once the first record of list `k` has been read. */
  function Primed(m: Merge, k: nat, first: Option<RunRecord>): Merge
    requires k < |m.seen|
  {
    match first
    case None => m
    case Some(r) => m.Pushed(k, r)
  }

  lemma PrimedOneMore(checksum: Checksum, runs: seq<StagedRun>, maxRecordBytes: nat, m: Merge, k: nat, first: Option<RunRecord>)
    requires PrimedTo(checksum, runs, maxRecordBytes, m, k) && k < |runs|
    requires first.None? ==> Stores(checksum, runs[k], m.seen[k], maxRecordBytes)
    ensures PrimedTo(checksum, runs, maxRecordBytes, Primed(m, k, first), k + 1)
  {
    if first.Some? {
      PushedIsSound(m, k, first.value);
    }
  }

  /** Read the first record of every run into the heap. */
  method Prime(readers: seq<RunReader>, ghost checksum: Checksum, ghost runs: seq<StagedRun>, ghost maxRecordBytes: nat)
    returns (r: Result<map<nat, RunRecord>>, ghost m: Merge)
    requires AllRead(readers, checksum, runs, maxRecordBytes, Blank(|runs|).seen)
    modifies readers
    ensures r.Ok? ==> && m.heap == r.value && AllRead(readers, checksum, runs, maxRecordBytes, m.seen)
                      && PrimedTo(checksum, runs, maxRecordBytes, m, |runs|)
    ensures r.Err? ==> !AllStored(checksum, runs, maxRecordBytes)
  {
    var heap := map[];
    m := Blank(|runs|);
    BlankIsPrimed(checksum, runs, maxRecordBytes);
    for k := 0 to |readers|
      invariant m.heap == heap && AllRead(readers, checksum, runs, maxRecordBytes, m.seen)
      invariant PrimedTo(checksum, runs, maxRecordBytes, m, k)
    {
      var first := ReadRun(readers, k, checksum, runs, maxRecordBytes, m.seen);
      match first {
        case Ok(record) =>
          PrimedOneMore(checksum, runs, maxRecordBytes, m, k, record);
          m := Primed(m, k, record);
          heap := if record.Some? then heap[k := record.value] else heap;
        case Err(error) =>
          return Err(error), m;
      }
    }
    return Ok(heap), m;
  }

  /** Open a merge over staged files: refused only if one of them is damaged. */
  method OpenMerge(checksum: Checksum, runs: seq<StagedRun>, maxRecordBytes: nat) returns (r: Result<MergeIterator>)
    requires HeadersOk(runs)
    ensures r.Ok? ==> && fresh(r.value) && fresh(r.value.readers) && r.value.Valid() && r.value.emitted == []
                      && r.value.checksum == checksum && r.value.runs == runs && r.value.maxRecordBytes == maxRecordBytes
    ensures r.Err? ==> !AllStored(checksum, runs, maxRecordBytes)
  {
    var readers :- OpenReaders(checksum, runs, maxRecordBytes);
    var primed;
    ghost var m;
    primed, m := Prime(readers, checksum, runs, maxRecordBytes);
    if primed.Err? {
      return Err(primed.error);
    }
    var merge := new MergeIterator(readers, checksum, runs, maxRecordBytes, primed.value, m);
    return Ok(merge);
  }

  lemma EndedLists(checksum: Checksum, runs: seq<StagedRun>, maxRecordBytes: nat, seen: seq<seq<RunRecord>>)
    requires AllEnded(checksum, runs, maxRecordBytes, seen)
    ensures AllStored(checksum, runs, maxRecordBytes) && seen == ListsOf(checksum, runs, maxRecordBytes)
  {
    forall i | 0 <= i < |runs|
      ensures ContentsOf(checksum, runs[i], maxRecordBytes) == seen[i]
    {
      ContentsAre(checksum, runs[i], seen[i], maxRecordBytes);
    }
  }

  /** Open a merge and draw every record: it succeeds exactly when every file stores a sorted list of
      records within the limits, and then yields their sorted union. */
  method MergeRecords(checksum: Checksum, runs: seq<StagedRun>, maxRecordBytes: nat) returns (r: Result<seq<RunRecord>>)
    requires HeadersOk(runs)
    ensures r.Ok? <==> AllStored(checksum, runs, maxRecordBytes)
    ensures r.Ok? ==> SortedUnion(ListsOf(checksum, runs, maxRecordBytes), r.value) && AllInOrder(r.value)
  {
    var merge :- OpenMerge(checksum, runs, maxRecordBytes);
    r := merge.Drain();
    if r.Ok? {
      EndedLists(checksum, runs, maxRecordBytes, merge.seen);
      SortedIsInOrder(r.value);
    }
  }
}
