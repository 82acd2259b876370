/** The batches of `_upload_parallel_entries` (`openadb/core/acbridge_p2p.py`): the loop that
    fills them in place, and what every resulting distribution guarantees. */
module Batching {
  import opened P2PEntries
  import opened Scheduler

  function SizesOf(entries: seq<P2PEntry>): (sizes: seq<nat>)
    ensures |sizes| == |entries| && forall i :: 0 <= i < |entries| ==> sizes[i] == entries[i].size
  {
    seq(|entries|, i requires 0 <= i < |entries| => entries[i].size)
  }

  function InsertBySize(e: P2PEntry, sorted: seq<P2PEntry>): seq<P2PEntry> {
    if sorted == [] || e.size >= sorted[0].size then [e] + sorted
    else [sorted[0]] + InsertBySize(e, sorted[1..])
  }

  /** The stable sort by size, largest first. */
  function LongestFirst(files: seq<P2PEntry>): seq<P2PEntry> {
    if files == [] then [] else InsertBySize(files[0], LongestFirst(files[1..]))
  }

  lemma {:induction false} InsertKeepsEntries(e: P2PEntry, sorted: seq<P2PEntry>)
    ensures multiset(InsertBySize(e, sorted)) == multiset(sorted) + multiset{e}
  {
    if sorted != [] && e.size < sorted[0].size {
      assert sorted == [sorted[0]] + sorted[1..];
      InsertKeepsEntries(e, sorted[1..]);
    }
  }

  lemma {:induction false} InsertKeepsOrder(e: P2PEntry, sorted: seq<P2PEntry>)
    requires Descending(SizesOf(sorted))
    ensures Descending(SizesOf(InsertBySize(e, sorted)))
    ensures InsertBySize(e, sorted)[0] == if sorted == [] || e.size >= sorted[0].size then e else sorted[0]
  {
    if sorted != [] && e.size < sorted[0].size {
      TailKeepsOrder(sorted);
      InsertKeepsOrder(e, sorted[1..]);
      PrependKeepsOrder(sorted[0], InsertBySize(e, sorted[1..]));
    } else {
      PrependKeepsOrder(e, sorted);
    }
  }

  lemma TailKeepsOrder(sorted: seq<P2PEntry>)
    requires sorted != [] && Descending(SizesOf(sorted))
    ensures Descending(SizesOf(sorted[1..]))
    ensures |sorted| > 1 ==> sorted[0].size >= sorted[1..][0].size
  {
    var sizes := SizesOf(sorted);
    assert SizesOf(sorted[1..]) == sizes[1..];
    assert |sorted| > 1 ==> sizes[0] >= sizes[1];
  }

  lemma PrependKeepsOrder(e: P2PEntry, sorted: seq<P2PEntry>)
    requires Descending(SizesOf(sorted)) && (sorted == [] || e.size >= sorted[0].size)
    ensures Descending(SizesOf([e] + sorted))
  {
    var all := SizesOf([e] + sorted);
    forall i, j | 0 <= i < j < |all| ensures all[i] >= all[j] {
      assert SizesOf(sorted)[0] >= SizesOf(sorted)[j - 1];
      if i > 0 {
        assert SizesOf(sorted)[i - 1] >= SizesOf(sorted)[j - 1];
      }
    }
  }

  lemma {:induction false} LongestFirstSorts(files: seq<P2PEntry>)
    ensures Descending(SizesOf(LongestFirst(files)))
    ensures multiset(LongestFirst(files)) == multiset(files)
  {
    if files != [] {
      LongestFirstSorts(files[1..]);
      InsertKeepsOrder(files[0], LongestFirst(files[1..]));
      InsertKeepsEntries(files[0], LongestFirst(files[1..]));
      assert files == [files[0]] + files[1..];
    }
  }

  /** The files of one size, in order. */
  function OfSize(files: seq<P2PEntry>, size: nat): seq<P2PEntry> {
    if files == [] then [] else (if files[0].size == size then [files[0]] else []) + OfSize(files[1..], size)
  }

  lemma {:induction false} InsertIsStable(e: P2PEntry, sorted: seq<P2PEntry>, size: nat)
    requires Descending(SizesOf(sorted))
    ensures OfSize(InsertBySize(e, sorted), size) == OfSize([e] + sorted, size)
  {
    assert ([e] + sorted)[1..] == sorted;
    if sorted != [] && e.size < sorted[0].size {
      TailKeepsOrder(sorted);
      InsertIsStable(e, sorted[1..], size);
      assert ([e] + sorted[1..])[1..] == sorted[1..];
      assert InsertBySize(e, sorted)[1..] == InsertBySize(e, sorted[1..]);
    }
  }

  /** Files of one size keep their order. */
  lemma {:induction false} LongestFirstIsStable(files: seq<P2PEntry>, size: nat)
    ensures OfSize(LongestFirst(files), size) == OfSize(files, size)
  {
    if files != [] {
      LongestFirstSorts(files[1..]);
      InsertIsStable(files[0], LongestFirst(files[1..]), size);
      LongestFirstIsStable(files[1..], size);
      assert ([files[0]] + LongestFirst(files[1..]))[1..] == LongestFirst(files[1..]);
    }
  }

  /** The entries that a plan gives to stream `k`, in order. */
  function Chosen(entries: seq<P2PEntry>, plan: seq<nat>, k: nat): seq<P2PEntry>
    requires |plan| == |entries|
  {
    if entries == [] then [] else
    var n := |entries| - 1;
    var prior := Chosen(entries[..n], plan[..n], k);
    if plan[n] == k then prior + [entries[n]] else prior
  }

  function Batches(entries: seq<P2PEntry>, plan: seq<nat>, m: nat): (batches: seq<seq<P2PEntry>>)
    requires |plan| == |entries|
    ensures |batches| == m
  {
    seq(m, k requires 0 <= k < m => Chosen(entries, plan, k))
  }

  function Streams(entries: seq<P2PEntry>, parallelism: nat): nat {
    if parallelism < |FilesOf(entries)| then parallelism else |FilesOf(entries)|
  }

  /** What the batches of `entries` are: the greedy plan of the sorted files, with every
      directory at the front of the first batch. */
  function PlannedBatches(entries: seq<P2PEntry>, parallelism: nat): (batches: seq<seq<P2PEntry>>)
    requires parallelism > 0 && FilesOf(entries) != []
    ensures |batches| == Streams(entries, parallelism)
  {
    var files := LongestFirst(FilesOf(entries));
    var m := Streams(entries, parallelism);
    var batches := Batches(files, Greedy(SizesOf(files), m), m);
    batches[0 := DirectoriesOf(entries) + batches[0]]
  }

  /** As many batches as allowed, but no more than files. */
  lemma BatchCount(entries: seq<P2PEntry>, parallelism: nat)
    requires parallelism > 0 && FilesOf(entries) != []
    ensures var n := |PlannedBatches(entries, parallelism)|;
      n <= parallelism && n <= |FilesOf(entries)| && (n == parallelism || n == |FilesOf(entries)|)
  {
    hide FilesOf;
  }

  /** All directories open the first batch, in their order, and no other place holds one. */
  lemma DirectoriesComeFirst(entries: seq<P2PEntry>, parallelism: nat, k: nat, i: nat)
    requires parallelism > 0 && FilesOf(entries) != [] && k < Streams(entries, parallelism)
    requires i < |PlannedBatches(entries, parallelism)[k]|
    ensures PlannedBatches(entries, parallelism)[k][i].isDirectory <==> k == 0 && i < |DirectoriesOf(entries)|
    ensures k == 0 ==> DirectoriesOf(entries) <= PlannedBatches(entries, parallelism)[0]
  {
    var files, m := LongestFirst(FilesOf(entries)), Streams(entries, parallelism);
    var plan := Greedy(SizesOf(files), m);
    LongestFirstSorts(FilesOf(entries));
    forall f | f in files ensures !f.isDirectory {
      assert multiset(files)[f] > 0;
      assert f in multiset(FilesOf(entries));
    }
    ChosenAreAmong(files, plan, k);
    hide FilesOf, DirectoriesOf, LongestFirst, Greedy, Chosen;
    var batch := PlannedBatches(entries, parallelism)[k];
    assert k == 0 ==> batch == DirectoriesOf(entries) + Chosen(files, plan, 0);
  }

  lemma {:induction false} ChosenAreAmong(entries: seq<P2PEntry>, plan: seq<nat>, k: nat)
    requires |plan| == |entries|
    ensures forall e :: e in Chosen(entries, plan, k) ==> e in entries
  {
    if entries != [] {
      ChosenAreAmong(entries[..|entries| - 1], plan[..|entries| - 1], k);
    }
  }

  /** The batches and their sizes after the first i files. */
  function BatchesAfter(sorted: seq<P2PEntry>, m: nat, i: nat): seq<seq<P2PEntry>>
    requires m > 0 && i <= |sorted|
  {
    Batches(sorted[..i], Greedy(SizesOf(sorted)[..i], m), m)
  }

  function LoadsAfter(sorted: seq<P2PEntry>, m: nat, i: nat): (loads: seq<nat>)
    requires m > 0 && i <= |sorted|
    ensures |loads| == m
  {
    Loads(Greedy(SizesOf(sorted)[..i], m), SizesOf(sorted)[..i], m)
  }

  lemma OneMoreLoad(sorted: seq<P2PEntry>, m: nat, i: nat)
    requires m > 0 && i < |sorted|
    ensures var loads := LoadsAfter(sorted, m, i);
            var t := ArgMin(loads);
            && LoadsAfter(sorted, m, i + 1) == loads[t := loads[t] + sorted[i].size]
            && Greedy(SizesOf(sorted)[..i + 1], m) == Greedy(SizesOf(sorted)[..i], m) + [t]
  {
    var sizes := SizesOf(sorted);
    assert sizes[..i + 1][..i] == sizes[..i];
    LoadsAddLast(sizes[..i + 1], m);
  }

  lemma OneMoreEntry(sorted: seq<P2PEntry>, m: nat, i: nat)
    requires m > 0 && i < |sorted|
    ensures var batches := BatchesAfter(sorted, m, i);
            var t := ArgMin(LoadsAfter(sorted, m, i));
            BatchesAfter(sorted, m, i + 1) == batches[t := batches[t] + [sorted[i]]]
  {
    OneMoreLoad(sorted, m, i);
    var plan := Greedy(SizesOf(sorted)[..i + 1], m);
    assert sorted[..i + 1][..i] == sorted[..i] && plan[..i] == Greedy(SizesOf(sorted)[..i], m);
    BatchesAddLast(sorted[..i + 1], plan, m);
  }

  lemma AfterNone(sorted: seq<P2PEntry>, m: nat)
    requires m > 0
    ensures BatchesAfter(sorted, m, 0) == seq(m, k => []) && LoadsAfter(sorted, m, 0) == seq(m, k => 0)
  {
  }

  lemma AfterAll(sorted: seq<P2PEntry>, m: nat)
    requires m > 0
    ensures BatchesAfter(sorted, m, |sorted|) == Batches(sorted, Greedy(SizesOf(sorted), m), m)
  {
    assert sorted[..|sorted|] == sorted && SizesOf(sorted)[..|sorted|] == SizesOf(sorted);
  }

  /** The distribution loop: the lists of batches and of their sizes are updated in place. */
  method Distribute(sorted: seq<P2PEntry>, workerCount: nat) returns (batches: seq<seq<P2PEntry>>)
    requires workerCount > 0
    ensures batches == Batches(sorted, Greedy(SizesOf(sorted), workerCount), workerCount)
  {
    batches := seq(workerCount, k => []);
    var batchSizes: seq<nat> := seq(workerCount, k => 0);
    AfterNone(sorted, workerCount);
    for i := 0 to |sorted|
      invariant batches == BatchesAfter(sorted, workerCount, i)
      invariant batchSizes == LoadsAfter(sorted, workerCount, i)
    {
      OneMoreLoad(sorted, workerCount, i);
      OneMoreEntry(sorted, workerCount, i);
      var entry := sorted[i];
      var target := ArgMin(batchSizes);
      batches := batches[target := batches[target] + [entry]];
      batchSizes := batchSizes[target := batchSizes[target] + entry.size];
    }
    AfterAll(sorted, workerCount);
  }

  method PlanBatches(entries: seq<P2PEntry>, parallelism: nat) returns (batches: seq<seq<P2PEntry>>)
    requires parallelism > 0 && FilesOf(entries) != []
    ensures batches == PlannedBatches(entries, parallelism)
  {
    var directories := DirectoriesOf(entries);
    var files := FilesOf(entries);
    var workerCount := if parallelism < |files| then parallelism else |files|;
    batches := Distribute(LongestFirst(files), workerCount);
    if directories != [] {
      batches := batches[0 := directories + batches[0]];
    } else {
      assert directories + batches[0] == batches[0];
    }
  }

  function Flatten(batches: seq<seq<P2PEntry>>): seq<P2PEntry> {
    if batches == [] then [] else Flatten(batches[..|batches| - 1]) + batches[|batches| - 1]
  }

  /** A batch and all the others make up the whole. */
  lemma {:induction false} FlattenSplit(batches: seq<seq<P2PEntry>>, k: nat)
    requires k < |batches|
    ensures multiset(Flatten(batches)) == multiset(Flatten(batches[k := []])) + multiset(batches[k])
  {
    var n := |batches| - 1;
    if k < n {
      FlattenSplit(batches[..n], k);
      assert batches[k := []][..n] == batches[..n][k := []];
      assert Flatten(batches[k := []]) == Flatten(batches[..n][k := []]) + batches[n];
    } else {
      assert batches[k := []][..n] == batches[..n];
      assert Flatten(batches[k := []]) == Flatten(batches[..n]) + [];
    }
  }

  /** Replacing one batch replaces its entries and nothing else. */
  lemma FlattenUpdate(batches: seq<seq<P2PEntry>>, k: nat, batch: seq<P2PEntry>, added: multiset<P2PEntry>)
    requires k < |batches| && multiset(batch) == multiset(batches[k]) + added
    ensures multiset(Flatten(batches[k := batch])) == multiset(Flatten(batches)) + added
  {
    FlattenSplit(batches, k);
    FlattenSplit(batches[k := batch], k);
    assert batches[k := batch][k := []] == batches[k := []];
  }

  lemma {:induction false} FlattenEmpty(m: nat)
    ensures Flatten(seq(m, k => [])) == []
  {
    if m > 0 {
      FlattenEmpty(m - 1);
      assert seq(m, k => [])[..m - 1] == seq<seq<P2PEntry>>(m - 1, k => []);
    }
  }

  lemma BatchesAddLast(entries: seq<P2PEntry>, plan: seq<nat>, m: nat)
    requires IsPlan(plan, |entries|, m) && entries != []
    ensures var n := |entries| - 1;
            var prior := Batches(entries[..n], plan[..n], m);
            Batches(entries, plan, m) == prior[plan[n] := prior[plan[n]] + [entries[n]]]
  {
    var n := |entries| - 1;
    var prior := Batches(entries[..n], plan[..n], m);
    forall k | 0 <= k < m
      ensures Chosen(entries, plan, k) == prior[plan[n] := prior[plan[n]] + [entries[n]]][k]
    {
      assert prior[k] == Chosen(entries[..n], plan[..n], k);
    }
  }

  lemma {:induction false} BatchesKeepEntries(entries: seq<P2PEntry>, plan: seq<nat>, m: nat)
    requires IsPlan(plan, |entries|, m)
    ensures multiset(Flatten(Batches(entries, plan, m))) == multiset(entries)
  {
    if entries == [] {
      assert Batches(entries, plan, m) == seq(m, k => []);
      FlattenEmpty(m);
    } else {
      var n := |entries| - 1;
      var prior := Batches(entries[..n], plan[..n], m);
      BatchesKeepEntries(entries[..n], plan[..n], m);
      FlattenUpdate(prior, plan[n], prior[plan[n]] + [entries[n]], multiset{entries[n]});
      BatchesAddLast(entries, plan, m);
      assert entries == entries[..n] + [entries[n]];
    }
  }

  lemma PrependDirectories(batches: seq<seq<P2PEntry>>, directories: seq<P2PEntry>)
    requires batches != []
    ensures multiset(Flatten(batches[0 := directories + batches[0]]))
      == multiset(directories) + multiset(Flatten(batches))
  {
    FlattenUpdate(batches, 0, directories + batches[0], multiset(directories));
  }

  lemma KindsAddUp(entries: seq<P2PEntry>)
    ensures multiset(DirectoriesOf(entries)) + multiset(FilesOf(entries)) == multiset(entries)
  {
    forall e ensures (multiset(DirectoriesOf(entries)) + multiset(FilesOf(entries)))[e] == multiset(entries)[e] {
      FilesCount(entries, e);
    }
  }

  /** Every entry lands in exactly one batch, as often as it was selected, and the
      directories open the first batch. */
  lemma EveryEntryInOneBatch(entries: seq<P2PEntry>, parallelism: nat)
    requires parallelism > 0 && FilesOf(entries) != []
    ensures multiset(Flatten(PlannedBatches(entries, parallelism))) == multiset(entries)
    ensures DirectoriesOf(entries) <= PlannedBatches(entries, parallelism)[0]
  {
    var files := LongestFirst(FilesOf(entries));
    var m := Streams(entries, parallelism);
    var batches := Batches(files, Greedy(SizesOf(files), m), m);
    BatchesKeepEntries(files, Greedy(SizesOf(files), m), m);
    LongestFirstSorts(FilesOf(entries));
    PrependDirectories(batches, DirectoriesOf(entries));
    KindsAddUp(entries);
  }

  function BytesPerBatch(batches: seq<seq<P2PEntry>>): (bytes: seq<nat>)
    ensures |bytes| == |batches|
  {
    seq(|batches|, k requires 0 <= k < |batches| => FileBytes(batches[k]))
  }

  lemma {:induction false} ChosenBytes(files: seq<P2PEntry>, plan: seq<nat>, k: nat)
    requires |plan| == |files| && forall i :: 0 <= i < |files| ==> !files[i].isDirectory
    ensures FileBytes(Chosen(files, plan, k)) == Load(plan, SizesOf(files), k)
  {
    if files != [] {
      var n := |files| - 1;
      ChosenBytes(files[..n], plan[..n], k);
      FileBytesAppend(Chosen(files[..n], plan[..n], k), files[n]);
      assert SizesOf(files)[..n] == SizesOf(files[..n]);
    }
  }

  lemma {:induction false} NoDirectoryBytes(directories: seq<P2PEntry>)
    requires forall i :: 0 <= i < |directories| ==> directories[i].isDirectory
    ensures FileBytes(directories) == 0
  {
    if directories != [] {
      NoDirectoryBytes(directories[..|directories| - 1]);
    }
  }

  /** The bytes of the planned batches are the loads of the greedy plan. */
  lemma PlannedBytes(entries: seq<P2PEntry>, parallelism: nat)
    requires parallelism > 0 && FilesOf(entries) != []
    ensures var sizes := SizesOf(LongestFirst(FilesOf(entries)));
            var m := Streams(entries, parallelism);
            BytesPerBatch(PlannedBatches(entries, parallelism)) == Loads(Greedy(sizes, m), sizes, m)
  {
    var files := LongestFirst(FilesOf(entries));
    var m := Streams(entries, parallelism);
    var plan := Greedy(SizesOf(files), m);
    SortedFiles(entries);
    forall k | 0 <= k < m
      ensures FileBytes(PlannedBatches(entries, parallelism)[k]) == Load(plan, SizesOf(files), k)
    {
      ChosenBytes(files, plan, k);
      NoDirectoryBytes(DirectoriesOf(entries));
      FileBytesConcat(DirectoriesOf(entries), Chosen(files, plan, k));
    }
  }

  lemma SortedFiles(entries: seq<P2PEntry>)
    ensures var files := LongestFirst(FilesOf(entries));
            |files| == |FilesOf(entries)| && forall i :: 0 <= i < |files| ==>
              files[i] in entries && !files[i].isDirectory
  {
    var files := LongestFirst(FilesOf(entries));
    LongestFirstSorts(FilesOf(entries));
    assert |multiset(files)| == |files| && |multiset(FilesOf(entries))| == |FilesOf(entries)|;
    forall i | 0 <= i < |files| ensures files[i] in entries && !files[i].isDirectory {
      assert multiset(files)[files[i]] > 0;
      FilesCount(entries, files[i]);
    }
  }

  lemma {:induction false} RemoveEntry(batch: seq<P2PEntry>, i: nat)
    requires i < |batch| && !batch[i].isDirectory
    ensures FileBytes(batch) == FileBytes(batch[..i] + batch[i + 1..]) + batch[i].size
    ensures multiset(batch) == multiset(batch[..i] + batch[i + 1..]) + multiset{batch[i]}
  {
    assert batch == batch[..i] + [batch[i]] + batch[i + 1..];
    FileBytesConcat(batch[..i] + [batch[i]], batch[i + 1..]);
    FileBytesAppend(batch[..i], batch[i]);
    FileBytesConcat(batch[..i], batch[i + 1..]);
  }

  lemma {:induction false} FindBatch(batches: seq<seq<P2PEntry>>, e: P2PEntry) returns (k: nat, i: nat)
    requires e in Flatten(batches)
    ensures k < |batches| && i < |batches[k]| && batches[k][i] == e
  {
    var n := |batches| - 1;
    if e in batches[n] {
      k := n;
      i :| 0 <= i < |batches[n]| && batches[n][i] == e;
    } else {
      k, i := FindBatch(batches[..n], e);
    }
  }

  /** Taking one file out of one batch takes it out of the whole. */
  lemma TakeOut(batches: seq<seq<P2PEntry>>, k: nat, i: nat) returns (fewer: seq<seq<P2PEntry>>)
    requires k < |batches| && i < |batches[k]| && !batches[k][i].isDirectory
    ensures |fewer| == |batches|
    ensures forall l :: 0 <= l < |batches| && l != k ==> fewer[l] == batches[l]
    ensures FileBytes(batches[k]) == FileBytes(fewer[k]) + batches[k][i].size
    ensures multiset(Flatten(batches)) == multiset(Flatten(fewer)) + multiset{batches[k][i]}
  {
    var rest := batches[k][..i] + batches[k][i + 1..];
    fewer := batches[k := rest];
    RemoveEntry(batches[k], i);
    FlattenUpdate(fewer, k, batches[k], multiset{batches[k][i]});
    assert fewer[k := batches[k]] == batches;
  }

  ghost predicate SameFiles(entries: seq<P2PEntry>, files: seq<P2PEntry>) {
    forall f :: multiset(files)[f] == if f.isDirectory then 0 else multiset(entries)[f]
  }

  lemma SameFilesIsMutual(entries: seq<P2PEntry>, files: seq<P2PEntry>)
    requires multiset(FilesOf(entries)) == multiset(files)
    ensures SameFiles(entries, files)
  {
    forall f ensures multiset(files)[f] == if f.isDirectory then 0 else multiset(entries)[f] {
      FilesCount(entries, f);
      assert multiset(FilesOf(entries))[f] == multiset(files)[f];
    }
  }

  /** Any distribution of the files, however it was made, is a plan for the sorted files. */
  lemma {:induction false} DistributionIsPlan(files: seq<P2PEntry>, batches: seq<seq<P2PEntry>>)
    returns (plan: seq<nat>)
    requires SameFiles(Flatten(batches), files)
    requires forall i :: 0 <= i < |files| ==> !files[i].isDirectory
    ensures IsPlan(plan, |files|, |batches|)
    ensures forall k :: 0 <= k < |batches| ==> Load(plan, SizesOf(files), k) <= FileBytes(batches[k])
  {
    plan := [];
    if files != [] {
      var n := |files| - 1;
      var e := files[n];
      assert files == files[..n] + [e];
      assert multiset(files)[e] > 0;
      assert multiset(Flatten(batches))[e] > 0;
      var k, i := FindBatch(batches, e);
      var fewer := TakeOut(batches, k, i);
      assert multiset(files) == multiset(files[..n]) + multiset{e};
      var prior := DistributionIsPlan(files[..n], fewer);
      plan := prior + [k];
      ExtendPlan(files, prior, k);
    }
  }

  lemma ExtendPlan(files: seq<P2PEntry>, prior: seq<nat>, k: nat)
    requires files != [] && |prior| == |files| - 1
    ensures forall l ::
              Load(prior + [k], SizesOf(files), l)
              == Load(prior, SizesOf(files[..|prior|]), l) + if l == k then files[|prior|].size else 0
  {
    var n := |prior|;
    assert (prior + [k])[..n] == prior && SizesOf(files)[..n] == SizesOf(files[..n]);
  }

  lemma MaxMono(a: seq<nat>, b: seq<nat>)
    requires |a| == |b| > 0 && forall k :: 0 <= k < |a| ==> a[k] <= b[k]
    ensures Max(a) <= Max(b)
  {
    var k :| 0 <= k < |a| && a[k] == Max(a);
    assert b[k] <= Max(b);
  }

  /** Against every other distribution of the same entries over as many streams, the
      largest planned batch is at most 4/3 - 1/(3m) times the largest batch there. */
  lemma BatchesAreNearOptimal(entries: seq<P2PEntry>, parallelism: nat, other: seq<seq<P2PEntry>>)
    requires parallelism > 0 && FilesOf(entries) != []
    requires |other| == Streams(entries, parallelism)
    requires multiset(Flatten(other)) == multiset(entries)
    ensures var m := Streams(entries, parallelism);
            WithinGrahamRatio(m, Max(BytesPerBatch(PlannedBatches(entries, parallelism))), Max(BytesPerBatch(other)))
  {
    var files := LongestFirst(FilesOf(entries));
    var m := Streams(entries, parallelism);
    LongestFirstSorts(FilesOf(entries));
    SortedFiles(entries);
    SameFilesIsMutual(entries, files);
    var plan := DistributionIsPlan(files, other);
    NearOptimalChain(entries, parallelism, other, plan);
  }

  lemma NearOptimalChain(entries: seq<P2PEntry>, parallelism: nat, other: seq<seq<P2PEntry>>, plan: seq<nat>)
    requires parallelism > 0 && FilesOf(entries) != []
    requires var files := LongestFirst(FilesOf(entries));
             var m := Streams(entries, parallelism);
             && |other| == m && IsPlan(plan, |files|, m) && Descending(SizesOf(files))
             && forall k :: 0 <= k < m ==> Load(plan, SizesOf(files), k) <= FileBytes(other[k])
    ensures var m := Streams(entries, parallelism);
            WithinGrahamRatio(m, Max(BytesPerBatch(PlannedBatches(entries, parallelism))), Max(BytesPerBatch(other)))
  {
    var sizes := SizesOf(LongestFirst(FilesOf(entries)));
    var m := Streams(entries, parallelism);
    var loads := Loads(plan, sizes, m);
    PlannedBytes(entries, parallelism);
    GreedyIsNearOptimal(sizes, m, plan);
    MaxMono(loads, BytesPerBatch(other));
    RatioGrows(m, Max(Loads(Greedy(sizes, m), sizes, m)), Max(loads), Max(BytesPerBatch(other)));
  }

  /** No batch exceeds the average by more than its share of one largest file. */
  lemma BatchesStayNearAverage(entries: seq<P2PEntry>, parallelism: nat, largest: nat)
    requires parallelism > 0 && FilesOf(entries) != []
    requires forall e :: e in entries && !e.isDirectory ==> e.size <= largest
    ensures var m := Streams(entries, parallelism);
            m * Max(BytesPerBatch(PlannedBatches(entries, parallelism))) <= FileBytes(entries) + (m - 1) * largest
  {
    var sizes := SizesOf(LongestFirst(FilesOf(entries)));
    var m := Streams(entries, parallelism);
    PlannedBytes(entries, parallelism);
    SortedFiles(entries);
    SumOfFiles(entries);
    GreedyMaxBound(sizes, m, largest);
  }

  /** Two batches differ by one largest file at most. */
  lemma BatchesAreEven(entries: seq<P2PEntry>, parallelism: nat, largest: nat, k: nat, l: nat)
    requires parallelism > 0 && FilesOf(entries) != []
    requires forall e :: e in entries && !e.isDirectory ==> e.size <= largest
    requires k < Streams(entries, parallelism) && l < Streams(entries, parallelism)
    ensures var batches := PlannedBatches(entries, parallelism);
            FileBytes(batches[k]) <= FileBytes(batches[l]) + largest
  {
    var sizes := SizesOf(LongestFirst(FilesOf(entries)));
    var m := Streams(entries, parallelism);
    var bytes := BytesPerBatch(PlannedBatches(entries, parallelism));
    PlannedBytes(entries, parallelism);
    SortedFiles(entries);
    GreedySpread(sizes, m, largest, k, l);
    assert bytes[k] == Load(Greedy(sizes, m), sizes, k) && bytes[l] == Load(Greedy(sizes, m), sizes, l);
  }

  lemma Cancel(a: multiset<P2PEntry>, b: multiset<P2PEntry>, e: P2PEntry)
    requires a + multiset{e} == b + multiset{e}
    ensures a == b
  {
    forall x ensures a[x] == b[x] {
      assert (a + multiset{e})[x] == (b + multiset{e})[x];
    }
  }

  lemma {:induction false} SameTotal(a: seq<P2PEntry>, b: seq<P2PEntry>)
    requires multiset(a) == multiset(b) && forall i :: 0 <= i < |a| ==> !a[i].isDirectory
    ensures FileBytes(a) == FileBytes(b)
  {
    if a == [] {
      assert multiset(b) == multiset{};
      assert |multiset(b)| == |b|;
    } else {
      var n := |a| - 1;
      assert a == a[..n] + [a[n]];
      assert a[n] in multiset(b);
      var i :| 0 <= i < |b| && b[i] == a[n];
      RemoveEntry(b, i);
      Cancel(multiset(a[..n]), multiset(b[..i] + b[i + 1..]), a[n]);
      SameTotal(a[..n], b[..i] + b[i + 1..]);
    }
  }

  lemma {:induction false} TotalOfSizes(files: seq<P2PEntry>)
    requires forall i :: 0 <= i < |files| ==> !files[i].isDirectory
    ensures Sum(SizesOf(files)) == FileBytes(files)
  {
    if files != [] {
      TotalOfSizes(files[..|files| - 1]);
      assert SizesOf(files)[..|files| - 1] == SizesOf(files[..|files| - 1]);
    }
  }

  lemma {:induction false} FilesCarryAll(entries: seq<P2PEntry>)
    ensures FileBytes(FilesOf(entries)) == FileBytes(entries)
  {
    if entries != [] {
      var n := |entries| - 1;
      FilesCarryAll(entries[..n]);
      FileBytesAppend(FilesOf(entries[..n]), entries[n]);
    }
  }

  lemma SumOfFiles(entries: seq<P2PEntry>)
    ensures Sum(SizesOf(LongestFirst(FilesOf(entries)))) == FileBytes(entries)
  {
    LongestFirstSorts(FilesOf(entries));
    SortedFiles(entries);
    SameTotal(LongestFirst(FilesOf(entries)), FilesOf(entries));
    TotalOfSizes(LongestFirst(FilesOf(entries)));
    FilesCarryAll(entries);
  }

  /** The files that are not empty. */
  function NonEmptyFiles(entries: seq<P2PEntry>): nat {
    if entries == [] then 0 else
    var e := entries[|entries| - 1];
    NonEmptyFiles(entries[..|entries| - 1]) + if !e.isDirectory && e.size > 0 then 1 else 0
  }

  lemma {:induction false} NonEmptyConcat(a: seq<P2PEntry>, b: seq<P2PEntry>)
    ensures NonEmptyFiles(a + b) == NonEmptyFiles(a) + NonEmptyFiles(b)
  {
    if b == [] {
      assert a + b == a;
    } else {
      NonEmptyConcat(a, b[..|b| - 1]);
      assert (a + b)[..|a + b| - 1] == a + b[..|b| - 1];
    }
  }

  lemma {:induction false} NonEmptyOfFiles(entries: seq<P2PEntry>)
    ensures NonEmptyFiles(FilesOf(entries)) == NonEmptyFiles(entries)
  {
    if entries != [] {
      var n := |entries| - 1;
      NonEmptyOfFiles(entries[..n]);
      NonEmptyConcat(FilesOf(entries[..n]), [entries[n]]);
    }
  }

  lemma {:induction false} NonEmptyInserted(e: P2PEntry, sorted: seq<P2PEntry>)
    ensures NonEmptyFiles(InsertBySize(e, sorted)) == NonEmptyFiles([e]) + NonEmptyFiles(sorted)
  {
    if sorted == [] || e.size >= sorted[0].size {
      NonEmptyConcat([e], sorted);
    } else {
      NonEmptyInserted(e, sorted[1..]);
      NonEmptyConcat([sorted[0]], InsertBySize(e, sorted[1..]));
      NonEmptyConcat([sorted[0]], sorted[1..]);
      assert sorted == [sorted[0]] + sorted[1..];
    }
  }

  lemma {:induction false} NonEmptySorted(files: seq<P2PEntry>)
    ensures NonEmptyFiles(LongestFirst(files)) == NonEmptyFiles(files)
  {
    if files != [] {
      NonEmptySorted(files[1..]);
      NonEmptyInserted(files[0], LongestFirst(files[1..]));
      NonEmptyConcat([files[0]], files[1..]);
      assert files == [files[0]] + files[1..];
    }
  }

  lemma {:induction false} PositiveSizes(files: seq<P2PEntry>)
    requires forall i :: 0 <= i < |files| ==> !files[i].isDirectory
    ensures Positives(SizesOf(files)) == NonEmptyFiles(files)
  {
    if files != [] {
      var n := |files| - 1;
      PositiveSizes(files[..n]);
      assert SizesOf(files)[..n] == SizesOf(files[..n]);
    }
  }

  ghost predicate HoldsAFile(batch: seq<P2PEntry>) {
    exists e :: e in batch && !e.isDirectory
  }

  lemma {:induction false} ChosenIsNotEmpty(files: seq<P2PEntry>, plan: seq<nat>, k: nat)
    requires |plan| == |files| && forall i :: 0 <= i < |files| ==> !files[i].isDirectory
    ensures HoldsAFile(Chosen(files, plan, k)) <==> k in plan
    ensures Chosen(files, plan, k) == [] <==> k !in plan
  {
    if files != [] {
      var n := |files| - 1;
      var prior := Chosen(files[..n], plan[..n], k);
      ChosenIsNotEmpty(files[..n], plan[..n], k);
      assert plan == plan[..n] + [plan[n]];
      if plan[n] == k {
        assert files[n] in prior + [files[n]];
      }
    }
  }

  /** Exactly: stream `k` gets a file if and only if at least `k` files are not empty. */
  lemma StreamGetsAFile(entries: seq<P2PEntry>, parallelism: nat, k: nat)
    requires parallelism > 0 && FilesOf(entries) != [] && k < Streams(entries, parallelism)
    ensures HoldsAFile(PlannedBatches(entries, parallelism)[k]) <==> k <= NonEmptyFiles(entries)
    ensures k > 0 ==> (PlannedBatches(entries, parallelism)[k] == [] <==> k > NonEmptyFiles(entries))
  {
    var files := LongestFirst(FilesOf(entries));
    var m := Streams(entries, parallelism);
    var plan := Greedy(SizesOf(files), m);
    SortedFiles(entries);
    LongestFirstSorts(FilesOf(entries));
    NonEmptyOfFiles(entries);
    NonEmptySorted(FilesOf(entries));
    PositiveSizes(files);
    StreamGetsAJob(SizesOf(files), m, k);
    ChosenIsNotEmpty(files, plan, k);
    var chosen := Chosen(files, plan, k);
    if k == 0 {
      var directories := DirectoriesOf(entries);
      assert forall e :: e in directories ==> e.isDirectory;
      assert forall e :: e in directories + chosen <==> e in directories || e in chosen;
    }
  }

  /** Every stream gets a file if and only if there are at most as many streams as non-empty
      files and one more. */
  lemma NoStreamIsIdle(entries: seq<P2PEntry>, parallelism: nat)
    requires parallelism > 0 && FilesOf(entries) != []
    ensures (forall k :: 0 <= k < Streams(entries, parallelism) ==> HoldsAFile(PlannedBatches(entries, parallelism)[k]))
      <==> NonEmptyFiles(entries) + 1 >= Streams(entries, parallelism)
  {
    var m := Streams(entries, parallelism);
    forall k | 0 <= k < m
      ensures HoldsAFile(PlannedBatches(entries, parallelism)[k]) <==> k <= NonEmptyFiles(entries)
    {
      StreamGetsAFile(entries, parallelism, k);
    }
    if NonEmptyFiles(entries) + 1 < m {
      assert !HoldsAFile(PlannedBatches(entries, parallelism)[m - 1]);
    }
  }

  /** A selection that is idle in part: files of 5, 0 and 0 bytes on three streams. */
  lemma EmptyFilesLeaveAStreamIdle(a: P2PEntry, b: P2PEntry, c: P2PEntry)
    requires !a.isDirectory && !b.isDirectory && !c.isDirectory && a.size == 5 && b.size == 0 && c.size == 0
    ensures FilesOf([a, b, c]) == [a, b, c] && Streams([a, b, c], 3) == 3
    ensures PlannedBatches([a, b, c], 3)[2] == []
  {
    var entries := [a, b, c];
    assert entries[..2] == [a, b] && [a, b][..1] == [a] && [a][..0] == [];
    assert FilesOf([a]) == [a] && FilesOf([a, b]) == [a, b];
    assert NonEmptyFiles([a]) == 1 && NonEmptyFiles([a, b]) == 1 && NonEmptyFiles(entries) == 1;
    StreamGetsAFile(entries, 3, 2);
  }
}
