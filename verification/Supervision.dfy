/** Supervising the parallel streams of one upload (`openadb/core/acbridge_p2p.py`,
    `_upload_parallel_entries` from its progress lock on). */
module Supervision {
  import opened Batching
  import opened P2PEntries
  import opened Scheduler
  import opened Wrappers

  /** An exception.  Its text alone decides whether it passes for a cancel. */
  datatype Failure = Failure(text: string)

  const CANCELLED: Failure := Failure("P2P transfer cancelled by user.")

  function Lower(text: string): (lower: string)
    ensures |lower| == |text|
  {
    seq(|text|, i requires 0 <= i < |text| => if 'A' <= text[i] <= 'Z' then text[i] - 'A' + 'a' else text[i])
  }

  predicate StandsAt(text: string, part: string, i: nat) {
    i + |part| <= |text| && text[i..i + |part|] == part
  }

  predicate Contains(text: string, part: string) {
    exists i | 0 <= i <= |text| :: StandsAt(text, part, i)
  }

  /** `"cancel" in str(exc).lower()`: also for a failure whose text names a file of that name. */
  predicate IsCancel(f: Failure) {
    Contains(Lower(f.text), "cancel")
  }

  /** A failure that names a file or folder with these letters passes for a cancel. */
  lemma AnyTextWithTheWord(before: string, word: string, after: string)
    requires Lower(word) == "cancel"
    ensures IsCancel(Failure(before + word + after))
  {
    var lower := Lower(before + word + after);
    assert |word| == |Lower(word)| == 6;
    assert lower[|before|..|before| + 6] == Lower(word);
    assert StandsAt(lower, "cancel", |before|);
  }

  predicate SpellsCancel(text: string, i: int)
    requires 0 <= i && i + 6 <= |text|
  {
    text[i] in {'c', 'C'} && text[i + 1] in {'a', 'A'} && text[i + 2] in {'n', 'N'} && text[i + 3] in {'c', 'C'}
    && text[i + 4] in {'e', 'E'} && text[i + 5] in {'l', 'L'}
  }

  lemma SixLetters(a: string, b: string)
    requires |a| == |b| == 6
    ensures a == b <==> a[0] == b[0] && a[1] == b[1] && a[2] == b[2] && a[3] == b[3] && a[4] == b[4] && a[5] == b[5]
  {
    if a[0] == b[0] && a[1] == b[1] && a[2] == b[2] && a[3] == b[3] && a[4] == b[4] && a[5] == b[5] {
      forall k | 0 <= k < 6 ensures a[k] == b[k] {
        assert k == 0 || k == 1 || k == 2 || k == 3 || k == 4 || k == 5;
      }
    }
  }

  lemma LowerAt(text: string, i: nat)
    requires i + 6 <= |text|
    ensures StandsAt(Lower(text), "cancel", i) <==> SpellsCancel(text, i)
  {
    var word := Lower(text)[i..i + 6];
    assert word[0] == Lower(text)[i] && word[1] == Lower(text)[i + 1] && word[2] == Lower(text)[i + 2];
    assert word[3] == Lower(text)[i + 3] && word[4] == Lower(text)[i + 4] && word[5] == Lower(text)[i + 5];
    SixLetters(word, "cancel");
  }

  /** Letter by letter: these texts, and no others. */
  lemma CancelIsSpelled(f: Failure)
    ensures IsCancel(f) <==> exists i :: 0 <= i && i + 6 <= |f.text| && SpellsCancel(f.text, i)
  {
    forall i: nat | i + 6 <= |f.text|
      ensures StandsAt(Lower(f.text), "cancel", i) <==> SpellsCancel(f.text, i)
    {
      LowerAt(f.text, i);
    }
    hide Lower, SpellsCancel;
  }

  lemma CancelledIsCancel()
    ensures IsCancel(CANCELLED)
  {
    assert CANCELLED.text == "P2P transfer " + "cancel" + "led by user.";
    assert Lower("cancel") == "cancel";
    AnyTextWithTheWord("P2P transfer ", "cancel", "led by user.");
  }

  datatype Progress = Progress(bytes: nat, files: nat)

  datatype Stored = Stored(bytes: nat, files: nat)

  // ---------------------------------------------------------------- sums over streams

  function StreamBytes(plan: seq<seq<P2PEntry>>): (bytes: seq<nat>)
    ensures |bytes| == |plan|
  {
    seq(|plan|, i requires 0 <= i < |plan| => FileBytes(plan[i]))
  }

  function StreamFiles(plan: seq<seq<P2PEntry>>): (files: seq<nat>)
    ensures |files| == |plan|
  {
    seq(|plan|, i requires 0 <= i < |plan| => |FilesOf(plan[i])|)
  }

  lemma {:induction false} SumUpdate(w: seq<nat>, i: nat, x: nat)
    requires i < |w|
    ensures Sum(w[i := x]) == Sum(w) - w[i] + x
  {
    var n := |w| - 1;
    if i < n {
      SumUpdate(w[..n], i, x);
      assert w[i := x][..n] == w[..n][i := x];
    } else {
      assert w[i := x][..n] == w[..n];
    }
  }

  ghost predicate Within(w: seq<nat>, limit: seq<nat>) {
    |w| == |limit| && forall i :: 0 <= i < |w| ==> w[i] <= limit[i]
  }

  lemma {:induction false} SumWithin(w: seq<nat>, limit: seq<nat>)
    requires Within(w, limit)
    ensures Sum(w) <= Sum(limit)
  {
    if w != [] {
      SumWithin(w[..|w| - 1], limit[..|w| - 1]);
    }
  }

  lemma {:induction false} SumOfZeros(n: nat)
    ensures Sum(seq(n, i => 0)) == 0
  {
    if n > 0 {
      SumOfZeros(n - 1);
      assert seq(n, i => 0)[..n - 1] == seq(n - 1, i => 0);
    }
  }

  // ---------------------------------------------------------------- the plan adds up

  lemma {:induction false} FilesConcat(a: seq<P2PEntry>, b: seq<P2PEntry>)
    ensures FilesOf(a + b) == FilesOf(a) + FilesOf(b)
  {
    if b == [] {
      assert a + b == a;
    } else {
      FilesConcat(a, b[..|b| - 1]);
      assert (a + b)[..|a + b| - 1] == a + b[..|b| - 1];
    }
  }

  lemma {:induction false} PlanTotals(plan: seq<seq<P2PEntry>>)
    ensures Sum(StreamBytes(plan)) == FileBytes(Flatten(plan))
    ensures Sum(StreamFiles(plan)) == |FilesOf(Flatten(plan))|
  {
    if plan != [] {
      var n := |plan| - 1;
      PlanTotals(plan[..n]);
      assert StreamBytes(plan)[..n] == StreamBytes(plan[..n]);
      assert StreamFiles(plan)[..n] == StreamFiles(plan[..n]);
      FileBytesConcat(Flatten(plan[..n]), plan[n]);
      FilesConcat(Flatten(plan[..n]), plan[n]);
    }
  }

  lemma SameEntriesSameTotals(a: seq<P2PEntry>, b: seq<P2PEntry>)
    requires multiset(a) == multiset(b)
    ensures FileBytes(a) == FileBytes(b) && |FilesOf(a)| == |FilesOf(b)|
  {
    forall e ensures multiset(FilesOf(a))[e] == multiset(FilesOf(b))[e] {
      FilesCount(a, e);
      FilesCount(b, e);
    }
    assert multiset(FilesOf(a)) == multiset(FilesOf(b));
    assert |FilesOf(a)| == |multiset(FilesOf(a))| == |multiset(FilesOf(b))|;
    SameTotal(FilesOf(a), FilesOf(b));
    FilesCarryAll(a);
    FilesCarryAll(b);
  }

  /** The streams together carry exactly the files and bytes of the selection. */
  lemma PlanCarriesEverything(entries: seq<P2PEntry>, parallelism: nat)
    requires parallelism > 0 && FilesOf(entries) != []
    ensures Sum(StreamBytes(PlannedBatches(entries, parallelism))) == FileBytes(entries)
    ensures Sum(StreamFiles(PlannedBatches(entries, parallelism))) == |FilesOf(entries)|
  {
    var plan := PlannedBatches(entries, parallelism);
    EveryEntryInOneBatch(entries, parallelism);
    PlanTotals(plan);
    SameEntriesSameTotals(Flatten(plan), entries);
  }

  // ---------------------------------------------------------------- the supervisor

  /** What was forwarded never goes down, and is covered by the counters. */
  ghost predicate Steady(forwarded: seq<Progress>, bytes: nat, files: nat) {
    && (forall i, j :: 0 <= i < j < |forwarded| ==>
         forwarded[i].bytes <= forwarded[j].bytes && forwarded[i].files <= forwarded[j].files)
    && (forall i :: 0 <= i < |forwarded| ==> forwarded[i].bytes <= bytes && forwarded[i].files <= files)
  }

  /** The error that is kept for the caller, from the failures in the order of completion. */
  function Primary(failures: seq<Failure>): Option<Failure> {
    if failures == [] then None else
    var before, last := Primary(failures[..|failures| - 1]), failures[|failures| - 1];
    if before.None? || !IsCancel(last) then Some(last) else before
  }

  lemma PrimaryAppend(failures: seq<Failure>, f: Failure)
    ensures Primary(failures + [f]) ==
      if failures == [] || !IsCancel(f) then Some(f) else Primary(failures)
  {
    assert (failures + [f])[..|failures|] == failures;
    PrimaryIsAFailure(failures);
  }

  /** It is one of the failures, and no cancel if any of them is none. */
  lemma {:induction false} PrimaryIsAFailure(failures: seq<Failure>)
    ensures Primary(failures).None? <==> failures == []
    ensures failures != [] ==> Primary(failures).value in failures
    ensures (exists f :: f in failures && !IsCancel(f)) ==> !IsCancel(Primary(failures).value)
  {
    if failures != [] {
      PrimaryIsAFailure(failures[..|failures| - 1]);
      assert failures == failures[..|failures| - 1] + [failures[|failures| - 1]];
    }
  }

  /** Exactly: a failure is kept whatever failed before it if and only if its text does not pass
      for a cancel. */
  lemma KeptWhateverCameBefore(f: Failure)
    ensures (forall before :: Primary(before + [f]) == Some(f)) <==> !IsCancel(f)
  {
    forall before | !IsCancel(f) ensures Primary(before + [f]) == Some(f) {
      PrimaryAppend(before, f);
    }
    var other := Failure(f.text + "!");
    assert |other.text| != |f.text|;
    PrimaryAppend([], other);
    PrimaryAppend([other], f);
    assert [] + [other] == [other];
    assert IsCancel(f) ==> Primary([other] + [f]) == Some(other) != Some(f);
  }

  function ResultBytes(results: seq<Stored>): nat {
    if results == [] then 0 else ResultBytes(results[..|results| - 1]) + results[|results| - 1].bytes
  }

  function ResultFiles(results: seq<Stored>): nat {
    if results == [] then 0 else ResultFiles(results[..|results| - 1]) + results[|results| - 1].files
  }

  lemma ResultsAppend(results: seq<Stored>, r: Stored)
    ensures ResultBytes(results + [r]) == ResultBytes(results) + r.bytes
    ensures ResultFiles(results + [r]) == ResultFiles(results) + r.files
  {
    assert (results + [r])[..|results|] == results;
  }

  function Indices(n: nat): (indices: set<nat>)
    ensures forall i: nat :: i in indices <==> i < n
  {
    if n == 0 then {} else Indices(n - 1) + {n - 1}
  }

  /** The results add up to what the finished streams are credited with; without a failure that
      is each one's whole batch. */
  ghost predicate Credits(plan: seq<seq<P2PEntry>>, running: set<nat>, results: seq<Stored>, bytes: seq<nat>,
                          files: seq<nat>, good: bool) {
    && |bytes| == |plan| && |files| == |plan|
    && (forall i :: i in running ==> i < |plan| && bytes[i] == 0 && files[i] == 0)
    && ResultBytes(results) == Sum(bytes) && ResultFiles(results) == Sum(files)
    && (good ==> forall i :: 0 <= i < |plan| && i !in running ==>
        bytes[i] == FileBytes(plan[i]) && files[i] == |FilesOf(plan[i])|)
  }

  lemma NoCredits(plan: seq<seq<P2PEntry>>)
    ensures Credits(plan, Indices(|plan|), [], seq(|plan|, i => 0), seq(|plan|, i => 0), true)
    ensures Within(seq(|plan|, i => 0), StreamBytes(plan)) && Within(seq(|plan|, i => 0), StreamFiles(plan))
  {
    SumOfZeros(|plan|);
  }

  lemma CreditsBound(plan: seq<seq<P2PEntry>>, running: set<nat>, results: seq<Stored>, bytes: seq<nat>,
                     files: seq<nat>, good: bool)
    requires Credits(plan, running, results, bytes, files, good)
    ensures |bytes| == |plan| && |files| == |plan| && forall i :: i in running ==> i < |plan|
  {
  }

  lemma CreditStored(plan: seq<seq<P2PEntry>>, running: set<nat>, results: seq<Stored>, bytes: seq<nat>,
                     files: seq<nat>, good: bool, index: nat)
    requires Credits(plan, running, results, bytes, files, good) && index in running
    ensures var stored := Stored(FileBytes(plan[index]), |FilesOf(plan[index])|);
      Credits(plan, running - {index}, results + [stored], bytes[index := stored.bytes], files[index := stored.files],
        good)
  {
    var stored := Stored(FileBytes(plan[index]), |FilesOf(plan[index])|);
    ResultsAppend(results, stored);
    SumUpdate(bytes, index, stored.bytes);
    SumUpdate(files, index, stored.files);
    hide Sum, ResultBytes, ResultFiles, FileBytes, FilesOf;
  }

  lemma CreditFailed(plan: seq<seq<P2PEntry>>, running: set<nat>, results: seq<Stored>, bytes: seq<nat>,
                     files: seq<nat>, good: bool, index: nat)
    requires Credits(plan, running, results, bytes, files, good)
    ensures Credits(plan, running - {index}, results, bytes, files, false)
  {
  }

  lemma AllCredited(plan: seq<seq<P2PEntry>>, results: seq<Stored>, bytes: seq<nat>, files: seq<nat>)
    requires Credits(plan, {}, results, bytes, files, true)
    ensures ResultBytes(results) == Sum(StreamBytes(plan)) && ResultFiles(results) == Sum(StreamFiles(plan))
  {
    assert bytes == StreamBytes(plan) && files == StreamFiles(plan);
  }

  lemma OneUpdate(w: seq<nat>, limit: seq<nat>, i: nat, x: nat)
    requires Within(w, limit) && i < |w| && w[i] <= x <= limit[i]
    ensures Within(w[i := x], limit) && Sum(w) <= Sum(w[i := x])
  {
    SumUpdate(w, i, x);
  }

  class Supervisor {
    const plan: seq<seq<P2PEntry>>
    var batchProgress: seq<nat>
    var batchFiles: seq<nat>
    var forwarded: seq<Progress>
    var results: seq<Stored>
    var primaryError: Option<Failure>
    var aborted: bool
    /** The futures that are not done. */
    var running: set<nat>
    /** What each finished stream is credited with, and all failures. */
    ghost var creditBytes: seq<nat>
    ghost var creditFiles: seq<nat>
    ghost var failures: seq<Failure>

    ghost predicate ProgressInv()
      reads this
    {
      && Within(batchProgress, StreamBytes(plan)) && Within(batchFiles, StreamFiles(plan))
      && Steady(forwarded, Sum(batchProgress), Sum(batchFiles))
    }

    ghost predicate ResultInv()
      reads this
    {
      && Credits(plan, running, results, creditBytes, creditFiles, failures == [])
      && primaryError == Primary(failures) && (aborted <==> failures != [])
    }

    constructor (entries: seq<P2PEntry>, parallelism: nat)
      requires parallelism > 0 && FilesOf(entries) != []
      ensures ProgressInv() && ResultInv() && plan == PlannedBatches(entries, parallelism)
      ensures running == Indices(|plan|)
      ensures forwarded == [] && failures == []
    {
      hide Sum, Within, Credits, StreamBytes, StreamFiles, PlannedBatches, FilesOf;
      var batches := PlanBatches(entries, parallelism);
      plan := batches;
      batchProgress, batchFiles := seq(|batches|, i => 0), seq(|batches|, i => 0);
      forwarded, results, primaryError, aborted := [], [], None, false;
      running := Indices(|batches|);
      creditBytes, creditFiles, failures := seq(|batches|, i => 0), seq(|batches|, i => 0), [];
      NoCredits(batches);
    }

    /** `on_progress` under its lock: one update of stream `index` becomes one of the whole. */
    method OnProgress(index: nat, doneBytes: nat, doneFiles: nat)
      requires ProgressInv() && index < |plan|
      requires doneBytes <= FileBytes(plan[index]) && doneFiles <= |FilesOf(plan[index])|
      modifies this`batchProgress, this`batchFiles, this`forwarded
      ensures ProgressInv()
      ensures |forwarded| == |old(forwarded)| + 1 && forwarded[..|old(forwarded)|] == old(forwarded)
      ensures var was := old(batchProgress);
        batchProgress == was[index := if doneBytes > was[index] then doneBytes else was[index]]
      ensures var was := old(batchFiles);
        batchFiles == was[index := if doneFiles > was[index] then doneFiles else was[index]]
      ensures forwarded[|old(forwarded)|] == Progress(Sum(batchProgress), Sum(batchFiles))
    {
      var bytes := if doneBytes > batchProgress[index] then doneBytes else batchProgress[index];
      var files := if doneFiles > batchFiles[index] then doneFiles else batchFiles[index];
      OneUpdate(batchProgress, StreamBytes(plan), index, bytes);
      OneUpdate(batchFiles, StreamFiles(plan), index, files);
      hide Sum;
      batchProgress, batchFiles := batchProgress[index := bytes], batchFiles[index := files];
      forwarded := forwarded + [Progress(Sum(batchProgress), Sum(batchFiles))];
    }

    /** One future is done; its stream stored its batch, or raised. */
    method OnCompleted(index: nat, outcome: Result<Stored, Failure>)
      requires ResultInv() && index in running && index < |plan|
      requires outcome.Ok? ==> outcome.value == Stored(FileBytes(plan[index]), |FilesOf(plan[index])|)
      modifies this`results, this`primaryError, this`aborted, this`running, this`creditBytes, this`creditFiles,
        this`failures
      ensures ResultInv() && running == old(running) - {index}
      ensures results == old(results) + if outcome.Ok? then [outcome.value] else []
      ensures failures == old(failures) + if outcome.Err? then [outcome.error] else []
      ensures outcome.Err? && !IsCancel(outcome.error) ==> primaryError == Some(outcome.error)
      ensures outcome.Ok? || (IsCancel(outcome.error) && old(primaryError).Some?) ==> primaryError == old(primaryError)
    {
      hide Credits, Sum, FileBytes, FilesOf;
      CreditsBound(plan, running, results, creditBytes, creditFiles, failures == []);
      match outcome
      case Ok(stored) =>
        CreditStored(plan, running, results, creditBytes, creditFiles, failures == [], index);
        results := results + [stored];
        creditBytes, creditFiles := creditBytes[index := stored.bytes], creditFiles[index := stored.files];
        running := running - {index};
      case Err(failure) =>
        CreditFailed(plan, running, results, creditBytes, creditFiles, failures == [], index);
        PrimaryAppend(failures, failure);
        PrimaryIsAFailure(failures);
        if primaryError.None? || !IsCancel(failure) {
          primaryError := Some(failure);
        }
        aborted := true;
        failures := failures + [failure];
        running := running - {index};
    }

    /** Any interleaving of worker updates and completions until every stream is done; stream
        `i` ends with `outcomes[i]`. */
    method Supervise(outcomes: seq<Result<Stored, Failure>>)
      requires ProgressInv() && ResultInv() && running == Indices(|plan|) && failures == []
      requires AreOutcomes(plan, outcomes)
      modifies this
      ensures ProgressInv() && ResultInv() && running == {}
      ensures |old(forwarded)| <= |forwarded| && forwarded[..|old(forwarded)|] == old(forwarded)
      ensures forall i :: 0 <= i < |plan| && outcomes[i].Err? ==> outcomes[i].error in failures
      ensures forall f :: f in failures ==> Err(f) in outcomes
    {
      hide Credits, Sum, FileBytes, FilesOf, Steady, Within;
      var patience: int := *;
      while running != {}
        invariant ProgressInv() && ResultInv() && running <= Indices(|plan|)
        invariant |old(forwarded)| <= |forwarded| && forwarded[..|old(forwarded)|] == old(forwarded)
        invariant forall i :: 0 <= i < |plan| && i !in running && outcomes[i].Err? ==> outcomes[i].error in failures
        invariant forall f :: f in failures ==> Err(f) in outcomes
        decreases running, patience
      {
        var index: nat :| index in running;
        CreditsBound(plan, running, results, creditBytes, creditFiles, failures == []);
        var finishes: bool := *;
        if finishes || patience <= 0 {
          assert outcomes[index] in outcomes;
          OnCompleted(index, outcomes[index]);
          patience := *;
        } else {
          var bytes: int, files: int := *, *;
          OnProgress(index, if 0 <= bytes <= FileBytes(plan[index]) then bytes else 0,
                     if 0 <= files <= |FilesOf(plan[index])| then files else 0);
          patience := patience - 1;
        }
      }
    }
  }

  /** What the streams of a plan end with; a stream that stored its batch stored all of it. */
  predicate AreOutcomes(plan: seq<seq<P2PEntry>>, outcomes: seq<Result<Stored, Failure>>) {
    |outcomes| == |plan|
    && forall i :: 0 <= i < |plan| && outcomes[i].Ok? ==>
        outcomes[i].value == Stored(FileBytes(plan[i]), |FilesOf(plan[i])|)
  }

  /** The whole parallel upload, for every outcome of its streams and every order of their
      completion; the user may have cancelled when all are done. */
  method UploadParallelEntries(entries: seq<P2PEntry>, parallelism: nat, outcomes: seq<Result<Stored, Failure>>,
                               cancelled: bool)
    returns (r: Result<(nat, nat, nat), Failure>, forwarded: seq<Progress>)
    requires parallelism > 0 && FilesOf(entries) != []
    requires AreOutcomes(PlannedBatches(entries, parallelism), outcomes)
    ensures Steady(forwarded, FileBytes(entries), |FilesOf(entries)|)
    ensures r.Ok? <==> !cancelled && forall i :: 0 <= i < |outcomes| ==> outcomes[i].Ok?
    ensures r.Ok? ==> r.value == (FileBytes(entries), |FilesOf(entries)|, |entries|)
    ensures r.Err? ==>
      Err(r.error) in outcomes || (r.error == CANCELLED && forall i :: 0 <= i < |outcomes| ==> outcomes[i].Ok?)
    ensures (exists i :: 0 <= i < |outcomes| && outcomes[i].Err? && !IsCancel(outcomes[i].error)) ==>
      r.Err? && !IsCancel(r.error)
  {
    var s := new Supervisor(entries, parallelism);
    s.Supervise(outcomes);
    forwarded := s.forwarded;
    PlanCarriesEverything(entries, parallelism);
    SumWithin(s.batchProgress, StreamBytes(s.plan));
    SumWithin(s.batchFiles, StreamFiles(s.plan));
    PrimaryIsAFailure(s.failures);
    if s.primaryError.Some? {
      var i :| 0 <= i < |outcomes| && outcomes[i] == Err(s.primaryError.value);
      return Err(s.primaryError.value), forwarded;
    }
    AllCredited(s.plan, s.results, s.creditBytes, s.creditFiles);
    if cancelled {
      CancelledIsCancel();
      return Err(CANCELLED), forwarded;
    }
    r := Ok((ResultBytes(s.results), ResultFiles(s.results), |entries|));
  }
}
