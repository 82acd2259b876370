/** Publishing one build under several names, all or none
    (`tools/build_acbridge.py`, `atomic_publish_aliases`, `_replace_with_windows_retry`).

    Every call into the operating system may fail; a failed copy may leave anything behind. */
module AliasPublisher {
  import opened Bytes
  import opened Wrappers

  datatype Path = Path(dir: string, name: string)

  type Files = map<Path, seq<byte>>

  function StageOf(d: Path): Path {
    Path(d.dir, "." + d.name + ".openadb-stage")
  }

  function BackupOf(d: Path): Path {
    Path(d.dir, "." + d.name + ".openadb-backup")
  }

  // ---------------------------------------------------------------- names

  ghost predicate Distinct(destinations: seq<Path>) {
    forall i, j :: 0 <= i < j < |destinations| ==> destinations[i] != destinations[j]
  }

  /** No destination, and not the source, is a stage or a backup name. */
  ghost predicate Apart(source: Path, destinations: seq<Path>) {
    forall d :: d in destinations ==>
      source != StageOf(d) && source != BackupOf(d) && StageOf(d) !in destinations && BackupOf(d) !in destinations
  }

  lemma StagesDiffer(d: Path, e: Path)
    ensures StageOf(d) != BackupOf(e)
    ensures StageOf(d) == StageOf(e) ==> d == e
    ensures BackupOf(d) == BackupOf(e) ==> d == e
  {
    assert StageOf(d).name[|StageOf(d).name| - 1] == 'e' && BackupOf(e).name[|BackupOf(e).name| - 1] == 'p';
    assert StageOf(d).name[1..|d.name| + 1] == d.name && StageOf(e).name[1..|e.name| + 1] == e.name;
    assert BackupOf(d).name[1..|d.name| + 1] == d.name && BackupOf(e).name[1..|e.name| + 1] == e.name;
  }

  // ---------------------------------------------------------------- one destination and its two helpers

  datatype Slot = Slot(destination: Option<seq<byte>>, stage: Option<seq<byte>>, backup: Option<seq<byte>>)

  function SlotOf(files: Files, d: Path): Slot {
    Slot(Get(files, d), Get(files, StageOf(d)), Get(files, BackupOf(d)))
  }

  /** Only the slot of `d` may differ. */
  ghost predicate OnlySlot(before: Files, after: Files, d: Path) {
    forall p :: p !in {d, StageOf(d), BackupOf(d)} ==> Get(after, p) == Get(before, p)
  }

  lemma OtherSlots(source: Path, destinations: seq<Path>, before: Files, after: Files, d: Path)
    requires Apart(source, destinations) && d in destinations && OnlySlot(before, after, d)
    ensures forall e :: e in destinations && e != d ==> SlotOf(after, e) == SlotOf(before, e)
  {
    hide StageOf, BackupOf;
    forall e | e in destinations && e != d ensures SlotOf(after, e) == SlotOf(before, e) {
      StagesDiffer(d, e);
      StagesDiffer(e, d);
    }
  }

  /** Nothing outside the slots of the destinations differs. */
  ghost predicate OnlySlots(before: Files, after: Files, destinations: seq<Path>) {
    forall p :: p !in destinations && (forall d :: d in destinations ==> p != StageOf(d) && p != BackupOf(d)) ==>
      Get(after, p) == Get(before, p)
  }

  lemma SlotInSlots(destinations: seq<Path>, first: Files, before: Files, after: Files, d: Path)
    requires OnlySlots(first, before, destinations) && d in destinations && OnlySlot(before, after, d)
    ensures OnlySlots(first, after, destinations)
  {
    hide StageOf, BackupOf;
  }

  predicate Ready(s: Slot, was: Option<seq<byte>>, payload: seq<byte>) {
    s.destination == was && s.stage == Some(payload) && (was.Some? ==> s.backup == was)
  }

  predicate Live(s: Slot, was: Option<seq<byte>>, payload: seq<byte>) {
    s.destination == Some(payload) && (was.Some? ==> s.backup == was)
  }

  // ---------------------------------------------------------------- which calls fail

  /** The failing calls of one publication, each set by destination: staging it fails or gives
      other bytes, replacing it fails for good, its rollback step fails, removing one of its
      helper files fails; and whether reading the source or the final comparison fails. */
  datatype Failures = Failures(staging: set<Path>, replacing: set<Path>, restoring: set<Path>, cleaning: set<Path>,
                               reading: bool, comparing: bool)

  /** The number of destinations before the first one of `ps`. */
  function Before(destinations: seq<Path>, ps: set<Path>): (n: nat)
    ensures n <= |destinations| && (n < |destinations| ==> destinations[n] in ps)
    ensures forall j :: 0 <= j < n ==> destinations[j] !in ps
  {
    if destinations == [] || destinations[0] in ps then 0 else
    var n := Before(destinations[1..], ps);
    assert forall j :: 1 <= j < n + 1 ==> destinations[j] == destinations[1..][j - 1];
    n + 1
  }

  /** How many destinations are staged, and how many are replaced. */
  function StagedCount(f: Failures, destinations: seq<Path>): (n: nat)
    ensures n <= |destinations|
  {
    Before(destinations, f.staging)
  }

  function ReplacedCount(f: Failures, destinations: seq<Path>): (n: nat)
    ensures n <= |destinations|
  {
    if StagedCount(f, destinations) < |destinations| then 0 else Before(destinations, f.replacing)
  }

  predicate Succeeds(f: Failures, destinations: seq<Path>) {
    ReplacedCount(f, destinations) == |destinations| && !f.comparing
  }

  /** How many of the staged destinations are cleaned up. */
  function CleanedCount(f: Failures, destinations: seq<Path>): (n: nat)
    ensures n <= StagedCount(f, destinations)
  {
    Before(destinations[..StagedCount(f, destinations)], f.cleaning)
  }

  /** The destinations whose rollback step is tried and fails. */
  function Incomplete(f: Failures, destinations: seq<Path>): set<Path> {
    set d | d in destinations[..ReplacedCount(f, destinations)] && d in f.restoring
  }

  // ---------------------------------------------------------------- phases

  /** The slots from `i` on are as they were. */
  ghost predicate NotReached(files: Files, first: Files, destinations: seq<Path>, i: nat) {
    forall j :: i <= j < |destinations| ==> SlotOf(files, destinations[j]) == SlotOf(first, destinations[j])
  }

  ghost predicate Staging(files: Files, first: Files, destinations: seq<Path>, i: nat, payload: seq<byte>) {
    && i <= |destinations|
    && forall j :: 0 <= j < i ==> Ready(SlotOf(files, destinations[j]), Get(first, destinations[j]), payload)
  }

  ghost predicate Publishing(files: Files, first: Files, destinations: seq<Path>, k: nat, payload: seq<byte>) {
    && k <= |destinations|
    && (forall j :: 0 <= j < k ==> Live(SlotOf(files, destinations[j]), Get(first, destinations[j]), payload))
    && (forall j :: k <= j < |destinations| ==>
        Ready(SlotOf(files, destinations[j]), Get(first, destinations[j]), payload))
  }

  /** A slot that was rolled back: as before, or live still if that step fails. */
  predicate RolledBack(s: Slot, was: Option<seq<byte>>, payload: seq<byte>, fails: bool) {
    if fails then Live(s, was, payload) else s.destination == was
  }

  /** Rolling back from `k` replaced destinations, down to `m`. */
  ghost predicate Unwinding(files: Files, first: Files, destinations: seq<Path>, m: nat, k: nat, payload: seq<byte>,
                            restoring: set<Path>)
  {
    && m <= k <= |destinations|
    && (forall j :: 0 <= j < m ==> Live(SlotOf(files, destinations[j]), Get(first, destinations[j]), payload))
    && (forall j :: m <= j < k ==>
          RolledBack(SlotOf(files, destinations[j]), Get(first, destinations[j]), payload,
            destinations[j] in restoring))
    && (forall j :: k <= j < |destinations| ==> Get(files, destinations[j]) == Get(first, destinations[j]))
  }

  lemma OtherSlotsAt(source: Path, destinations: seq<Path>, before: Files, after: Files, i: nat)
    requires Distinct(destinations) && Apart(source, destinations) && i < |destinations|
    requires OnlySlot(before, after, destinations[i])
    ensures forall j :: 0 <= j < |destinations| && j != i ==>
      SlotOf(after, destinations[j]) == SlotOf(before, destinations[j])
  {
    OtherSlots(source, destinations, before, after, destinations[i]);
    hide StageOf, BackupOf;
    forall j | 0 <= j < |destinations| && j != i
      ensures SlotOf(after, destinations[j]) == SlotOf(before, destinations[j])
    {
      assert destinations[j] != destinations[i];
    }
  }

  lemma OneMoreStaged(source: Path, destinations: seq<Path>, first: Files, before: Files, after: Files, i: nat,
                      payload: seq<byte>)
    requires Distinct(destinations) && Apart(source, destinations) && i < |destinations|
    requires Staging(before, first, destinations, i, payload) && NotReached(before, first, destinations, i)
    requires OnlySlot(before, after, destinations[i])
    ensures Staging(after, first, destinations, i, payload) && NotReached(after, first, destinations, i + 1)
    ensures Ready(SlotOf(after, destinations[i]), Get(first, destinations[i]), payload) ==>
      Staging(after, first, destinations, i + 1, payload)
  {
    OtherSlotsAt(source, destinations, before, after, i);
  }

  lemma OneMorePublished(source: Path, destinations: seq<Path>, first: Files, before: Files, after: Files, k: nat,
                         payload: seq<byte>)
    requires Distinct(destinations) && Apart(source, destinations) && k < |destinations|
    requires Publishing(before, first, destinations, k, payload)
    requires OnlySlot(before, after, destinations[k])
      && Live(SlotOf(after, destinations[k]), Get(first, destinations[k]), payload)
    ensures Publishing(after, first, destinations, k + 1, payload)
  {
    OtherSlotsAt(source, destinations, before, after, k);
  }

  lemma OneMoreUnwound(source: Path, destinations: seq<Path>, first: Files, before: Files, after: Files, m: nat, k: nat,
                       payload: seq<byte>, restoring: set<Path>, i: nat)
    requires Distinct(destinations) && Apart(source, destinations) && m < k
    requires Unwinding(before, first, destinations, m + 1, k, payload, restoring)
    requires OnlySlot(before, after, destinations[m])
    requires RolledBack(SlotOf(after, destinations[m]), Get(first, destinations[m]), payload,
      destinations[m] in restoring)
    requires NotReached(before, first, destinations, i) && k <= i
    ensures Unwinding(after, first, destinations, m, k, payload, restoring) && NotReached(after, first, destinations, i)
  {
    OtherSlotsAt(source, destinations, before, after, m);
  }

  lemma NoChange(files: Files, destinations: seq<Path>)
    ensures OnlySlots(files, files, destinations) && NotReached(files, files, destinations, 0)
  {
  }

  lemma SlotsInSlots(destinations: seq<Path>, first: Files, before: Files, after: Files)
    requires OnlySlots(first, before, destinations) && OnlySlots(before, after, destinations)
    ensures OnlySlots(first, after, destinations)
  {
  }

  lemma NotReachedAt(files: Files, first: Files, destinations: seq<Path>, i: nat)
    requires NotReached(files, first, destinations, i) && i < |destinations|
    ensures SlotOf(files, destinations[i]) == SlotOf(first, destinations[i])
  {
  }

  /** Staging leaves the source alone, also when it is one of the destinations. */
  lemma SourceIntact(files: Files, first: Files, source: Path, destinations: seq<Path>, i: nat, payload: seq<byte>)
    requires Apart(source, destinations) && OnlySlots(first, files, destinations)
    requires Staging(files, first, destinations, i, payload) && NotReached(files, first, destinations, i)
    ensures Get(files, source) == Get(first, source)
  {
    hide StageOf, BackupOf;
    if source in destinations {
      var j :| 0 <= j < |destinations| && destinations[j] == source;
      if j < i {
        assert Ready(SlotOf(files, source), Get(first, source), payload);
      } else {
        assert SlotOf(files, source) == SlotOf(first, source);
      }
    }
  }

  lemma AllStaged(files: Files, first: Files, destinations: seq<Path>, payload: seq<byte>)
    requires Staging(files, first, destinations, |destinations|, payload)
    ensures Publishing(files, first, destinations, 0, payload) && NotReached(files, first, destinations, |destinations|)
  {
  }

  lemma PublishingAt(files: Files, first: Files, destinations: seq<Path>, k: nat, payload: seq<byte>)
    requires Publishing(files, first, destinations, k, payload) && k < |destinations|
    ensures Ready(SlotOf(files, destinations[k]), Get(first, destinations[k]), payload)
  {
  }

  /** Moving the stage over the destination makes a ready slot live. */
  lemma Replaced(before: Files, after: Files, was: Option<seq<byte>>, d: Path, payload: seq<byte>)
    requires Ready(SlotOf(before, d), was, payload) && d != StageOf(d) && d != BackupOf(d)
    requires StageOf(d) in before && after == before[d := before[StageOf(d)]] - {StageOf(d)}
    ensures OnlySlot(before, after, d) && Live(SlotOf(after, d), was, payload)
  {
    StagesDiffer(d, d);
    hide StageOf, BackupOf;
  }

  lemma PublishedUnwinds(files: Files, first: Files, destinations: seq<Path>, k: nat, payload: seq<byte>,
                         restoring: set<Path>)
    requires Publishing(files, first, destinations, k, payload)
    ensures Unwinding(files, first, destinations, k, k, payload, restoring)
      && NotReached(files, first, destinations, |destinations|)
  {
    hide StageOf, BackupOf;
    forall j | k <= j < |destinations| ensures Get(files, destinations[j]) == Get(first, destinations[j]) {
      assert Ready(SlotOf(files, destinations[j]), Get(first, destinations[j]), payload);
    }
  }

  lemma StagedUnwinds(files: Files, first: Files, destinations: seq<Path>, i: nat, payload: seq<byte>,
                      restoring: set<Path>)
    requires Staging(files, first, destinations, i, payload) && NotReached(files, first, destinations, i + 1)
    requires i < |destinations| && Get(files, destinations[i]) == Get(first, destinations[i])
    ensures Unwinding(files, first, destinations, 0, 0, payload, restoring)
  {
    hide StageOf, BackupOf;
    forall j | 0 <= j < |destinations| ensures Get(files, destinations[j]) == Get(first, destinations[j]) {
      if j < i {
        assert Ready(SlotOf(files, destinations[j]), Get(first, destinations[j]), payload);
      } else if j > i {
        assert SlotOf(files, destinations[j]) == SlotOf(first, destinations[j]);
      }
    }
  }

  lemma AllPublished(files: Files, first: Files, destinations: seq<Path>, payload: seq<byte>)
    requires Publishing(files, first, destinations, |destinations|, payload)
    ensures forall d :: d in destinations ==> Get(files, d) == Some(payload)
  {
    hide StageOf, BackupOf;
    forall j | 0 <= j < |destinations| ensures Get(files, destinations[j]) == Some(payload) {
      assert Live(SlotOf(files, destinations[j]), Get(first, destinations[j]), payload);
    }
  }

  lemma UnwindingAt(files: Files, first: Files, destinations: seq<Path>, m: nat, k: nat, payload: seq<byte>,
                    restoring: set<Path>)
    requires Unwinding(files, first, destinations, m + 1, k, payload, restoring)
    ensures Live(SlotOf(files, destinations[m]), Get(first, destinations[m]), payload)
  {
  }

  /** The destinations after the rollback, and the backups of those whose step failed. */
  lemma AllUnwound(files: Files, first: Files, destinations: seq<Path>, f: Failures, payload: seq<byte>)
    requires Distinct(destinations)
    requires Unwinding(files, first, destinations, 0, ReplacedCount(f, destinations), payload, f.restoring)
    ensures forall d :: d in destinations ==>
      Get(files, d) == if d in Incomplete(f, destinations) then Some(payload) else Get(first, d)
    ensures forall d :: d in Incomplete(f, destinations) && d in first ==> Get(files, BackupOf(d)) == Get(first, d)
  {
    hide StageOf, BackupOf;
    var k := ReplacedCount(f, destinations);
    forall j | 0 <= j < |destinations|
      ensures destinations[j] in Incomplete(f, destinations) <==> j < k && destinations[j] in f.restoring
    {
      if destinations[j] in destinations[..k] {
        var i :| 0 <= i < k && destinations[i] == destinations[j];
        assert i == j;
      }
    }
    forall j | 0 <= j < k
      ensures RolledBack(SlotOf(files, destinations[j]), Get(first, destinations[j]), payload,
        destinations[j] in f.restoring)
    {
    }
  }

  // ---------------------------------------------------------------- clean-up

  /** Slot `j` when the first `c` are cleaned up: the helpers of those before `c` are gone, those
      after it untouched, and at `c` the backup too. */
  predicate CleanedSlot(s: Slot, was: Slot, j: nat, c: nat) {
    && s.destination == was.destination
    && (j < c ==> s.stage.None? && s.backup.None?)
    && (j >= c ==> s.backup == was.backup)
    && (j > c ==> s.stage == was.stage)
  }

  ghost predicate Cleaned(files: Files, before: Files, destinations: seq<Path>, c: nat) {
    && c <= |destinations|
    && (forall j :: 0 <= j < |destinations| ==>
        CleanedSlot(SlotOf(files, destinations[j]), SlotOf(before, destinations[j]), j, c))
    && OnlySlots(before, files, destinations)
  }

  lemma AfterCleaning(files: Files, before: Files, destinations: seq<Path>, c: nat)
    requires Cleaned(files, before, destinations, c)
    ensures forall d :: d in destinations ==> Get(files, d) == Get(before, d)
    ensures forall j :: 0 <= j < c ==> StageOf(destinations[j]) !in files && BackupOf(destinations[j]) !in files
    ensures forall j :: c <= j < |destinations| ==>
      Get(files, BackupOf(destinations[j])) == Get(before, BackupOf(destinations[j]))
    ensures forall j :: c < j < |destinations| ==> SlotOf(files, destinations[j]) == SlotOf(before, destinations[j])
  {
    hide StageOf, BackupOf;
    forall j | 0 <= j < |destinations|
      ensures CleanedSlot(SlotOf(files, destinations[j]), SlotOf(before, destinations[j]), j, c)
    {
    }
  }

  lemma CleanedOnlySlots(files: Files, before: Files, destinations: seq<Path>, c: nat)
    requires Cleaned(files, before, destinations, c)
    ensures OnlySlots(before, files, destinations)
  {
  }

  lemma NothingCleaned(files: Files, destinations: seq<Path>)
    ensures Cleaned(files, files, destinations, 0)
  {
  }

  /** The stage of destination `c` goes, then perhaps its backup. */
  lemma OneMoreCleaned(source: Path, destinations: seq<Path>, files: Files, before: Files, c: nat)
    requires Distinct(destinations) && Apart(source, destinations) && c < |destinations|
      && Cleaned(files, before, destinations, c)
    ensures Cleaned(files - {StageOf(destinations[c])}, before, destinations, c)
    ensures Cleaned(files - {StageOf(destinations[c])} - {BackupOf(destinations[c])}, before, destinations, c + 1)
  {
    var d := destinations[c];
    assert d in destinations;
    HelpersRemoved(files, d);
    OtherSlotsAt(source, destinations, files, files - {StageOf(d)}, c);
    OtherSlotsAt(source, destinations, files, files - {StageOf(d)} - {BackupOf(d)}, c);
    SlotInSlots(destinations, before, files, files - {StageOf(d)}, d);
    SlotInSlots(destinations, before, files, files - {StageOf(d)} - {BackupOf(d)}, d);
    assert CleanedSlot(SlotOf(files, d), SlotOf(before, d), c, c);
    hide SlotOf, OnlySlot, OnlySlots, StageOf, BackupOf;
  }

  lemma HelpersRemoved(files: Files, d: Path)
    requires d != StageOf(d) && d != BackupOf(d)
    ensures OnlySlot(files, files - {StageOf(d)}, d) && OnlySlot(files, files - {StageOf(d)} - {BackupOf(d)}, d)
    ensures SlotOf(files - {StageOf(d)}, d) == SlotOf(files, d).(stage := None)
    ensures SlotOf(files - {StageOf(d)} - {BackupOf(d)}, d) == SlotOf(files, d).(stage := None, backup := None)
  {
    StagesDiffer(d, d);
    hide StageOf, BackupOf;
  }

  // ---------------------------------------------------------------- the publisher

  datatype Outcome =
    | Rejected                              // no or repeated destinations
    | SourceUnreadable
    | Published
    | Failed(incomplete: set<Path>)         // the destinations whose rollback failed

  const RETRIES: nat := 5

  class Publisher {
    const failures: Failures
    var files: Files

    constructor (files: Files, failures: Failures)
      ensures this.files == files && this.failures == failures
    {
      this.files, this.failures := files, failures;
    }

    /** The attempts at an atomic replace: the first `locks` of them meet a transient lock, the
        one after them works or fails for good. */
    method Attempt(from: Path, to: Path, locks: nat, works: bool) returns (ok: bool, attempts: nat)
      requires from != to && from in files
      modifies this
      ensures ok <==> works && locks <= 5
      ensures attempts == if locks <= 5 then locks + 1 else 6
      ensures files == if ok then old(files)[to := old(files)[from]] - {from} else old(files)
    {
      attempts := 0;
      while true
        invariant attempts <= RETRIES && attempts <= locks && files == old(files)
        decreases RETRIES - attempts
      {
        var locked := attempts < locks;
        attempts := attempts + 1;
        if !locked && works {
          files := files[to := files[from]] - {from};
          return true, attempts;
        }
        if !locked || attempts == RETRIES + 1 {
          return false, attempts;
        }
      }
    }

    /** `_replace_with_windows_retry`, however many transient locks come before it fails or works. */
    method ReplaceWithRetry(from: Path, to: Path, fails: bool) returns (ok: bool, attempts: nat)
      requires from != to && from in files
      modifies this
      ensures ok <==> !fails
      ensures files == if ok then old(files)[to := old(files)[from]] - {from} else old(files)
      ensures 1 <= attempts <= 6
    {
      var any: int := *;
      var locks: nat := if any < 0 || (any > 5 && !fails) then 0 else any;
      ok, attempts := Attempt(from, to, locks, !fails);
    }

    /** Stage one destination and back it up; if that fails, any of the calls may be the one,
        and a copy that fails may leave anything behind.  The destination is untouched. */
    method StageOne(source: Path, d: Path, payload: seq<byte>, fails: bool) returns (ok: bool)
      requires d != StageOf(d) && d != BackupOf(d) && source != StageOf(d) && source != BackupOf(d)
      requires Get(files, source) == Some(payload)
      modifies this
      ensures ok <==> !fails
      ensures OnlySlot(old(files), files, d) && Get(files, d) == Get(old(files), d)
      ensures ok ==> Ready(SlotOf(files, d), Get(old(files), d), payload)
    {
      var stage, backup := StageOf(d), BackupOf(d);
      StagesDiffer(d, d);
      hide StageOf, BackupOf;
      var at: int, bytes: seq<byte>, left: bool := *, *, *;
      if fails && at == 0 {
        return false;
      }
      files := files - {stage};
      if fails && at == 1 {
        return false;
      }
      files := files - {backup};
      if fails && (at == 2 || d !in files) {
        if left {
          files := files[stage := bytes];
        }
        return false;
      }
      files := files[stage := files[source]];
      if fails {
        if left {
          files := files[backup := bytes];
        }
        return false;
      }
      if d in files {
        files := files[backup := files[d]];
      }
      return true;
    }

    /** Put one replaced destination back. */
    method RollBackOne(d: Path, ghost was: Option<seq<byte>>, existed: bool, payload: seq<byte>, fails: bool)
      returns (ok: bool)
      requires d != StageOf(d) && d != BackupOf(d) && existed == was.Some?
      requires Live(SlotOf(files, d), was, payload)
      modifies this
      ensures ok <==> !fails
      ensures OnlySlot(old(files), files, d) && RolledBack(SlotOf(files, d), was, payload, fails)
    {
      StagesDiffer(d, d);
      hide StageOf, BackupOf;
      ok := !fails;
      if existed && BackupOf(d) in files {
        var attempts;
        ok, attempts := ReplaceWithRetry(BackupOf(d), d, fails);
      } else if !existed && !fails {
        files := files - {d};
      }
    }

    /** The `finally` part: remove the stage and backup of every recorded destination; the first
        error ends it. */
    method CleanUp(source: Path, destinations: seq<Path>, records: nat) returns (ok: bool)
      requires Distinct(destinations) && Apart(source, destinations) && records <= |destinations|
      modifies this
      ensures Cleaned(files, old(files), destinations, Before(destinations[..records], failures.cleaning))
      ensures OnlySlots(old(files), files, destinations)
      ensures ok <==> forall j :: 0 <= j < records ==> destinations[j] !in failures.cleaning
    {
      hide StageOf, BackupOf, Cleaned;
      NothingCleaned(files, destinations);
      for j := 0 to records
        invariant Cleaned(files, old(files), destinations, j)
        invariant forall i :: 0 <= i < j ==> destinations[i] !in failures.cleaning
      {
        OneMoreCleaned(source, destinations, files, old(files), j);
        var d := destinations[j];
        var second: bool := *;
        if d in failures.cleaning {
          if second {
            files := files - {StageOf(d)};
          }
          BeforeIs(destinations[..records], failures.cleaning, j);
          CleanedOnlySlots(files, old(files), destinations, j);
          return false;
        }
        files := files - {StageOf(d)} - {BackupOf(d)};
      }
      BeforeIs(destinations[..records], failures.cleaning, records);
      CleanedOnlySlots(files, old(files), destinations, records);
      ok := true;
    }

    /** The unwinding loop of the `except` part. */
    method RollBack(source: Path, destinations: seq<Path>, k: nat, ghost first: Files, existed: seq<bool>,
                    payload: seq<byte>, ghost i: nat)
      returns (failed: set<Path>)
      requires Distinct(destinations) && Apart(source, destinations) && k <= i
      requires Unwinding(files, first, destinations, k, k, payload, failures.restoring)
        && k <= |existed| <= |destinations|
      requires NotReached(files, first, destinations, i)
      requires forall j :: 0 <= j < k ==> existed[j] == Get(first, destinations[j]).Some?
      modifies this
      ensures Unwinding(files, first, destinations, 0, k, payload, failures.restoring)
        && NotReached(files, first, destinations, i)
      ensures OnlySlots(old(files), files, destinations)
      ensures failed == set d | d in destinations[..k] && d in failures.restoring
    {
      hide StageOf, BackupOf, Unwinding, OnlySlot, OnlySlots, NotReached, Live, RolledBack;
      failed := {};
      NoChange(files, destinations);
      var m := k;
      while m > 0
        invariant 0 <= m <= k && Unwinding(files, first, destinations, m, k, payload, failures.restoring)
        invariant OnlySlots(old(files), files, destinations) && NotReached(files, first, destinations, i)
        invariant failed == set d | d in destinations[m..k] && d in failures.restoring
      {
        m := m - 1;
        var d := destinations[m];
        ghost var before := files;
        UnwindingAt(before, first, destinations, m, k, payload, failures.restoring);
        var ok := RollBackOne(d, Get(first, d), existed[m], payload, d in failures.restoring);
        OneMoreUnwound(source, destinations, first, before, files, m, k, payload, failures.restoring, i);
        SlotInSlots(destinations, old(files), before, files, d);
        assert destinations[m..k] == [d] + destinations[m + 1..k];
        if !ok {
          failed := failed + {d};
        }
      }
      assert destinations[0..k] == destinations[..k];
    }

    /** The whole publication, for every choice of failing calls.  Barring failing rollback steps,
        either every destination holds the payload or every one is as before, absent ones
        included.  A destination whose rollback step fails keeps the new bytes, and its former
        content is lost exactly if the clean-up comes as far as its backup. */
    method AtomicPublishAliases(source: Path, destinations: seq<Path>) returns (r: Outcome, cleaned: bool)
      requires Apart(source, destinations)
      modifies this
      ensures r == Rejected <==> destinations == [] || !Distinct(destinations)
      ensures r == SourceUnreadable <==> r != Rejected && (failures.reading || source !in old(files))
      ensures r in {Rejected, SourceUnreadable} ==> files == old(files) && cleaned
      ensures r == Published ==> Succeeds(failures, destinations)
      ensures r == Published ==> source in old(files) && forall d :: d in destinations ==>
        Get(files, d) == Some(old(files)[source])
      ensures r.Failed? ==> !Succeeds(failures, destinations) && r.incomplete == Incomplete(failures, destinations)
      ensures r.Failed? ==> source in old(files) && forall d :: d in destinations ==>
        Get(files, d) == if d in r.incomplete then Some(old(files)[source]) else Get(old(files), d)
      ensures r == Published || r.Failed? ==>
        (cleaned <==> CleanedCount(failures, destinations) == StagedCount(failures, destinations))
      ensures r == Published || r.Failed? ==> forall j :: 0 <= j < CleanedCount(failures, destinations) ==>
        StageOf(destinations[j]) !in files && BackupOf(destinations[j]) !in files
      ensures r.Failed? ==> forall j ::
        (CleanedCount(failures, destinations) <= j < |destinations| && destinations[j] in r.incomplete
          && destinations[j] in old(files)) ==>
        Get(files, BackupOf(destinations[j])) == Get(old(files), destinations[j])
      ensures forall j :: StagedCount(failures, destinations) < j < |destinations| ==>
        SlotOf(files, destinations[j]) == SlotOf(old(files), destinations[j])
      ensures OnlySlots(old(files), files, destinations)
    {
      hide StageOf, BackupOf, Staging, Publishing, Unwinding, OnlySlot, OnlySlots, Ready, Live, NotReached, SlotOf,
        Incomplete;
      ghost var first := files;
      NoChange(files, destinations);
      AsBefore(files, files, destinations, 0, StagedCount(failures, destinations));
      var unique := AllDistinct(destinations);
      if destinations == [] || !unique {
        return Rejected, true;
      }
      if failures.reading || source !in files {
        return SourceUnreadable, true;
      }
      var payload := files[source];
      var existed: seq<bool>, ok := [], true;
      NothingStaged(files, destinations, payload);
      while ok && |existed| < |destinations|
        invariant |existed| <= |destinations| && Staging(files, first, destinations, |existed|, payload)
        invariant OnlySlots(first, files, destinations)
        invariant NotReached(files, first, destinations, if ok then |existed| else |existed| + 1)
        invariant forall j :: 0 <= j < |existed| ==> existed[j] == Get(first, destinations[j]).Some?
        invariant forall j :: 0 <= j < |existed| ==> destinations[j] !in failures.staging
        invariant !ok ==> |existed| < |destinations| && destinations[|existed|] in failures.staging
                          && Get(files, destinations[|existed|]) == Get(first, destinations[|existed|])
        decreases |destinations| - |existed|, ok
      {
        var i := |existed|;
        var d := destinations[i];
        ghost var before := files;
        assert d in destinations;
        NotReachedAt(before, first, destinations, i);
        SlotGivesContent(before, first, d);
        SourceIntact(before, first, source, destinations, i, payload);
        ok := StageOne(source, d, payload, d in failures.staging);
        OneMoreStaged(source, destinations, first, before, files, i, payload);
        SlotInSlots(destinations, first, before, files, d);
        if ok {
          existed := existed + [d in files];
        }
      }
      BeforeIs(destinations, failures.staging, |existed|);
      if ok {
        r, cleaned := ReplaceAll(source, destinations, first, existed, payload);
      } else {
        StagedUnwinds(files, first, destinations, |existed|, payload, failures.restoring);
        r, cleaned := Abandon(source, destinations, 0, first, existed, payload, |existed| + 1);
      }
    }

    /** The replacing loop and the final comparison. */
    method ReplaceAll(source: Path, destinations: seq<Path>, ghost first: Files, existed: seq<bool>, payload: seq<byte>)
      returns (r: Outcome, cleaned: bool)
      requires Distinct(destinations) && Apart(source, destinations) && OnlySlots(first, files, destinations)
      requires Staging(files, first, destinations, |destinations|, payload)
        && StagedCount(failures, destinations) == |destinations|
      requires |existed| == |destinations| && forall j :: 0 <= j < |existed| ==>
        existed[j] == Get(first, destinations[j]).Some?
      modifies this
      ensures Ended(r, cleaned, files, first, destinations, failures, payload)
      ensures OnlySlots(first, files, destinations)
    {
      hide StageOf, BackupOf, Staging, Publishing, Unwinding, OnlySlot, OnlySlots, Ready, Live, NotReached, SlotOf,
        Ended;
      AllStaged(files, first, destinations, payload);
      var ok, published := true, 0;
      while ok && published < |destinations|
        invariant 0 <= published <= |destinations| && Publishing(files, first, destinations, published, payload)
        invariant OnlySlots(first, files, destinations)
        invariant forall j :: 0 <= j < published ==> destinations[j] !in failures.replacing
        invariant !ok ==> published < |destinations| && destinations[published] in failures.replacing
        decreases |destinations| - published, ok
      {
        var d := destinations[published];
        ghost var before := files;
        assert d in destinations;
        PublishingAt(before, first, destinations, published, payload);
        StageIsThere(before, Get(first, d), d, payload);
        var attempts;
        ok, attempts := ReplaceWithRetry(StageOf(d), d, d in failures.replacing);
        if ok {
          Replaced(before, files, Get(first, d), d, payload);
          OneMorePublished(source, destinations, first, before, files, published, payload);
          SlotInSlots(destinations, first, before, files, d);
          published := published + 1;
        }
      }
      BeforeIs(destinations, failures.replacing, published);
      PublishedUnwinds(files, first, destinations, published, payload, failures.restoring);
      if ok && !failures.comparing {
        AllPublished(files, first, destinations, payload);
        ghost var before := files;
        assert destinations[..|destinations|] == destinations;
        cleaned := CleanUp(source, destinations, |destinations|);
        r := Published;
        SlotsInSlots(destinations, first, before, files);
        EndedPublished(cleaned, files, before, first, destinations, failures, payload);
      } else {
        r, cleaned := Abandon(source, destinations, published, first, existed, payload, |destinations|);
      }
    }

    /** The `except` and `finally` parts. */
    method Abandon(source: Path, destinations: seq<Path>, k: nat, ghost first: Files, existed: seq<bool>,
                   payload: seq<byte>, ghost i: nat)
      returns (r: Outcome, cleaned: bool)
      requires Distinct(destinations) && Apart(source, destinations) && OnlySlots(first, files, destinations) && k <= i
      requires Unwinding(files, first, destinations, k, k, payload, failures.restoring)
        && k <= |existed| <= |destinations|
      requires NotReached(files, first, destinations, i) && i <= |existed| + 1
      requires forall j :: 0 <= j < |existed| ==> existed[j] == Get(first, destinations[j]).Some?
      requires |existed| == StagedCount(failures, destinations) && k == ReplacedCount(failures, destinations)
      requires !Succeeds(failures, destinations)
      modifies this
      ensures Ended(r, cleaned, files, first, destinations, failures, payload)
      ensures OnlySlots(first, files, destinations)
    {
      hide StageOf, BackupOf, Unwinding, OnlySlot, OnlySlots, NotReached, SlotOf, Ended;
      ghost var before := files;
      var failed := RollBack(source, destinations, k, first, existed, payload, i);
      SlotsInSlots(destinations, first, before, files);
      AllUnwound(files, first, destinations, failures, payload);
      before := files;
      cleaned := CleanUp(source, destinations, |existed|);
      r := Failed(failed);
      SlotsInSlots(destinations, first, before, files);
      EndedFailed(cleaned, files, before, first, destinations, failures, payload, i);
    }
  }

  /** The end of a publication that came as far as staging. */
  ghost predicate Ended(r: Outcome, cleaned: bool, files: Files, first: Files, destinations: seq<Path>, f: Failures,
                        payload: seq<byte>) {
    && (r == Published || r.Failed?)
    && (r == Published <==> Succeeds(f, destinations))
    && (r == Published ==> forall d :: d in destinations ==> Get(files, d) == Some(payload))
    && (r.Failed? ==> r.incomplete == Incomplete(f, destinations) && forall d :: d in destinations ==>
          Get(files, d) == if d in r.incomplete then Some(payload) else Get(first, d))
    && (cleaned <==> CleanedCount(f, destinations) == StagedCount(f, destinations))
    && (forall j :: 0 <= j < CleanedCount(f, destinations) ==>
          StageOf(destinations[j]) !in files && BackupOf(destinations[j]) !in files)
    && (r.Failed? ==> forall j ::
          (CleanedCount(f, destinations) <= j < |destinations| && destinations[j] in r.incomplete
            && destinations[j] in first) ==>
          Get(files, BackupOf(destinations[j])) == Get(first, destinations[j]))
    && (forall j :: StagedCount(f, destinations) < j < |destinations| ==>
          SlotOf(files, destinations[j]) == SlotOf(first, destinations[j]))
  }

  lemma EndedPublished(cleaned: bool, files: Files, before: Files, first: Files, destinations: seq<Path>, f: Failures,
                       payload: seq<byte>)
    requires Succeeds(f, destinations) && StagedCount(f, destinations) == |destinations|
    requires forall d :: d in destinations ==> Get(before, d) == Some(payload)
    requires Cleaned(files, before, destinations, CleanedCount(f, destinations))
    requires cleaned <==> forall j :: 0 <= j < |destinations| ==> destinations[j] !in f.cleaning
    ensures Ended(Published, cleaned, files, first, destinations, f, payload)
  {
    AfterCleaning(files, before, destinations, CleanedCount(f, destinations));
    hide StageOf, BackupOf, Cleaned, Get, OnlySlots;
    assert destinations[..|destinations|] == destinations;
  }

  lemma EndedFailed(cleaned: bool, files: Files, before: Files, first: Files, destinations: seq<Path>, f: Failures,
                    payload: seq<byte>, i: nat)
    requires !Succeeds(f, destinations) && i <= StagedCount(f, destinations) + 1
    requires forall d :: d in destinations ==>
      Get(before, d) == if d in Incomplete(f, destinations) then Some(payload) else Get(first, d)
    requires forall d :: d in Incomplete(f, destinations) && d in first ==> Get(before, BackupOf(d)) == Get(first, d)
    requires NotReached(before, first, destinations, i)
    requires Cleaned(files, before, destinations, CleanedCount(f, destinations))
    requires cleaned <==> forall j :: 0 <= j < StagedCount(f, destinations) ==> destinations[j] !in f.cleaning
    ensures Ended(Failed(Incomplete(f, destinations)), cleaned, files, first, destinations, f, payload)
  {
    var n := StagedCount(f, destinations);
    AfterCleaning(files, before, destinations, CleanedCount(f, destinations));
    hide StageOf, BackupOf, Incomplete, Cleaned, Get, OnlySlots, Succeeds;
    assert forall j :: 0 <= j < n ==> destinations[..n][j] == destinations[j];
    forall j | n < j < |destinations| ensures SlotOf(files, destinations[j]) == SlotOf(first, destinations[j]) {
      assert SlotOf(before, destinations[j]) == SlotOf(first, destinations[j]);
    }
  }

  lemma {:induction false} BeforeIs(destinations: seq<Path>, ps: set<Path>, n: nat)
    requires n <= |destinations| && (n < |destinations| ==> destinations[n] in ps)
    requires forall j :: 0 <= j < n ==> destinations[j] !in ps
    ensures Before(destinations, ps) == n
  {
    var m := Before(destinations, ps);
    assert !(m < n) && !(n < m);
  }

  lemma NothingStaged(files: Files, destinations: seq<Path>, payload: seq<byte>)
    ensures Staging(files, files, destinations, 0, payload)
  {
  }

  lemma AsBefore(files: Files, first: Files, destinations: seq<Path>, i: nat, n: nat)
    requires NotReached(files, first, destinations, i) && i <= n
    ensures forall j :: n < j < |destinations| ==> SlotOf(files, destinations[j]) == SlotOf(first, destinations[j])
  {
  }

  lemma SlotGivesContent(files: Files, first: Files, d: Path)
    requires SlotOf(files, d) == SlotOf(first, d)
    ensures Get(files, d) == Get(first, d)
  {
  }

  lemma StageIsThere(files: Files, was: Option<seq<byte>>, d: Path, payload: seq<byte>)
    requires Ready(SlotOf(files, d), was, payload)
    ensures StageOf(d) in files
  {
  }

  /** Two aliases, of which the second cannot be replaced and the first cannot be rolled back:
      afterwards no file holds the former bytes of the first one. */
  method LoseTheOriginal(source: Path, a: Path, b: Path, former: seq<byte>, payload: seq<byte>)
    returns (files: Files, r: Outcome)
    requires a != b && source !in {a, b} && Apart(source, [a, b])
    requires source !in {StageOf(a), BackupOf(a), StageOf(b), BackupOf(b)}
    ensures r == Failed({a})
    ensures Get(files, a) == Some(payload) && forall p :: p in files ==> files[p] == payload
  {
    var f := Failures({}, {b}, {a}, {}, false, false);
    var ds := [a, b];
    var publisher := new Publisher(map[source := payload, a := former], f);
    ghost var first := publisher.files;
    LosingScript(f, a, b);
    var cleaned;
    r, cleaned := publisher.AtomicPublishAliases(source, ds);
    files := publisher.files;
    forall p | p in files ensures files[p] == payload {
      if p !in ds && (forall d :: d in ds ==> p != StageOf(d) && p != BackupOf(d)) {
        assert Get(files, p) == Get(first, p);
      } else {
        assert ds[0] in ds && ds[1] in ds;
        assert StageOf(ds[0]) !in files && BackupOf(ds[0]) !in files && StageOf(ds[1]) !in files
          && BackupOf(ds[1]) !in files;
        assert Get(files, b) == Get(first, b);
      }
    }
  }

  lemma LosingScript(f: Failures, a: Path, b: Path)
    requires a != b && f == Failures({}, {b}, {a}, {}, false, false)
    ensures Distinct([a, b]) && StagedCount(f, [a, b]) == 2 && CleanedCount(f, [a, b]) == 2
    ensures !Succeeds(f, [a, b]) && Incomplete(f, [a, b]) == {a}
  {
    BeforeIs([a, b], f.staging, 2);
    BeforeIs([a, b], f.replacing, 1);
    assert [a, b][..2] == [a, b] && [a, b][..1] == [a];
    BeforeIs([a, b], f.cleaning, 2);
  }

  method AllDistinct(destinations: seq<Path>) returns (unique: bool)
    ensures unique <==> Distinct(destinations)
  {
    for i := 0 to |destinations|
      invariant Distinct(destinations[..i])
    {
      if destinations[i] in destinations[..i] {
        return false;
      }
    }
    assert destinations[..|destinations|] == destinations;
    return true;
  }
}
