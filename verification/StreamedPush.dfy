/** The streamed push of one file to Android
    (`openadb/core/adb_transfer_strategy.py`, `_stream_push_file_to_android_target` and
    `_public_push_commit_verified`): the host and two processes on the device as one
    transition system.  The device keeps running whatever the host gives up waiting for. */
module StreamedPush {
  import opened Bytes
  import opened Wrappers

  // ---------------------------------------------------------------- states

  datatype Entry = Absent | Directory | Link | Regular(data: seq<byte>)

  /** What one push is about.  `isPublic` is a target without root on public storage; `prompt`
      says that the staging file exists when the stream command reports success. */
  datatype Push = Push(captured: seq<byte>, former: Entry, isPublic: bool, prompt: bool)

  datatype Host =
    | Streaming
    | Finalizing
    | VerifyingTemp
    | VerifyingKind
    | VerifyingSize
    | Verified
    | Finished(success: bool)

  datatype Shell =
    | Idle
    | Polling(i: nat, stable: nat, actual: Option<nat>)
    | Judging(stable: nat, actual: Option<nat>)
    | Moving
    | Exited(code: nat)

  /** `stream` is what the host wrote, `temp` what is visible of it under the staging name,
      `appeared` whether the staging name was ever created; `sizes` are the sizes the finalizer
      has read so far. */
  datatype State = State(
    host: Host, cancelled: bool, changed: bool, stream: seq<byte>, finalizing: bool, removing: bool,
    shell: Shell, appeared: bool, temp: Option<seq<byte>>, target: Entry, sizes: seq<Option<nat>>)

  ghost predicate Init(p: Push, s: State) {
    s == State(Streaming, false, false, [], false, false, Idle, false, None, p.former, [])
  }

  // ---------------------------------------------------------------- steps of the host

  /** The writer passes on some more bytes: the source's own, unless the source changed. */
  ghost predicate Write(p: Push, s: State, s': State) {
    && s.host.Streaming?
    && s.stream <= s'.stream && |s'.stream| <= |p.captured|
    && (!s.changed ==> s'.stream <= p.captured)
    && s' == s.(stream := s'.stream)
  }

  ghost predicate SourceChanges(s: State, s': State) {
    s.host.Streaming? && s' == s.(changed := true)
  }

  ghost predicate Cancel(s: State, s': State) {
    s' == s.(cancelled := true)
  }

  /** The clean-up in the `finally` block: a removal is requested, the result is a failure. */
  function GiveUp(s: State): State {
    s.(host := Finished(false), removing := true)
  }

  ghost predicate StreamEnds(p: Push, s: State, s': State) {
    && s.host.Streaming?
    && (s' == GiveUp(s) ||
        (!s.cancelled && !s.changed && |s.stream| == |p.captured| && (p.prompt ==> s.appeared)
         && s' == s.(host := Finalizing, finalizing := true)))
  }

  /** The finalizer's own success is final; every other failure but a timeout gives up. */
  ghost predicate FinalizeReturns(s: State, s': State) {
    && s.host.Finalizing?
    && (s' == GiveUp(s) || (s.shell == Exited(0) && s' == s.(host := Finished(!s.cancelled))))
  }

  ghost predicate FinalizeTimesOut(p: Push, s: State, s': State) {
    && s.host.Finalizing?
    && s' == if s.cancelled || !p.isPublic then GiveUp(s) else s.(host := VerifyingTemp)
  }

  /** The reconciliation script, one test at a time; it may also fail at any of them. */
  ghost predicate Verify(p: Push, s: State, s': State) {
    match s.host
    case VerifyingTemp =>
      s' == GiveUp(s) || (s.temp.None? && s' == s.(host := VerifyingKind))
    case VerifyingKind =>
      s' == GiveUp(s) || (s.target.Regular? && s' == s.(host := VerifyingSize))
    case VerifyingSize =>
      s' == GiveUp(s) || (s.target.Regular? && |s.target.data| == |p.captured| && s' == s.(host := Verified))
    case Verified =>
      s' == GiveUp(s) || s' == s.(host := Finished(!s.cancelled))
    case _ => false
  }

  // ---------------------------------------------------------------- steps of the device

  ghost predicate OpenTemp(s: State, s': State) {
    !s.appeared && s' == s.(appeared := true, temp := Some([]))
  }

  ghost predicate Grow(s: State, s': State) {
    && s.temp.Some? && s'.temp.Some?
    && s.temp.value <= s'.temp.value <= s.stream
    && s' == s.(temp := s'.temp)
  }

  ghost predicate Remove(s: State, s': State) {
    s.removing && s' == s.(temp := None)
  }

  ghost predicate StartShell(s: State, s': State) {
    s.finalizing && s.shell.Idle? && s' == s.(shell := Polling(0, 0, None))
  }

  /** A size that `stat` may report: none, or one that is stale and too small. */
  ghost predicate MayReport(s: State, size: Option<nat>) {
    size.Some? ==> s.temp.Some? && size.value <= |s.temp.value|
  }

  function AfterSize(expected: nat, i: nat, stable: nat, size: Option<nat>): Shell {
    if size == Some(expected) then
      if stable + 1 >= 2 then Judging(stable + 1, size) else Polling(i + 1, stable + 1, size)
    else Polling(i + 1, 0, size)
  }

  ghost predicate Poll(p: Push, s: State, s': State, size: Option<nat>) {
    && s.shell.Polling?
    && if s.shell.i < 20 then
         MayReport(s, size)
         && s' == s.(shell := AfterSize(|p.captured|, s.shell.i, s.shell.stable, size), sizes := s.sizes + [size])
       else
         s' == s.(shell := Judging(s.shell.stable, s.shell.actual))
  }

  ghost predicate Judge(p: Push, s: State, s': State) {
    && s.shell.Judging?
    && s' == s.(shell :=
         if s.shell.actual.None? then Exited(74)
         else if s.shell.actual.value != |p.captured| || s.shell.stable < 2 then Exited(75)
         else if s.target.Directory? then Exited(73)
         else Moving)
  }

  /** `mv` within one directory: it happens entirely or not at all. */
  ghost predicate Move(s: State, s': State) {
    && s.shell.Moving?
    && (s' == s.(shell := Exited(1)) ||
        (s.temp.Some? && s' == s.(shell := Exited(0), target := Regular(s.temp.value), temp := None)))
  }

  // ---------------------------------------------------------------- runs

  ghost predicate HostStep(p: Push, s: State, s': State) {
    || Write(p, s, s') || SourceChanges(s, s') || Cancel(s, s') || StreamEnds(p, s, s')
    || FinalizeReturns(s, s') || FinalizeTimesOut(p, s, s') || Verify(p, s, s')
  }

  ghost predicate DeviceStep(p: Push, s: State, s': State) {
    || OpenTemp(s, s') || Grow(s, s') || Remove(s, s') || StartShell(s, s')
    || (exists size :: Poll(p, s, s', size)) || Judge(p, s, s') || Move(s, s')
  }

  ghost predicate Next(p: Push, s: State, s': State) {
    HostStep(p, s, s') || DeviceStep(p, s, s')
  }

  ghost predicate IsRun(p: Push, run: seq<State>) {
    && run != [] && Init(p, run[0])
    && forall i :: 0 <= i < |run| - 1 ==> Next(p, run[i], run[i + 1])
  }

  // ---------------------------------------------------------------- invariant

  /** The last `n` sizes that were read equal the expected one. */
  ghost predicate StableFor(p: Push, sizes: seq<Option<nat>>, n: nat) {
    n <= |sizes| && forall k :: |sizes| - n <= k < |sizes| ==> sizes[k] == Some(|p.captured|)
  }

  ghost predicate ShellInv(p: Push, s: State) {
    match s.shell
    case Idle => true
    case Polling(i, stable, actual) => StableFor(p, s.sizes, stable)
    case Judging(stable, actual) => StableFor(p, s.sizes, stable)
    case Moving => StableFor(p, s.sizes, 2)
    case Exited(code) => code == 0 ==> StableFor(p, s.sizes, 2)
  }

  /** Once a full size was read, the staging file holds the whole stream or is gone. */
  ghost predicate SeenInFull(p: Push, s: State) {
    match s.shell
    case Polling(_, stable, _) => stable > 0 ==> s.appeared && (s.temp.None? || s.temp == Some(p.captured))
    case Judging(stable, _) => stable > 0 ==> s.appeared && (s.temp.None? || s.temp == Some(p.captured))
    case Moving => s.appeared && (s.temp.None? || s.temp == Some(p.captured))
    case _ => true
  }

  ghost predicate Inv(p: Push, s: State) {
    && |s.stream| <= |p.captured|
    && (!s.changed ==> s.stream <= p.captured)
    && (s.finalizing ==> s.stream == p.captured && !s.host.Streaming?)
    && (!s.finalizing ==> s.target == p.former && s.shell.Idle? && (s.host.Streaming? || s.host == Finished(false)))
    && (s.removing ==> s.host == Finished(false))
    && (s.temp.Some? ==> s.appeared && s.temp.value <= s.stream)
    && ShellInv(p, s) && SeenInFull(p, s)
    && (s.target == p.former || s.target == Regular(p.captured))
    && (s.shell == Exited(0) ==> s.target == Regular(p.captured))
    && (s.finalizing && p.prompt ==> s.appeared)
    && (s.temp.None? && s.appeared && !s.removing ==> s.shell == Exited(0))
    && HostInv(p, s)
  }

  ghost predicate HostInv(p: Push, s: State) {
    match s.host
    case VerifyingTemp => p.isPublic
    case VerifyingKind => p.isPublic && Vanished(p, s)
    case VerifyingSize => p.isPublic && Vanished(p, s) && s.target.Regular?
    case Verified => p.isPublic && Vanished(p, s) && (s.target == Regular(p.captured) || Lookalike(p))
    case Finished(success) => success ==> s.target == Regular(p.captured) || (p.isPublic && !p.prompt && Lookalike(p))
    case _ => true
  }

  /** The staging name was missing: published, or never visible so far. */
  ghost predicate Vanished(p: Push, s: State) {
    s.target == Regular(p.captured) || !p.prompt
  }

  /** The old target cannot be told from the new one by its kind and size. */
  predicate Lookalike(p: Push) {
    p.former.Regular? && |p.former.data| == |p.captured|
  }

  lemma StreamKeepsInv(p: Push, s: State, s': State)
    requires Inv(p, s) && (Write(p, s, s') || SourceChanges(s, s') || Cancel(s, s') || StreamEnds(p, s, s'))
    ensures Inv(p, s')
  {
  }

  lemma FinalizeKeepsInv(p: Push, s: State, s': State)
    requires Inv(p, s) && (FinalizeReturns(s, s') || FinalizeTimesOut(p, s, s') || Verify(p, s, s'))
    ensures Inv(p, s')
  {
  }

  lemma StableGrows(p: Push, sizes: seq<Option<nat>>, n: nat, size: Option<nat>)
    requires StableFor(p, sizes, n)
    ensures StableFor(p, sizes + [size], if size == Some(|p.captured|) then n + 1 else 0)
  {
  }

  lemma PollKeepsInv(p: Push, s: State, s': State, size: Option<nat>)
    requires Inv(p, s) && Poll(p, s, s', size)
    ensures Inv(p, s')
  {
    if s.shell.i < 20 {
      StableGrows(p, s.sizes, s.shell.stable, size);
      if size == Some(|p.captured|) {
        assert s.temp.value == p.captured;
      }
    }
  }

  lemma TempKeepsInv(p: Push, s: State, s': State)
    requires Inv(p, s) && (OpenTemp(s, s') || Grow(s, s') || Remove(s, s'))
    ensures Inv(p, s')
  {
    if Grow(s, s') && s.temp == Some(p.captured) && s.stream == p.captured {
      assert s'.temp.value == p.captured;
    }
  }

  lemma ShellKeepsInv(p: Push, s: State, s': State)
    requires Inv(p, s) && (StartShell(s, s') || Judge(p, s, s') || Move(s, s'))
    ensures Inv(p, s')
  {
  }

  lemma NextKeepsInv(p: Push, s: State, s': State)
    requires Inv(p, s) && Next(p, s, s')
    ensures Inv(p, s')
  {
    hide Inv;
    if Write(p, s, s') || SourceChanges(s, s') || Cancel(s, s') || StreamEnds(p, s, s') {
      StreamKeepsInv(p, s, s');
    } else if FinalizeReturns(s, s') || FinalizeTimesOut(p, s, s') || Verify(p, s, s') {
      FinalizeKeepsInv(p, s, s');
    } else if size :| Poll(p, s, s', size) {
      PollKeepsInv(p, s, s', size);
    } else if StartShell(s, s') || Judge(p, s, s') || Move(s, s') {
      ShellKeepsInv(p, s, s');
    } else {
      TempKeepsInv(p, s, s');
    }
  }

  lemma {:induction false} RunKeepsInv(p: Push, run: seq<State>, i: nat)
    requires IsRun(p, run) && i < |run|
    ensures Inv(p, run[i])
  {
    if i > 0 {
      RunKeepsInv(p, run, i - 1);
      assert Next(p, run[i - 1], run[i - 1 + 1]);
      NextKeepsInv(p, run[i - 1], run[i]);
    }
  }

  // ---------------------------------------------------------------- what every run promises

  /** At all times the target is what it was or exactly the captured source; the staging file
      is always a prefix of it while the source is unchanged. */
  lemma TargetIsOldOrNew(p: Push, run: seq<State>, i: nat)
    requires IsRun(p, run) && i < |run|
    ensures run[i].target == p.former || run[i].target == Regular(p.captured)
    ensures run[i].temp.Some? ==> run[i].temp.value <= run[i].stream
    ensures !run[i].finalizing ==> run[i].target == p.former
  {
    RunKeepsInv(p, run, i);
  }

  lemma HostKeepsTarget(p: Push, s: State, s': State)
    requires HostStep(p, s, s')
    ensures s'.target == s.target && s'.shell == s.shell && s'.sizes == s.sizes
  {
    hide Write, SourceChanges, Cancel, StreamEnds, FinalizeReturns, FinalizeTimesOut, Verify;
    if Write(p, s, s') || SourceChanges(s, s') || Cancel(s, s') || StreamEnds(p, s, s') {
      StreamKeepsTarget(p, s, s');
    } else if Verify(p, s, s') {
      VerifyKeepsTarget(p, s, s');
    } else {
      FinalizeKeepsTarget(p, s, s');
    }
  }

  lemma StreamKeepsTarget(p: Push, s: State, s': State)
    requires Write(p, s, s') || SourceChanges(s, s') || Cancel(s, s') || StreamEnds(p, s, s')
    ensures s'.target == s.target && s'.shell == s.shell && s'.sizes == s.sizes
  {
  }

  lemma VerifyKeepsTarget(p: Push, s: State, s': State)
    requires Verify(p, s, s')
    ensures s'.target == s.target && s'.shell == s.shell && s'.sizes == s.sizes
  {
  }

  lemma FinalizeKeepsTarget(p: Push, s: State, s': State)
    requires FinalizeReturns(s, s') || FinalizeTimesOut(p, s, s')
    ensures s'.target == s.target && s'.shell == s.shell && s'.sizes == s.sizes
  {
  }

  lemma OnlyMoveChangesTarget(p: Push, s: State, s': State)
    requires Next(p, s, s') && s'.target != s.target
    ensures Move(s, s')
  {
    hide HostStep;
    if HostStep(p, s, s') {
      HostKeepsTarget(p, s, s');
    }
  }

  /** The finalizer comes to its move only right after two sizes, both exactly the expected one,
      and then the staging file is gone or the whole source; the target changes only by that move. */
  lemma MoveOnlyAfterTwoFullSizes(p: Push, run: seq<State>, i: nat)
    requires IsRun(p, run) && i < |run|
    requires run[i].shell.Moving? || (i + 1 < |run| && run[i + 1].target != run[i].target)
    ensures run[i].shell.Moving? && (run[i].temp.None? || run[i].temp == Some(p.captured))
    ensures var n := |run[i].sizes|;
            n >= 2 && run[i].sizes[n - 1] == run[i].sizes[n - 2] == Some(|p.captured|)
    ensures i + 1 < |run| && run[i + 1].target != run[i].target ==> run[i + 1].target == Regular(p.captured)
  {
    RunKeepsInv(p, run, i);
    if i + 1 < |run| && run[i + 1].target != run[i].target {
      RunKeepsInv(p, run, i + 1);
      assert Next(p, run[i], run[i + 1]);
      OnlyMoveChangesTarget(p, run[i], run[i + 1]);
    }
  }

  /** With this condition no old target can pass for the new one. */
  predicate Unmistakable(p: Push) {
    !p.isPublic || p.prompt || !Lookalike(p) || p.former == Regular(p.captured)
  }

  ghost predicate SuccessIsTrue(p: Push) {
    forall run: seq<State>, i :: IsRun(p, run) && 0 <= i < |run| && run[i].host == Finished(true) ==>
      run[i].target == Regular(p.captured)
  }

  /** A run in which the staging name never appears, the finalizer times out, and the old
      target of the expected size is taken for the new one. */
  function MistakenRun(p: Push): seq<State> {
    var s0 := State(Streaming, false, false, [], false, false, Idle, false, None, p.former, []);
    var s1 := s0.(stream := p.captured);
    var s2 := s1.(host := Finalizing, finalizing := true);
    var s3 := s2.(host := VerifyingTemp);
    var s4 := s3.(host := VerifyingKind);
    var s5 := s4.(host := VerifyingSize);
    var s6 := s5.(host := Verified);
    [s0, s1, s2, s3, s4, s5, s6, s6.(host := Finished(true))]
  }

  /** Reported success means that the target is the captured source: exactly when the staging
      file is known to exist by then, or the old target cannot be mistaken for the new one. */
  lemma ReportedSuccessIsPublished(p: Push)
    ensures SuccessIsTrue(p) <==> Unmistakable(p)
  {
    if Unmistakable(p) {
      forall run: seq<State>, i | IsRun(p, run) && 0 <= i < |run| && run[i].host == Finished(true)
        ensures run[i].target == Regular(p.captured)
      {
        RunKeepsInv(p, run, i);
      }
    } else {
      var run := MistakenRun(p);
      assert Write(p, run[0], run[1]);
      assert StreamEnds(p, run[1], run[2]);
      assert FinalizeTimesOut(p, run[2], run[3]);
      forall i | 3 <= i < 7 ensures Verify(p, run[i], run[i + 1]) {
      }
      assert IsRun(p, run);
      assert run[7].host == Finished(true) && run[7].target == p.former;
    }
  }

  /** Whether the staging file will be visible is not known before the push.  What a caller can
      check before it, and what is exactly enough either way: no public target, or an old target
      that cannot pass for the new one, or that is the new one already. */
  lemma SuccessIsTrueWhateverAppears(p: Push)
    ensures (forall b :: SuccessIsTrue(p.(prompt := b))) <==>
      !p.isPublic || !Lookalike(p) || p.former == Regular(p.captured)
  {
    forall b ensures SuccessIsTrue(p.(prompt := b)) <==> Unmistakable(p.(prompt := b)) {
      ReportedSuccessIsPublished(p.(prompt := b));
    }
    assert (forall b :: SuccessIsTrue(p.(prompt := b))) ==> SuccessIsTrue(p.(prompt := false));
  }

  /** The finalizer's own success never needs that condition. */
  lemma AcknowledgedMoveIsPublished(p: Push, run: seq<State>, i: nat)
    requires IsRun(p, run) && i < |run| && run[i].shell == Exited(0)
    ensures run[i].target == Regular(p.captured)
  {
    RunKeepsInv(p, run, i);
  }

  // ---------------------------------------------------------------- the finalizer, from its sizes alone

  ghost predicate IsPair(p: Push, sizes: seq<Option<nat>>, k: nat) {
    k + 1 < |sizes| && sizes[k] == sizes[k + 1] == Some(|p.captured|)
  }

  /** No two sizes in a row are the expected one. */
  ghost predicate NoPair(p: Push, sizes: seq<Option<nat>>) {
    forall k: nat :: !IsPair(p, sizes, k)
  }

  /** The last two sizes are the first such pair. */
  ghost predicate PairAtEnd(p: Push, sizes: seq<Option<nat>>) {
    |sizes| >= 2 && IsPair(p, sizes, |sizes| - 2) && NoPair(p, sizes[..|sizes| - 1])
  }

  /** The sizes of a finalizer that has read its last one: 20 at most. */
  ghost predicate Complete(p: Push, sizes: seq<Option<nat>>) {
    |sizes| <= 20 && (PairAtEnd(p, sizes) || (|sizes| == 20 && NoPair(p, sizes)))
  }

  /** Where complete sizes lead: a move, or 73 on a directory, 74 without a last size, 75. */
  ghost function Verdict(p: Push, sizes: seq<Option<nat>>): Shell {
    if PairAtEnd(p, sizes) then if p.former.Directory? then Exited(73) else Moving
    else if sizes == [] || sizes[|sizes| - 1].None? then Exited(74)
    else Exited(75)
  }

  function LastSize(sizes: seq<Option<nat>>): Option<nat> {
    if sizes == [] then None else sizes[|sizes| - 1]
  }

  function Stability(p: Push, sizes: seq<Option<nat>>): nat {
    if LastSize(sizes) == Some(|p.captured|) then 1 else 0
  }

  ghost predicate SizesFit(p: Push, s: State) {
    && (s.shell != Exited(0) ==> s.target == p.former)
    && match s.shell
       case Idle => s.sizes == []
       case Polling(i, stable, actual) =>
         i == |s.sizes| <= 20 && NoPair(p, s.sizes) && stable == Stability(p, s.sizes) && actual == LastSize(s.sizes)
       case Judging(stable, actual) =>
         Complete(p, s.sizes) && actual == LastSize(s.sizes) && (stable >= 2 <==> PairAtEnd(p, s.sizes))
       case Moving => Complete(p, s.sizes) && Verdict(p, s.sizes) == Moving
       case Exited(code) =>
         Complete(p, s.sizes) && Verdict(p, s.sizes) == if code in {0, 1} then Moving else Exited(code)
  }

  lemma OneMoreSize(p: Push, sizes: seq<Option<nat>>, size: Option<nat>)
    requires NoPair(p, sizes)
    ensures var more := sizes + [size];
      if Stability(p, sizes) == 1 && size == Some(|p.captured|) then PairAtEnd(p, more) else NoPair(p, more)
  {
    var more, n := sizes + [size], |sizes|;
    assert more[..n] == sizes;
    forall k: nat ensures IsPair(p, more, k) <==> k + 1 == n && Stability(p, sizes) == 1 && size == Some(|p.captured|) {
      assert k + 1 < n ==> !IsPair(p, sizes, k);
    }
  }

  lemma PollKeepsSizes(p: Push, s: State, s': State, size: Option<nat>)
    requires SizesFit(p, s) && Poll(p, s, s', size)
    ensures SizesFit(p, s')
  {
    if s.shell.i < 20 {
      OneMoreSize(p, s.sizes, size);
    }
    PairIsOne(p, s.sizes);
    PairIsOne(p, s'.sizes);
  }

  lemma PairIsOne(p: Push, sizes: seq<Option<nat>>)
    ensures PairAtEnd(p, sizes) ==> !NoPair(p, sizes) && LastSize(sizes) == Some(|p.captured|)
  {
    if PairAtEnd(p, sizes) {
      assert IsPair(p, sizes, |sizes| - 2);
    }
  }

  lemma NextKeepsSizes(p: Push, s: State, s': State)
    requires Inv(p, s) && SizesFit(p, s) && Next(p, s, s')
    ensures SizesFit(p, s')
  {
    if HostStep(p, s, s') {
      HostKeepsTarget(p, s, s');
      hide HostStep, DeviceStep, Inv, Complete, NoPair, PairAtEnd;
    } else if size :| Poll(p, s, s', size) {
      PollKeepsSizes(p, s, s', size);
    } else if OpenTemp(s, s') || Grow(s, s') || Remove(s, s') {
      hide HostStep, DeviceStep, Inv, Complete, NoPair, PairAtEnd;
    } else {
      ShellKeepsSizes(p, s, s');
    }
  }

  lemma ShellKeepsSizes(p: Push, s: State, s': State)
    requires SizesFit(p, s) && (StartShell(s, s') || Judge(p, s, s') || Move(s, s'))
    ensures SizesFit(p, s')
  {
    PairIsOne(p, s.sizes);
    assert NoPair(p, []);
    hide NoPair, PairAtEnd;
  }

  lemma {:induction false} RunKeepsSizes(p: Push, run: seq<State>, i: nat)
    requires IsRun(p, run) && i < |run|
    ensures SizesFit(p, run[i])
  {
    if i > 0 {
      RunKeepsInv(p, run, i - 1);
      RunKeepsSizes(p, run, i - 1);
      assert Next(p, run[i - 1], run[i - 1 + 1]);
      NextKeepsSizes(p, run[i - 1], run[i]);
    }
  }

  /** Whatever the finalizer does in the end, it is what its sizes lead to: it moves, or has moved
      or failed to (exit codes 0 and 1), exactly after the first pair of full sizes where no
      directory stands; all other exit codes are the verdict on complete sizes. */
  lemma FinalizerVerdict(p: Push, run: seq<State>, i: nat)
    requires IsRun(p, run) && i < |run|
    ensures run[i].shell.Moving? || run[i].shell.Exited? ==> Complete(p, run[i].sizes)
    ensures run[i].shell.Moving? || run[i].shell in {Exited(0), Exited(1)} ==> Verdict(p, run[i].sizes) == Moving
    ensures run[i].shell.Exited? && run[i].shell.code !in {0, 1} ==> Verdict(p, run[i].sizes) == run[i].shell
  {
    RunKeepsSizes(p, run, i);
  }

  // ---------------------------------------------------------------- what can happen does

  ghost predicate Reached(p: Push, s: State) {
    exists run :: IsRun(p, run) && run[|run| - 1] == s
  }

  lemma ReachedNext(p: Push, s: State, s': State)
    requires Reached(p, s) && Next(p, s, s')
    ensures Reached(p, s')
  {
    var run :| IsRun(p, run) && run[|run| - 1] == s;
    var more := run + [s'];
    hide Next, Init;
    forall i | 0 <= i < |more| - 1 ensures Next(p, more[i], more[i + 1]) {
      if i < |run| - 1 {
        assert Next(p, run[i], run[i + 1]);
      }
    }
    assert IsRun(p, more) && more[|more| - 1] == s';
  }

  /** The finalizer starts with the whole source under the staging name. */
  function Started(p: Push): State {
    State(Finalizing, false, false, p.captured, true, false, Polling(0, 0, None), true, Some(p.captured), p.former, [])
  }

  lemma StartIsReached(p: Push)
    ensures Reached(p, Started(p))
  {
    var s0 := State(Streaming, false, false, [], false, false, Idle, false, None, p.former, []);
    var s1 := s0.(appeared := true, temp := Some([]));
    var s2 := s1.(stream := p.captured);
    var s3 := s2.(temp := Some(p.captured));
    var s4 := s3.(host := Finalizing, finalizing := true);
    assert IsRun(p, [s0]);
    assert [s0][|[s0]| - 1] == s0;
    assert OpenTemp(s0, s1) && Write(p, s1, s2) && Grow(s2, s3) && StreamEnds(p, s3, s4) && StartShell(s4, Started(p));
    ReachedNext(p, s0, s1);
    ReachedNext(p, s1, s2);
    ReachedNext(p, s2, s3);
    ReachedNext(p, s3, s4);
    ReachedNext(p, s4, Started(p));
  }

  /** Sizes that `stat` can report: none of the staging file is larger than the source. */
  predicate Reportable(p: Push, sizes: seq<Option<nat>>) {
    forall k :: 0 <= k < |sizes| && sizes[k].Some? ==> sizes[k].value <= |p.captured|
  }

  function AfterSizes(p: Push, sizes: seq<Option<nat>>): State {
    Started(p).(shell := Polling(|sizes|, Stability(p, sizes), LastSize(sizes)), sizes := sizes)
  }

  lemma {:induction false} SizesAreReached(p: Push, sizes: seq<Option<nat>>)
    requires NoPair(p, sizes) && |sizes| <= 20 && Reportable(p, sizes)
    ensures Reached(p, AfterSizes(p, sizes))
  {
    if sizes == [] {
      StartIsReached(p);
    } else {
      var n := |sizes| - 1;
      var before, size := sizes[..n], sizes[n];
      NoPairBefore(p, sizes, n);
      SizesAreReached(p, before);
      assert sizes == before + [size];
      OneMoreSize(p, before, size);
      PairIsOne(p, sizes);
      hide NoPair, PairAtEnd, Reached;
      var s := AfterSizes(p, before);
      assert MayReport(s, size);
      assert Poll(p, s, AfterSizes(p, sizes), size);
      ReachedNext(p, s, AfterSizes(p, sizes));
    }
  }

  lemma NoPairBefore(p: Push, sizes: seq<Option<nat>>, n: nat)
    requires NoPair(p, sizes) && n <= |sizes|
    ensures NoPair(p, sizes[..n])
  {
    forall k: nat ensures !IsPair(p, sizes[..n], k) {
      assert !IsPair(p, sizes, k);
    }
  }

  lemma JudgingIsReached(p: Push, sizes: seq<Option<nat>>) returns (stable: nat)
    requires Complete(p, sizes) && Reportable(p, sizes)
    ensures stable >= 2 <==> PairAtEnd(p, sizes)
    ensures Reached(p, Started(p).(shell := Judging(stable, LastSize(sizes)), sizes := sizes))
  {
    PairIsOne(p, sizes);
    if PairAtEnd(p, sizes) {
      stable := 2;
      var n := |sizes| - 1;
      var before := sizes[..n];
      SizesAreReached(p, before);
      assert sizes == before + [sizes[n]] && LastSize(before) == Some(|p.captured|);
      hide NoPair, Reached;
      var s, t := AfterSizes(p, before), Started(p).(shell := Judging(2, LastSize(sizes)), sizes := sizes);
      assert MayReport(s, sizes[n]);
      assert Poll(p, s, t, sizes[n]);
      ReachedNext(p, s, t);
    } else {
      stable := Stability(p, sizes);
      SizesAreReached(p, sizes);
      hide NoPair, Reached;
      var s, t := AfterSizes(p, sizes), Started(p).(shell := Judging(stable, LastSize(sizes)), sizes := sizes);
      assert Poll(p, s, t, None);
      ReachedNext(p, s, t);
    }
  }

  /** All complete sizes that can be reported are reported in some run, and have their verdict. */
  lemma EveryVerdictIsReached(p: Push, sizes: seq<Option<nat>>)
    requires Complete(p, sizes) && Reportable(p, sizes)
    ensures Reached(p, Started(p).(shell := Verdict(p, sizes), sizes := sizes))
  {
    var stable := JudgingIsReached(p, sizes);
    PairIsOne(p, sizes);
    var s := Started(p).(shell := Judging(stable, LastSize(sizes)), sizes := sizes);
    var t := s.(shell := Verdict(p, sizes));
    hide NoPair, PairAtEnd, Reached;
    assert Judge(p, s, t);
    ReachedNext(p, s, t);
  }

  /** The finalizer has moved the staging file. */
  function Moved(p: Push): State {
    Started(p).(shell := Exited(0), sizes := [Some(|p.captured|), Some(|p.captured|)], temp := None,
                target := Regular(p.captured))
  }

  lemma MovedIsReached(p: Push)
    requires !p.former.Directory?
    ensures Reached(p, Moved(p))
  {
    var sizes := [Some(|p.captured|), Some(|p.captured|)];
    assert forall k: nat :: !IsPair(p, sizes[..1], k);
    assert PairAtEnd(p, sizes) && Complete(p, sizes);
    EveryVerdictIsReached(p, sizes);
    hide Reached, PairAtEnd;
    var s := Started(p).(shell := Moving, sizes := sizes);
    assert Move(s, Moved(p));
    ReachedNext(p, s, Moved(p));
  }

  /** Every push to a target that is no directory can succeed: published, nothing to clean up. */
  lemma PushCanSucceed(p: Push)
    requires !p.former.Directory?
    ensures Reached(p, Moved(p).(host := Finished(true)))
  {
    MovedIsReached(p);
    assert FinalizeReturns(Moved(p), Moved(p).(host := Finished(true)));
    hide Reached;
    ReachedNext(p, Moved(p), Moved(p).(host := Finished(true)));
  }

  /** On public storage also where the host stops waiting after the move: every test of the
      reconciliation passes, and the push is reported as a success. */
  lemma TimedOutPushCanSucceed(p: Push)
    requires !p.former.Directory? && p.isPublic
    ensures forall host :: host in {VerifyingTemp, VerifyingKind, VerifyingSize, Verified, Finished(true)} ==>
      Reached(p, Moved(p).(host := host))
    ensures Verify(p, Moved(p).(host := Verified), Moved(p).(host := Finished(true)))
  {
    MovedIsReached(p);
    var s := Moved(p);
    assert FinalizeTimesOut(p, s, s.(host := VerifyingTemp));
    assert Verify(p, s.(host := VerifyingTemp), s.(host := VerifyingKind));
    assert Verify(p, s.(host := VerifyingKind), s.(host := VerifyingSize));
    assert Verify(p, s.(host := VerifyingSize), s.(host := Verified));
    assert Verify(p, s.(host := Verified), s.(host := Finished(true)));
    hide Reached, Verify, FinalizeTimesOut;
    ReachedNext(p, s, s.(host := VerifyingTemp));
    ReachedNext(p, s.(host := VerifyingTemp), s.(host := VerifyingKind));
    ReachedNext(p, s.(host := VerifyingKind), s.(host := VerifyingSize));
    ReachedNext(p, s.(host := VerifyingSize), s.(host := Verified));
    ReachedNext(p, s.(host := Verified), s.(host := Finished(true)));
  }

  // ---------------------------------------------------------------- failures

  /** The user cancelled or the source changed before the finalizer was started. */
  predicate Withheld(s: State) {
    !s.finalizing && (s.cancelled || s.changed)
  }

  lemma {:induction false} WithheldStays(p: Push, run: seq<State>, i: nat, j: nat)
    requires IsRun(p, run) && i <= j < |run| && Withheld(run[i])
    ensures Withheld(run[j])
    decreases j - i
  {
    if i < j {
      assert Next(p, run[i], run[i + 1]);
      WithheldStep(p, run[i], run[i + 1]);
      hide Next;
      WithheldStays(p, run, i + 1, j);
    }
  }

  lemma WithheldStep(p: Push, s: State, s': State)
    requires Next(p, s, s') && Withheld(s)
    ensures Withheld(s')
  {
    if DeviceStep(p, s, s') {
      DeviceKeepsHost(p, s, s');
    }
    hide DeviceStep;
  }

  /** What was cancelled or changed during streaming never reaches the target. */
  lemma WithheldIsNotPublished(p: Push, run: seq<State>, i: nat, j: nat)
    requires IsRun(p, run) && i <= j < |run| && Withheld(run[i])
    ensures run[j].target == p.former && run[j].host != Finished(true)
  {
    WithheldStays(p, run, i, j);
    RunKeepsInv(p, run, j);
  }

  lemma {:induction false} CancelStays(p: Push, run: seq<State>, i: nat, j: nat)
    requires IsRun(p, run) && i <= j < |run| && run[i].cancelled && run[i].host != Finished(true)
    ensures run[j].cancelled && run[j].host != Finished(true)
    decreases j - i
  {
    if i < j {
      assert Next(p, run[i], run[i + 1]);
      CancelStep(p, run[i], run[i + 1]);
      hide Next;
      CancelStays(p, run, i + 1, j);
    }
  }

  lemma CancelStep(p: Push, s: State, s': State)
    requires Next(p, s, s') && s.cancelled && s.host != Finished(true)
    ensures s'.cancelled && s'.host != Finished(true)
  {
    if DeviceStep(p, s, s') {
      DeviceKeepsHost(p, s, s');
    }
    hide DeviceStep;
  }

  lemma DeviceKeepsHost(p: Push, s: State, s': State)
    requires DeviceStep(p, s, s')
    ensures s'.host == s.host && s'.cancelled == s.cancelled && s'.removing == s.removing
    ensures s'.finalizing == s.finalizing && s'.changed == s.changed
  {
    hide OpenTemp, Grow, Remove, StartShell, Poll, Judge, Move;
    if size :| Poll(p, s, s', size) {
      PollKeepsHost(p, s, s', size);
    } else if StartShell(s, s') || Judge(p, s, s') || Move(s, s') {
      ShellKeepsHost(p, s, s');
    } else {
      TempKeepsHost(s, s');
    }
  }

  lemma PollKeepsHost(p: Push, s: State, s': State, size: Option<nat>)
    requires Poll(p, s, s', size)
    ensures s'.host == s.host && s'.cancelled == s.cancelled && s'.removing == s.removing
    ensures s'.finalizing == s.finalizing && s'.changed == s.changed
  {
  }

  lemma ShellKeepsHost(p: Push, s: State, s': State)
    requires StartShell(s, s') || Judge(p, s, s') || Move(s, s')
    ensures s'.host == s.host && s'.cancelled == s.cancelled && s'.removing == s.removing
    ensures s'.finalizing == s.finalizing && s'.changed == s.changed
  {
  }

  lemma TempKeepsHost(s: State, s': State)
    requires OpenTemp(s, s') || Grow(s, s') || Remove(s, s')
    ensures s'.host == s.host && s'.cancelled == s.cancelled && s'.removing == s.removing
    ensures s'.finalizing == s.finalizing && s'.changed == s.changed
  {
  }

  /** The reconciliation is under way. */
  predicate Reconciling(s: State) {
    s.host in {VerifyingTemp, VerifyingKind, VerifyingSize, Verified}
  }

  predicate CancelledEarly(s: State) {
    s.cancelled && (s.host.Streaming? || s.host.Finalizing? || s.host == Finished(false))
  }

  lemma CancelledEarlyStep(p: Push, s: State, s': State)
    requires Next(p, s, s') && CancelledEarly(s)
    ensures CancelledEarly(s')
  {
    if DeviceStep(p, s, s') {
      DeviceKeepsHost(p, s, s');
    }
    hide DeviceStep;
  }

  /** A push that was cancelled before its finalizer timed out is not reconciled any more. */
  lemma {:induction false} CancelledIsNotReconciled(p: Push, run: seq<State>, i: nat, j: nat)
    requires IsRun(p, run) && i <= j < |run| && CancelledEarly(run[i])
    ensures CancelledEarly(run[j]) && !Reconciling(run[j])
    decreases j - i
  {
    if i < j {
      assert Next(p, run[i], run[i + 1]);
      CancelledEarlyStep(p, run[i], run[i + 1]);
      hide Next;
      CancelledIsNotReconciled(p, run, i + 1, j);
    }
  }

  /** A push that was cancelled before it had succeeded is never reported as a success. */
  lemma CancelledIsNoSuccess(p: Push, run: seq<State>, i: nat, j: nat)
    requires IsRun(p, run) && i <= j < |run| && run[i].cancelled && !run[i].host.Finished?
    ensures run[j].host != Finished(true)
  {
    CancelStays(p, run, i, j);
  }

  /** The removal of the staging file was requested, or the target was found published and the
      failure is a late cancel. */
  ghost predicate CleansUp(p: Push, s: State) {
    s.host == Finished(false) && !s.removing ==>
      s.cancelled && (s.target == Regular(p.captured) || (p.isPublic && !p.prompt && Lookalike(p)))
  }

  lemma {:induction false} FailureCleansUp(p: Push, run: seq<State>, i: nat)
    requires IsRun(p, run) && i < |run|
    ensures CleansUp(p, run[i])
  {
    if i > 0 {
      RunKeepsInv(p, run, i - 1);
      RunKeepsInv(p, run, i);
      FailureCleansUp(p, run, i - 1);
      assert Next(p, run[i - 1], run[i - 1 + 1]);
      StepCleansUp(p, run[i - 1], run[i]);
    }
  }

  lemma StepCleansUp(p: Push, s: State, s': State)
    requires Inv(p, s) && Inv(p, s') && CleansUp(p, s) && Next(p, s, s')
    ensures CleansUp(p, s')
  {
    if DeviceStep(p, s, s') {
      DeviceKeepsHost(p, s, s');
      if s'.target != s.target {
        OnlyMoveChangesTarget(p, s, s');
      }
      hide DeviceStep, HostStep, ShellInv, SeenInFull;
    } else {
      HostStepCleansUp(p, s, s');
    }
  }

  lemma HostStepCleansUp(p: Push, s: State, s': State)
    requires Inv(p, s) && CleansUp(p, s) && HostStep(p, s, s')
    ensures CleansUp(p, s')
  {
    hide ShellInv, SeenInFull;
  }
}
