/** Keeping the Android helper package current (`openadb/core/acbridge.py`,
    `update_if_outdated`, `_probe_installed_version`, `_confirm_package_absence`,
    `_probe_after_update`, `verify_bundled_apk`), for every sequence of device answers. */
module HelperUpdate {
  import opened Bytes
  import opened Wrappers
  import opened DeviceAnswers

  // ---------------------------------------------------------------- what answers prove

  /** The bundled helper. */
  datatype Settings = Settings(package: string, version: nat, bundle: seq<byte>, bundlePresent: bool,
                               digest: seq<byte> -> seq<byte>)

  const MAX_TRUSTED: nat := 64 * 1024 * 1024

  predicate Clean(a: Answer) {
    a.success && Blank(a.stderr)
  }

  predicate ShowsPath(a: Answer) {
    exists i :: 0 <= i < |a.lines| && IsPathLine(a.lines[i])
  }

  predicate OnlyPaths(a: Answer) {
    forall i :: 0 <= i < |a.lines| ==> IsPathLine(a.lines[i])
  }

  predicate IsListing(a: Answer) {
    forall i :: 0 <= i < |a.lines| ==> StartsWith(a.lines[i], PREFIX) && IsPackageName(a.lines[i][8..])
  }

  predicate Lists(a: Answer, package: string) {
    exists i :: 0 <= i < |a.lines| && a.lines[i] == PREFIX + package
  }

  // ---------------------------------------------------------------- the conversation with the device

  datatype Command =
    | PathQuery(answer: Answer)
    | ListQuery(answer: Answer)
    | VersionQuery(answer: Answer)
    | SizeQuery(path: string, answer: Answer)
    | ReadBack(path: string, success: bool, bytes: seq<byte>)
    | Install(first: bool, success: bool)

  datatype Question = AskPaths | AskListing | AskVersion | AskSize(path: string) | AskBytes(path: string)
                    | AskInstall(first: bool)

  /** What the device would answer to the n-th command, whichever it is. */
  datatype Reply = Reply(answer: Answer, bytes: seq<byte>)

  type Device = (nat, Question) -> Reply

  function Asked(d: Device, n: nat, q: Question): Command {
    var reply := d(n, q);
    match q
    case AskPaths => PathQuery(reply.answer)
    case AskListing => ListQuery(reply.answer)
    case AskVersion => VersionQuery(reply.answer)
    case AskSize(path) => SizeQuery(path, reply.answer)
    case AskBytes(path) => ReadBack(path, reply.answer.success, reply.bytes)
    case AskInstall(first) => Install(first, reply.answer.success)
  }

  /** `late`: the user had already cancelled when the command was issued. */
  datatype Event = Event(command: Command, late: bool)

  function Commands(events: seq<Event>): (commands: seq<Command>)
    ensures |commands| == |events| && forall i :: 0 <= i < |events| ==> commands[i] == events[i].command
  {
    seq(|events|, i requires 0 <= i < |events| => events[i].command)
  }

  /** Absence is proved by a clean empty path query, or by a failed one that shows no path
      together with a well-formed listing that leaves the package out. */
  predicate ProvesAbsence(cs: seq<Command>, package: string) {
    || (|cs| == 1 && cs[0].PathQuery? && Clean(cs[0].answer) && cs[0].answer.lines == [])
    || (|cs| == 2 && cs[0].PathQuery? && cs[1].ListQuery?
        && !cs[0].answer.success && !ShowsPath(cs[0].answer)
        && Clean(cs[1].answer) && IsListing(cs[1].answer) && !Lists(cs[1].answer, package))
  }

  /** A version is proved by clean package paths and one unambiguous positive versionCode. */
  predicate ProvesVersion(cs: seq<Command>, version: nat) {
    |cs| == 2 && cs[0].PathQuery? && cs[1].VersionQuery?
    && Clean(cs[0].answer) && cs[0].answer.lines != [] && OnlyPaths(cs[0].answer)
    && cs[1].answer.success && VersionCodes(cs[1].answer.lines) == {version} && version > 0
  }

  /** The installed bytes were read from the one safe base path, and are the bundle's. */
  predicate ProvesBundle(cs: seq<Command>, cfg: Settings) {
    cfg.bundlePresent && 0 < |cfg.bundle| <= MAX_TRUSTED
    && |cs| == 3 && cs[0].PathQuery? && cs[1].SizeQuery? && cs[2].ReadBack?
    && cs[0].answer.success && PackagePaths(cs[0].answer.lines) == [cs[1].path]
    && IsBase(cs[1].path) && IsSafePath(cs[1].path) && cs[2].path == cs[1].path
    && cs[1].answer.success && SaysSize(StripRight(StripLeft(Joined(cs[1].answer.lines))), |cfg.bundle|)
    && cs[2].success && |cs[2].bytes| == |cfg.bundle| && cfg.digest(cs[2].bytes) == cfg.digest(cfg.bundle)
  }

  // ---------------------------------------------------------------- the state machine

  datatype Probe = ProbeCancelled | NotInstalled | InstalledVersion(version: nat) | QueryFailed

  datatype Outcome =
    | Cancelled | Unreadable | Current | VerificationFailed | Newer | Installed | Updated | InstallFailed | UpdateFailed

  predicate OnTime(events: seq<Event>) {
    forall i :: 0 <= i < |events| ==> !events[i].late
  }

  /** After a cancel at most the command already on its way goes out. */
  predicate StopsOnCancel(events: seq<Event>) {
    forall i :: 0 <= i < |events| - 1 ==> !events[i].late
  }

  predicate IsQuery(c: Command) {
    !c.Install?
  }

  ghost predicate OnlyQueries(events: seq<Event>) {
    forall i :: 0 <= i < |events| ==> IsQuery(events[i].command)
  }

  // ---------------------------------------------------------------- what the device shows

  /** The device, asked from the n-th command on, proves the package absent. */
  ghost predicate ShowsAbsence(d: Device, n: nat, package: string) {
    || ProvesAbsence([Asked(d, n, AskPaths)], package)
    || ProvesAbsence([Asked(d, n, AskPaths), Asked(d, n + 1, AskListing)], package)
  }

  ghost predicate ShowsVersion(d: Device, n: nat, version: nat) {
    ProvesVersion([Asked(d, n, AskPaths), Asked(d, n + 1, AskVersion)], version)
  }

  ghost predicate BundleShown(d: Device, n: nat, cfg: Settings) {
    exists path :: ProvesBundle(BundleCommands(d, n, path), cfg)
  }

  ghost function BundleCommands(d: Device, n: nat, path: string): seq<Command> {
    [Asked(d, n, AskPaths), Asked(d, n + 1, AskSize(path)), Asked(d, n + 2, AskBytes(path))]
  }

  /** The same, one answer after the other. */
  ghost predicate BundleStep1(d: Device, n: nat, cfg: Settings) {
    var paths := d(n, AskPaths).answer;
    && cfg.bundlePresent && 0 < |cfg.bundle| <= MAX_TRUSTED
    && paths.success && |PackagePaths(paths.lines)| == 1
    && IsBase(PackagePaths(paths.lines)[0]) && IsSafePath(PackagePaths(paths.lines)[0])
  }

  ghost predicate BundleStep2(d: Device, n: nat, path: string, cfg: Settings) {
    var size := d(n + 1, AskSize(path)).answer;
    size.success && SaysSize(StripRight(StripLeft(Joined(size.lines))), |cfg.bundle|)
  }

  ghost predicate BundleStep3(d: Device, n: nat, path: string, cfg: Settings) {
    var read := d(n + 2, AskBytes(path));
    read.answer.success && |read.bytes| == |cfg.bundle| && cfg.digest(read.bytes) == cfg.digest(cfg.bundle)
  }

  lemma BundleSteps(d: Device, n: nat, cfg: Settings)
    ensures var found := PackagePaths(d(n, AskPaths).answer.lines);
      BundleShown(d, n, cfg) <==>
        BundleStep1(d, n, cfg) && BundleStep2(d, n, found[0], cfg) && BundleStep3(d, n, found[0], cfg)
    ensures var found := PackagePaths(d(n, AskPaths).answer.lines);
      BundleStep1(d, n, cfg) ==> (BundleShown(d, n, cfg) <==> ProvesBundle(BundleCommands(d, n, found[0]), cfg))
  {
    hide IsSafePath, IsBase, SaysSize, PackagePaths, StripLeft, StripRight, Joined;
    var found := PackagePaths(d(n, AskPaths).answer.lines);
    forall path | ProvesBundle(BundleCommands(d, n, path), cfg) ensures found == [path] && BundleStep1(d, n, cfg) {
    }
    if BundleStep1(d, n, cfg) {
      assert found == [found[0]];
      assert ProvesBundle(BundleCommands(d, n, found[0]), cfg)
        <==> BundleStep2(d, n, found[0], cfg) && BundleStep3(d, n, found[0], cfg);
    }
  }

  lemma TooFewForABundle(es: seq<Event>, cfg: Settings)
    ensures |es| < 3 ==> !ProvesBundle(Commands(es), cfg)
  {
  }

  ghost function ProbeOf(d: Device, n: nat, package: string): Probe {
    if version :| ShowsVersion(d, n, version) then InstalledVersion(version)
    else if ShowsAbsence(d, n, package) then NotInstalled
    else QueryFailed
  }

  /** A second command is needed where the paths are missing without proof, or are clean. */
  ghost function ProbeLength(d: Device, n: nat): nat {
    var paths := d(n, AskPaths).answer;
    if paths.success then if Blank(paths.stderr) && OnlyPaths(paths) && paths.lines != [] then 2 else 1
    else if ShowsPath(paths) then 1 else 2
  }

  lemma ProbeShowsVersion(d: Device, n: nat, package: string, version: nat)
    requires ShowsVersion(d, n, version)
    ensures ProbeOf(d, n, package) == InstalledVersion(version)
  {
    var cs := [Asked(d, n, AskPaths), Asked(d, n + 1, AskVersion)];
    forall v | ShowsVersion(d, n, v) ensures v == version {
      DecisionIsUnique(cs, package, version, v);
    }
  }

  /** The five ways a probe may go. */
  lemma ProbeWays(d: Device, n: nat, package: string)
    ensures var paths, listing, versions :=
        d(n, AskPaths).answer, d(n + 1, AskListing).answer, d(n + 1, AskVersion).answer;
      var clean := paths.success && Blank(paths.stderr) && OnlyPaths(paths);
      && (!paths.success && ShowsPath(paths) ==> ProbeOf(d, n, package) == QueryFailed)
      && (!paths.success && !ShowsPath(paths) ==>
            ProbeOf(d, n, package)
            == if Clean(listing) && IsListing(listing) && !Lists(listing, package) then NotInstalled else QueryFailed)
      && (paths.success && !clean ==> ProbeOf(d, n, package) == QueryFailed)
      && (clean && paths.lines == [] ==> ProbeOf(d, n, package) == NotInstalled)
      && (clean && paths.lines != [] ==> forall v: nat :: ProbeOf(d, n, package) == InstalledVersion(v) <==>
            versions.success && VersionCodes(versions.lines) == {v} && v > 0)
      && (clean && paths.lines != [] ==> ProbeOf(d, n, package) != NotInstalled)
    ensures ProbeOf(d, n, package) != ProbeCancelled
  {
    forall v | ShowsVersion(d, n, v) ensures ProbeOf(d, n, package) == InstalledVersion(v) {
      ProbeShowsVersion(d, n, package, v);
    }
    var paths := d(n, AskPaths).answer;
    hide IsPathLine, VersionCodes, Blank, IsListing, Lists;
    if paths.lines == [] {
      assert OnlyPaths(paths);
    }
  }

  /** After an install: the first probe that shows a version, or the one after `retries` more;
      and how far the conversation has come. */
  ghost function Settled(d: Device, n: nat, package: string, retries: nat): (Probe, nat)
    decreases retries
  {
    var probe, next := ProbeOf(d, n, package), n + ProbeLength(d, n);
    if probe.InstalledVersion? || retries == 0 then (probe, next) else Settled(d, next, package, retries - 1)
  }

  /** What the update comes to with this device, if nobody cancels. */
  ghost function OutcomeOf(d: Device, n: nat, cfg: Settings): Outcome {
    var next := n + ProbeLength(d, n);
    match ProbeOf(d, n, cfg.package)
    case NotInstalled => if cfg.bundlePresent then InstallOutcome(d, next, None, cfg) else InstallFailed
    case InstalledVersion(v) =>
      if v > cfg.version then Newer
      else if v == cfg.version then if BundleShown(d, next, cfg) then Current else VerificationFailed
      else if cfg.bundlePresent then InstallOutcome(d, next, Some(v), cfg) else UpdateFailed
    case _ => Unreadable
  }

  ghost function InstallOutcome(d: Device, n: nat, previous: Option<nat>, cfg: Settings): Outcome {
    if d(n, AskInstall(previous.None?)).answer.success then CheckOutcome(d, n + 1, previous, cfg) else Failure(previous)
  }

  ghost function CheckOutcome(d: Device, n: nat, previous: Option<nat>, cfg: Settings): Outcome {
    var (probe, next) := Settled(d, n, cfg.package, 2);
    if probe == QueryFailed then Unreadable
    else if probe != InstalledVersion(cfg.version) then Failure(previous)
    else if BundleShown(d, next, cfg) then Success(previous) else VerificationFailed
  }

  class Helper {
    const cfg: Settings
    const device: Device
    const cancellable: bool
    var cancelled: bool
    var log: seq<Event>
    var locks: nat

    constructor (cfg: Settings, device: Device, cancellable: bool)
      ensures log == [] && locks == 0 && !cancelled
      ensures this.cfg == cfg && this.device == device && this.cancellable == cancellable
    {
      this.cfg, this.device, this.cancellable := cfg, device, cancellable;
      cancelled, log, locks := false, [], 0;
    }

    /** The cancel flag latches at any time. */
    method Poll() returns (stop: bool)
      modifies this`cancelled
      ensures stop == cancelled && (old(cancelled) ==> cancelled) && (cancelled && !old(cancelled) ==> cancellable)
    {
      var now: bool := *;
      if cancellable && now {
        cancelled := true;
      }
      stop := cancelled;
    }

    method Ask(q: Question) returns (reply: Reply, ghost e: Event)
      modifies this`log, this`cancelled
      ensures reply == device(|old(log)|, q)
      ensures log == old(log) + [e] && e.command == Asked(device, |old(log)|, q)
      ensures (e.late ==> cancelled) && (old(cancelled) ==> cancelled && e.late)
      ensures cancelled ==> old(cancelled) || cancellable
    {
      var late := Poll();
      reply := device(|log|, q);
      e := Event(Asked(device, |log|, q), late);
      log := log + [Event(Asked(device, |log|, q), late)];
      var _ := Poll();
    }

    method ConfirmPackageAbsence() returns (r: Probe, ghost es: seq<Event>)
      modifies this`log, this`cancelled
      ensures log == old(log) + es && StopsOnCancel(es) && |es| <= 1 && OnlyQueries(es)
      ensures old(cancelled) ==> cancelled && es == [] && r == ProbeCancelled
      ensures r == ProbeCancelled ==> cancelled
      ensures r != ProbeCancelled ==> OnTime(es) && |es| == 1 && es[0].command.ListQuery?
      ensures r in {ProbeCancelled, NotInstalled, QueryFailed}
      ensures r != ProbeCancelled ==>
        (r == NotInstalled <==> Clean(es[0].command.answer) && IsListing(es[0].command.answer)
                                && !Lists(es[0].command.answer, cfg.package))
      ensures cancelled ==> old(cancelled) || cancellable
      ensures r != ProbeCancelled ==> es[0].command == Asked(device, |old(log)|, AskListing)
      ensures cancelled ==> r == ProbeCancelled
    {
      es := [];
      var stop := Poll();
      if stop {
        return ProbeCancelled, es;
      }
      ghost var e;
      var reply;
      reply, e := Ask(AskListing);
      var a := reply.answer;
      es := [e];
      stop := Poll();
      if stop {
        return ProbeCancelled, es;
      }
      if !a.success {
        return QueryFailed, es;
      }
      var malformed, found, i := false, false, 0;
      while i < |a.lines| && !malformed
        invariant 0 <= i <= |a.lines|
        invariant !malformed ==> forall j :: 0 <= j < i ==>
          StartsWith(a.lines[j], PREFIX) && IsPackageName(a.lines[j][8..])
        invariant malformed ==> !IsListing(a)
        invariant found ==> Lists(a, cfg.package)
        invariant !malformed && !found ==> forall j :: 0 <= j < i ==> a.lines[j] != PREFIX + cfg.package
        decreases |a.lines| - i, !malformed
      {
        var line := a.lines[i];
        if !StartsWith(line, PREFIX) || !IsPackageName(line[8..]) {
          malformed := true;
        } else {
          assert line == PREFIX + line[8..];
          found := found || line[8..] == cfg.package;
          i := i + 1;
        }
      }
      if !Blank(a.stderr) || malformed || found {
        return QueryFailed, es;
      }
      return NotInstalled, es;
    }

    /** Exactly what the answers prove, unless the user cancelled. */
    method ProbeInstalledVersion() returns (r: Probe, ghost es: seq<Event>)
      modifies this`log, this`cancelled
      ensures log == old(log) + es && StopsOnCancel(es) && |es| <= 2 && OnlyQueries(es)
      ensures old(cancelled) ==> cancelled && es == [] && r == ProbeCancelled
      ensures r == ProbeCancelled ==> cancelled
      ensures r != ProbeCancelled ==> OnTime(es)
      ensures r != ProbeCancelled ==> (r == NotInstalled <==> ProvesAbsence(Commands(es), cfg.package))
      ensures r != ProbeCancelled ==> forall v :: r == InstalledVersion(v) <==> ProvesVersion(Commands(es), v)
      ensures cancelled ==> old(cancelled) || cancellable
      ensures r != ProbeCancelled ==> r == ProbeOf(device, |old(log)|, cfg.package)
      ensures r != ProbeCancelled ==> |es| == ProbeLength(device, |old(log)|)
      ensures cancelled ==> r == ProbeCancelled
    {
      hide ProbeOf;
      ProbeWays(device, |log|, cfg.package);
      es := [];
      var stop := Poll();
      if stop {
        return ProbeCancelled, es;
      }
      ghost var e;
      var reply;
      reply, e := Ask(AskPaths);
      var paths := reply.answer;
      es := [e];
      stop := Poll();
      if stop {
        return ProbeCancelled, es;
      }
      if !paths.success {
        if ShowsPath(paths) {
          return QueryFailed, es;
        }
        ghost var more;
        r, more := ConfirmPackageAbsence();
        es := es + more;
        return;
      }
      if !Blank(paths.stderr) || !OnlyPaths(paths) {
        return QueryFailed, es;
      }
      if paths.lines == [] {
        return NotInstalled, es;
      }
      reply, e := Ask(AskVersion);
      var versions := reply.answer;
      es := es + [e];
      stop := Poll();
      if stop {
        return ProbeCancelled, es;
      }
      if !versions.success {
        return QueryFailed, es;
      }
      var codes := VersionCodes(versions.lines);
      if |codes| != 1 {
        NotASingleton(codes);
        return QueryFailed, es;
      }
      var code :| code in codes;
      Singleton(codes, code);
      if code == 0 {
        return QueryFailed, es;
      }
      return InstalledVersion(code), es;
    }

    /** At most three probes; the last one counts. */
    method ProbeAfterUpdate() returns (r: Probe, ghost before: seq<Event>, ghost es: seq<Event>)
      modifies this`log, this`cancelled
      ensures log == old(log) + (before + es) && StopsOnCancel(before + es) && |before + es| <= 6
        && OnlyQueries(before + es)
      ensures r == ProbeCancelled ==> cancelled
      ensures r != ProbeCancelled ==> OnTime(before + es)
      ensures r != ProbeCancelled ==> (r == NotInstalled <==> ProvesAbsence(Commands(es), cfg.package))
      ensures r != ProbeCancelled ==> forall v :: r == InstalledVersion(v) <==> ProvesVersion(Commands(es), v)
      ensures cancelled ==> old(cancelled) || cancellable
      ensures r != ProbeCancelled ==> (r, |old(log)| + |before + es|) == Settled(device, |old(log)|, cfg.package, 2)
      ensures cancelled ==> r == ProbeCancelled
    {
      hide ProbeOf, ProbeLength, ProvesAbsence, ProvesVersion, Asked;
      before, es := [], [];
      var attempt := 0;
      while true
        invariant 0 <= attempt <= 2
        invariant log == old(log) + before && OnTime(before) && |before| <= 2 * attempt && OnlyQueries(before)
        invariant cancelled ==> old(cancelled) || cancellable
        invariant Settled(device, |old(log)|, cfg.package, 2) == Settled(device, |log|, cfg.package, 2 - attempt)
        decreases 2 - attempt
      {
        r, es := ProbeInstalledVersion();
        if (r != NotInstalled && r != QueryFailed) || attempt == 2 {
          return;
        }
        before := before + es;
        es := [];
        var stop := Poll();
        if stop {
          return ProbeCancelled, before, es;
        }
        attempt := attempt + 1;
      }
    }

    /** `verify_bundled_apk`: a clean bill only for the cfg.bundle's own bytes. */
    method VerifyBundledApk() returns (ok: bool, ghost es: seq<Event>)
      modifies this`log, this`cancelled
      ensures log == old(log) + es && StopsOnCancel(es) && |es| <= 3 && OnlyQueries(es)
      ensures old(cancelled) ==> cancelled
      ensures !OnTime(es) ==> cancelled
      ensures ok ==> OnTime(es)
      ensures ok ==> ProvesBundle(Commands(es), cfg)
      ensures !ok ==> cancelled || !ProvesBundle(Commands(es), cfg)
      ensures cancelled ==> old(cancelled) || cancellable
      ensures ok ==> BundleShown(device, |old(log)|, cfg)
      ensures !ok ==> cancelled || !BundleShown(device, |old(log)|, cfg)
    {
      hide IsSafePath, IsBase, SaysSize, PackagePaths, StripLeft, StripRight, Joined, BundleShown, ProvesBundle;
      ghost var n := |log|;
      BundleSteps(device, n, cfg);
      TooFewForABundle([], cfg);
      es := [];
      var stop := Poll();
      if stop || !cfg.bundlePresent || |cfg.bundle| == 0 || |cfg.bundle| > MAX_TRUSTED {
        return false, es;
      }
      ghost var e;
      var reply;
      reply, e := Ask(AskPaths);
      var paths := reply.answer;
      es := [e];
      TooFewForABundle(es, cfg);
      stop := Poll();
      if stop || !paths.success {
        return false, es;
      }
      var found := PackagePaths(paths.lines);
      if |found| != 1 || !IsBase(found[0]) {
        return false, es;
      }
      var path := found[0];
      if !IsSafePath(path) {
        return false, es;
      }
      reply, e := Ask(AskSize(path));
      var size := reply.answer;
      es := es + [e];
      TooFewForABundle(es, cfg);
      stop := Poll();
      if stop || !size.success || !SaysSize(StripRight(StripLeft(Joined(size.lines))), |cfg.bundle|) {
        return false, es;
      }
      reply, e := Ask(AskBytes(path));
      var success, bytes := reply.answer.success, reply.bytes;
      es := es + [e];
      assert Commands(es) == BundleCommands(device, n, path);
      stop := Poll();
      if stop || !success || |bytes| != |cfg.bundle| {
        return false, es;
      }
      ok := cfg.digest(bytes) == cfg.digest(cfg.bundle);
    }

    /** The lock that keeps helper operations apart; waiting ends with a turn or a cancel. */
    method AcquireInstallLock() returns (acquired: bool)
      modifies this`cancelled, this`locks
      ensures locks == old(locks) + if acquired then 1 else 0
      ensures old(cancelled) ==> cancelled && !acquired
      ensures !acquired ==> cancelled
      ensures cancelled ==> old(cancelled) || cancellable
      ensures acquired ==> !cancelled
    {
      var turns: int := *;
      while true
        invariant locks == old(locks) && (old(cancelled) ==> cancelled)
        invariant cancelled ==> old(cancelled) || cancellable
        decreases turns
      {
        var stop := Poll();
        if stop {
          return false;
        }
        if turns <= 0 {
          locks := locks + 1;
          return true;
        }
        turns := turns - 1;
      }
    }

    /** `update_if_outdated`.  Out-parameters beside the outcome: the version found before, and
        the conversation, cut into what was asked before the install, the install, and after it. */
    method UpdateIfOutdated() returns (r: Outcome, previous: Option<nat>, ghost es: seq<Event>)
      modifies this
      ensures log == old(log) + es && locks == old(locks)
      ensures old(cancelled) ==> r == Cancelled && es == []
      ensures StopsOnCancel(es)
      ensures InstallsOnlyWhenProved(Commands(es), cfg)
      ensures OutcomeIsProved(r, Commands(es), previous, cfg)
      ensures r == Cancelled ==> cancelled
      ensures cancelled ==> old(cancelled) || cancellable
      ensures !cancellable && !old(cancelled) ==> r != Cancelled
      ensures r != Cancelled ==> r == OutcomeOf(device, |old(log)|, cfg)
      ensures cancelled ==> r == Cancelled
    {
      es, previous := [], None;
      var acquired := AcquireInstallLock();
      if !acquired {
        return Cancelled, previous, es;
      }
      r, previous, es := UpdateLocked();
      locks := locks - 1;
    }

    /** The part under the lock. */
    method UpdateLocked() returns (r: Outcome, previous: Option<nat>, ghost es: seq<Event>)
      modifies this`log, this`cancelled
      ensures log == old(log) + es
      ensures StopsOnCancel(es)
      ensures InstallsOnlyWhenProved(Commands(es), cfg)
      ensures OutcomeIsProved(r, Commands(es), previous, cfg)
      ensures r == Cancelled ==> cancelled
      ensures cancelled ==> old(cancelled) || cancellable
      ensures !cancellable && !old(cancelled) ==> r != Cancelled
      ensures r != Cancelled ==> r == OutcomeOf(device, |old(log)|, cfg)
      ensures cancelled ==> r == Cancelled
    {
      hide Commands, InstallsOnlyWhenProved, ProvesAbsence, ProvesVersion, ProvesBundle, StopsOnCancel, OnTime,
        OnlyQueries, NoInstall, OutcomeIsProved, Decides;
      previous := None;
      var probe;
      probe, es := ProbeInstalledVersion();
      QueriesInstallNothing(es, cfg);
      CancelProvesNothing(Commands(es), previous, cfg);
      if probe == ProbeCancelled {
        return Cancelled, previous, es;
      }
      DecidedWithoutInstall(Commands(es), previous, cfg);
      if probe == QueryFailed {
        return Unreadable, previous, es;
      }
      if probe.InstalledVersion? {
        previous := Some(probe.version);
        CancelProvesNothing(Commands(es), previous, cfg);
        DecidedWithoutInstall(Commands(es), previous, cfg);
        if probe.version == cfg.version {
          ghost var check;
          var verified;
          verified, check := VerifyBundledApk();
          CheckedInPlace(es, check, cfg);
          es := es + check;
          CancelProvesNothing(Commands(es), previous, cfg);
          var stop := Poll();
          if stop {
            return Cancelled, previous, es;
          }
          return if verified then Current else VerificationFailed, previous, es;
        }
        if probe.version > cfg.version {
          return Newer, previous, es;
        }
      }
      DecisionMade(Commands(es), previous, cfg);
      var stop := Poll();
      if stop {
        return Cancelled, previous, es;
      }
      if !cfg.bundlePresent {
        return Failure(previous), previous, es;
      }
      ghost var rest;
      r, rest := InstallAndCheck(previous, es);
      es := es + rest;
    }

    method InstallAndCheck(previous: Option<nat>, ghost before: seq<Event>) returns (r: Outcome, ghost es: seq<Event>)
      requires Decides(Commands(before), previous, cfg) && OnTime(before) && OnlyQueries(before)
      modifies this`log, this`cancelled
      ensures log == old(log) + es
      ensures StopsOnCancel(before + es)
      ensures InstallsOnlyWhenProved(Commands(before + es), cfg)
      ensures OutcomeIsProved(r, Commands(before + es), previous, cfg)
      ensures r == Cancelled ==> cancelled
      ensures cancelled ==> old(cancelled) || cancellable
      ensures !cancellable && !old(cancelled) ==> r != Cancelled
      ensures r != Cancelled ==> r == InstallOutcome(device, |old(log)|, previous, cfg)
      ensures cancelled ==> r == Cancelled
    {
      hide Commands, InstallsOnlyWhenProved, ProvesAbsence, ProvesVersion, ProvesBundle, StopsOnCancel, OnTime,
        OnlyQueries, Decides, OutcomeIsProved;
      ghost var e;
      var reply;
      reply, e := Ask(AskInstall(previous.None?));
      var success := reply.answer.success;
      es := [e];
      NoEvents();
      assert es + ([] + []) == es;
      InstallIsProved(before, e, [], [], previous, cfg);
      CancelProvesNothing(Commands(before + es), previous, cfg);
      var stop := Poll();
      if stop {
        return Cancelled, es;
      }
      if !success {
        RejectedIsProved(before, e, previous, cfg);
        return Failure(previous), es;
      }
      ghost var rest;
      r, rest := CheckInstalled(previous, before, e);
      es := [e] + rest;
    }

    /** After a good install: the reported version, then the bytes. */
    method CheckInstalled(previous: Option<nat>, ghost before: seq<Event>, ghost e: Event)
      returns (r: Outcome, ghost es: seq<Event>)
      requires Decides(Commands(before), previous, cfg) && OnTime(before) && OnlyQueries(before)
      requires e.command == Install(previous.None?, true) && !e.late
      modifies this`log, this`cancelled
      ensures log == old(log) + es
      ensures StopsOnCancel(before + ([e] + es))
      ensures InstallsOnlyWhenProved(Commands(before + ([e] + es)), cfg)
      ensures OutcomeIsProved(r, Commands(before + ([e] + es)), previous, cfg)
      ensures r == Cancelled ==> cancelled
      ensures cancelled ==> old(cancelled) || cancellable
      ensures !cancellable && !old(cancelled) ==> r != Cancelled
      ensures r != Cancelled ==> r == CheckOutcome(device, |old(log)|, previous, cfg)
      ensures cancelled ==> r == Cancelled
    {
      hide Commands, InstallsOnlyWhenProved, ProvesAbsence, ProvesVersion, ProvesBundle, StopsOnCancel, OnTime,
        OnlyQueries, Decides, OutcomeIsProved;
      ghost var retries, last, check;
      var probe, verified;
      probe, retries, last := ProbeAfterUpdate();
      es := retries + last;
      CancelProvesNothing(Commands(before + ([e] + es)), previous, cfg);
      NoEvents();
      assert [] + es == es;
      InstallIsProved(before, e, [], es, previous, cfg);
      if probe == ProbeCancelled {
        return Cancelled, es;
      }
      if probe != InstalledVersion(cfg.version) {
        ProbedIsProved(before, e, retries, last, previous, cfg);
        return if probe == QueryFailed then Unreadable else Failure(previous), es;
      }
      verified, check := VerifyBundledApk();
      InstallIsProved(before, e, es, check, previous, cfg);
      es := es + check;
      CancelProvesNothing(Commands(before + ([e] + es)), previous, cfg);
      var stop := Poll();
      if stop {
        return Cancelled, es;
      }
      CheckedIsProved(before, e, retries, last, check, previous, cfg);
      return if verified then Success(previous) else VerificationFailed, es;
    }
  }

  // ---------------------------------------------------------------- what the conversation shows

  /** The answers so far call for an install: the package is provably absent, or provably at one
      lower version. */
  predicate Decides(cs: seq<Command>, previous: Option<nat>, cfg: Settings) {
    if previous.None? then ProvesAbsence(cs, cfg.package)
    else ProvesVersion(cs, previous.value) && previous.value < cfg.version
  }

  /** The answers show neither absence nor one readable version. */
  ghost predicate Undecided(cs: seq<Command>, cfg: Settings) {
    !ProvesAbsence(cs, cfg.package) && forall v :: !ProvesVersion(cs, v)
  }

  /** At most one install, and only after such answers and nothing else. */
  ghost predicate InstallsOnlyWhenProved(cs: seq<Command>, cfg: Settings) {
    forall i :: 0 <= i < |cs| && cs[i].Install? ==>
      && (forall j :: 0 <= j < |cs| && cs[j].Install? ==> j == i)
      && (cs[i].first ==> ProvesAbsence(cs[..i], cfg.package))
      && (!cs[i].first ==> exists v: nat :: ProvesVersion(cs[..i], v) && v < cfg.version)
  }

  ghost predicate NoInstall(cs: seq<Command>) {
    forall i :: 0 <= i < |cs| ==> !cs[i].Install?
  }

  /** The install at `i` was decided and succeeded; what counts afterwards starts at `j`. */
  predicate AfterInstall(cs: seq<Command>, i: nat, j: nat, previous: Option<nat>, cfg: Settings) {
    i < j <= |cs| && Decides(cs[..i], previous, cfg) && cs[i] == Install(previous.None?, true)
  }

  predicate ReportedThenChecked(cs: seq<Command>, i: nat, j: nat, k: nat, previous: Option<nat>, cfg: Settings,
                                good: bool) {
    AfterInstall(cs, i, j, previous, cfg) && j <= k <= |cs|
    && ProvesVersion(cs[j..k], cfg.version) && ProvesBundle(cs[k..], cfg) == good
  }

  predicate CurrentThenChecked(cs: seq<Command>, cfg: Settings, good: bool) {
    |cs| >= 2 && ProvesVersion(cs[..2], cfg.version) && ProvesBundle(cs[2..], cfg) == good
  }

  /** The bundle is missing, Android refused it, or reports something else afterwards. */
  ghost predicate NotInstalledAfterAll(cs: seq<Command>, previous: Option<nat>, cfg: Settings) {
    || (NoInstall(cs) && Decides(cs, previous, cfg) && !cfg.bundlePresent)
    || (|cs| > 0 && cs[|cs| - 1] == Install(previous.None?, false) && Decides(cs[..|cs| - 1], previous, cfg))
    || (exists i: nat, j: nat :: AfterInstall(cs, i, j, previous, cfg)
                                 && !Undecided(cs[j..], cfg) && !ProvesVersion(cs[j..], cfg.version))
  }

  /** What each outcome tells about the conversation. */
  ghost predicate OutcomeIsProved(r: Outcome, cs: seq<Command>, previous: Option<nat>, cfg: Settings) {
    match r
    case Cancelled => true
    case Unreadable =>
      (NoInstall(cs) && Undecided(cs, cfg))
      || exists i: nat, j: nat :: AfterInstall(cs, i, j, previous, cfg) && Undecided(cs[j..], cfg)
    case Current => NoInstall(cs) && previous == Some(cfg.version) && CurrentThenChecked(cs, cfg, true)
    case VerificationFailed =>
      (NoInstall(cs) && previous == Some(cfg.version) && CurrentThenChecked(cs, cfg, false))
      || exists i: nat, j: nat, k: nat :: ReportedThenChecked(cs, i, j, k, previous, cfg, false)
    case Newer => NoInstall(cs) && previous.Some? && previous.value > cfg.version && ProvesVersion(cs, previous.value)
    case Installed => previous.None?
      && exists i: nat, j: nat, k: nat :: ReportedThenChecked(cs, i, j, k, previous, cfg, true)
    case Updated => previous.Some?
      && exists i: nat, j: nat, k: nat :: ReportedThenChecked(cs, i, j, k, previous, cfg, true)
    case InstallFailed => previous.None? && NotInstalledAfterAll(cs, previous, cfg)
    case UpdateFailed => previous.Some? && NotInstalledAfterAll(cs, previous, cfg)
  }

  function Failure(previous: Option<nat>): Outcome {
    if previous.None? then InstallFailed else UpdateFailed
  }

  function Success(previous: Option<nat>): Outcome {
    if previous.None? then Installed else Updated
  }

  lemma QueriesInstallNothing(es: seq<Event>, cfg: Settings)
    requires OnlyQueries(es)
    ensures InstallsOnlyWhenProved(Commands(es), cfg) && NoInstall(Commands(es))
    ensures OnTime(es) ==> StopsOnCancel(es)
  {
    assert forall i :: 0 <= i < |es| ==> Commands(es)[i] == es[i].command && IsQuery(es[i].command);
  }

  lemma NoEvents()
    ensures OnlyQueries([]) && OnTime([]) && StopsOnCancel([])
  {
  }

  lemma CancelProvesNothing(cs: seq<Command>, previous: Option<nat>, cfg: Settings)
    ensures OutcomeIsProved(Cancelled, cs, previous, cfg)
  {
  }

  lemma DecidedWithoutInstall(cs: seq<Command>, previous: Option<nat>, cfg: Settings)
    requires NoInstall(cs)
    ensures Undecided(cs, cfg) ==> OutcomeIsProved(Unreadable, cs, previous, cfg)
    ensures previous.Some? && ProvesVersion(cs, previous.value) && previous.value > cfg.version ==>
      OutcomeIsProved(Newer, cs, previous, cfg)
    ensures Decides(cs, previous, cfg) && !cfg.bundlePresent ==> OutcomeIsProved(Failure(previous), cs, previous, cfg)
  {
  }

  lemma DecisionMade(cs: seq<Command>, previous: Option<nat>, cfg: Settings)
    requires if previous.None? then ProvesAbsence(cs, cfg.package)
             else ProvesVersion(cs, previous.value) && previous.value < cfg.version
    ensures Decides(cs, previous, cfg)
  {
  }

  lemma CheckedInPlace(es: seq<Event>, check: seq<Event>, cfg: Settings)
    requires OnlyQueries(es) && OnlyQueries(check) && OnTime(es) && StopsOnCancel(check)
    requires ProvesVersion(Commands(es), cfg.version)
    ensures StopsOnCancel(es + check) && InstallsOnlyWhenProved(Commands(es + check), cfg)
    ensures OutcomeIsProved(if ProvesBundle(Commands(check), cfg) then Current else VerificationFailed,
                            Commands(es + check), Some(cfg.version), cfg)
  {
    QueriesInstallNothing(es + check, cfg);
    assert Commands(es + check)[..|es|] == Commands(es) && Commands(es + check)[|es|..] == Commands(check);
  }

  /** A decision, an install, and queries after it. */
  lemma InstallIsProved(before: seq<Event>, e: Event, probes: seq<Event>, check: seq<Event>, previous: Option<nat>,
                        cfg: Settings)
    requires Decides(Commands(before), previous, cfg) && OnTime(before) && OnlyQueries(before)
    requires e.command.Install? && e.command.first == previous.None?
    requires probes + check != [] ==> !e.late
    requires OnlyQueries(probes) && OnlyQueries(check) && OnTime(probes) && StopsOnCancel(check)
    ensures StopsOnCancel(before + ([e] + (probes + check)))
    ensures InstallsOnlyWhenProved(Commands(before + ([e] + (probes + check))), cfg)
  {
    hide ProvesAbsence, ProvesVersion;
    var all := before + ([e] + (probes + check));
    var cs, n := Commands(all), |before|;
    assert cs[..n] == Commands(before);
    forall i | 0 <= i < |cs| && i != n ensures !cs[i].Install? {
      assert cs[i] == all[i].command;
      var own :=
        if i < n then before[i]
        else if i - n - 1 < |probes| then probes[i - n - 1]
        else check[i - n - 1 - |probes|];
      assert all[i] == own && IsQuery(own.command);
    }
  }

  lemma RejectedIsProved(before: seq<Event>, e: Event, previous: Option<nat>, cfg: Settings)
    requires Decides(Commands(before), previous, cfg) && e.command == Install(previous.None?, false)
    ensures OutcomeIsProved(Failure(previous), Commands(before + [e]), previous, cfg)
  {
    hide Decides;
    var cs := Commands(before + [e]);
    assert cs[..|cs| - 1] == Commands(before);
  }

  lemma ProbedIsProved(before: seq<Event>, e: Event, retries: seq<Event>, last: seq<Event>, previous: Option<nat>,
                       cfg: Settings)
    requires Decides(Commands(before), previous, cfg) && e.command == Install(previous.None?, true)
    ensures var cs := Commands(before + ([e] + (retries + last)));
      && (Undecided(Commands(last), cfg) ==> OutcomeIsProved(Unreadable, cs, previous, cfg))
      && (!Undecided(Commands(last), cfg) && !ProvesVersion(Commands(last), cfg.version) ==>
            OutcomeIsProved(Failure(previous), cs, previous, cfg))
  {
    hide Decides, ProvesVersion, Undecided;
    var cs := Commands(before + ([e] + (retries + last)));
    var i, j := |before|, |before| + 1 + |retries|;
    assert cs[..i] == Commands(before) && cs[j..] == Commands(last);
    assert AfterInstall(cs, i, j, previous, cfg);
  }

  lemma CheckedIsProved(before: seq<Event>, e: Event, retries: seq<Event>, last: seq<Event>, check: seq<Event>,
                        previous: Option<nat>, cfg: Settings)
    requires Decides(Commands(before), previous, cfg) && e.command == Install(previous.None?, true)
    requires ProvesVersion(Commands(last), cfg.version)
    ensures OutcomeIsProved(if ProvesBundle(Commands(check), cfg) then Success(previous) else VerificationFailed,
                            Commands(before + ([e] + (retries + last + check))), previous, cfg)
  {
    hide Decides, ProvesVersion, ProvesBundle;
    var cs := Commands(before + ([e] + (retries + last + check)));
    var i, j, k := |before|, |before| + 1 + |retries|, |before| + 1 + |retries| + |last|;
    assert cs[..i] == Commands(before) && cs[j..k] == Commands(last) && cs[k..] == Commands(check);
    assert ReportedThenChecked(cs, i, j, k, previous, cfg, ProvesBundle(Commands(check), cfg));
  }

  // ---------------------------------------------------------------- consequences

  /** With a digest that keeps the bundle apart from other files, success means its very bytes:
      they are the last thing read. */
  lemma SuccessMeansTheBundle(r: Outcome, cs: seq<Command>, previous: Option<nat>, cfg: Settings)
    requires r in {Current, Installed, Updated} && OutcomeIsProved(r, cs, previous, cfg)
    requires forall other :: cfg.digest(other) == cfg.digest(cfg.bundle) ==> other == cfg.bundle
    ensures |cs| > 0 && cs[|cs| - 1].ReadBack? && cs[|cs| - 1].success && cs[|cs| - 1].bytes == cfg.bundle
    ensures IsSafePath(cs[|cs| - 1].path)
  {
    hide ProvesVersion, Decides;
    if r == Current {
      assert cs[2..][2] == cs[|cs| - 1];
    } else {
      var i: nat, j: nat, k: nat :| ReportedThenChecked(cs, i, j, k, previous, cfg, true);
      assert cs[k..][2] == cs[|cs| - 1];
    }
  }

  /** One set of answers never proves two things. */
  lemma DecisionIsUnique(cs: seq<Command>, package: string, v: nat, w: nat)
    requires ProvesVersion(cs, v)
    ensures !ProvesAbsence(cs, package) && (ProvesVersion(cs, w) ==> v == w)
  {
    if ProvesVersion(cs, w) {
      assert v in {w};
    }
  }

  /** An install after a proved version means that the version was lower. */
  lemma InstallMeansLower(cs: seq<Command>, i: nat, cfg: Settings, v: nat)
    requires InstallsOnlyWhenProved(cs, cfg) && i < |cs| && cs[i].Install?
    requires |cs| >= 2 && ProvesVersion(cs[..2], v)
    ensures v < cfg.version
  {
    var proof := cs[..2];
    assert proof[0] == cs[0] && proof[1] == cs[1];
    assert i >= 2;
    assert cs[..i][0] == cs[0] && cs[..i][1] == cs[1];
    if !cs[i].first {
      var w: nat :| ProvesVersion(cs[..i], w) && w < cfg.version;
      assert cs[..i] == proof;
      DecisionIsUnique(proof, cfg.package, v, w);
    }
  }

  /** Hence the current version and a newer one are never touched. */
  lemma NewerIsUntouched(cs: seq<Command>, cfg: Settings, v: nat)
    requires InstallsOnlyWhenProved(cs, cfg) && |cs| >= 2 && ProvesVersion(cs[..2], v) && v >= cfg.version
    ensures NoInstall(cs)
  {
    forall i | 0 <= i < |cs| ensures !cs[i].Install? {
      if cs[i].Install? {
        InstallMeansLower(cs, i, cfg, v);
      }
    }
  }

  lemma Singleton(s: set<nat>, x: nat)
    requires |s| == 1 && x in s
    ensures s == {x}
  {
    assert |s - {x}| == 0;
    assert s == (s - {x}) + {x};
  }

  lemma NotASingleton(s: set<nat>)
    requires |s| != 1
    ensures forall x :: s != {x}
  {
    forall x ensures s != {x} {
      assert |{x}| == 1;
    }
  }
}
