/** The helper update against devices that print what Android prints: which outcome each of them
    leads to (`openadb/core/acbridge.py`, `update_if_outdated`). */
module HelperScenarios {
  import opened Bytes
  import opened Wrappers
  import opened DeviceAnswers
  import opened HelperUpdate

  /** What the package manager shows: no package, one version, or an answer with an error text. */
  datatype Shown = Missing | Version(code: nat) | Garbled

  /** Before and after the install, whether Android accepts it, and the bytes that are read back. */
  datatype Script = Script(before: Shown, accepts: bool, after: Shown, bytes: seq<byte>)

  const PATH: string := "/a/base.apk"

  function PathsAnswer(shown: Shown): Answer {
    match shown
    case Missing => Answer(true, [], [])
    case Version(_) => Answer(true, ["package:" + PATH], [])
    case Garbled => Answer(true, [], "error")
  }

  function VersionAnswer(shown: Shown): Answer {
    Answer(true, [" versionCode=" + Numeral(if shown.Version? then shown.code else 0) + " minSdk=23"], [])
  }

  /** The update installs only where the package is missing or older. */
  predicate Installs(s: Script, cfg: Settings) {
    s.before.Missing? || (s.before.Version? && s.before.code < cfg.version)
  }

  /** The install is the second command where the package is missing, and the third one otherwise. */
  function InstallAt(s: Script): nat {
    if s.before.Version? then 2 else 1
  }

  function ShownAt(s: Script, cfg: Settings, n: nat): Shown {
    if Installs(s, cfg) && n > InstallAt(s) then s.after else s.before
  }

  function Playing(s: Script, cfg: Settings): Device {
    (n: nat, q: Question) =>
      match q
      case AskPaths => Reply(PathsAnswer(ShownAt(s, cfg, n)), [])
      case AskListing => Reply(Answer(false, [], []), [])
      case AskVersion => Reply(VersionAnswer(ShownAt(s, cfg, if n == 0 then 0 else n - 1)), [])
      case AskSize(_) => Reply(Answer(true, [Numeral(|cfg.bundle|)], []), [])
      case AskBytes(_) => Reply(Answer(true, [], []), s.bytes)
      case AskInstall(_) => Reply(Answer(s.accepts, [], []), [])
  }

  predicate Sane(s: Script, cfg: Settings) {
    && cfg.bundlePresent && 0 < |cfg.bundle| <= 67_108_864
    && (s.before.Version? ==> s.before.code > 0) && (s.after.Version? ==> s.after.code > 0)
  }

  predicate SameBytes(s: Script, cfg: Settings) {
    |s.bytes| == |cfg.bundle| && cfg.digest(s.bytes) == cfg.digest(cfg.bundle)
  }

  /** Which outcome the user sees. */
  function Expected(s: Script, cfg: Settings): Outcome {
    match s.before
    case Garbled => Unreadable
    case Missing => AfterInstall(s, cfg, Installed, InstallFailed)
    case Version(code) =>
      if code > cfg.version then Newer
      else if code < cfg.version then AfterInstall(s, cfg, Updated, UpdateFailed)
      else if SameBytes(s, cfg) then Current else VerificationFailed
  }

  function AfterInstall(s: Script, cfg: Settings, success: Outcome, failure: Outcome): Outcome {
    if !s.accepts then failure
    else match s.after
      case Missing => failure
      case Garbled => Unreadable
      case Version(code) =>
        if code != cfg.version then failure else if SameBytes(s, cfg) then success else VerificationFailed
  }

  // ---------------------------------------------------------------- the texts are read

  lemma PathLineIsPath()
    ensures IsPathLine("package:" + PATH)
  {
    assert "package:" + PATH == "package:/" + "a/base.apk";
    PathLineIsRead("package:" + PATH);
  }

  lemma PathIsTrimmed()
    ensures Trimmed(PATH)
  {
  }

  lemma PathIsFound()
    ensures PackagePaths(["package:" + PATH]) == [PATH]
  {
    PathIsTrimmed();
    hide Trimmed, PackagePaths;
    var paths := [PATH];
    PrintedPathsAreRead(paths);
    assert paths[1..] == [] && Printed(paths[1..]) == [];
    var line := "package:" + PATH;
    assert Printed(paths) == [line] + [] == [line];
  }

  lemma PathIsBase()
    ensures IsBase(PATH)
  {
    assert PATH == "/a" + "/base.apk";
    BaseIsRead(PATH);
  }

  lemma PathIsSafe()
    ensures IsSafePath(PATH)
  {
    PathParts();
    PathChars();
    hide Split;
    assert "" != ".." && "a" != ".." && "base.apk" != "..";
  }

  lemma PathChars()
    ensures |PATH| >= 2 && PATH[0] == '/'
    ensures forall i :: 1 <= i < |PATH| ==> IsLetter(PATH[i]) || IsDigit(PATH[i]) || PATH[i] in "._~+/=-"
  {
    assert "._~+/=-"[0] == '.' && "._~+/=-"[4] == '/';
  }

  lemma PathParts()
    ensures Split(PATH, '/') == ["", "a", "base.apk"]
  {
    var a: string, b: string, c: string := "", "a", "base.apk";
    assert PATH == a + ['/'] + b + ['/'] + c;
    assert '/' !in a && '/' !in b && '/' !in c;
    ThreeParts(a, b, c, '/');
  }

  lemma ThreeParts(a: string, b: string, c: string, separator: char)
    requires separator !in a && separator !in b && separator !in c
    ensures Split(a + [separator] + b + [separator] + c, separator) == [a, b, c]
  {
    hide Split, Glued;
    GluedConcat([a], [b], separator);
    GluedConcat([a, b], [c], separator);
    OnePart([a], separator);
    OnePart([b], separator);
    OnePart([c], separator);
    assert [a] + [b] == [a, b] && [a, b] + [c] == [a, b, c];
    SplitIsExact(a + [separator] + b + [separator] + c, separator, [a, b, c]);
  }

  lemma VersionIsRead(code: nat)
    ensures VersionCodes(VersionAnswer(Version(code)).lines) == {code}
  {
    var line := " versionCode=" + Numeral(code) + " minSdk=23";
    NumeralReadsBack(code);
    assert " versionCode=" == " " + "versionCode=";
    assert line == " " + "versionCode=" + Numeral(code) + " minSdk=23";
    assert IsVersionLine(line, " ", Numeral(code), " minSdk=23", code);
    VersionCodeIsRead(line, code);
    hide VersionCodeOf;
    var lines := VersionAnswer(Version(code)).lines;
    assert lines == [line];
    assert VersionCodeOf(lines[0]) == Some(code);
    forall v ensures v in VersionCodes(lines) <==> v == code {
    }
  }

  lemma SizeIsRead(size: nat)
    ensures SaysSize(StripRight(StripLeft(Joined([Numeral(size)]))), size)
  {
    NumeralReadsBack(size);
    var text := Numeral(size);
    assert IsDigit(text[0]) && IsDigit(text[|text| - 1]);
    TrimmedStays(text);
  }

  // ---------------------------------------------------------------- what the device shows

  lemma ProbeShows(s: Script, cfg: Settings, n: nat, package: string)
    requires var shown := ShownAt(s, cfg, n); shown.Version? ==> shown.code > 0
    ensures ProbeOf(Playing(s, cfg), n, package) ==
      match ShownAt(s, cfg, n)
      case Missing => NotInstalled
      case Garbled => QueryFailed
      case Version(code) => InstalledVersion(code)
    ensures ProbeLength(Playing(s, cfg), n) == if ShownAt(s, cfg, n).Version? then 2 else 1
  {
    var d, shown := Playing(s, cfg), ShownAt(s, cfg, n);
    ProbeWays(d, n, package);
    assert d(n, AskPaths).answer == PathsAnswer(shown) && d(n + 1, AskVersion).answer == VersionAnswer(shown);
    hide ProbeOf, Playing, ShownAt, VersionCodes;
    match shown
    case Missing => AnswersWithout();
    case Garbled => AnswersWithout();
    case Version(code) =>
      VersionIsRead(code);
      AnswersWith(code);
  }

  lemma AnswersWithout()
    ensures OnlyPaths(PathsAnswer(Missing)) && Blank(PathsAnswer(Missing).stderr) && PathsAnswer(Missing).lines == []
    ensures !Blank(PathsAnswer(Garbled).stderr)
  {
    assert !IsSpace("error"[0]);
  }

  lemma AnswersWith(code: nat)
    ensures var a := PathsAnswer(Version(code)); OnlyPaths(a) && Blank(a.stderr) && a.lines != []
  {
    PathLineIsPath();
    hide IsPathLine;
  }

  lemma BundleIsShown(s: Script, cfg: Settings, n: nat)
    requires Sane(s, cfg) && ShownAt(s, cfg, n).Version?
    ensures BundleShown(Playing(s, cfg), n, cfg) <==> SameBytes(s, cfg)
  {
    var d, shown := Playing(s, cfg), ShownAt(s, cfg, n);
    assert d(n, AskPaths).answer == PathsAnswer(shown);
    assert d(n + 1, AskSize(PATH)).answer == Answer(true, [Numeral(|cfg.bundle|)], []);
    assert d(n + 2, AskBytes(PATH)) == Reply(Answer(true, [], []), s.bytes);
    PathIsFound();
    PathIsBase();
    PathIsSafe();
    SizeIsRead(|cfg.bundle|);
    BundleSteps(d, n, cfg);
    hide BundleShown, Playing, ShownAt, IsPathLine, PackagePaths, IsSafePath, IsBase, SaysSize, StripLeft, StripRight,
      Joined, Numeral;
  }

  lemma {:induction false} ProbesSettle(s: Script, cfg: Settings, n: nat, retries: nat)
    requires Sane(s, cfg) && Installs(s, cfg) && n > InstallAt(s)
    ensures var (probe, next) := Settled(Playing(s, cfg), n, cfg.package, retries);
      next > InstallAt(s) && probe ==
      match s.after
      case Missing => NotInstalled
      case Garbled => QueryFailed
      case Version(code) => InstalledVersion(code)
    decreases retries
  {
    ProbeShows(s, cfg, n, cfg.package);
    hide Playing, ProbeOf, ProbeLength;
    if retries > 0 && !s.after.Version? {
      ProbesSettle(s, cfg, n + 1, retries - 1);
    }
  }

  /** Every such device leads to the outcome of the table. */
  lemma ScriptLeadsTo(s: Script, cfg: Settings)
    requires Sane(s, cfg)
    ensures OutcomeOf(Playing(s, cfg), 0, cfg) == Expected(s, cfg)
  {
    ProbeShows(s, cfg, 0, cfg.package);
    if Installs(s, cfg) {
      InstallLeadsTo(s, cfg);
    } else if s.before.Version? {
      BundleIsShown(s, cfg, 2);
    }
    hide Playing, ProbeOf, ProbeLength, InstallOutcome, BundleShown, AfterInstall;
  }

  lemma InstallLeadsTo(s: Script, cfg: Settings)
    requires Sane(s, cfg) && Installs(s, cfg)
    ensures var previous := if s.before.Missing? then None else Some(s.before.code);
      InstallOutcome(Playing(s, cfg), InstallAt(s), previous, cfg) ==
      if s.before.Missing? then AfterInstall(s, cfg, Installed, InstallFailed)
      else AfterInstall(s, cfg, Updated, UpdateFailed)
  {
    var d, m := Playing(s, cfg), InstallAt(s);
    ProbesSettle(s, cfg, m + 1, 2);
    var (probe, next) := Settled(d, m + 1, cfg.package, 2);
    if s.after.Version? {
      BundleIsShown(s, cfg, next);
    }
    assert d(m, AskInstall(s.before.Missing?)).answer.success == s.accepts;
    hide Playing, ProbeOf, ProbeLength, Settled, BundleShown;
  }

  /** A larger bundle is never shown. */
  lemma TooLargeIsNotShown(d: Device, n: nat, cfg: Settings)
    requires |cfg.bundle| > 67_108_864 || cfg.bundle == []
    ensures !BundleShown(d, n, cfg)
  {
    BundleSteps(d, n, cfg);
  }

  /** The update itself, on such a device, where nobody can cancel. */
  method Update(s: Script, cfg: Settings) returns (r: Outcome)
    requires Sane(s, cfg)
    ensures r == Expected(s, cfg)
  {
    var helper := new Helper(cfg, Playing(s, cfg), false);
    var previous;
    ghost var es;
    r, previous, es := helper.UpdateIfOutdated();
    ScriptLeadsTo(s, cfg);
  }
}
