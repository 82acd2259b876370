/** Reading what Android's commands print (`openadb/core/acbridge.py`, `PACKAGE_NAME_RE`,
    `PACKAGE_PATH_RE`, `_probe_installed_version`, `verify_bundled_apk`). */
module DeviceAnswers {
  import opened Wrappers

  /** A finished command; `lines` is its standard output, split at line ends. */
  datatype Answer = Answer(success: bool, lines: seq<string>, stderr: string)

  predicate IsSpace(c: char) {
    c in {' ', '\t', '\n', '\r', '\U{000B}', '\U{000C}'}
  }

  predicate IsDigit(c: char) {
    '0' <= c <= '9'
  }

  predicate IsLetter(c: char) {
    'a' <= c <= 'z' || 'A' <= c <= 'Z'
  }

  predicate IsWord(c: char) {
    IsLetter(c) || IsDigit(c) || c == '_'
  }

  predicate Blank(s: string) {
    forall i :: 0 <= i < |s| ==> IsSpace(s[i])
  }

  function StripLeft(s: string): string {
    if s != [] && IsSpace(s[0]) then StripLeft(s[1..]) else s
  }

  function StripRight(s: string): string {
    if s != [] && IsSpace(s[|s| - 1]) then StripRight(s[..|s| - 1]) else s
  }

  predicate StartsWith(s: string, prefix: string) {
    prefix <= s
  }

  const PREFIX: string := "package:"

  /** `package:(/[^\x00-\x1f]+)\Z` */
  predicate IsPathLine(line: string) {
    StartsWith(line, "package:/") && |line| > 9 && forall i :: 9 <= i < |line| ==> line[i] > '\U{001F}'
  }

  /** The parts of `s` between the separators. */
  function Split(s: string, separator: char): (parts: seq<string>)
    ensures |parts| > 0
  {
    if s == [] then [[]]
    else
      var rest := Split(s[1..], separator);
      if s[0] == separator then [[]] + rest else [[s[0]] + rest[0]] + rest[1..]
  }

  predicate IsNamePart(part: string) {
    part != [] && (IsLetter(part[0]) || part[0] == '_') && forall i :: 0 <= i < |part| ==> IsWord(part[i])
  }

  predicate IsPackageName(s: string) {
    var parts := Split(s, '.');
    |parts| >= 2 && forall i :: 0 <= i < |parts| ==> IsNamePart(parts[i])
  }

  function Digits(s: string): (n: nat)
    ensures n <= |s|
  {
    if s != [] && IsDigit(s[0]) then 1 + Digits(s[1..]) else 0
  }

  function Decimal(s: string): nat
    requires forall i :: 0 <= i < |s| ==> IsDigit(s[i])
  {
    if s == [] then 0 else
    assert IsDigit(s[|s| - 1]);
    10 * Decimal(s[..|s| - 1]) + (s[|s| - 1] as int - '0' as int)
  }

  lemma {:induction false} DigitsAreDigits(s: string)
    ensures forall i :: 0 <= i < Digits(s) ==> IsDigit(s[i])
  {
    if s != [] && IsDigit(s[0]) {
      DigitsAreDigits(s[1..]);
      assert forall i :: 1 <= i < Digits(s) ==> s[i] == s[1..][i - 1];
    }
  }

  /** `^\s*versionCode=(\d+)\b` on one line. */
  function VersionCodeOf(line: string): Option<nat> {
    var text := StripLeft(line);
    if !StartsWith(text, "versionCode=") then None else
    var value := text[12..];
    var n := Digits(value);
    DigitsAreDigits(value);
    if n == 0 || (n < |value| && IsWord(value[n])) then None else Some(Decimal(value[..n]))
  }

  /** A version line, cut into its parts. */
  ghost predicate IsVersionLine(line: string, blanks: string, digits: string, rest: string, version: nat) {
    && line == blanks + "versionCode=" + digits + rest
    && Blank(blanks) && digits != [] && (forall i :: 0 <= i < |digits| ==> IsDigit(digits[i]))
       && Decimal(digits) == version
    && (rest == [] || !IsWord(rest[0]))
  }

  lemma {:induction false} StripLeftCuts(s: string) returns (blanks: string)
    ensures Blank(blanks) && s == blanks + StripLeft(s)
  {
    if s != [] && IsSpace(s[0]) {
      var more := StripLeftCuts(s[1..]);
      blanks := [s[0]] + more;
    } else {
      blanks := [];
    }
  }

  lemma {:induction false} StripLeftDrops(blanks: string, text: string)
    requires Blank(blanks) && text != [] && !IsSpace(text[0])
    ensures StripLeft(blanks + text) == text
  {
    if blanks == [] {
      assert blanks + text == text;
    } else {
      StripLeftDrops(blanks[1..], text);
      assert (blanks + text)[1..] == blanks[1..] + text;
    }
  }

  lemma {:induction false} DigitsStop(digits: string, rest: string)
    requires forall i :: 0 <= i < |digits| ==> IsDigit(digits[i])
    requires rest == [] || !IsDigit(rest[0])
    ensures Digits(digits + rest) == |digits|
  {
    if digits == [] {
      assert digits + rest == rest;
    } else {
      DigitsStop(digits[1..], rest);
      assert (digits + rest)[1..] == digits[1..] + rest;
    }
  }

  /** The pattern matches exactly the lines of that shape, with the whole number. */
  lemma VersionCodeIsRead(line: string, version: nat)
    ensures VersionCodeOf(line) == Some(version) <==>
      exists blanks, digits, rest :: IsVersionLine(line, blanks, digits, rest, version)
  {
    if VersionCodeOf(line) == Some(version) {
      ReadVersionLine(line, version);
    }
    if blanks, digits, rest :| IsVersionLine(line, blanks, digits, rest, version) {
      VersionLineIsRead(line, blanks, digits, rest, version);
    }
  }

  lemma ReadVersionLine(line: string, version: nat)
    requires VersionCodeOf(line) == Some(version)
    ensures exists blanks, digits, rest :: IsVersionLine(line, blanks, digits, rest, version)
  {
    var blanks := StripLeftCuts(line);
    var value := StripLeft(line)[12..];
    var n := Digits(value);
    DigitsAreDigits(value);
    KeyFirst(StripLeft(line), "versionCode=");
    hide Digits, StripLeft, StartsWith;
    CutInThree(blanks, "versionCode=", value, n);
    assert IsVersionLine(line, blanks, value[..n], value[n..], version);
  }

  lemma KeyFirst(text: string, key: string)
    requires StartsWith(text, key)
    ensures text == key + text[|key|..]
  {
  }

  lemma CutInThree(blanks: string, key: string, value: string, n: nat)
    requires n <= |value|
    ensures blanks + (key + value) == blanks + key + value[..n] + value[n..]
  {
  }

  lemma VersionLineIsRead(line: string, blanks: string, digits: string, rest: string, version: nat)
    requires IsVersionLine(line, blanks, digits, rest, version)
    ensures VersionCodeOf(line) == Some(version)
  {
    var text := "versionCode=" + (digits + rest);
    assert line == blanks + text && text[0] == 'v';
    StripLeftDrops(blanks, text);
    assert text[12..] == digits + rest && text[..12] == "versionCode=";
    DigitsStop(digits, rest);
    DigitsAreDigits(digits + rest);
    assert (digits + rest)[..|digits|] == digits;
  }

  function VersionCodes(lines: seq<string>): set<nat> {
    set i | 0 <= i < |lines| && VersionCodeOf(lines[i]).Some? :: VersionCodeOf(lines[i]).value
  }

  /** The paths a `pm path` answer shows, as the verification reads them. */
  function PackagePaths(lines: seq<string>): seq<string> {
    if lines == [] then []
    else
      var rest := PackagePaths(lines[1..]);
      if StartsWith(StripRight(StripLeft(lines[0])), PREFIX)
      then [StripRight(StripLeft(if StartsWith(lines[0], PREFIX) then lines[0][8..] else lines[0]))] + rest
      else rest
  }

  predicate IsSafePath(path: string) {
    && |path| >= 2 && path[0] == '/'
    && (forall i :: 1 <= i < |path| ==> IsLetter(path[i]) || IsDigit(path[i]) || path[i] in "._~+/=-")
    && ".." !in Split(path, '/')
  }

  predicate SaysSize(text: string, size: nat) {
    text != [] && (forall i :: 0 <= i < |text| ==> IsDigit(text[i])) && Decimal(text) == size
  }

  predicate IsBase(path: string) {
    var parts := Split(path, '/');
    parts[|parts| - 1] == "base.apk"
  }

  function Joined(lines: seq<string>): string {
    if lines == [] then [] else if |lines| == 1 then lines[0] else lines[0] + "\n" + Joined(lines[1..])
  }

  // ---------------------------------------------------------------- what the readers accept

  function Glued(parts: seq<string>, separator: char): string {
    if parts == [] then [] else if |parts| == 1 then parts[0] else parts[0] + [separator] + Glued(parts[1..], separator)
  }

  predicate FreeOf(parts: seq<string>, c: char) {
    forall i :: 0 <= i < |parts| ==> c !in parts[i]
  }

  lemma GluedMore(first: char, parts: seq<string>, separator: char)
    requires parts != []
    ensures Glued([[first] + parts[0]] + parts[1..], separator) == [first] + Glued(parts, separator)
  {
    assert ([[first] + parts[0]] + parts[1..])[1..] == parts[1..];
  }

  lemma EmptyFirst(parts: seq<string>, separator: char)
    requires parts != []
    ensures Glued([[]] + parts, separator) == [separator] + Glued(parts, separator)
  {
    var none: string := [];
    assert ([none] + parts)[1..] == parts && none + [separator] == [separator];
  }

  lemma {:induction false} SplitGlues(s: string, separator: char)
    ensures Glued(Split(s, separator), separator) == s && FreeOf(Split(s, separator), separator)
  {
    if s != [] {
      var rest := Split(s[1..], separator);
      SplitGlues(s[1..], separator);
      if s[0] == separator {
        EmptyFirst(rest, separator);
        assert s == [separator] + s[1..];
      } else {
        GluedMore(s[0], rest, separator);
        var parts := Split(s, separator);
        forall i | 0 <= i < |parts| ensures separator !in parts[i] {
          assert i > 0 ==> parts[i] == rest[i];
        }
      }
    }
  }

  lemma {:induction false} GluedSplits(parts: seq<string>, separator: char)
    requires parts != [] && FreeOf(parts, separator)
    ensures Split(Glued(parts, separator), separator) == parts
    decreases |parts|, |parts[0]|
  {
    var s := Glued(parts, separator);
    if parts[0] == [] {
      if |parts| > 1 {
        GluedSplits(parts[1..], separator);
        assert parts == [[]] + parts[1..];
        EmptyFirst(parts[1..], separator);
        assert s[1..] == Glued(parts[1..], separator);
      } else {
        assert parts == [[]];
      }
    } else {
      var shorter := [parts[0][1..]] + parts[1..];
      assert [parts[0][0]] + shorter[0] == parts[0];
      assert shorter[1..] == parts[1..] && parts == [parts[0]] + shorter[1..];
      GluedMore(parts[0][0], shorter, separator);
      assert s[0] == parts[0][0] && s[1..] == Glued(shorter, separator);
      GluedSplits(shorter, separator);
    }
  }

  /** The parts are the ones without separators that give the text when glued, and no others. */
  lemma SplitIsExact(s: string, separator: char, parts: seq<string>)
    ensures parts == Split(s, separator) <==> parts != [] && FreeOf(parts, separator) && Glued(parts, separator) == s
  {
    SplitGlues(s, separator);
    if parts != [] && FreeOf(parts, separator) {
      GluedSplits(parts, separator);
    }
  }

  /** A path line, cut into its parts: a slash, then at least one character, none of them a control
      character. */
  lemma PathLineIsRead(line: string)
    ensures IsPathLine(line) <==>
      exists name: string :: line == "package:/" + name && name != [] && forall c :: c in name ==> c > '\U{001F}'
  {
    if IsPathLine(line) {
      var name := line[9..];
      assert line == "package:/" + name;
      forall c | c in name ensures c > '\U{001F}' {
        var i :| 0 <= i < |name| && name[i] == c;
        assert line[i + 9] == c;
      }
    }
    if name: string :| line == "package:/" + name && name != [] && forall c :: c in name ==> c > '\U{001F}' {
      assert "package:/" <= line;
      forall i | 9 <= i < |line| ensures line[i] > '\U{001F}' {
        assert line[i] == name[i - 9] && name[i - 9] in name;
      }
    }
  }

  /** `[A-Za-z_][A-Za-z0-9_]*` */
  predicate SpellsName(part: string) {
    && part != []
    && ('a' <= part[0] <= 'z' || 'A' <= part[0] <= 'Z' || part[0] == '_')
    && forall i :: 0 <= i < |part| ==>
         'a' <= part[i] <= 'z' || 'A' <= part[i] <= 'Z' || '0' <= part[i] <= '9' || part[i] == '_'
  }

  predicate SpellNames(parts: seq<string>) {
    forall i :: 0 <= i < |parts| ==> SpellsName(parts[i])
  }

  /** A package name: two such parts or more between dots. */
  lemma PackageNameIsRead(s: string)
    ensures IsPackageName(s) <==>
      exists parts: seq<string> :: |parts| >= 2 && Glued(parts, '.') == s && SpellNames(parts)
  {
    SplitGlues(s, '.');
    if parts: seq<string> :| |parts| >= 2 && Glued(parts, '.') == s && SpellNames(parts) {
      forall i | 0 <= i < |parts| ensures '.' !in parts[i] {
        assert SpellsName(parts[i]);
      }
      SplitIsExact(s, '.', parts);
    }
  }

  /** `/[A-Za-z0-9._~+/=-]+` */
  predicate SpellsPath(path: string) {
    && |path| >= 2 && path[0] == '/'
    && forall i :: 1 <= i < |path| ==>
         || 'a' <= path[i] <= 'z' || 'A' <= path[i] <= 'Z' || '0' <= path[i] <= '9'
         || path[i] in {'.', '_', '~', '+', '/', '=', '-'}
  }

  /** A safe path, by its characters and by its parts. */
  lemma SafePathIsRead(path: string, parts: seq<string>)
    requires parts != [] && FreeOf(parts, '/') && Glued(parts, '/') == path
    ensures IsSafePath(path) <==> SpellsPath(path) && ".." !in parts
  {
    SplitIsExact(path, '/', parts);
    hide Split, Glued;
    var extra := "._~+/=-";
    assert extra[0] == '.' && extra[1] == '_' && extra[2] == '~' && extra[3] == '+';
    assert extra[4] == '/' && extra[5] == '=' && extra[6] == '-';
    forall c: char ensures c in extra <==> c in {'.', '_', '~', '+', '/', '=', '-'} {
    }
  }

  /** A base path is `base.apk` itself or that name behind a slash. */
  lemma BaseIsRead(path: string)
    ensures IsBase(path) <==> path == "base.apk" || exists directory: string :: path == directory + "/base.apk"
  {
    if IsBase(path) {
      BaseIsLast(path);
    }
    if path == "base.apk" {
      assert Glued(["base.apk"], '/') == "base.apk";
      SplitIsExact(path, '/', ["base.apk"]);
    }
    if directory: string :| path == directory + "/base.apk" {
      BaseInDirectory(directory);
    }
  }

  lemma BaseIsLast(path: string)
    requires IsBase(path)
    ensures path == "base.apk" || exists directory: string :: path == directory + "/base.apk"
  {
    var parts := Split(path, '/');
    SplitGlues(path, '/');
    hide Split, Glued;
    if |parts| > 1 {
      GluedLast(parts, '/');
      assert path == Glued(parts[..|parts| - 1], '/') + ("/" + "base.apk") && "/" + "base.apk" == "/base.apk";
    } else {
      assert Glued(parts, '/') == parts[0] by { OnePart(parts, '/'); }
    }
  }

  lemma OnePart(parts: seq<string>, separator: char)
    requires |parts| == 1
    ensures Glued(parts, separator) == parts[0]
  {
  }

  lemma BaseInDirectory(directory: string)
    ensures IsBase(directory + "/base.apk")
  {
    var before, base := Split(directory, '/'), ["base.apk"];
    var parts := before + base;
    SplitGlues(directory, '/');
    GluedConcat(before, base, '/');
    OnePart(base, '/');
    hide Split, Glued;
    assert directory + "/base.apk" == directory + "/" + "base.apk";
    assert '/' !in "base.apk";
    SplitIsExact(directory + "/base.apk", '/', parts);
  }

  lemma {:induction false} GluedLast(parts: seq<string>, separator: char)
    requires |parts| >= 2
    ensures Glued(parts, separator) == Glued(parts[..|parts| - 1], separator) + [separator] + parts[|parts| - 1]
  {
    if |parts| > 2 {
      GluedLast(parts[1..], separator);
      assert parts[..|parts| - 1][1..] == parts[1..][..|parts| - 2];
    } else {
      assert parts[1..] == [parts[1]] && parts[..1] == [parts[0]];
    }
  }

  /** A safe path has no step upwards, wherever it is cut. */
  lemma SafePathHasNoStepUp(path: string, before: string, after: string)
    requires IsSafePath(path)
    ensures path != before + "/.." && path != before + "/../" + after
  {
    if path == before + "/.." {
      StepUp(path, before, []);
      assert false;
    }
    if path == before + "/../" + after {
      SplitGlues(after, '/');
      StepUp(path, before, Split(after, '/'));
      assert false;
    }
  }

  lemma StepUp(path: string, before: string, tail: seq<string>)
    requires FreeOf(tail, '/')
    requires path == if tail == [] then before + "/.." else before + "/../" + Glued(tail, '/')
    ensures ".." in Split(path, '/')
  {
    var first, rest := Split(before, '/'), [".."] + tail;
    SplitGlues(before, '/');
    GluedConcat(first, rest, '/');
    DotsFirst(tail);
    UpAfter(before, Glued(tail, '/'));
    DotsAreFree();
    hide Split, Glued;
    SplitIsExact(path, '/', first + rest);
    assert (first + rest)[|first|] == "..";
  }

  lemma DotsAreFree()
    ensures '/' !in ".."
  {
  }

  lemma DotsFirst(tail: seq<string>)
    ensures Glued([".."] + tail, '/') == if tail == [] then ".." else ".." + ['/'] + Glued(tail, '/')
  {
    assert ([".."] + tail)[1..] == tail;
  }

  lemma UpAfter(before: string, after: string)
    ensures before + "/.." == before + ['/'] + ".."
    ensures before + "/../" + after == before + ['/'] + (".." + ['/'] + after)
  {
  }

  lemma {:induction false} GluedConcat(a: seq<string>, b: seq<string>, separator: char)
    requires a != [] && b != []
    ensures Glued(a + b, separator) == Glued(a, separator) + [separator] + Glued(b, separator)
  {
    assert (a + b)[1..] == a[1..] + b;
    if |a| > 1 {
      GluedConcat(a[1..], b, separator);
    } else {
      assert a[1..] + b == b;
    }
  }

  /** A number in decimal digits. */
  function Numeral(n: nat): (s: string)
    ensures s != [] && forall i :: 0 <= i < |s| ==> IsDigit(s[i])
  {
    var last := ['0' + (n % 10) as char];
    if n < 10 then last else Numeral(n / 10) + last
  }

  /** A printed number is read back. */
  lemma {:induction false} NumeralReadsBack(n: nat)
    ensures Decimal(Numeral(n)) == n && SaysSize(Numeral(n), n)
  {
    var s := Numeral(n);
    if n >= 10 {
      NumeralReadsBack(n / 10);
      assert s[..|s| - 1] == Numeral(n / 10);
    } else {
      assert s[..0] == [];
    }
  }

  /** Nothing to strip at either end. */
  predicate Trimmed(s: string) {
    s != [] && !IsSpace(s[0]) && !IsSpace(s[|s| - 1])
  }

  lemma TrimmedStays(s: string)
    requires Trimmed(s)
    ensures StripRight(StripLeft(s)) == s
  {
  }

  function Printed(paths: seq<string>): seq<string> {
    if paths == [] then [] else ["package:" + paths[0]] + Printed(paths[1..])
  }

  /** The paths that `pm path` prints are read back. */
  lemma {:induction false} PrintedPathsAreRead(paths: seq<string>)
    requires forall i :: 0 <= i < |paths| ==> Trimmed(paths[i])
    ensures PackagePaths(Printed(paths)) == paths
  {
    if paths != [] {
      PrintedPathsAreRead(paths[1..]);
      var line := "package:" + paths[0];
      assert Trimmed(paths[0]) && line[0] == 'p' && line[|line| - 1] == paths[0][|paths[0]| - 1];
      TrimmedStays(line);
      TrimmedStays(paths[0]);
      assert line[..8] == "package:" && line[8..] == paths[0];
      assert Printed(paths)[1..] == Printed(paths[1..]);
    }
  }

  /** A line that is no package line, with or without blanks around it, is passed over. */
  lemma OtherLinesArePassedOver(line: string, lines: seq<string>)
    requires !("package:" <= StripRight(StripLeft(line)))
    ensures PackagePaths([line] + lines) == PackagePaths(lines)
  {
    assert ([line] + lines)[1..] == lines;
  }
}
