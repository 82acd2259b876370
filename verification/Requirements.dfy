/** Resolving pinned requirements over an include graph
    (`tools/verify_release_dependencies.py`, `load_active_requirements`).

    A file is its logical lines, already parsed: an include of a resolved path, an active exact
    pin, a pin whose marker excludes the target, or a line that is refused. */
module Requirements {
  import opened Wrappers

  type Path = string
  type Name = string

  datatype Reviewed = Reviewed(version: string, extras: set<string>)
  datatype Line = Include(path: Path) | Pin(name: Name, pin: Reviewed) | Inactive | Refused
  datatype LoadError = Unreadable(path: Path) | RefusedLine(path: Path) | Conflict(name: Name)

  type Files = map<Path, seq<Line>>

  // ---------------------------------------------------------------- what is reachable

  /** `trail` leads from `root` to `f`, include by include. */
  ghost predicate Trail(files: Files, trail: seq<Path>, root: Path, f: Path) {
    && |trail| > 0 && trail[0] == root && trail[|trail| - 1] == f
    && forall i :: 0 <= i < |trail| - 1 ==> trail[i] in files && Include(trail[i + 1]) in files[trail[i]]
  }

  ghost predicate Reaches(files: Files, root: Path, f: Path) {
    exists trail :: Trail(files, trail, root, f)
  }

  ghost predicate Pinned(files: Files, f: Path, name: Name, pin: Reviewed) {
    f in files && Pin(name, pin) in files[f]
  }

  /** Some reachable file is missing or holds a refused line, or two active pins disagree. */
  ghost predicate Broken(files: Files, root: Path, f: Path) {
    Reaches(files, root, f) && (f !in files || Refused in files[f])
  }

  ghost predicate Disagree(files: Files, root: Path, f: Path, g: Path, name: Name, c: Reviewed, d: Reviewed) {
    Reaches(files, root, f) && Reaches(files, root, g) && Pinned(files, f, name, c) && Pinned(files, g, name, d)
      && c != d
  }

  ghost predicate Faulty(files: Files, root: Path) {
    || (exists f :: Broken(files, root, f))
    || (exists f, g, name, c, d :: Disagree(files, root, f, g, name, c, d))
  }

  predicate Maps(result: map<Name, Reviewed>, name: Name, pin: Reviewed) {
    name in result && result[name] == pin
  }

  /** `result` holds exactly the pins of the files in `fs`. */
  ghost predicate Collects(files: Files, fs: set<Path>, result: map<Name, Reviewed>) {
    forall name, pin :: Maps(result, name, pin) <==> exists f :: f in fs && Pinned(files, f, name, pin)
  }

  ghost predicate CollectsReachable(files: Files, root: Path, result: map<Name, Reviewed>) {
    forall name, pin :: Maps(result, name, pin) <==> exists f :: Reaches(files, root, f) && Pinned(files, f, name, pin)
  }

  /** The includes of every file of `fs` stay within `within`. */
  ghost predicate Closed(files: Files, fs: set<Path>, within: set<Path>) {
    forall f, g :: f in fs && f in files && Include(g) in files[f] ==> g in within
  }

  lemma ReachesItself(files: Files, root: Path)
    ensures Reaches(files, root, root)
  {
    assert Trail(files, [root], root, root);
  }

  lemma ReachesThrough(files: Files, root: Path, g: Path, f: Path)
    requires root in files && Include(g) in files[root] && Reaches(files, g, f)
    ensures Reaches(files, root, f)
  {
    var trail :| Trail(files, trail, g, f);
    var longer := [root] + trail;
    forall i | 0 <= i < |longer| - 1 ensures longer[i] in files && Include(longer[i + 1]) in files[longer[i]] {
      if i > 0 {
        assert longer[i] == trail[i - 1] && longer[i + 1] == trail[i];
      }
    }
    assert Trail(files, longer, root, f);
  }

  lemma FaultyThrough(files: Files, root: Path, g: Path)
    requires root in files && Include(g) in files[root] && Faulty(files, g)
    ensures Faulty(files, root)
  {
    if exists f :: Broken(files, g, f) {
      var f :| Broken(files, g, f);
      ReachesThrough(files, root, g, f);
      assert Broken(files, root, f);
    } else {
      var f, h, name, c, d :| Disagree(files, g, f, h, name, c, d);
      ReachesThrough(files, root, g, f);
      ReachesThrough(files, root, g, h);
      assert Disagree(files, root, f, h, name, c, d);
    }
  }

  /** A closed set of files that holds the root holds everything reachable. */
  lemma {:induction false} ClosedHoldsTrail(files: Files, fs: set<Path>, trail: seq<Path>, root: Path, f: Path, i: nat)
    requires Closed(files, fs, fs) && root in fs && Trail(files, trail, root, f) && i < |trail|
    ensures trail[i] in fs
  {
    if i > 0 {
      ClosedHoldsTrail(files, fs, trail, root, f, i - 1);
      assert Include(trail[i]) in files[trail[i - 1]];
    }
  }

  lemma ClosedHoldsReachable(files: Files, fs: set<Path>, root: Path, f: Path)
    requires Closed(files, fs, fs) && root in fs && Reaches(files, root, f)
    ensures f in fs
  {
    var trail :| Trail(files, trail, root, f);
    ClosedHoldsTrail(files, fs, trail, root, f, |trail| - 1);
  }

  // ---------------------------------------------------------------- the loader

  /** Merging fails on the first name both sides pin differently. */
  method Merge(expected: map<Name, Reviewed>, included: map<Name, Reviewed>)
    returns (r: Result<map<Name, Reviewed>, LoadError>)
    ensures r.Ok? <==> forall name :: name in expected && name in included ==> expected[name] == included[name]
    ensures r.Ok? ==> r.value == expected + included
    ensures r.Err? ==> r.error.Conflict? && r.error.name in expected && r.error.name in included
                       && expected[r.error.name] != included[r.error.name]
  {
    var result, left := expected, included.Keys;
    while left != {}
      invariant left <= included.Keys
      invariant forall name :: name in included && name !in left ==> name in expected ==>
        expected[name] == included[name]
      invariant result == map name | name in expected.Keys + (included.Keys - left) ::
        if name in included && name !in left then included[name] else expected[name]
      decreases left
    {
      var name :| name in left;
      if name in result && result[name] != included[name] {
        return Err(Conflict(name));
      }
      result := result[name := included[name]];
      left := left - {name};
    }
    assert result == expected + included;
    return Ok(result);
  }

  /** The files of one pass: those seen in it, all below `path`, all good, and with their
      includes seen. */
  ghost predicate Visited(files: Files, path: Path, news: set<Path>, seen: set<Path>) {
    && (forall f :: f in news ==> f in files && Refused !in files[f] && Reaches(files, path, f))
    && Closed(files, news, seen)
  }

  /** The first `k` lines of `path` are done. */
  ghost predicate Partly(files: Files, path: Path, k: nat, others: set<Path>, seen: set<Path>,
                         expected: map<Name, Reviewed>)
    requires path in files && k <= |files[path]|
  {
    && Visited(files, path, others, seen)
    && (forall i :: 0 <= i < k ==>
        files[path][i] != Refused && (files[path][i].Include? ==> files[path][i].path in seen))
    && (forall name, pin :: Maps(expected, name, pin) <==>
         (exists f :: f in others && Pinned(files, f, name, pin)) || Pin(name, pin) in files[path][..k])
  }

  class Loader {
    const files: Files
    /** The set shared by the whole recursion. */
    var seen: set<Path>

    constructor (files: Files)
      ensures this.files == files && seen == {}
    {
      this.files := files;
      seen := {};
    }

    method Load(path: Path) returns (r: Result<map<Name, Reviewed>, LoadError>)
      modifies this
      decreases |files.Keys - seen|
      ensures old(seen) <= seen
      ensures r.Ok? ==>
        path in seen && Visited(files, path, seen - old(seen), seen) && Collects(files, seen - old(seen), r.value)
      ensures r.Err? ==> Faulty(files, path)
    {
      ReachesItself(files, path);
      if path in seen {
        return Ok(map[]);
      }
      var before := seen;
      seen := seen + {path};
      if path !in files {
        assert Broken(files, path, path);
        return Err(Unreadable(path));
      }
      assert files.Keys - seen == files.Keys - before - {path};
      var lines, expected := files[path], map[];
      for k := 0 to |lines|
        invariant before + {path} <= seen
        invariant Partly(files, path, k, seen - before - {path}, seen, expected)
      {
        match lines[k]
        case Refused =>
          assert Broken(files, path, path);
          return Err(RefusedLine(path));
        case Inactive =>
          OneMoreLine(files, path, k, seen - before - {path}, seen, expected);
        case Pin(name, pin) =>
          if name in expected && expected[name] != pin {
            PinDisagrees(files, path, k, seen - before - {path}, seen, expected);
            return Err(Conflict(name));
          }
          OneMoreLine(files, path, k, seen - before - {path}, seen, expected);
          expected := expected[name := pin];
        case Include(included) =>
          ghost var others, earlier := seen - before - {path}, seen;
          Smaller(files.Keys, before, seen, path);
          var more := Load(included);
          if more.Err? {
            FaultyThrough(files, path, included);
            return more;
          }
          ghost var news := seen - earlier;
          assert seen - before - {path} == others + news;
          var merged := Merge(expected, more.value);
          if merged.Err? {
            MergeDisagrees(files, path, k, others, earlier, expected, news, more.value, merged.error.name);
            return merged;
          }
          IncludeMerged(files, path, k, others, earlier, seen, expected, news, more.value);
          expected := merged.value;
      }
      assert seen - before == (seen - before - {path}) + {path};
      WholeFile(files, path, seen - before - {path}, seen, expected);
      return Ok(expected);
    }
  }

  lemma Smaller(keys: set<Path>, before: set<Path>, seen: set<Path>, path: Path)
    requires path in keys && path !in before && before + {path} <= seen
    ensures |keys - seen| < |keys - before|
  {
    var a, b := keys - seen, keys - before;
    Smallest(a, b, path);
  }

  lemma Smallest(a: set<Path>, b: set<Path>, x: Path)
    requires a <= b && x in b && x !in a
    ensures |a| < |b|
  {
    assert b == a + (b - a);
    assert |b| == |a| + |b - a|;
    assert x in b - a;
  }

  lemma OneMoreLine(files: Files, path: Path, k: nat, others: set<Path>, seen: set<Path>, expected: map<Name, Reviewed>)
    requires path in files && k < |files[path]| && Partly(files, path, k, others, seen, expected)
    requires files[path][k].Inactive? || (files[path][k].Pin?
      && (files[path][k].name in expected ==> expected[files[path][k].name] == files[path][k].pin))
    ensures Partly(files, path, k + 1, others, seen,
                   if files[path][k].Pin? then expected[files[path][k].name := files[path][k].pin] else expected)
  {
    var line := files[path][k];
    assert files[path][..k + 1] == files[path][..k] + [line];
    var next := if line.Pin? then expected[line.name := line.pin] else expected;
    forall name, pin ensures Maps(next, name, pin) <==>
      Maps(expected, name, pin) || (line.Pin? && line.name == name && line.pin == pin)
    {
    }
    forall name, pin ensures Pin(name, pin) in files[path][..k + 1] <==>
      Pin(name, pin) in files[path][..k] || line == Pin(name, pin)
    {
    }
  }

  lemma PinDisagrees(files: Files, path: Path, k: nat, others: set<Path>, seen: set<Path>,
                     expected: map<Name, Reviewed>)
    requires path in files && k < |files[path]| && Partly(files, path, k, others, seen, expected)
    requires files[path][k].Pin? && files[path][k].name in expected
      && expected[files[path][k].name] != files[path][k].pin
    ensures Faulty(files, path)
  {
    var name, pin := files[path][k].name, files[path][k].pin;
    ReachesItself(files, path);
    var f := PinnedWhere(files, path, k, others, seen, expected, name);
    assert Disagree(files, path, f, path, name, expected[name], pin);
  }

  /** Every collected pin stands in a file that was visited. */
  lemma PinnedWhere(files: Files, path: Path, k: nat, others: set<Path>, seen: set<Path>, expected: map<Name, Reviewed>,
                    name: Name)
    returns (f: Path)
    requires path in files && k <= |files[path]| && Partly(files, path, k, others, seen, expected) && name in expected
    ensures Reaches(files, path, f) && Pinned(files, f, name, expected[name])
  {
    ReachesItself(files, path);
    assert Maps(expected, name, expected[name]);
    if Pin(name, expected[name]) in files[path][..k] {
      f := path;
    } else {
      f :| f in others && Pinned(files, f, name, expected[name]);
    }
  }

  lemma MergeDisagrees(files: Files, path: Path, k: nat, others: set<Path>, seen: set<Path>,
                       expected: map<Name, Reviewed>,
                       news: set<Path>, more: map<Name, Reviewed>, name: Name)
    requires path in files && k < |files[path]| && Partly(files, path, k, others, seen, expected)
    requires files[path][k].Include? && Collects(files, news, more)
    requires forall f :: f in news ==> Reaches(files, files[path][k].path, f)
    requires name in expected && name in more && expected[name] != more[name]
    ensures Faulty(files, path)
  {
    var f := PinnedWhere(files, path, k, others, seen, expected, name);
    assert Maps(more, name, more[name]);
    var g :| g in news && Pinned(files, g, name, more[name]);
    ReachesThrough(files, path, files[path][k].path, g);
    assert Disagree(files, path, f, g, name, expected[name], more[name]);
  }

  lemma IncludeMerged(files: Files, path: Path, k: nat, others: set<Path>, earlier: set<Path>, seen: set<Path>,
                      expected: map<Name, Reviewed>, news: set<Path>, more: map<Name, Reviewed>)
    requires path in files && k < |files[path]| && Partly(files, path, k, others, earlier, expected)
    requires files[path][k].Include? && files[path][k].path in seen && earlier <= seen
    requires Visited(files, files[path][k].path, news, seen) && Collects(files, news, more)
    requires forall name :: name in expected && name in more ==> expected[name] == more[name]
    ensures Partly(files, path, k + 1, others + news, seen, expected + more)
  {
    var line := files[path][k];
    assert files[path][..k + 1] == files[path][..k] + [line];
    forall f | f in others + news ensures f in files && Refused !in files[f] && Reaches(files, path, f) {
      if f in news {
        ReachesThrough(files, path, line.path, f);
      }
    }
    forall name, pin
      ensures Maps(expected + more, name, pin) <==>
              (exists f :: f in others + news && Pinned(files, f, name, pin)) || Pin(name, pin) in files[path][..k + 1]
    {
      assert Maps(expected + more, name, pin) <==> Maps(expected, name, pin) || Maps(more, name, pin) by {
        if name in expected && name in more {
          assert expected[name] == more[name];
        }
      }
      assert Pin(name, pin) in files[path][..k + 1] <==> Pin(name, pin) in files[path][..k];
      assert (exists f :: f in others + news && Pinned(files, f, name, pin)) <==>
             (exists f :: f in others && Pinned(files, f, name, pin))
               || (exists f :: f in news && Pinned(files, f, name, pin));
    }
  }

  lemma WholeFile(files: Files, path: Path, others: set<Path>, seen: set<Path>, expected: map<Name, Reviewed>)
    requires path in files && path in seen && Partly(files, path, |files[path]|, others, seen, expected)
    ensures Visited(files, path, others + {path}, seen) && Collects(files, others + {path}, expected)
  {
    ReachesItself(files, path);
    assert files[path][..|files[path]|] == files[path];
  }

  /** The whole load: it fails exactly when something reachable is missing, refused or in
      disagreement, and otherwise returns the union of all reachable pins. */
  method LoadActiveRequirements(files: Files, root: Path) returns (r: Result<map<Name, Reviewed>, LoadError>)
    ensures r.Ok? <==> !Faulty(files, root)
    ensures r.Ok? ==> CollectsReachable(files, root, r.value)
  {
    var loader := new Loader(files);
    r := loader.Load(root);
    if r.Ok? {
      ghost var fs := loader.seen;
      assert fs - {} == fs;
      SeenIsReachable(files, root, fs, r.value);
    }
  }

  lemma SeenIsReachable(files: Files, root: Path, fs: set<Path>, result: map<Name, Reviewed>)
    requires root in fs && Visited(files, root, fs, fs) && Collects(files, fs, result)
    ensures !Faulty(files, root) && CollectsReachable(files, root, result)
  {
    forall f ensures Reaches(files, root, f) <==> f in fs {
      if Reaches(files, root, f) {
        ClosedHoldsReachable(files, fs, root, f);
      }
    }
    forall f, g, name, c, d ensures !Disagree(files, root, f, g, name, c, d) {
      if Pinned(files, f, name, c) && Pinned(files, g, name, d) && f in fs && g in fs {
        assert Maps(result, name, c) && Maps(result, name, d);
      }
    }
  }

  // ---------------------------------------------------------------- order does not matter

  /** The same lines in every file, in any order and any number. */
  ghost predicate SameLines(files: Files, other: Files) {
    files.Keys == other.Keys && forall f, line :: f in files ==> (line in files[f] <==> line in other[f])
  }

  lemma SameReach(files: Files, other: Files, root: Path, f: Path)
    requires SameLines(files, other) && Reaches(files, root, f)
    ensures Reaches(other, root, f)
  {
    var trail :| Trail(files, trail, root, f);
    assert Trail(other, trail, root, f);
  }

  lemma SameFaults(files: Files, other: Files, root: Path)
    requires SameLines(files, other) && Faulty(files, root)
    ensures Faulty(other, root)
  {
    if exists f :: Broken(files, root, f) {
      var f :| Broken(files, root, f);
      SameReach(files, other, root, f);
      assert Broken(other, root, f);
    } else {
      var f, g, name, c, d :| Disagree(files, root, f, g, name, c, d);
      SameReach(files, other, root, f);
      SameReach(files, other, root, g);
      assert Disagree(other, root, f, g, name, c, d);
    }
  }

  lemma SameMaps(a: map<Name, Reviewed>, b: map<Name, Reviewed>)
    requires forall name, pin :: Maps(a, name, pin) <==> Maps(b, name, pin)
    ensures a == b
  {
    assert forall name :: name in a ==> Maps(a, name, a[name]);
    assert forall name :: name in b ==> Maps(b, name, b[name]);
    assert a.Keys == b.Keys;
  }

  lemma SameLinesIsMutual(files: Files, other: Files)
    requires SameLines(files, other)
    ensures SameLines(other, files)
  {
  }

  /** Reordering or repeating lines, includes among them, never changes whether the load
      fails: not for broken or conflicting graphs either. */
  lemma OrderDoesNotMatter(files: Files, other: Files, root: Path)
    requires SameLines(files, other)
    ensures Faulty(files, root) <==> Faulty(other, root)
  {
    SameLinesIsMutual(files, other);
    if Faulty(files, root) {
      SameFaults(files, other, root);
    }
    if Faulty(other, root) {
      SameFaults(other, files, root);
    }
  }

  /** Nor does it change what the load returns. */
  lemma OrderKeepsTheResult(files: Files, other: Files, root: Path, a: map<Name, Reviewed>, b: map<Name, Reviewed>)
    requires SameLines(files, other) && CollectsReachable(files, root, a) && CollectsReachable(other, root, b)
    ensures a == b
  {
    SameLinesIsMutual(files, other);
    forall f ensures Reaches(files, root, f) <==> Reaches(other, root, f) {
      if Reaches(files, root, f) {
        SameReach(files, other, root, f);
      }
      if Reaches(other, root, f) {
        SameReach(other, files, root, f);
      }
    }
    forall name, pin ensures Maps(a, name, pin) <==> Maps(b, name, pin) {
      assert forall f :: Pinned(files, f, name, pin) <==> Pinned(other, f, name, pin);
    }
    SameMaps(a, b);
  }
}
