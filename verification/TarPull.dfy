/** The fast TAR pull as a transaction over many files
    (`openadb/core/adb_transfer_strategy.py`, `_run_fast_tar_pull_with_progress`).

    Between any two operating-system calls another program may create, replace or delete
    every name the archive mentions; it never touches the random staging and backup names.
    A fingerprint check and the replace or unlink right behind it are one atomic step.
    Every call may fail, and cancellation may arrive at every check. */
module TarPull {
  import opened Bytes
  import opened Wrappers
  import opened LocalFiles

  datatype Member = DirectoryMember(target: Path) | FileMember(target: Path, data: seq<byte>)

  /** What the archive finally says about `t`: the last file member of that name. */
  function LastData(members: seq<Member>, t: Path): Option<seq<byte>> {
    if members == [] then None else
    var last := members[|members| - 1];
    if last.FileMember? && last.target == t then Some(last.data)
    else LastData(members[..|members| - 1], t)
  }

  ghost predicate StagedFiles(names: set<Path>, scratch: map<Name, Node>, pending: map<Path, nat>, staged: Files,
                              writing: set<Name>)
  {
    && (forall t :: t in pending <==> t in staged)
    && (forall t :: t in pending && t in staged ==>
         t in names && t.Child? && staged[t].File? && Get(scratch, Part(t, pending[t])) == Some(staged[t]))
    && (forall n :: n in writing ==> n.Part? && Get(pending, n.target) != Some(n.serial))
  }

  /** If nobody interferes, only the created directories are new among the ordinary paths. */
  ghost predicate StagedOnly(start: Files, files: Files, created: set<Path>) {
    && TreeShaped(start)
    && (forall d :: d in created ==> d !in start)
    && (forall p :: Get(files, p) == if p in created then Some(Dir) else Get(start, p))
  }

  /** No staging name is forgotten. */
  ghost predicate ScratchListed(scratch: map<Name, Node>, pending: map<Path, nat>, writing: set<Name>,
                                stuck: set<Name>) {
    forall n :: n in scratch ==> (n.Part? && Get(pending, n.target) == Some(n.serial)) || n in writing || n in stuck
  }

  /** The staging file that recording another one for `target` makes superfluous. */
  function Discarded(pending: map<Path, nat>, target: Path): set<Name> {
    if target in pending then {Part(target, pending[target])} else {}
  }

  lemma RecordedFiles(names: set<Path>, scratch: map<Name, Node>, pending: map<Path, nat>, staged: Files,
                      writing: set<Name>, target: Path, temp: Name)
    requires StagedFiles(names, scratch, pending, staged, writing) && target in names && target.Child?
    requires temp in writing && temp.Part? && temp.target == target && temp in scratch && scratch[temp].File?
    ensures StagedFiles(names, scratch, pending[target := temp.serial], staged[target := scratch[temp]],
      Discarded(pending, target))
  {
  }

  lemma RecordedScratch(scratch: map<Name, Node>, pending: map<Path, nat>, writing: set<Name>, stuck: set<Name>,
                        target: Path, temp: Name)
    requires writing == {temp} && temp.Part? && temp.target == target
    ensures ScratchListed(scratch, pending, writing, stuck)
        ==> ScratchListed(scratch, pending[target := temp.serial], Discarded(pending, target), stuck)
  {
  }

  // ---------------------------------------------------------------- commit: what holds

  ghost predicate CommitTables(pending: map<Path, nat>, staged: Files, committed: set<Path>,
                               prints: map<Path, Fingerprint>,
                               backups: map<Path, nat>, reserved: set<Name>)
  {
    && (forall t :: t in pending <==> t in staged)
    && (forall t :: t in staged ==> t.Child? && staged[t].File?)
    && (forall t :: t in committed ==> t in pending)
    && (forall t :: t in prints <==> t in committed)
    && (forall t :: t in prints && t in staged ==> Some(prints[t]) == FingerprintOf(Some(staged[t])))
    && (forall t :: t in backups ==> t in pending && Backup(t, backups[t]) in reserved)
    && (forall n :: n in reserved ==> n.Backup?)
  }

  /** The staging names hold what was staged until it is installed. */
  ghost predicate PartsWaiting(scratch: map<Name, Node>, pending: map<Path, nat>, staged: Files, committed: set<Path>) {
    forall t :: t in pending && t in staged && t !in committed ==> Get(scratch, Part(t, pending[t])) == Some(staged[t])
  }

  /** Every original that was moved aside was put back or still lies at its backup. */
  ghost predicate OriginalsSafe(scratch: map<Name, Node>, backups: map<Path, nat>, moved: Files, restored: set<Path>) {
    && (forall t :: t in moved ==>
         t in restored || (t in backups && Get(scratch, Backup(t, backups[t])) == Some(moved[t])))
    && (forall t :: t in backups ==> t in moved && t !in restored)
  }

  /** Whatever was overwritten or unlinked at a name of the archive was our own file. */
  ghost predicate NothingForeign(destroyed: seq<(Path, Node)>, staged: Files) {
    forall i :: 0 <= i < |destroyed| ==> Get(staged, destroyed[i].0) == Some(destroyed[i].1)
  }

  /** The history fits together, if nobody interferes. */
  ghost predicate History(start: Files, staged: Files, created: set<Path>, directories: set<Path>, installed: set<Path>,
                          committed: set<Path>, moved: Files, restored: set<Path>)
  {
    && TreeShaped(start)
    && (forall d :: d in directories ==> d in created)
    && (forall d :: d in created ==> d !in start)
    && (forall t :: t in installed ==>
        t in committed && t in staged && staged[t].File? && t !in directories && t !in restored)
    && (forall t :: t in moved ==> Get(start, t) == Some(moved[t]) && moved[t].File?)
    && (forall t :: t in installed && t in start ==> t in moved)
  }

  /** What stands at an ordinary path if nobody interferes. */
  ghost function Expected(start: Files, staged: Files, directories: set<Path>, installed: set<Path>,
                          moved: Files, restored: set<Path>, p: Path): Option<Node>
  {
    if p in installed then Get(staged, p)
    else if p in moved && p !in restored then None
    else if p in directories then Some(Dir)
    else Get(start, p)
  }

  ghost predicate Undisturbed(files: Files, start: Files, staged: Files, directories: set<Path>, installed: set<Path>,
                              moved: Files, restored: set<Path>)
  {
    forall p :: Get(files, p) == Expected(start, staged, directories, installed, moved, restored, p)
  }

  /** No staging or backup name is forgotten. */
  ghost predicate ScratchKnown(scratch: map<Name, Node>, pending: map<Path, nat>, reserved: set<Name>,
                               stuck: set<Name>) {
    forall n :: n in scratch ==> (n.Part? && Get(pending, n.target) == Some(n.serial)) || n in reserved || n in stuck
  }

  /** Paths that the archive does not mention, and that are no directory above it, are as they were. */
  ghost predicate SameOutside(files: Files, start: Files, names: set<Path>) {
    forall p :: p !in names ==> Get(files, p) == Get(start, p)
  }

  lemma OutsideStays(files: Files, start: Files, names: set<Path>, p: Path, node: Node)
    requires SameOutside(files, start, names) && p in names
    ensures SameOutside(files[p := node], start, names) && SameOutside(files - {p}, start, names)
  {
  }

  /** The names that stay behind.  If no undoing call fails, that is one empty file at most, the
      one whose close failed. */
  ghost predicate Explained(dependable: bool, works: bool, stuck: set<Name>, scratch: map<Name, Node>) {
    && (dependable && works ==> stuck == {})
    && (dependable ==> forall m, n :: m in stuck && n in stuck ==> m == n)
    && (dependable ==> forall n :: n in stuck && n in scratch ==> IsEmpty(scratch[n]))
  }

  predicate IsEmpty(node: Node) {
    node.File? && node.data == []
  }

  lemma ExplainedLess(dependable: bool, works: bool, stuck: set<Name>, scratch: map<Name, Node>, n: Name)
    requires Explained(dependable, works, stuck, scratch)
    ensures Explained(dependable, works, stuck, scratch - {n})
    ensures !dependable ==> Explained(dependable, works, stuck + {n}, scratch)
  {
  }

  lemma ExplainedMore(dependable: bool, works: bool, stuck: set<Name>, scratch: map<Name, Node>, n: Name, node: Node)
    requires dependable ==> stuck == {}
    ensures Explained(dependable, works, stuck, scratch[n := node])
    ensures IsEmpty(node) && !works ==> Explained(dependable, works, stuck + {n}, scratch[n := node])
  {
  }

  // ---------------------------------------------------------------- commit: each step keeps it

  lemma TakeAsideKeepsHistory(files: Files, start: Files, staged: Files, created: set<Path>, directories: set<Path>,
                              installed: set<Path>, committed: set<Path>, moved: Files, restored: set<Path>,
                                target: Path)
    requires History(start, staged, created, directories, installed, committed, moved, restored)
    requires Undisturbed(files, start, staged, directories, installed, moved, restored)
    requires target in files && files[target].File? && target !in moved && target !in committed && target !in restored
    ensures History(start, staged, created, directories, installed, committed, moved[target := files[target]], restored)
    ensures Undisturbed(files - {target}, start, staged, directories, installed, moved[target := files[target]],
      restored)
  {
    assert Get(files, target) == Expected(start, staged, directories, installed, moved, restored, target);
    forall p ensures Get(files - {target}, p)
      == Expected(start, staged, directories, installed, moved[target := files[target]], restored, p)
    {
      assert Get(files, p) == Expected(start, staged, directories, installed, moved, restored, p);
    }
  }

  lemma InstallKeepsHistory(files: Files, start: Files, staged: Files, created: set<Path>, directories: set<Path>,
                            installed: set<Path>, committed: set<Path>, moved: Files, restored: set<Path>, target: Path)
    requires History(start, staged, created, directories, installed, committed, moved, restored)
    requires Undisturbed(files, start, staged, directories, installed, moved, restored)
    requires target !in files && target in staged && staged[target].File? && target !in restored
    ensures History(start, staged, created, directories, installed + {target}, committed + {target}, moved, restored)
    ensures Undisturbed(files[target := staged[target]], start, staged, directories, installed + {target}, moved,
      restored)
  {
    assert Get(files, target) == Expected(start, staged, directories, installed, moved, restored, target);
    forall p ensures Get(files[target := staged[target]], p)
      == Expected(start, staged, directories, installed + {target}, moved, restored, p)
    {
      assert Get(files, p) == Expected(start, staged, directories, installed, moved, restored, p);
    }
  }

  lemma RestoreKeepsHistory(files: Files, start: Files, staged: Files, created: set<Path>, directories: set<Path>,
                            installed: set<Path>, committed: set<Path>, moved: Files, restored: set<Path>, target: Path)
    requires History(start, staged, created, directories, installed, committed, moved, restored)
    requires Undisturbed(files, start, staged, directories, installed, moved, restored)
    requires target in moved
    ensures History(start, staged, created, directories, installed - {target}, committed, moved, restored + {target})
    ensures Undisturbed(files[target := moved[target]], start, staged, directories, installed - {target}, moved,
      restored + {target})
  {
    forall p ensures Get(files[target := moved[target]], p)
      == Expected(start, staged, directories, installed - {target}, moved, restored + {target}, p)
    {
      assert Get(files, p) == Expected(start, staged, directories, installed, moved, restored, p);
    }
  }

  lemma RemoveKeepsHistory(files: Files, start: Files, staged: Files, created: set<Path>, directories: set<Path>,
                           installed: set<Path>, committed: set<Path>, moved: Files, restored: set<Path>, target: Path)
    requires History(start, staged, created, directories, installed, committed, moved, restored)
    requires Undisturbed(files, start, staged, directories, installed, moved, restored)
    requires target in committed && target !in moved && (target in files ==> files[target].File?)
    ensures History(start, staged, created, directories, installed - {target}, committed, moved, restored)
    ensures target in installed ==>
      Undisturbed(files - {target}, start, staged, directories, installed - {target}, moved, restored)
  {
    forall p | target in installed ensures Get(files - {target}, p)
      == Expected(start, staged, directories, installed - {target}, moved, restored, p)
    {
      assert Get(files, p) == Expected(start, staged, directories, installed, moved, restored, p);
    }
  }

  lemma ReserveKeeps(scratch: map<Name, Node>, pending: map<Path, nat>, staged: Files, committed: set<Path>,
                     prints: map<Path, Fingerprint>, backups: map<Path, nat>, reserved: set<Name>, moved: Files,
                     restored: set<Path>, backup: Name, node: Node)
    requires CommitTables(pending, staged, committed, prints, backups, reserved)
    requires backup.Backup? && backup !in reserved
    ensures CommitTables(pending, staged, committed, prints, backups, reserved + {backup})
    ensures PartsWaiting(scratch, pending, staged, committed) ==>
      PartsWaiting(scratch[backup := node], pending, staged, committed)
    ensures OriginalsSafe(scratch, backups, moved, restored) ==>
      OriginalsSafe(scratch[backup := node], backups, moved, restored)
  {
  }

  /** A new backup name is either reserved or left behind. */
  lemma ReserveIsKnown(scratch: map<Name, Node>, pending: map<Path, nat>, reserved: set<Name>, stuck: set<Name>,
                       backup: Name, node: Node)
    requires ScratchKnown(scratch, pending, reserved, stuck)
    ensures ScratchKnown(scratch[backup := node], pending, reserved + {backup}, stuck)
    ensures ScratchKnown(scratch[backup := node], pending, reserved, stuck + {backup})
  {
  }

  /** The original now lies at its backup. */
  lemma TakeAsideKeepsTables(scratch: map<Name, Node>, pending: map<Path, nat>, staged: Files, committed: set<Path>,
                             prints: map<Path, Fingerprint>, backups: map<Path, nat>, reserved: set<Name>, moved: Files,
                             restored: set<Path>, target: Path, serial: nat, node: Node)
    requires CommitTables(pending, staged, committed, prints, backups, reserved)
    requires PartsWaiting(scratch, pending, staged, committed) && OriginalsSafe(scratch, backups, moved, restored)
    requires target in pending && target !in moved && target !in restored && Backup(target, serial) in reserved
    ensures CommitTables(pending, staged, committed, prints, backups[target := serial], reserved)
    ensures PartsWaiting(scratch[Backup(target, serial) := node], pending, staged, committed)
    ensures OriginalsSafe(scratch[Backup(target, serial) := node], backups[target := serial], moved[target := node],
      restored)
  {
  }

  lemma InstallKeepsTables(scratch: map<Name, Node>, pending: map<Path, nat>, staged: Files, committed: set<Path>,
                           prints: map<Path, Fingerprint>, backups: map<Path, nat>, reserved: set<Name>, target: Path)
    requires CommitTables(pending, staged, committed, prints, backups, reserved)
    requires PartsWaiting(scratch, pending, staged, committed) && target in pending
    ensures target in staged && staged[target].File?
    ensures target !in committed ==> Get(scratch, Part(target, pending[target])) == Some(staged[target])
    ensures CommitTables(pending, staged, committed + {target},
                         prints[target := FingerprintOf(Some(staged[target])).value], backups, reserved)
    ensures PartsWaiting(scratch, pending, staged, committed + {target})
  {
  }

  lemma TidyKeeps(scratch: map<Name, Node>, pending: map<Path, nat>, staged: Files, committed: set<Path>,
                  backups: map<Path, nat>, moved: Files, restored: set<Path>, target: Path)
    requires PartsWaiting(scratch, pending, staged, committed) && OriginalsSafe(scratch, backups, moved, restored)
    requires target in pending && target in committed
    ensures PartsWaiting(scratch - {Part(target, pending[target])}, pending, staged, committed)
    ensures OriginalsSafe(scratch - {Part(target, pending[target])}, backups, moved, restored)
  {
  }

  lemma RestoreKeepsTables(scratch: map<Name, Node>, pending: map<Path, nat>, staged: Files, committed: set<Path>,
                           prints: map<Path, Fingerprint>, backups: map<Path, nat>, reserved: set<Name>, moved: Files,
                           restored: set<Path>, target: Path)
    requires CommitTables(pending, staged, committed, prints, backups, reserved)
    requires PartsWaiting(scratch, pending, staged, committed) && OriginalsSafe(scratch, backups, moved, restored)
    requires target in backups
    ensures var backup := Backup(target, backups[target]);
            && CommitTables(pending, staged, committed, prints, backups - {target}, reserved - {backup})
            && PartsWaiting(scratch - {backup}, pending, staged, committed)
            && OriginalsSafe(scratch - {backup}, backups - {target}, moved, restored + {target})
            && target in moved && backup in scratch && scratch[backup] == moved[target]
  {
  }

  lemma RestoreIsKnown(scratch: map<Name, Node>, pending: map<Path, nat>, reserved: set<Name>, stuck: set<Name>,
                       n: Name)
    requires ScratchKnown(scratch, pending, reserved, stuck)
    ensures ScratchKnown(scratch - {n}, pending, reserved - {n}, stuck)
    ensures ScratchKnown(scratch - {n}, pending, reserved, stuck)
    ensures ScratchKnown(scratch, pending, reserved, stuck + {n})
    ensures ScratchKnown(scratch, pending, reserved - {n}, stuck + {n})
  {
  }

  lemma OursGrows(destroyed: seq<(Path, Node)>, files: Files, staged: Files, prints: map<Path, Fingerprint>,
                  target: Path)
    requires NothingForeign(destroyed, staged) && Identified(files, staged)
    requires target in files && target in prints && target in staged
    requires Some(prints[target]) == FingerprintOf(Some(staged[target])) == FingerprintOf(Get(files, target))
    ensures NothingForeign(destroyed + [(target, files[target])], staged)
  {
  }

  /** What rollback leaves behind for `t`: nothing, or a path on which a call failed. */
  ghost predicate Settled(t: Path, installed: set<Path>, moved: Files, restored: set<Path>, backups: map<Path, nat>,
                          stuck: set<Name>, stuckPaths: set<Path>)
  {
    t in installed || (t in moved && t !in restored) ==>
      t in stuckPaths && (t in backups ==> Backup(t, backups[t]) in stuck)
  }

  /** Without interference whatever stands at a target that rollback visits is ours, and a
      target that it has nothing to do for needs nothing. */
  lemma QuietIsOurs(files: Files, start: Files, staged: Files, created: set<Path>, directories: set<Path>,
                    installed: set<Path>, committed: set<Path>, moved: Files, restored: set<Path>,
                    prints: map<Path, Fingerprint>,
                    scratch: map<Name, Node>, pending: map<Path, nat>, backups: map<Path, nat>, reserved: set<Name>,
                      target: Path)
    requires History(start, staged, created, directories, installed, committed, moved, restored)
    requires Undisturbed(files, start, staged, directories, installed, moved, restored)
    requires CommitTables(pending, staged, committed, prints, backups, reserved)
    requires OriginalsSafe(scratch, backups, moved, restored) && (target in committed ==> target in installed)
    ensures target in committed || target in backups ==>
      (target in files ==> target in prints && FingerprintOf(Get(files, target)) == Some(prints[target]))
    ensures target !in backups && (target !in committed || target !in files) ==>
      target !in installed && (target in moved ==> target in restored)
  {
    assert Get(files, target) == Expected(start, staged, directories, installed, moved, restored, target);
  }

  predicate HasChild(files: Files, scratch: map<Name, Node>, d: Path) {
    || (exists q :: q in files && q.Child? && q.parent == d)
    || (exists n :: n in scratch && n.target.Child? && n.target.parent == d)
  }

  // ---------------------------------------------------------------- what a failed call blocks

  /** A path on which a removing or restoring call failed, or a directory above such a path
      or above a staging or backup name that could not be removed. */
  ghost predicate Blocked(p: Path, stuck: set<Name>, stuckPaths: set<Path>) {
    || (exists q :: q in stuckPaths && Above(p, q))
    || (exists n :: n in stuck && Above(p, n.target))
  }

  lemma {:induction false} AboveParent(p: Path, q: Path)
    requires p.Child? && Above(p, q)
    ensures Above(p.parent, q)
  {
    if p != q {
      AboveParent(p, q.parent);
    }
  }

  lemma BlockedParent(p: Path, stuck: set<Name>, stuckPaths: set<Path>)
    requires p.Child? && Blocked(p, stuck, stuckPaths)
    ensures Blocked(p.parent, stuck, stuckPaths)
  {
    if q :| q in stuckPaths && Above(p, q) {
      AboveParent(p, q);
    } else {
      var n :| n in stuck && Above(p, n.target);
      AboveParent(p, n.target);
    }
  }

  lemma BlockedGrows(p: Path, stuck: set<Name>, stuckPaths: set<Path>, d: Path)
    requires Blocked(p, stuck, stuckPaths)
    ensures Blocked(p, stuck, stuckPaths + {d})
  {
    if q :| q in stuckPaths && Above(p, q) {
      assert q in stuckPaths + {d};
    }
  }

  lemma ForgetKeeps(scratch: map<Name, Node>, backups: map<Path, nat>, moved: Files, restored: set<Path>,
                    pending: map<Path, nat>, reserved: set<Name>, stuck: set<Name>, n: Name)
    ensures OriginalsSafe(scratch, backups, moved, restored) && (n.Backup? ==> Get(backups, n.target) != Some(n.serial))
      ==> OriginalsSafe(scratch - {n}, backups, moved, restored)
    ensures ScratchKnown(scratch, pending, reserved, stuck) ==>
      && ScratchKnown(scratch - {n}, pending, reserved - {n}, stuck)
      && ScratchKnown(scratch, pending, reserved - {n}, stuck + {n})
  {
  }

  lemma SettledStays(t: Path, installed: set<Path>, installed': set<Path>, moved: Files, restored: set<Path>,
                     restored': set<Path>,
                     backups: map<Path, nat>, backups': map<Path, nat>, stuck: set<Name>, stuck': set<Name>,
                     stuckPaths: set<Path>, stuckPaths': set<Path>)
    requires Settled(t, installed, moved, restored, backups, stuck, stuckPaths) && stuck <= stuck'
      && stuckPaths <= stuckPaths'
    requires (t in restored' <==> t in restored) && (t in installed' <==> t in installed)
      && Get(backups', t) == Get(backups, t)
    ensures Settled(t, installed', moved, restored', backups', stuck', stuckPaths')
  {
  }

  lemma SettledGrows(t: Path, installed: set<Path>, moved: Files, restored: set<Path>, backups: map<Path, nat>,
                     stuck: set<Name>, more: set<Name>, stuckPaths: set<Path>)
    requires Settled(t, installed, moved, restored, backups, stuck, stuckPaths) && stuck <= more
    ensures Settled(t, installed, moved, restored, backups, more, stuckPaths)
  {
  }

  /** A directory that cannot be removed although the call itself works is blocked. */
  lemma NonEmptyIsBlocked(files: Files, scratch: map<Name, Node>, start: Files, staged: Files, created: set<Path>,
                          directories: set<Path>, installed: set<Path>, committed: set<Path>, moved: Files,
                          restored: set<Path>, stuck: set<Name>, stuckPaths: set<Path>, d: Path)
    requires History(start, staged, created, directories, installed, committed, moved, restored)
    requires Undisturbed(files, start, staged, directories, installed, moved, restored)
    requires d in directories && d in created
    requires forall n :: n in scratch ==> n in stuck
    requires forall t :: t in installed || (t in moved && t !in restored) ==> t in stuckPaths
    requires forall e :: e in directories && Depth(e) > Depth(d) ==> Blocked(e, stuck, stuckPaths)
    requires HasChild(files, scratch, d)
    ensures Blocked(d, stuck, stuckPaths)
  {
    if n :| n in scratch && n.target.Child? && n.target.parent == d {
      AboveParent(n.target, n.target);
      assert n in stuck && Above(d, n.target);
    } else {
      var q :| q in files && q.Child? && q.parent == d;
      assert Get(files, q) == Expected(start, staged, directories, installed, moved, restored, q);
      if q in stuckPaths {
        AboveParent(q, q);
      } else {
        assert q in directories;
        BlockedParent(q, stuck, stuckPaths);
      }
    }
  }

  lemma RmdirKeepsHistory(files: Files, start: Files, staged: Files, created: set<Path>, directories: set<Path>,
                          installed: set<Path>, committed: set<Path>, moved: Files, restored: set<Path>, d: Path)
    requires History(start, staged, created, directories, installed, committed, moved, restored)
    requires Undisturbed(files, start, staged, directories, installed, moved, restored)
    requires Get(files, d) == Some(Dir) && d in created
    ensures History(start, staged, created, directories - {d}, installed, committed, moved, restored)
    ensures d in directories
    ensures Undisturbed(files - {d}, start, staged, directories - {d}, installed, moved, restored)
  {
    assert Get(files, d) == Expected(start, staged, directories, installed, moved, restored, d);
    forall p
      ensures Get(files - {d}, p) == Expected(start, staged, directories - {d}, installed, moved, restored, p)
    {
      assert Get(files, p) == Expected(start, staged, directories, installed, moved, restored, p);
    }
  }

  lemma {:induction false} DeepestExists(ds: set<Path>)
    requires ds != {}
    ensures exists d :: d in ds && forall e :: e in ds ==> Depth(e) <= Depth(d)
  {
    var x :| x in ds;
    if ds - {x} != {} {
      DeepestExists(ds - {x});
      var d :| d in ds - {x} && forall e :: e in ds - {x} ==> Depth(e) <= Depth(d);
      var best := if Depth(x) > Depth(d) then x else d;
      assert forall e :: e in ds ==> e == x || e in ds - {x};
      assert best in ds && forall e :: e in ds ==> Depth(e) <= Depth(best);
    } else {
      assert ds == {x};
    }
  }

  predicate NoFiles(members: seq<Member>) {
    forall m :: m in members ==> m.DirectoryMember?
  }

  /** What the archive promises for every ordinary path. */
  ghost predicate Delivered(files: Files, start: Files, created: set<Path>, members: seq<Member>) {
    && (forall t :: LastData(members, t).Some? ==>
         t in files && files[t].File? && Some(files[t].data) == LastData(members, t))
    && (forall p :: LastData(members, p).None? ==> Get(files, p) == if p in created then Some(Dir) else Get(start, p))
  }

  /** The staged files are the last members of their names. */
  ghost predicate StagedLast(staged: Files, members: seq<Member>) {
    forall t :: (t in staged <==> LastData(members, t).Some?)
      && (t in staged ==> staged[t].File? && Some(staged[t].data) == LastData(members, t))
  }

  lemma StagedLastGrows(before: Files, after: Files, members: seq<Member>, m: Member)
    requires StagedLast(before, members)
    requires m.FileMember? ==> m.target in after && after[m.target].File? && after[m.target].data == m.data
    requires forall t :: m.DirectoryMember? || t != m.target ==> Get(after, t) == Get(before, t)
    ensures StagedLast(after, members + [m])
  {
    assert (members + [m])[..|members + [m]| - 1] == members;
    forall t ensures (t in after <==> LastData(members + [m], t).Some?)
      && (t in after ==> after[t].File? && Some(after[t].data) == LastData(members + [m], t))
    {
      assert Get(after, t) == Get(before, t) || (m.FileMember? && t == m.target);
    }
  }

  /** Nothing but directories stands on the way to `directory`. */
  ghost predicate Passable(files: Files, directory: Path) {
    IsDir(files, Root) && forall d :: Above(d, directory) && d in files ==> IsDir(files, d)
  }

  /** Each path lies in the next one, the last one in `top`. */
  predicate Ascending(paths: seq<Path>, top: Path) {
    paths == [] ||
    var last := paths[|paths| - 1];
    last.Child? && last.parent == top && Ascending(paths[..|paths| - 1], last)
  }

  lemma {:induction false} AscendingAt(paths: seq<Path>, top: Path, i: nat)
    requires Ascending(paths, top) && i < |paths|
    ensures paths[i].Child? && paths[i].parent == if i + 1 < |paths| then paths[i + 1] else top
  {
    if i + 1 < |paths| {
      AscendingAt(paths[..|paths| - 1], paths[|paths| - 1], i);
    }
  }

  lemma AscendingMore(paths: seq<Path>, top: Path)
    requires Ascending(paths, top) && top.Child?
    ensures Ascending(paths + [top], top.parent)
  {
    assert (paths + [top])[..|paths|] == paths;
  }

  lemma PassableGrows(files: Files, directory: Path, d: Path)
    requires Passable(files, directory)
    ensures Passable(files[d := Dir], directory)
  {
  }

  /** The directory that a member needs. */
  function DirectoryOf(m: Member): Path {
    if m.FileMember? && m.target.Child? then m.target.parent else m.target
  }

  ghost predicate NeedsDirectory(destination: Path, members: seq<Member>, d: Path) {
    Above(d, destination) || exists m :: m in members && Above(d, DirectoryOf(m))
  }

  /** Nothing is in the way of the archive: no file where a directory is needed, no directory
      where a file is to go. */
  ghost predicate Smooth(start: Files, destination: Path, members: seq<Member>) {
    && IsDir(start, Root)
    && (forall d :: NeedsDirectory(destination, members, d) ==>
        LastData(members, d).None? && (d in start ==> IsDir(start, d)))
    && (forall t :: LastData(members, t).Some? ==> !IsDir(start, t))
  }

  ghost predicate KeepsDirectories(before: Files, after: Files) {
    forall p :: IsDir(before, p) ==> IsDir(after, p)
  }

  /** Every staged file has its directory. */
  ghost predicate Housed(files: Files, staged: Files) {
    forall t :: t in staged && t.Child? ==> IsDir(files, t.parent)
  }

  /** The directories that the archive's members go to were there or were created. */
  ghost predicate HasDirectories(start: Files, created: set<Path>, destination: Path, members: seq<Member>) {
    && IsOrWillBe(start, created, destination)
    && (forall m :: m in members ==> IsOrWillBe(start, created, DirectoryOf(m)))
  }

  ghost predicate IsOrWillBe(start: Files, created: set<Path>, d: Path) {
    d in created || Get(start, d) == Some(Dir)
  }

  lemma OneMoreDirectory(start: Files, before: set<Path>, created: set<Path>, destination: Path, members: seq<Member>,
                         i: nat)
    requires i < |members| && HasDirectories(start, before, destination, members[..i]) && before <= created
    requires IsOrWillBe(start, created, DirectoryOf(members[i]))
    ensures HasDirectories(start, created, destination, members[..i + 1])
  {
    assert members[..i + 1] == members[..i] + [members[i]];
  }

  ghost predicate AllNeeded(destination: Path, members: seq<Member>, created: set<Path>) {
    forall d :: d in created ==> NeedsDirectory(destination, members, d)
  }

  lemma HousedStays(before: Files, after: Files, staged: Files, staged': Files, target: Path)
    requires Housed(before, staged) && KeepsDirectories(before, after)
    requires forall t :: t != target ==> Get(staged', t) == Get(staged, t)
    requires target in staged' && target.Child? ==> target in staged || IsDir(after, target.parent)
    ensures Housed(after, staged')
  {
    forall t | t in staged' && t.Child? ensures IsDir(after, t.parent) {
      if t != target {
        assert Get(staged', t) == Get(staged, t);
      }
    }
  }

  /** Without interference a smooth start stays passable. */
  lemma SmoothIsPassable(start: Files, files: Files, created: set<Path>, destination: Path, members: seq<Member>,
                         directory: Path)
    requires Smooth(start, destination, members) && StagedOnly(start, files, created)
    requires forall d :: Above(d, directory) ==> NeedsDirectory(destination, members, d)
    ensures Passable(files, directory)
  {
    assert Get(files, Root) == if Root in created then Some(Dir) else Get(start, Root);
    forall d | Above(d, directory) && d in files ensures IsDir(files, d) {
      assert Get(files, d) == if d in created then Some(Dir) else Get(start, d);
    }
  }

  /** Every target can take a file. */
  ghost predicate Roomy(files: Files, targets: set<Path>) {
    forall t :: t in targets ==> t.Child? && !IsDir(files, t) && IsDir(files, t.parent)
  }

  lemma RoomyStays(before: Files, after: Files, targets: set<Path>, target: Path)
    requires Roomy(before, targets) && target in targets
    requires forall p :: p != target ==> Get(after, p) == Get(before, p)
    ensures Roomy(after, targets - {target})
  {
    forall t | t in targets - {target} ensures t.Child? && !IsDir(after, t) && IsDir(after, t.parent) {
      assert Get(after, t) == Get(before, t) && Get(after, t.parent) == Get(before, t.parent);
    }
  }

  /** After a smooth start and no interference the staged files all have room. */
  lemma StagedHaveRoom(start: Files, files: Files, created: set<Path>, staged: Files, targets: set<Path>,
                       destination: Path, members: seq<Member>)
    requires Smooth(start, destination, members) && StagedOnly(start, files, created)
      && AllNeeded(destination, members, created)
    requires Housed(files, staged) && StagedLast(staged, members)
    requires forall t :: t in targets ==> t in staged && t.Child?
    ensures Roomy(files, targets)
  {
    forall t | t in targets ensures !IsDir(files, t) {
      assert LastData(members, t).Some?;
      assert t !in created;
      assert Get(files, t) == Get(start, t);
    }
  }

  lemma MemberNeeds(destination: Path, members: seq<Member>, i: nat, d: Path)
    requires i < |members| && Above(d, DirectoryOf(members[i]))
    ensures NeedsDirectory(destination, members, d)
  {
  }

  /** Two files of one directory have different inodes. */
  predicate OtherInode(found: Option<Node>, node: Node) {
    found.Some? && found.value.File? && node.File? ==> found.value.inode != node.inode
  }

  /** The former node of `p` is safe at a backup name of it. */
  ghost predicate LiesAtBackup(scratch: map<Name, Node>, p: Path, node: Node) {
    exists serial: nat :: Get(scratch, Backup(p, serial)) == Some(node)
  }

  predicate IsLastOf(node: Node, members: seq<Member>, p: Path) {
    node.File? && Some(node.data) == LastData(members, p)
  }

  predicate IsBackupOf(n: Name, named: set<Path>) {
    n.Backup? && n.target in named
  }

  datatype CloseCall = CloseWorks | CloseFails | CloseVaries

  /** A serial number above all of those in use. */
  method LargerSerial(used: set<Name>, low: nat) returns (serial: nat)
    ensures serial >= low && forall n :: n in used ==> n.serial < serial
  {
    serial := low;
    var left := used;
    while left != {}
      invariant left <= used && serial >= low && forall n :: n in used && n !in left ==> n.serial < serial
    {
      var n :| n in left;
      if n.serial >= serial {
        serial := n.serial + 1;
      }
      left := left - {n};
    }
  }

  class Transaction {
    const names: set<Path>
    /** Nobody interferes; no call of the pull itself fails and nobody cancels; no call that
        removes, restores or looks at something while undoing fails. */
    const quiet: bool
    const calm: bool
    const dependable: bool
    /** What the close of a fresh temporary file's descriptor does. */
    const closeCall: CloseCall
    const windows: bool
    ghost const start: Files

    // The file system: ordinary paths, and the staging and backup names.
    var files: Files
    var scratch: map<Name, Node>
    var cancelled: bool

    // The tables of the transaction; a name is recorded by its serial number.
    var pending: map<Path, nat>
    var backups: map<Path, nat>
    var reserved: set<Name>
    var committed: set<Path>
    var prints: map<Path, Fingerprint>
    var created: set<Path>

    // The history that the guarantees speak of.
    var staged: Files
    ghost var moved: Files
    ghost var restored: set<Path>
    ghost var installed: set<Path>
    ghost var directories: set<Path>
    ghost var destroyed: seq<(Path, Node)>
    ghost var stuck: set<Name>       // names a removing call failed on
    ghost var stuckPaths: set<Path>  // paths a removing or restoring call failed on
    ghost var published: bool        // the originals are given up
    ghost var writing: set<Name>  // the staging file that is not recorded yet

    constructor (files: Files, names: set<Path>, quiet: bool, calm: bool, dependable: bool, closeCall: CloseCall,
                 windows: bool)
      requires TreeShaped(files) && PrefixClosed(names)
      ensures Fresh() && !cancelled
      ensures start == files && this.names == names && this.quiet == quiet && this.calm == calm
      ensures this.dependable == dependable && this.closeCall == closeCall
    {
      this.names, this.quiet, this.calm, this.windows := names, quiet, calm, windows;
      this.dependable, this.closeCall := dependable, closeCall;
      start, this.files, scratch, cancelled := files, files, map[], false;
      pending, backups, reserved := map[], map[], {};
      committed, prints, created := {}, map[], {};
      staged, moved, restored := map[], map[], {};
      installed, directories, destroyed, stuck, writing := {}, {}, [], {}, {};
      stuckPaths, published := {}, false;
    }

    /** No removing, restoring or looking call fails, and no close does. */
    predicate Sound() {
      dependable && closeCall.CloseWorks?
    }

    /** No close failed so far, and no undoing call unless these may. */
    ghost predicate Unscathed()
      reads this`stuck
    {
      dependable ==> stuck == {}
    }

    // ---------------------------------------------------------------- environment

    /** Another program runs: any number of changes to the names of the archive, except that
        a node it leaves there does not carry the fingerprint of a staged file unless it is
        that file. */
    method Interfere()
      modifies this`files
      ensures quiet ==> files == old(files)
      ensures old(Staging()) ==> Staging()
      ensures old(Committing()) ==> Committing()
      ensures old(Cleaning()) ==> Cleaning()
    {
      var changes := AnyNumber();
      for i := 0 to changes
        invariant Identified(old(files), staged) ==> Identified(files, staged)
        invariant SameOutside(old(files), start, names) ==> SameOutside(files, start, names)
        invariant quiet ==> files == old(files)
      {
        var p: Path := *;
        var removed: bool := *;
        var node: Node := *;
        if !quiet && p in names {
          if removed {
            files := files - {p};
          } else if p in staged && FingerprintOf(Some(node)) == FingerprintOf(Some(staged[p])) {
            files := files[p := staged[p]];
          } else {
            files := files[p := node];
          }
        }
      }
    }

    method AnyNumber() returns (n: nat)
    {
      var k: int := *;
      n := if k < 0 then 0 else k;
    }

    method IsCancelled() returns (yes: bool)
      modifies this`cancelled
      ensures yes == cancelled && (old(cancelled) ==> yes)
      ensures calm && !old(cancelled) ==> !yes
    {
      var now: bool := *;
      cancelled := cancelled || (now && !calm);
      yes := cancelled;
    }

    /** A call that may fail. */
    method Fails() returns (yes: bool)
      ensures calm ==> !yes
    {
      yes := *;
      yes := yes && !calm;
    }

    /** A call that undoes something and may fail. */
    method Unreliable() returns (yes: bool)
      ensures dependable ==> !yes
    {
      yes := *;
      yes := yes && !dependable;
    }

    /** `os.close` of a fresh temporary file's descriptor. */
    method Closes() returns (ok: bool)
      ensures closeCall.CloseWorks? ==> ok
      ensures closeCall.CloseFails? ==> !ok
    {
      ok := *;
      ok := if closeCall.CloseVaries? then ok else closeCall.CloseWorks?;
    }

    /** The random part of a new name; without failing calls it is one that is not in use. */
    method NewSerial(target: Path) returns (serial: nat)
      ensures calm ==>
        Part(target, serial) !in scratch && Backup(target, serial) !in scratch && Backup(target, serial) !in reserved
      ensures calm ==> Get(pending, target) != Some(serial)
    {
      serial := AnyNumber();
      if calm {
        var used := scratch.Keys + reserved;
        var low := if target in pending then pending[target] + 1 else 0;
        serial := LargerSerial(used, low);
      }
    }

    // ---------------------------------------------------------------- staging: invariant

    ghost predicate Staging()
      reads this`files, this`scratch, this`pending, this`staged, this`writing, this`created, this`stuck
    {
      && PrefixClosed(names) && created <= names && SameOutside(files, start, names)
      && Identified(files, staged)
      && StagedFiles(names, scratch, pending, staged, writing)
      && (quiet ==> StagedOnly(start, files, created))
      && ScratchListed(scratch, pending, writing, stuck)
      && Explained(dependable, closeCall.CloseWorks?, stuck, scratch)
    }

    // ---------------------------------------------------------------- directories

    /** `mkdir` of a name found missing; it may exist by now. */
    method MakeDirectory(d: Path) returns (ok: bool)
      requires Staging() && d in names
      modifies this`files, this`created
      ensures Staging() && old(created) <= created <= old(created) + {d}
      ensures ok ==> IsDir(files, d)
      ensures quiet && calm && d != Root && IsDir(old(files), d.parent) ==>
        (d in old(files) ==> IsDir(old(files), d)) ==> ok
      ensures quiet ==> files == old(files) || files == old(files)[d := Dir]
      ensures quiet ==> KeepsDirectories(old(files), files)
    {
      var fails := Fails();
      if d in files {
        Interfere();
        ok := IsDir(files, d);
      } else if fails || d == Root || !IsDir(files, d.parent) {
        ok := false;
      } else {
        assert quiet ==> Get(files, d) == None;
        OutsideStays(files, start, names, d, Dir);
        files := files[d := Dir];
        created := created + {d};
        ok := true;
      }
    }

    /** `ensure_directory`: create the missing ancestors, the outermost first. */
    method EnsureDirectory(directory: Path) returns (ok: bool)
      requires Staging() && PrefixClosed(names) && directory in names
      modifies this`files, this`created
      ensures Staging() && old(created) <= created && forall d :: d in created && d !in old(created) ==>
        Above(d, directory)
      ensures ok ==> IsDir(files, directory)
      ensures quiet && calm && Passable(old(files), directory) ==> ok
      ensures quiet ==> KeepsDirectories(old(files), files)
    {
      hide Staging, Committing, Cleaning;
      assert Above(directory, directory);
      var missing: seq<Path> := [];
      var candidate := directory;
      Interfere();
      while candidate !in files && candidate != Root
        invariant Staging() && candidate in names && created == old(created)
        invariant forall m :: m in missing ==> m in names
        invariant if missing == [] then candidate == directory else missing[0] == directory
        invariant Above(candidate, directory) && Ascending(missing, candidate)
        invariant forall m :: m in missing ==> Above(m, directory)
        invariant quiet ==> files == old(files)
        decreases Depth(candidate)
      {
        AboveParent(candidate, directory);
        AscendingMore(missing, candidate);
        missing := missing + [candidate];
        candidate := candidate.parent;
        Interfere();
      }
      if !IsDir(files, candidate) {
        return false;
      }
      for i := |missing| downto 0
        invariant Staging() && old(created) <= created
        invariant forall d :: d in created && d !in old(created) ==> Above(d, directory)
        invariant IsDir(files, if i == |missing| then candidate else missing[i])
        invariant quiet && Passable(old(files), directory) ==> Passable(files, directory)
        invariant quiet ==> KeepsDirectories(old(files), files)
      {
        Interfere();
        ghost var before := files;
        AscendingAt(missing, candidate, i);
        assert missing[i] in missing && Above(missing[i], directory);
        var made := MakeDirectory(missing[i]);
        if quiet && Passable(before, directory) {
          PassableGrows(before, directory, missing[i]);
        }
        if !made {
          return false;
        }
      }
      ok := true;
    }

    // ---------------------------------------------------------------- staging: one file

    ghost predicate Holds(n: Name, data: seq<byte>)
      reads this`scratch
    {
      n in scratch && scratch[n].File? && scratch[n].data == data
    }

    /** `mkstemp` in the directory of `target`.  If closing its descriptor fails, the new file
        is left behind and no table mentions it. */
    method BeginStaging(target: Path) returns (made: Option<Name>)
      requires Staging() && writing == {} && target.Child?
      requires Unscathed()
      modifies this`scratch, this`stuck, this`writing
      ensures Staging() && (made.None? ==> writing == {})
      ensures made.Some? ==>
        && writing == {made.value} && made.value.Part? && made.value.target == target && Holds(made.value, [])
      ensures calm && closeCall.CloseWorks? && IsDir(files, target.parent) ==> made.Some?
      ensures calm && made.Some? ==> OtherInode(Get(files, target), scratch[made.value])
      ensures closeCall.CloseFails? ==> made.None?
      ensures calm && closeCall.CloseFails? && IsDir(files, target.parent) ==> scratch != map[]
      ensures made.Some? ==> Unscathed()
    {
      var serial := NewSerial(target);
      var fails := Fails();
      var temp := Part(target, serial);
      if fails || !IsDir(files, target.parent) || temp in scratch || Get(pending, target) == Some(serial) {
        return None;
      }
      writing := {temp};
      var inode := AnyNumber();
      if calm && target in files && files[target].File? {
        inode := files[target].inode + 1;
      }
      WriteStaging(temp, inode, 0, []);
      var closes := Closes();
      if closes {
        made := Some(temp);
      } else {
        made := None;
        stuck := stuck + {temp};
        writing := {};
      }
    }

    method WriteStaging(temp: Name, inode: nat, version: nat, data: seq<byte>)
      requires Staging() && writing == {temp}
      requires Unscathed()
      modifies this`scratch
      ensures Staging() && Holds(temp, data) && scratch[temp].inode == inode
    {
      scratch := scratch[temp := File(inode, version, data)];
    }

    /** `remove_temp_file`, of the staging file that is not recorded; a failure is ignored. */
    method AbandonStaging(temp: Name)
      requires Staging() && temp in writing
      modifies this`scratch, this`stuck, this`writing
      ensures Staging() && writing == old(writing) - {temp}
      ensures forall n :: n != temp ==> Get(scratch, n) == Get(old(scratch), n)
      ensures dependable ==> stuck == old(stuck)
    {
      var fails := Unreliable();
      if fails {
        stuck := stuck + {temp};
      } else {
        scratch := scratch - {temp};
      }
      writing := writing - {temp};
    }

    /** Records the staging file; an earlier one for the same target is discarded. */
    method RecordStaging(target: Path, temp: Name)
      requires Staging() && writing == {temp} && temp in scratch && scratch[temp].File? && temp.Part?
        && temp.target == target
      requires target in names && target.Child?
      requires FingerprintOf(Get(files, target)) != FingerprintOf(Some(scratch[temp]))
      modifies this`scratch, this`stuck, this`writing, this`pending, this`staged
      ensures Staging() && writing == {}
      ensures staged == old(staged)[target := old(scratch)[temp]]
      ensures dependable ==> stuck == old(stuck)
    {
      hide StagedFiles, ScratchListed, Identified, StagedOnly;
      RecordedFiles(names, scratch, pending, staged, writing, target, temp);
      RecordedScratch(scratch, pending, writing, stuck, target, temp);
      IdentifiedUpdate(files, staged, target, scratch[temp]);
      var previous := Get(pending, target);
      writing := Discarded(pending, target);
      pending := pending[target := temp.serial];
      staged := staged[target := scratch[temp]];
      if previous.Some? {
        AbandonStaging(Part(target, previous.value));
      }
    }

    /** The chunks of one member, with a check for a cancel before each. */
    method WriteChunks(target: Path, temp: Name, data: seq<byte>) returns (ok: bool)
      requires Staging() && writing == {temp} && temp.Part? && temp.target == target && Holds(temp, [])
      requires Unscathed() && (calm ==> OtherInode(Get(files, target), scratch[temp]))
      modifies this`files, this`scratch, this`cancelled, this`stuck, this`writing
      ensures Staging() && (quiet ==> files == old(files))
      ensures ok ==> writing == {temp} && Holds(temp, data) && Unscathed()
      ensures !ok ==> writing == {}
      ensures quiet && calm && ok ==> OtherInode(Get(files, target), scratch[temp])
      ensures calm && !old(cancelled) ==> ok && !cancelled
      ensures old(cancelled) ==> !ok && cancelled
    {
      hide Staging, Committing, Cleaning;
      var written := 0;
      while true
        invariant 0 <= written <= |data|
        invariant Staging() && writing == {temp} && temp.Part? && temp.target == target && Holds(temp, data[..written])
        invariant Unscathed() && (old(cancelled) ==> cancelled)
        invariant quiet ==> files == old(files)
        invariant quiet && calm ==> OtherInode(Get(files, target), scratch[temp])
        invariant calm && !old(cancelled) ==> !cancelled
        decreases |data| - written
      {
        Interfere();
        var stop := IsCancelled();
        var fails := Fails();
        if stop || fails {
          AbandonStaging(temp);
          return false;
        }
        if written == |data| {
          break;
        }
        var chunk := AnyNumber();
        if chunk == 0 || chunk > |data| - written {
          chunk := |data| - written;
        }
        written := written + chunk;
        WriteStaging(temp, scratch[temp].inode, scratch[temp].version + 1, data[..written]);
      }
      assert data[..|data|] == data;
      ok := true;
    }

    /** One file member: a new staging file next to its target, filled chunk by chunk. */
    method StageFile(target: Path, data: seq<byte>) returns (ok: bool)
      requires Staging() && PrefixClosed(names) && writing == {} && target in names && target.Child?
      requires Unscathed()
      modifies this`files, this`scratch, this`created, this`cancelled, this`stuck
      modifies this`pending, this`staged, this`writing
      ensures Staging() && writing == {} && old(created) <= created
      ensures ok ==> target in staged && staged[target].File? && staged[target].data == data
      ensures forall t :: t != target || !ok ==> Get(staged, t) == Get(old(staged), t)
      ensures forall d :: d in created && d !in old(created) ==> Above(d, target.parent)
      ensures quiet && ok ==> IsDir(files, target.parent)
      ensures quiet && calm && closeCall.CloseWorks? && !old(cancelled) && Passable(old(files), target.parent) ==> ok
      ensures closeCall.CloseFails? ==> !ok && pending == old(pending)
      ensures quiet && calm && closeCall.CloseFails? && Passable(old(files), target.parent) ==> scratch != map[]
      ensures calm && !old(cancelled) ==> !cancelled
      ensures quiet ==> KeepsDirectories(old(files), files)
      ensures ok ==> Unscathed()
      ensures old(cancelled) ==> !ok && cancelled
    {
      hide Staging, Committing, Cleaning, Passable, Above;
      ok := EnsureDirectory(target.parent);
      if !ok {
        return;
      }
      Interfere();
      var made := BeginStaging(target);
      if made.None? {
        return false;
      }
      var temp := made.value;
      ok := WriteChunks(target, temp, data);
      if !ok {
        return;
      }
      var stamped := AnyNumber();
      WriteStaging(temp, scratch[temp].inode, stamped, data);
      Interfere();
      if FingerprintOf(Get(files, target)) == FingerprintOf(Some(scratch[temp])) {
        // Two files in one directory cannot carry the same inode.
        AbandonStaging(temp);
        return false;
      }
      RecordStaging(target, temp);
      ok := true;
    }

    // ---------------------------------------------------------------- commit: invariant

    ghost predicate Committing()
      reads this`files, this`scratch, this`pending, this`backups, this`reserved, this`committed, this`prints
      reads this`created, this`staged, this`moved, this`restored, this`installed, this`directories
      reads this`destroyed, this`stuck, this`stuckPaths
    {
      CommittingWith(files, scratch, backups, reserved, restored, installed)
    }

    /** The same for other values of the fields that putting an original back changes. */
    ghost predicate CommittingWith(files: Files, scratch: map<Name, Node>, backups: map<Path, nat>, reserved: set<Name>,
                                   restored: set<Path>, installed: set<Path>)
      reads this`pending, this`committed, this`prints, this`created, this`staged, this`moved, this`directories
      reads this`destroyed, this`stuck, this`stuckPaths
    {
      && SameOutside(files, start, names) && pending.Keys <= names && created <= names
      && Identified(files, staged) && Identified(moved, staged)
      && CommitTables(pending, staged, committed, prints, backups, reserved)
      && PartsWaiting(scratch, pending, staged, committed)
      && OriginalsSafe(scratch, backups, moved, restored)
      && NothingForeign(destroyed, staged)
      && (quiet ==>
           && History(start, staged, created, directories, installed, committed, moved, restored)
           && Undisturbed(files, start, staged, directories, installed, moved, restored))
      && ScratchKnown(scratch, pending, reserved, stuck)
      && Explained(dependable, closeCall.CloseWorks?, stuck, scratch)
      && (dependable ==> stuckPaths == {})
    }

    /** What is left to promise while the names are cleaned up. */
    ghost predicate Cleaning()
      reads this`files, this`scratch, this`pending, this`backups, this`reserved, this`committed, this`created,
        this`staged
      reads this`moved, this`restored, this`installed, this`directories, this`destroyed, this`stuck, this`stuckPaths
      reads this`published
    {
      && SameOutside(files, start, names) && created <= names
      && (published || OriginalsSafe(scratch, backups, moved, restored))
      && NothingForeign(destroyed, staged)
      && (quiet ==>
           && History(start, staged, created, directories, installed, committed, moved, restored)
           && Undisturbed(files, start, staged, directories, installed, moved, restored))
      && ScratchKnown(scratch, pending, reserved, stuck)
      && Explained(dependable, closeCall.CloseWorks?, stuck, scratch)
      && (dependable ==> stuckPaths == {})
    }

    // ---------------------------------------------------------------- commit: one target

    /** `reserve_backup_file`; if closing its descriptor fails, the empty file is left behind. */
    method ReserveBackup(target: Path) returns (reservation: Option<nat>)
      requires Committing() && target.Child?
      requires Unscathed()
      modifies this`scratch, this`reserved, this`stuck
      ensures Committing()
      ensures reservation.Some? ==> Backup(target, reservation.value) in reserved
      ensures calm && closeCall.CloseWorks? && IsDir(files, target.parent) ==> reservation.Some?
      ensures reservation.Some? ==> Unscathed()
    {
      hide Identified, CommitTables, PartsWaiting, OriginalsSafe, History, Undisturbed, NothingForeign, ScratchKnown,
        SameOutside, Explained;
      var serial := NewSerial(target);
      var fails := Fails();
      var backup := Backup(target, serial);
      if fails || !IsDir(files, target.parent) || backup in scratch || backup in reserved {
        return None;
      }
      var inode := AnyNumber();
      ReserveKeeps(scratch, pending, staged, committed, prints, backups, reserved, moved, restored, backup,
        File(inode, 0, []));
      ReserveIsKnown(scratch, pending, reserved, stuck, backup, File(inode, 0, []));
      ExplainedMore(dependable, closeCall.CloseWorks?, stuck, scratch, backup, File(inode, 0, []));
      scratch := scratch[backup := File(inode, 0, [])];
      var closes := Closes();
      if closes {
        reserved := reserved + {backup};
        reservation := Some(serial);
      } else {
        stuck := stuck + {backup};
        reservation := None;
      }
    }

    /** `os.replace(target, backup)`. */
    method TakeAside(target: Path, serial: nat) returns (ok: bool)
      requires Committing() && target in pending && target !in moved && target !in committed && target !in restored
      requires Backup(target, serial) in reserved
      requires Unscathed()
      modifies this`files, this`scratch, this`backups, this`moved
      ensures Committing() && (!ok ==> moved == old(moved))
      ensures ok ==> target in moved && moved == old(moved)[target := moved[target]]
      ensures files == if ok then old(files) - {target} else old(files)
      ensures calm && target in old(files) && old(files)[target].File? ==> ok
    {
      hide Identified, CommitTables, PartsWaiting, OriginalsSafe, History, Undisturbed, NothingForeign;
      var fails := Fails();
      if fails || target !in files || files[target].Dir? {
        return false;
      }
      var node := files[target];
      TakeAsideKeepsTables(scratch, pending, staged, committed, prints, backups, reserved, moved, restored, target,
        serial, node);
      IdentifiedMove(files, moved, staged, target);
      OutsideStays(files, start, names, target, node);
      if quiet {
        TakeAsideKeepsHistory(files, start, staged, created, directories, installed, committed, moved, restored,
          target);
      }
      scratch := scratch[Backup(target, serial) := node];
      files := files - {target};
      backups := backups[target := serial];
      moved := moved[target := node];
      ok := true;
    }

    /** `_install_local_staged_file` and the bookkeeping behind it: the target gets the staged
        file only if nothing stands there.  A staging name that cannot be unlinked now is
        tried again at the end. */
    method Install(target: Path) returns (ok: bool)
      requires Committing() && target in pending && target !in committed && target !in restored
      modifies this`files, this`scratch, this`committed, this`prints, this`installed
      ensures Committing() && (!ok ==> committed == old(committed) && installed == old(installed))
      ensures ok ==> committed == old(committed) + {target} && installed == old(installed) + {target}
      ensures ok ==> target in prints && FingerprintOf(Get(files, target)) == Some(prints[target])
      ensures quiet ==> forall p :: p != target ==> Get(files, p) == Get(old(files), p)
      ensures quiet && calm && target !in old(files) ==> ok
    {
      hide Committing, Staging, Cleaning;
      var part := Part(target, pending[target]);
      StagedIsWaiting(target);
      var expected := FingerprintOf(Get(scratch, part));
      var unreadable := Fails();
      if unreadable || expected.None? {
        return false;
      }
      Interfere();
      var fails := Fails();
      if fails && windows {
        Interfere();
        fails := Fails();
      }
      if fails || target in files {
        return false;
      }
      Link(target, expected.value);
      ok := true;
    }

    lemma StagedIsWaiting(target: Path)
      requires Committing() && target in pending && target !in committed
      ensures FingerprintOf(Get(scratch, Part(target, pending[target]))).Some?
    {
    }

    /** The link, and the bookkeeping behind it. */
    method Link(target: Path, mark: Fingerprint)
      requires Committing() && target in pending && target !in committed && target !in restored && target !in files
      requires FingerprintOf(Get(scratch, Part(target, pending[target]))) == Some(mark)
      modifies this`files, this`committed, this`prints, this`installed
      ensures Committing() && committed == old(committed) + {target} && installed == old(installed) + {target}
      ensures prints == old(prints)[target := mark] && FingerprintOf(Get(files, target)) == Some(mark)
      ensures forall p :: p != target ==> Get(files, p) == Get(old(files), p)
    {
      hide Identified, CommitTables, PartsWaiting, OriginalsSafe, History, Undisturbed, NothingForeign, ScratchKnown,
        SameOutside;
      var part := Part(target, pending[target]);
      InstallKeepsTables(scratch, pending, staged, committed, prints, backups, reserved, target);
      IdentifiedAdd(files, staged, target);
      OutsideStays(files, start, names, target, staged[target]);
      if quiet {
        InstallKeepsHistory(files, start, staged, created, directories, installed, committed, moved, restored, target);
      }
      files := files[target := scratch[part]];
      committed := committed + {target};
      prints := prints[target := mark];
      installed := installed + {target};
    }

    /** One turn of the commit loop. */
    method CommitOne(target: Path) returns (ok: bool)
      requires Committing() && target in pending && target.Child?
      requires target !in moved && target !in committed && target !in restored && target !in installed
      requires Unscathed()
      modifies this`files, this`scratch, this`cancelled, this`reserved, this`stuck, this`backups, this`moved
      modifies this`committed, this`prints, this`installed
      ensures Committing()
      ensures forall t :: t in moved ==> t in old(moved) || t == target
      ensures ok ==> committed == old(committed) + {target} && installed == old(installed) + {target}
      ensures ok ==> target in staged && Get(files, target) == Some(staged[target])
      ensures committed == old(committed) ==> installed == old(installed)
      ensures committed != old(committed) ==>
        committed == old(committed) + {target} && installed == old(installed) + {target}
      ensures calm && !old(cancelled) ==> !cancelled
      ensures quiet ==> forall p :: p != target ==> Get(files, p) == Get(old(files), p)
      ensures quiet && calm && closeCall.CloseWorks? && !old(cancelled) ==>
        !IsDir(old(files), target) && IsDir(old(files), target.parent) ==> ok
      ensures ok ==> Unscathed()
      ensures old(cancelled) ==> !ok && cancelled && files == old(files) && scratch == old(scratch)
      ensures old(cancelled) ==> committed == old(committed) && moved == old(moved) && backups == old(backups)
    {
      hide Committing, Staging, Cleaning, Get, FingerprintOf, IsDir, Sound;
      var stop := IsCancelled();
      if stop {
        return false;
      }
      ok := Place(target);
      if !ok {
        return;
      }
      Interfere();
      TidyStaging(target);
      Interfere();
      var unreadable := Fails();
      ok := !unreadable && FingerprintOf(Get(files, target)) == Some(prints[target]);
      OursIsStaged(target);
    }

    /** The original goes aside and the staged file takes its place. */
    method Place(target: Path) returns (ok: bool)
      requires Committing() && target in pending && target.Child?
      requires target !in moved && target !in committed && target !in restored && target !in installed
      requires Unscathed()
      modifies this`files, this`scratch, this`reserved, this`stuck, this`backups, this`moved
      modifies this`committed, this`prints, this`installed
      ensures Committing()
      ensures forall t :: t in moved ==> t in old(moved) || t == target
      ensures ok ==> committed == old(committed) + {target} && installed == old(installed) + {target}
      ensures ok ==> target in prints && FingerprintOf(Get(files, target)) == Some(prints[target])
      ensures !ok ==> committed == old(committed) && installed == old(installed)
      ensures quiet ==> forall p :: p != target ==> Get(files, p) == Get(old(files), p)
      ensures quiet && calm && closeCall.CloseWorks? ==>
        !IsDir(old(files), target) && IsDir(old(files), target.parent) ==> ok
      ensures ok ==> Unscathed()
    {
      hide Committing, Staging, Cleaning, Get, FingerprintOf, IsDir, Sound;
      ok := MakeRoom(target);
      if !ok {
        return;
      }
      Interfere();
      ok := Install(target);
    }

    /** A fingerprint that matches the recorded one belongs to the staged file. */
    lemma OursIsStaged(target: Path)
      requires Committing() && target in prints
      ensures FingerprintOf(Get(files, target)) == Some(prints[target]) ==>
        target in staged && Get(files, target) == Some(staged[target])
    {
    }

    /** Whatever file stands at the target goes to a reserved backup. */
    method MakeRoom(target: Path) returns (ok: bool)
      requires Committing() && target in pending && target.Child?
      requires target !in moved && target !in committed && target !in restored
      requires Unscathed()
      modifies this`files, this`scratch, this`reserved, this`stuck, this`backups, this`moved
      ensures Committing() && forall t :: t in moved ==> t in old(moved) || t == target
      ensures quiet ==> forall p :: p != target ==> Get(files, p) == Get(old(files), p)
      ensures quiet && ok ==> target !in files
      ensures quiet && calm && closeCall.CloseWorks? ==>
        !IsDir(old(files), target) && IsDir(old(files), target.parent) ==> ok
      ensures ok ==> Unscathed()
    {
      hide Committing, Staging, Cleaning;
      Interfere();
      if target !in files {
        return true;
      }
      if files[target].Dir? {
        return false;
      }
      Interfere();
      var reservation := ReserveBackup(target);
      if reservation.None? {
        return false;
      }
      Interfere();
      ok := TakeAside(target, reservation.value);
    }

    /** The unlink of the staging name right after the link: a failure is ignored. */
    method TidyStaging(target: Path)
      requires Committing() && target in committed && target in pending
      modifies this`scratch
      ensures Committing() && target in prints
    {
      hide Identified, OriginalsSafe, History, Undisturbed, NothingForeign, ScratchKnown, SameOutside;
      var part := Part(target, pending[target]);
      TidyKeeps(scratch, pending, staged, committed, backups, moved, restored, target);
      RestoreIsKnown(scratch, pending, reserved, stuck, part);
      var fails: bool := *;
      if !fails {
        scratch := scratch - {part};
      }
    }

    // ---------------------------------------------------------------- rollback: one target

    lemma QuietFacts(target: Path)
      requires Committing() && (target in committed ==> target in installed)
      ensures quiet && (target in committed || target in backups) && target in files ==>
        target in prints && FingerprintOf(Get(files, target)) == Some(prints[target])
      ensures quiet && target !in backups && (target !in committed || target !in files) ==>
        target !in installed && (target in moved ==> target in restored)
      ensures target in moved && target !in restored ==> target in backups
      ensures target in backups ==> target in moved
    {
      if quiet {
        QuietIsOurs(files, start, staged, created, directories, installed, committed, moved, restored, prints,
                    scratch, pending, backups, reserved, target);
      }
    }

    /** One turn of `rollback_replacements`; the result says whether a warning is given. */
    method PutBack(target: Path) returns (warning: bool)
      requires Committing() && target in pending && target !in restored && (target in committed ==> target in installed)
      modifies this`files, this`scratch, this`backups, this`reserved, this`restored, this`installed
      modifies this`destroyed, this`stuck, this`stuckPaths
      ensures Committing()
      ensures quiet ==> Settled(target, installed, moved, restored, backups, stuck, stuckPaths)
      ensures target in moved && target !in restored ==> warning
      ensures old(stuck) <= stuck && old(stuckPaths) <= stuckPaths
      ensures installed <= old(installed)
      ensures forall t :: t != target ==>
        (t in restored <==> t in old(restored)) && (t in installed <==> t in old(installed))
          && Get(backups, t) == Get(old(backups), t)
      ensures quiet && dependable ==> !warning
    {
      hide Committing, Staging, Cleaning;
      Interfere();
      warning := PutBackNow(target);
    }

    /** What stands at the target is the file that was committed there. */
    ghost predicate IsOurs(target: Path)
      reads this`files, this`prints
    {
      target in files && target in prints && FingerprintOf(Get(files, target)) == Some(prints[target])
    }

    /** The turn itself: at this target an absent or own file gives way to the original, or an
        own file goes; a foreign one stays, and every other path too. */
    method PutBackNow(target: Path) returns (warning: bool)
      requires Committing() && target in pending && target !in restored && (target in committed ==> target in installed)
      modifies this`files, this`scratch, this`backups, this`reserved, this`restored, this`installed
      modifies this`destroyed, this`stuck, this`stuckPaths
      ensures Committing()
      ensures quiet ==> Settled(target, installed, moved, restored, backups, stuck, stuckPaths)
      ensures target in moved && target !in restored ==> warning
      ensures target in old(files) && !old(IsOurs(target)) ==> files == old(files) && destroyed == old(destroyed)
      ensures target in old(backups) && !warning ==> target in moved && files == old(files)[target := moved[target]]
      ensures target !in old(backups) && target in committed && !warning ==> files == old(files) - {target}
      ensures warning || (target !in old(backups) && target !in committed) ==> files == old(files)
      ensures warning || target !in old(files) || (target !in old(backups) && target !in committed) ==>
        destroyed == old(destroyed)
      ensures !warning && target in old(files) && (target in old(backups) || target in committed) ==>
        destroyed == old(destroyed) + [(target, old(files)[target])]
      ensures old(stuck) <= stuck && old(stuckPaths) <= stuckPaths
      ensures installed <= old(installed)
      ensures forall t :: t != target ==>
        (t in restored <==> t in old(restored)) && (t in installed <==> t in old(installed))
          && Get(backups, t) == Get(old(backups), t)
      ensures dependable && (target !in old(files) || old(IsOurs(target))) ==> !warning
      ensures quiet && dependable ==> !warning
    {
      hide Committing, Staging, Cleaning;
      QuietFacts(target);
      var unreadable := Unreliable();
      var ours := !unreadable && target in files && target in prints
        && FingerprintOf(Get(files, target)) == Some(prints[target]);
      if target in backups {
        if target in files && !ours {
          if unreadable {
            NoteStuck(target);
          }
          return true;
        }
        warning := RestoreOriginal(target);
      } else if target in committed && target in files {
        if !ours {
          if unreadable {
            NoteStuckPath(target);
          }
          return true;
        }
        warning := RemoveOurs(target);
      } else {
        warning := false;
      }
    }

    ghost method NoteStuckPath(target: Path)
      requires Committing() && !dependable
      modifies this`stuckPaths
      ensures Committing() && stuckPaths == old(stuckPaths) + {target}
    {
      stuckPaths := stuckPaths + {target};
    }

    /** `os.replace(backup, target)`, when the target is absent or still ours. */
    method RestoreOriginal(target: Path) returns (warning: bool)
      requires Committing() && target in pending && target in backups
      requires target in files ==> target in prints && FingerprintOf(Get(files, target)) == Some(prints[target])
      modifies this`files, this`scratch, this`backups, this`reserved, this`restored, this`installed
      modifies this`destroyed, this`stuck, this`stuckPaths
      ensures Committing()
      ensures warning ==> target in stuckPaths && backups == old(backups) && Backup(target, backups[target]) in stuck
      ensures warning ==> restored == old(restored) && installed == old(installed)
      ensures !warning ==> restored == old(restored) + {target} && installed == old(installed) - {target}
      ensures !warning ==>
        target in moved && backups == old(backups) - {target} && files == old(files)[target := moved[target]]
      ensures old(stuck) <= stuck && old(stuckPaths) <= stuckPaths
      ensures warning ==> files == old(files) && destroyed == old(destroyed)
      ensures !warning ==>
        destroyed == old(destroyed) + if target in old(files) then [(target, old(files)[target])] else []
      ensures dependable ==> !warning
    {
      hide Committing;
      warning := Unreliable();
      if warning {
        NoteStuck(target);
      } else {
        NoteDestroyed(target);
        MoveBack(target);
      }
    }

    ghost method NoteStuck(target: Path)
      requires Committing() && target in backups && !dependable
      modifies this`stuck, this`stuckPaths
      ensures Committing() && stuck == old(stuck) + {Backup(target, backups[target])}
        && stuckPaths == old(stuckPaths) + {target}
    {
      hide Identified, CommitTables, PartsWaiting, OriginalsSafe, History, Undisturbed, NothingForeign, ScratchKnown,
        SameOutside;
      RestoreIsKnown(scratch, pending, reserved, stuck, Backup(target, backups[target]));
      stuck := stuck + {Backup(target, backups[target])};
      stuckPaths := stuckPaths + {target};
    }

    /** The node now at the target is about to go: it is ours. */
    ghost method NoteDestroyed(target: Path)
      requires Committing() && target in pending
      requires target in files ==> target in prints && FingerprintOf(Get(files, target)) == Some(prints[target])
      modifies this`destroyed
      ensures Committing() && destroyed == old(destroyed) + if target in files then [(target, files[target])] else []
    {
      hide Identified, PartsWaiting, OriginalsSafe, History, Undisturbed, NothingForeign, ScratchKnown, SameOutside;
      if target in files {
        OursGrows(destroyed, files, staged, prints, target);
        destroyed := destroyed + [(target, files[target])];
      }
    }

    lemma MovedBack(target: Path)
      requires Committing() && target in pending && target in backups
      ensures target in moved && Backup(target, backups[target]) in scratch
      ensures scratch[Backup(target, backups[target])] == moved[target]
      ensures var backup := Backup(target, backups[target]);
        CommittingWith(files[target := moved[target]], scratch - {backup}, backups - {target}, reserved - {backup},
          restored + {target}, installed - {target})
    {
      hide Sound, Identified, CommitTables, PartsWaiting, OriginalsSafe, History, Undisturbed, NothingForeign,
        ScratchKnown, SameOutside, Explained;
      RestoreKeepsTables(scratch, pending, staged, committed, prints, backups, reserved, moved, restored, target);
      IdentifiedBack(files, moved, staged, target);
      OutsideStays(files, start, names, target, moved[target]);
      RestoreIsKnown(scratch, pending, reserved, stuck, Backup(target, backups[target]));
      ExplainedLess(dependable, closeCall.CloseWorks?, stuck, scratch, Backup(target, backups[target]));
      if quiet {
        RestoreKeepsHistory(files, start, staged, created, directories, installed, committed, moved, restored, target);
      }
    }

    method MoveBack(target: Path)
      requires Committing() && target in pending && target in backups
      modifies this`files, this`scratch, this`backups, this`reserved, this`restored, this`installed
      ensures Committing()
      ensures restored == old(restored) + {target} && installed == old(installed) - {target}
      ensures target in moved && files == old(files)[target := moved[target]]
      ensures backups == old(backups) - {target}
    {
      hide CommittingWith;
      MovedBack(target);
      var backup := Backup(target, backups[target]);
      ghost var original := moved[target];
      assert scratch[backup] == original;
      files := files[target := scratch[backup]];
      scratch := scratch - {backup};
      backups := backups - {target};
      reserved := reserved - {backup};
      restored := restored + {target};
      installed := installed - {target};
    }

    /** `target.unlink()`, when the target is still ours. */
    method RemoveOurs(target: Path) returns (warning: bool)
      requires Committing() && target in pending && target in committed && target in files && target !in backups
      requires target !in restored && target in installed
      requires target in prints && FingerprintOf(Get(files, target)) == Some(prints[target])
      modifies this`files, this`installed, this`destroyed, this`stuckPaths
      ensures Committing()
      ensures warning ==> target in stuckPaths && installed == old(installed)
      ensures !warning ==> installed == old(installed) - {target} && files == old(files) - {target}
      ensures old(stuckPaths) <= stuckPaths && target !in moved
      ensures warning ==> files == old(files) && destroyed == old(destroyed)
      ensures !warning ==> destroyed == old(destroyed) + [(target, old(files)[target])]
      ensures dependable ==> !warning
    {
      hide Committing;
      OursHasNoOriginal(target);
      warning := Unreliable();
      if warning {
        NoteStuckPath(target);
      } else {
        NoteDestroyed(target);
        UnlinkOurs(target);
      }
    }

    lemma OursHasNoOriginal(target: Path)
      requires Committing() && target !in backups && target !in restored
      ensures target !in moved
    {
    }

    method UnlinkOurs(target: Path)
      requires Committing() && target in pending && target in committed && target in files && target !in moved
      requires target in installed
      requires FingerprintOf(Get(files, target)).Some?
      modifies this`files, this`installed
      ensures Committing() && installed == old(installed) - {target} && files == old(files) - {target}
    {
      hide Identified, CommitTables, PartsWaiting, OriginalsSafe, History, Undisturbed, NothingForeign, ScratchKnown,
        SameOutside;
      IdentifiedLess(files, staged, target);
      OutsideStays(files, start, names, target, Dir);
      if quiet {
        RemoveKeepsHistory(files, start, staged, created, directories, installed, committed, moved, restored, target);
      }
      files := files - {target};
      installed := installed - {target};
    }

    // ---------------------------------------------------------------- the loops

    /** The two commit loops and the final cancellation check. */
    method CommitAll() returns (ok: bool)
      requires Committing() && moved == map[] && committed == {} && installed == {} && restored == {}
      requires forall t :: t in pending ==> t.Child?
      requires Unscathed()
      modifies this`files, this`scratch, this`cancelled, this`reserved, this`stuck, this`backups, this`moved
      modifies this`committed, this`prints, this`installed
      ensures Committing() && committed == installed && moved.Keys <= pending.Keys
      ensures ok ==> committed == pending.Keys
      ensures quiet && calm && (closeCall.CloseWorks? || pending == map[]) && !old(cancelled) ==>
        Roomy(old(files), pending.Keys) ==> ok
      ensures pending == map[] ==> scratch == old(scratch) && reserved == old(reserved)
      ensures ok ==> Unscathed()
      ensures ok ==> !cancelled
      ensures old(cancelled) ==> !ok && cancelled && committed == {} && moved == map[] && scratch == old(scratch)
      ensures quiet && (exists t :: t in pending && IsDir(old(files), t)) ==>
        !ok && committed == {} && moved == map[] && files == old(files) && scratch == old(scratch)
    {
      hide Committing, Staging, Cleaning, Get;
      var remaining := pending.Keys;
      while remaining != {}
        invariant Committing() && remaining <= pending.Keys
        invariant quiet ==> files == old(files) && forall t :: t in pending && t !in remaining ==> !IsDir(files, t)
        modifies this`files
      {
        var target :| target in remaining;
        Interfere();
        if IsDir(files, target) {
          return false;
        }
        remaining := remaining - {target};
      }
      remaining := pending.Keys;
      while remaining != {}
        invariant Committing() && remaining <= pending.Keys
        invariant committed == installed == pending.Keys - remaining && Unscathed()
        invariant forall t :: t in moved ==> t in pending && t !in remaining
        invariant calm && !old(cancelled) ==> !cancelled
        invariant old(cancelled) ==> cancelled && committed == {} && moved == map[] && scratch == old(scratch)
        invariant old(cancelled) ==> remaining == pending.Keys
        invariant pending == map[] ==> scratch == old(scratch) && reserved == old(reserved)
        invariant quiet && Roomy(old(files), pending.Keys) ==> Roomy(files, remaining)
      {
        var target :| target in remaining;
        ghost var before := files;
        ok := CommitOne(target);
        if !ok {
          return;
        }
        if quiet && Roomy(before, remaining) {
          RoomyStays(before, files, remaining, target);
        }
        remaining := remaining - {target};
      }
      var stop := IsCancelled();
      ok := !stop;
    }

    /** `rollback_replacements`, in any order of the targets. */
    method RollBack() returns (warnings: set<Path>)
      requires Committing() && committed == installed && restored == {} && moved.Keys <= pending.Keys
      modifies this`files, this`scratch, this`backups, this`reserved, this`restored, this`installed
      modifies this`destroyed, this`stuck, this`stuckPaths
      ensures Committing()
      ensures quiet ==> forall t :: t in pending ==> Settled(t, installed, moved, restored, backups, stuck, stuckPaths)
      ensures forall t :: t in moved && t !in restored ==> t in warnings
      ensures installed <= old(installed)
      ensures warnings <= pending.Keys && (quiet && dependable ==> warnings == {})
    {
      hide Committing, Staging, Cleaning, Settled;
      warnings := {};
      var remaining := pending.Keys;
      while remaining != {}
        invariant Committing() && remaining <= pending.Keys && installed <= old(installed)
        invariant warnings <= pending.Keys && (quiet && dependable ==> warnings == {})
        invariant quiet ==> forall t :: t in pending && t !in remaining ==>
          Settled(t, installed, moved, restored, backups, stuck, stuckPaths)
        invariant forall t :: t in moved && t in pending && t !in remaining && t !in restored ==> t in warnings
        invariant forall t :: t in remaining ==> t !in restored && (t in committed ==> t in installed)
      {
        var target :| target in remaining;
        ghost var i0, r0, b0, s0, p0 := installed, restored, backups, stuck, stuckPaths;
        var warning := PutBack(target);
        forall t | quiet && t in pending && t !in remaining
          ensures Settled(t, installed, moved, restored, backups, stuck, stuckPaths)
        {
          SettledStays(t, i0, installed, moved, r0, restored, b0, backups, s0, stuck, p0, stuckPaths);
        }
        if warning {
          warnings := warnings + {target};
        }
        remaining := remaining - {target};
      }
    }

    // ---------------------------------------------------------------- clean-up

    /** `remove_temp_file` of a name that holds nothing anybody needs. */
    method Forget(n: Name)
      requires Cleaning() && (n.Part? || published || Get(backups, n.target) != Some(n.serial))
      modifies this`scratch, this`stuck, this`reserved
      ensures Cleaning() && reserved == old(reserved) - {n} && (n !in scratch || n in stuck)
      ensures old(stuck) <= stuck && scratch.Keys <= old(scratch).Keys
      ensures dependable ==> stuck == old(stuck)
    {
      hide OriginalsSafe, History, Undisturbed, NothingForeign, ScratchKnown, SameOutside;
      ForgetKeeps(scratch, backups, moved, restored, pending, reserved, stuck, n);
      var fails := Unreliable();
      if fails {
        stuck := stuck + {n};
      } else {
        scratch := scratch - {n};
      }
      reserved := reserved - {n};
    }

    /** `cleanup_unprotected_backups`. */
    method CleanupUnprotectedBackups()
      requires Cleaning() && (published ==> backups == map[])
      modifies this`scratch, this`stuck, this`reserved
      ensures Cleaning() && old(stuck) <= stuck && scratch.Keys <= old(scratch).Keys
      ensures forall n :: n in reserved ==> n.Backup? && Get(backups, n.target) == Some(n.serial)
      ensures old(reserved) == {} ==> scratch == old(scratch) && reserved == {}
      ensures dependable ==> stuck == old(stuck)
    {
      hide Cleaning;
      var unprotected := set n | n in reserved && !(n.Backup? && Get(backups, n.target) == Some(n.serial));
      while unprotected != {}
        invariant Cleaning() && old(stuck) <= stuck && scratch.Keys <= old(scratch).Keys
        invariant dependable ==> stuck == old(stuck)
        invariant old(reserved) == {} ==> unprotected == {} && scratch == old(scratch) && reserved == {}
        invariant forall n :: n in unprotected ==> !(n.Backup? && Get(backups, n.target) == Some(n.serial))
        invariant forall n :: n in reserved && n !in unprotected ==>
          n.Backup? && Get(backups, n.target) == Some(n.serial)
      {
        var n :| n in unprotected;
        Forget(n);
        unprotected := unprotected - {n};
      }
    }

    /** `cleanup_pending_files`. */
    method CleanupPendingFiles()
      requires Cleaning()
      modifies this`scratch, this`stuck, this`reserved
      ensures Cleaning() && old(stuck) <= stuck && scratch.Keys <= old(scratch).Keys && reserved <= old(reserved)
      ensures forall t :: t in pending ==> Part(t, pending[t]) !in scratch || Part(t, pending[t]) in stuck
      ensures pending == map[] ==> scratch == old(scratch)
      ensures dependable ==> stuck == old(stuck)
    {
      hide Cleaning;
      var remaining := pending.Keys;
      while remaining != {}
        invariant remaining <= pending.Keys && (pending == map[] ==> scratch == old(scratch))
        invariant Cleaning() && old(stuck) <= stuck && scratch.Keys <= old(scratch).Keys && reserved <= old(reserved)
        invariant dependable ==> stuck == old(stuck)
        invariant forall t :: t in pending && t !in remaining ==>
          Part(t, pending[t]) !in scratch || Part(t, pending[t]) in stuck
      {
        var t :| t in remaining;
        Forget(Part(t, pending[t]));
        remaining := remaining - {t};
      }
    }

    /** Everything that is still in the wrong place is there because a call failed. */
    ghost predicate Swept()
      reads this`scratch, this`installed, this`moved, this`restored, this`stuck, this`stuckPaths
    {
      && (forall n :: n in scratch ==> n in stuck)
      && (forall t :: t in installed || (t in moved && t !in restored) ==> t in stuckPaths)
    }

    /** One turn of `cleanup_created_directories`. */
    method RemoveDirectory(d: Path)
      requires Cleaning() && d in created && (quiet ==> Swept())
      requires quiet ==> forall e :: e in directories && Depth(e) > Depth(d) ==> Blocked(e, scratch.Keys, stuckPaths)
      modifies this`files, this`directories, this`stuckPaths
      ensures Cleaning() && (quiet ==> Swept()) && directories <= old(directories) && old(stuckPaths) <= stuckPaths
      ensures quiet ==> d !in directories || Blocked(d, scratch.Keys, stuckPaths)
      ensures forall e :: e != d ==> (e in directories <==> e in old(directories))
      ensures stuckPaths == old(stuckPaths) || stuckPaths == old(stuckPaths) + {d}
    {
      hide Cleaning, Staging, Committing, Swept, Blocked;
      Interfere();
      RemoveDirectoryNow(d);
    }

    /** `rmdir`: only an empty directory goes, whoever made it. */
    method RemoveDirectoryNow(d: Path)
      requires Cleaning() && d in created && (quiet ==> Swept())
      requires quiet ==> forall e :: e in directories && Depth(e) > Depth(d) ==> Blocked(e, scratch.Keys, stuckPaths)
      modifies this`files, this`directories, this`stuckPaths
      ensures Cleaning() && (quiet ==> Swept()) && directories <= old(directories) && old(stuckPaths) <= stuckPaths
      ensures quiet ==> d !in directories || Blocked(d, scratch.Keys, stuckPaths)
      ensures forall e :: e != d ==> (e in directories <==> e in old(directories))
      ensures stuckPaths == old(stuckPaths) || stuckPaths == old(stuckPaths) + {d}
      ensures files == old(files)
        || (IsDir(old(files), d) && !HasChild(old(files), scratch, d) && files == old(files) - {d})
    {
      hide OriginalsSafe, NothingForeign, ScratchKnown, SameOutside, Staging, Committing;
      var fails := Unreliable();
      if fails {
        stuckPaths := stuckPaths + {d};
        assert d in stuckPaths && Above(d, d);
      } else if IsDir(files, d) && !HasChild(files, scratch, d) {
        OutsideStays(files, start, names, d, Dir);
        if quiet {
          RmdirKeepsHistory(files, start, staged, created, directories, installed, committed, moved, restored, d);
        }
        files := files - {d};
        directories := directories - {d};
      } else if quiet && d in directories {
        assert Get(files, d) == Expected(start, staged, directories, installed, moved, restored, d);
        NonEmptyIsBlocked(files, scratch, start, staged, created, directories, installed, committed, moved, restored,
                          scratch.Keys, stuckPaths, d);
      }
    }

    /** `cleanup_created_directories`: the deepest first. */
    method CleanupCreatedDirectories()
      requires Cleaning() && (quiet ==> Swept())
      modifies this`files, this`directories, this`stuckPaths
      ensures Cleaning() && (quiet ==> Swept())
      ensures quiet ==> forall d :: d in directories ==> Blocked(d, scratch.Keys, stuckPaths)
    {
      assert quiet ==> forall d :: d in directories ==> d in created;
      hide Cleaning, Swept, Blocked;
      var remaining := created;
      while remaining != {}
        invariant Cleaning() && (quiet ==> Swept()) && remaining <= created
        invariant quiet ==> forall d :: d in directories && d !in remaining ==> Blocked(d, scratch.Keys, stuckPaths)
      {
        DeepestExists(remaining);
        var d :| d in remaining && forall e :: e in remaining ==> Depth(e) <= Depth(d);
        ghost var before, known := stuckPaths, directories;
        RemoveDirectory(d);
        forall e | quiet && e in directories && e !in remaining - {d} ensures Blocked(e, scratch.Keys, stuckPaths) {
          if e != d && stuckPaths != before {
            BlockedGrows(e, scratch.Keys, before, d);
          }
        }
        remaining := remaining - {d};
      }
    }

    // ---------------------------------------------------------------- the whole pull

    /** A transaction that has not begun. */
    ghost predicate Untouched()
      reads this`pending, this`backups, this`reserved, this`committed, this`prints, this`moved, this`restored
      reads this`installed, this`destroyed, this`stuckPaths, this`writing, this`published
    {
      && backups == map[] && reserved == {} && committed == {} && prints == map[] && moved == map[] && restored == {}
      && installed == {} && destroyed == [] && stuckPaths == {} && writing == {} && !published
    }

    ghost predicate Fresh()
      reads this
    {
      && Staging() && Untouched() && files == start && scratch == map[] && staged == map[] && created == {}
      && stuck == {}
    }

    ghost method BeginCommit()
      requires Staging() && Untouched()
      modifies this`directories
      ensures Committing() && directories == created
      ensures forall t :: t in pending ==> t.Child? && t in staged
      ensures forall t :: t in staged ==> t in pending
    {
      directories := created;
    }

    /** `output_writer`: every member in turn; the stream may break at any of them. */
    method StageAll(destination: Path, members: seq<Member>) returns (ok: bool)
      requires Staging() && Untouched() && staged == map[] && created == {} && destination in names
      requires forall m :: m in members ==> m.target in names && m.target.Child?
      requires Unscathed()
      modifies this`files, this`scratch, this`created, this`cancelled, this`stuck
      modifies this`pending, this`staged, this`writing
      ensures Staging() && Untouched()
      ensures ok ==> StagedLast(staged, members)
      ensures AllNeeded(destination, members, created)
      ensures quiet ==> Housed(files, staged)
      ensures quiet && calm && closeCall.CloseWorks? && !old(cancelled) && Smooth(start, destination, members) ==> ok
      ensures calm && !old(cancelled) ==> !cancelled
      ensures closeCall.CloseFails? ==>
        pending == map[] && (ok ==> NoFiles(members)) && (NoFiles(members) ==> scratch == old(scratch))
      ensures quiet && calm && closeCall.CloseFails? && !old(cancelled) && Smooth(start, destination, members) ==>
        if NoFiles(members) then ok else scratch != map[]
      ensures ok ==> Unscathed()
      ensures quiet && ok ==> HasDirectories(start, created, destination, members)
      ensures old(cancelled) ==> cancelled && (members != [] ==> !ok && pending == old(pending))
    {
      hide Staging, Committing, Cleaning, StagedLast, Smooth, Passable, Above, NeedsDirectory, Housed, KeepsDirectories,
        AllNeeded;
      NamesAreClosed();
      EverythingNeeded(destination, members, destination);
      PassableNow(destination, members, destination);
      ghost var before := files;
      ok := EnsureDirectory(destination);
      NewlyNeeded(destination, members, destination, {}, created);
      DirectoryKnown(destination);
      NothingStaged();
      NoneHoused();
      NothingPending();
      if !ok {
        return;
      }
      for i := 0 to |members|
        invariant Staging() && Untouched() && Unscathed() && StagedLast(staged, members[..i])
        invariant AllNeeded(destination, members, created)
        invariant quiet ==> Housed(files, staged)
        invariant calm && !old(cancelled) ==> !cancelled
        invariant quiet ==> HasDirectories(start, created, destination, members[..i])
        invariant old(cancelled) ==> cancelled && i == 0 && pending == old(pending)
        invariant closeCall.CloseFails? ==> pending == map[] && NoFiles(members[..i])
        invariant NoFiles(members[..i]) ==> scratch == old(scratch)
      {
        var stop := IsCancelled();
        var breaks := Fails();
        if stop || breaks {
          return false;
        }
        NoFilesSoFar(members, i);
        ok := StageMember(destination, members, i);
        if !ok {
          return;
        }
      }
      assert members[..|members|] == members;
    }

    /** One member of the archive. */
    method StageMember(destination: Path, members: seq<Member>, i: nat) returns (ok: bool)
      requires Staging() && Untouched() && PrefixClosed(names) && i < |members|
      requires members[i].target in names && members[i].target.Child?
      requires StagedLast(staged, members[..i]) && AllNeeded(destination, members, created)
        && (quiet ==> Housed(files, staged))
      requires Unscathed()
      requires quiet ==> HasDirectories(start, created, destination, members[..i])
      modifies this`files, this`scratch, this`created, this`cancelled, this`stuck
      modifies this`pending, this`staged, this`writing
      ensures Staging() && Untouched()
      ensures ok ==> StagedLast(staged, members[..i + 1])
      ensures AllNeeded(destination, members, created)
      ensures quiet ==> Housed(files, staged)
      ensures calm && !old(cancelled) ==> !cancelled
      ensures quiet && calm && !old(cancelled) && Smooth(start, destination, members) ==>
        ok || (!closeCall.CloseWorks? && members[i].FileMember?)
      ensures members[i].DirectoryMember? ==> scratch == old(scratch) && pending == old(pending)
      ensures closeCall.CloseFails? ==> pending == old(pending) && (ok ==> members[i].DirectoryMember?)
      ensures quiet && calm && closeCall.CloseFails? && members[i].FileMember? ==>
        Smooth(start, destination, members) ==> scratch != map[]
      ensures ok ==> Unscathed()
      ensures quiet && ok ==> HasDirectories(start, created, destination, members[..i + 1])
      ensures old(cancelled) ==> cancelled && (members[i].FileMember? ==> !ok)
    {
      hide Staging, Committing, Cleaning, StagedLast, Smooth, Passable, Above, NeedsDirectory, Housed, KeepsDirectories,
        AllNeeded;
      var m := members[i];
      ghost var files0, staged0, created0 := files, staged, created;
      AllMembersNeed(destination, members, i);
      PassableNow(destination, members, DirectoryOf(m));
      match m {
        case DirectoryMember(target) => ok := EnsureDirectory(target);
        case FileMember(target, data) => ok := StageFile(target, data);
      }
      NewlyNeeded(destination, members, DirectoryOf(m), created0, created);
      DirectoryKnown(DirectoryOf(m));
      if quiet && ok {
        OneMoreDirectory(start, created0, created, destination, members, i);
      }
      if quiet {
        assert !ok ==> Get(staged, m.target) == Get(staged0, m.target);
        HousedStays(files0, files, staged0, staged, m.target);
      }
      if ok {
        StagedLastGrows(staged0, staged, members[..i], m);
        assert members[..i + 1] == members[..i] + [m];
      }
    }

    lemma NamesAreClosed()
      requires Staging()
      ensures PrefixClosed(names)
    {
    }

    lemma DirectoryKnown(d: Path)
      requires Staging()
      ensures quiet && IsDir(files, d) ==> IsOrWillBe(start, created, d)
    {
    }

    lemma EverythingNeeded(destination: Path, members: seq<Member>, directory: Path)
      requires directory == destination
      ensures forall d :: Above(d, directory) ==> NeedsDirectory(destination, members, d)
    {
    }

    lemma AllMembersNeed(destination: Path, members: seq<Member>, i: nat)
      requires i < |members|
      ensures forall d :: Above(d, DirectoryOf(members[i])) ==> NeedsDirectory(destination, members, d)
    {
      forall d | Above(d, DirectoryOf(members[i])) ensures NeedsDirectory(destination, members, d) {
        MemberNeeds(destination, members, i, d);
      }
    }

    lemma PassableNow(destination: Path, members: seq<Member>, directory: Path)
      requires Staging() && forall d :: Above(d, directory) ==> NeedsDirectory(destination, members, d)
      ensures quiet && Smooth(start, destination, members) ==> Passable(files, directory)
    {
      if quiet && Smooth(start, destination, members) {
        SmoothIsPassable(start, files, created, destination, members, directory);
      }
    }

    lemma NewlyNeeded(destination: Path, members: seq<Member>, directory: Path, before: set<Path>, after: set<Path>)
      requires forall d :: Above(d, directory) ==> NeedsDirectory(destination, members, d)
      requires AllNeeded(destination, members, before) || before == {}
      requires forall d :: d in after && d !in before ==> Above(d, directory)
      ensures AllNeeded(destination, members, after)
    {
    }

    lemma NothingPending()
      requires Staging() && staged == map[]
      ensures pending == map[]
    {
    }

    lemma NoFilesSoFar(members: seq<Member>, i: nat)
      requires i < |members|
      ensures NoFiles(members[..i + 1]) <==> NoFiles(members[..i]) && members[i].DirectoryMember?
      ensures NoFiles(members) ==> NoFiles(members[..i]) && members[i].DirectoryMember?
    {
    }

    lemma NoneHoused()
      requires staged == map[]
      ensures Housed(files, staged)
    {
    }

    lemma NothingStaged()
      requires staged == map[]
      ensures StagedLast(staged, [])
    {
    }

    /** Success: the originals are no longer needed. */
    method Publish()
      requires Committing() && committed == installed == pending.Keys && moved.Keys <= pending.Keys
      modifies this`backups, this`published
      ensures Cleaning() && published && backups == map[]
    {
      backups := map[];
      published := true;
    }

    lemma CommitToClose()
      requires Committing()
      ensures Cleaning()
    {
    }

    lemma NowSwept(settledBy: set<Name>)
      requires Cleaning() && !published && moved.Keys <= pending.Keys && installed <= pending.Keys && settledBy <= stuck
      requires quiet ==> forall t :: t in pending ==>
        Settled(t, installed, moved, restored, backups, settledBy, stuckPaths)
      requires forall t :: t in pending ==> Part(t, pending[t]) !in scratch || Part(t, pending[t]) in stuck
      requires forall n :: n in reserved ==> n.Backup? && Get(backups, n.target) == Some(n.serial)
      ensures quiet ==> Swept()
      ensures OriginalsSafe(scratch, backups, moved, restored) && NothingForeign(destroyed, staged)
    {
      forall n | quiet && n in scratch && n in reserved ensures n in stuck {
        assert n.target in backups && n.target in moved && n.target !in restored;
        assert Settled(n.target, installed, moved, restored, backups, settledBy, stuckPaths);
      }
      forall t | quiet && (t in installed || (t in moved && t !in restored)) ensures t in stuckPaths {
        assert Settled(t, installed, moved, restored, backups, settledBy, stuckPaths);
      }
    }

    /** The archive is there, and nothing else is new but directories it needs; a temporary name
        is left only if a call failed on it. */
    ghost predicate Published(destination: Path, members: seq<Member>)
      reads this`files, this`scratch, this`created, this`stuck
    {
      && Delivered(files, start, created, members) && (forall d :: d in created ==> d !in start)
      && AllNeeded(destination, members, created)
      && IsDir(files, destination) && (forall m :: m in members ==> IsDir(files, DirectoryOf(m)))
      && (forall n :: n in scratch ==> n in stuck)
    }

    lemma PublishedState(destination: Path, members: seq<Member>)
      requires Cleaning() && StagedLast(staged, members) && installed == pending.Keys && moved.Keys <= pending.Keys
      requires directories == created && (forall t :: t in pending <==> t in staged)
      requires forall t :: t in pending ==> Part(t, pending[t]) !in scratch || Part(t, pending[t]) in stuck
      requires reserved == {} && Unscathed()
      requires AllNeeded(destination, members, created)
      requires quiet ==> HasDirectories(start, created, destination, members)
      ensures SameOutside(files, start, names) && NothingForeign(destroyed, staged)
      ensures dependable ==> scratch == map[]
      ensures quiet ==> Published(destination, members)
    {
      if quiet {
        forall p ensures p in staged ==> Get(files, p) == Some(staged[p])
          ensures p !in staged ==> Get(files, p) == if p in created then Some(Dir) else Get(start, p)
        {
          assert Get(files, p) == Expected(start, staged, directories, installed, moved, restored, p);
        }
        forall d | d in created || Get(start, d) == Some(Dir) ensures IsDir(files, d) {
          assert d in staged ==> d in installed;
        }
      }
    }

    /** What is different without interference is explained by a failed call; if no removing,
        restoring or looking call failed, and no close, nothing is different. */
    ghost predicate Undone()
      reads this`files, this`scratch, this`stuck, this`stuckPaths
    {
      && (forall p :: Get(files, p) != Get(start, p) ==> Blocked(p, scratch.Keys, stuckPaths))
      && (forall n :: n in scratch ==> n in stuck)
      && (Sound() ==> files == start && scratch == map[])
    }

    /** Whatever fails: every original is in its place or at a backup, and then named; what is new
        is a directory or a file of the archive. */
    ghost predicate Unharmed(members: seq<Member>, named: set<Path>)
      reads this`files, this`scratch
    {
      && (forall p :: p in start ==>
           Get(files, p) == Some(start[p]) || (p in named && LiesAtBackup(scratch, p, start[p])))
      && (forall p :: p in files && p !in start ==> IsDir(files, p) || IsLastOf(files[p], members, p))
    }

    /** As before, but for one empty file at most and new directories above it. */
    ghost predicate AlmostUndone()
      reads this`files, this`scratch
    {
      && (forall m, n :: m in scratch && n in scratch ==> m == n)
      && (forall n :: n in scratch ==> IsEmpty(scratch[n]))
      && (forall p :: Get(files, p) == Get(start, p)
                      || (p !in start && IsDir(files, p) && exists n :: n in scratch && Above(p, n.target)))
    }

    /** Under interference too: what remains are backups of named originals, and one empty file
        at most. */
    ghost predicate Remains(named: set<Path>)
      reads this`scratch
    {
      && (forall n :: n in scratch && !IsBackupOf(n, named) ==> IsEmpty(scratch[n]))
      && (forall m, n :: m in scratch && n in scratch && !IsBackupOf(m, named) && !IsBackupOf(n, named) ==> m == n)
    }

    lemma FailedState()
      requires Cleaning() && (quiet ==> Swept())
      requires quiet ==> forall d :: d in directories ==> Blocked(d, scratch.Keys, stuckPaths)
      ensures SameOutside(files, start, names)
      ensures quiet ==> Undone()
      ensures quiet && dependable ==> AlmostUndone()
    {
      forall p | quiet && Get(files, p) != Get(start, p)
        ensures Blocked(p, scratch.Keys, stuckPaths) && (dependable ==> p in directories)
      {
        assert Get(files, p) == Expected(start, staged, directories, installed, moved, restored, p);
        if p in stuckPaths {
          assert Above(p, p);
        }
      }
      if quiet && Sound() {
        NoStuckCallNoTrace();
      }
    }

    /** If no removing, restoring, looking or closing call failed, nothing at all is different. */
    lemma NoStuckCallNoTrace()
      requires Cleaning() && Sound() && forall n :: n in scratch ==> n in stuck
      requires forall p :: Get(files, p) != Get(start, p) ==> Blocked(p, scratch.Keys, stuckPaths)
      ensures files == start && scratch == map[]
    {
      forall p ensures Get(files, p) == Get(start, p) {
        assert !Blocked(p, scratch.Keys, stuckPaths);
      }
      forall p | p in files ensures p in start && files[p] == start[p] {
        assert Get(files, p) == Get(start, p);
      }
      forall p | p in start ensures p in files {
        assert Get(files, p) == Get(start, p);
      }
    }

    /** No original is lost, whatever failed. */
    lemma NothingLost(members: seq<Member>, named: set<Path>)
      requires Cleaning() && OriginalsSafe(scratch, backups, moved, restored)
      requires forall t :: t in moved && t !in restored ==> t in named
      requires installed != {} ==> StagedLast(staged, members)
      ensures quiet ==> Unharmed(members, named)
    {
      forall p | quiet
        ensures p in start ==> Get(files, p) == Some(start[p]) || (p in named && LiesAtBackup(scratch, p, start[p]))
        ensures p in files && p !in start ==> IsDir(files, p) || IsLastOf(files[p], members, p)
      {
        assert Get(files, p) == Expected(start, staged, directories, installed, moved, restored, p);
        if p in start && (p in installed || (p in moved && p !in restored)) {
          assert p in moved && p !in restored && Get(scratch, Backup(p, backups[p])) == Some(start[p]);
        }
      }
    }

    lemma LittleRemains(named: set<Path>)
      requires Cleaning() && OriginalsSafe(scratch, backups, moved, restored)
      requires forall t :: t in moved && t !in restored ==> t in named
      requires forall t :: t in pending ==> Part(t, pending[t]) !in scratch || Part(t, pending[t]) in stuck
      requires forall n :: n in reserved ==> n.Backup? && Get(backups, n.target) == Some(n.serial)
      ensures dependable ==> Remains(named)
    {
      forall n | n in scratch ensures n in stuck || IsBackupOf(n, named) {
        if n in reserved {
          assert n.target in backups;
        }
      }
    }

    lemma RoomNow(destination: Path, members: seq<Member>)
      requires Staging() && StagedLast(staged, members) && AllNeeded(destination, members, created)
      requires quiet ==> Housed(files, staged)
      ensures quiet && Smooth(start, destination, members) ==> Roomy(files, pending.Keys)
    {
      if quiet && Smooth(start, destination, members) {
        StagedHaveRoom(start, files, created, staged, pending.Keys, destination, members);
      }
    }

    /** The end of a successful pull. */
    method FinishPublished(destination: Path, members: seq<Member>)
      requires Committing() && committed == installed == pending.Keys && moved.Keys <= pending.Keys
      requires StagedLast(staged, members) && directories == created && (forall t :: t in pending <==> t in staged)
      requires Unscathed() && AllNeeded(destination, members, created)
      requires quiet ==> HasDirectories(start, created, destination, members)
      modifies this`backups, this`published, this`scratch, this`stuck, this`reserved
      ensures SameOutside(files, start, names) && NothingForeign(destroyed, staged)
      ensures dependable ==> scratch == map[]
      ensures quiet ==> Published(destination, members)
      ensures pending == map[] && old(reserved) == {} ==> scratch == old(scratch)
    {
      hide Committing, Cleaning, StagedLast, Delivered, NothingForeign, Published, AllNeeded, HasDirectories;
      Publish();
      CleanupUnprotectedBackups();
      CleanupPendingFiles();
      PublishedState(destination, members);
    }

    /** The end of a failed pull; `named` are the targets in its warnings. */
    method FinishFailed(ghost members: seq<Member>, ghost named: set<Path>)
      requires Cleaning() && !published && moved.Keys <= pending.Keys && installed <= pending.Keys
      requires quiet ==> forall t :: t in pending ==> Settled(t, installed, moved, restored, backups, stuck, stuckPaths)
      requires forall t :: t in moved && t !in restored ==> t in named
      requires installed != {} ==> StagedLast(staged, members)
      modifies this`files, this`directories, this`stuckPaths, this`scratch, this`stuck, this`reserved
      ensures SameOutside(files, start, names)
      ensures OriginalsSafe(scratch, backups, moved, restored) && NothingForeign(destroyed, staged)
      ensures dependable ==> Remains(named)
      ensures quiet ==> Undone() && Unharmed(members, named)
      ensures quiet && dependable ==> AlmostUndone()
      ensures pending == map[] && old(reserved) == {} ==> scratch == old(scratch)
    {
      hide Cleaning, Settled, OriginalsSafe, NothingForeign, Swept, Blocked, Undone, Unharmed, AlmostUndone, Remains,
        StagedLast;
      ghost var settledBy := stuck;
      CleanupPendingFiles();
      CleanupUnprotectedBackups();
      NowSwept(settledBy);
      CleanupCreatedDirectories();
      FailedState();
      NothingLost(members, named);
      LittleRemains(named);
    }

    lemma InstalledIsPending()
      requires Committing() && committed == installed
      ensures installed <= pending.Keys
    {
    }

    lemma AllSettledGrow(before: set<Name>)
      requires before <= stuck
      requires quiet ==> forall t :: t in pending ==>
        Settled(t, installed, moved, restored, backups, before, stuckPaths)
      ensures quiet ==> forall t :: t in pending ==> Settled(t, installed, moved, restored, backups, stuck, stuckPaths)
    {
      forall t | quiet && t in pending ensures Settled(t, installed, moved, restored, backups, stuck, stuckPaths) {
        SettledGrows(t, installed, moved, restored, backups, before, stuck, stuckPaths);
      }
    }

    /** The commit that failed is undone. */
    method UndoCommit(ghost members: seq<Member>) returns (warnings: set<Path>)
      requires Committing() && committed == installed && restored == {} && moved.Keys <= pending.Keys && !published
      requires StagedLast(staged, members)
      modifies this`files, this`scratch, this`backups, this`reserved, this`restored, this`installed
      modifies this`destroyed, this`stuck, this`stuckPaths, this`directories
      ensures SameOutside(files, start, names)
      ensures forall t :: t in moved && t !in restored ==> t in warnings
      ensures OriginalsSafe(scratch, backups, moved, restored) && NothingForeign(destroyed, staged)
      ensures dependable ==> Remains(warnings)
      ensures quiet ==> Undone() && Unharmed(members, warnings)
      ensures quiet && dependable ==> AlmostUndone()
      ensures warnings <= pending.Keys && (quiet && dependable ==> warnings == {})
    {
      hide Committing, Cleaning, OriginalsSafe, NothingForeign, Blocked, Settled, Get, Staging, Undone, Unharmed,
        AlmostUndone, Remains, StagedLast;
      InstalledIsPending();
      warnings := RollBack();
      CommitToClose();
      ghost var settledBy := stuck;
      CleanupUnprotectedBackups();
      AllSettledGrow(settledBy);
      FinishFailed(members, warnings);
    }

    /** The whole pull.
        Under any interference, failing calls and cancellation: paths that the archive does not
        mention are as before; after a failure every original that was moved aside is back or
        still at its backup, and a warning names it unless it is back; nothing but our own staged
        file was ever overwritten or unlinked at a name of the archive.  If no undoing call fails,
        no temporary name stays after success, and after a failure only backups of the named
        originals and perhaps the one empty file whose close failed.
        Without interference: success delivers the archive; after a failure every original is in
        its place or at a backup and named; if no undoing call fails, every path is as it was,
        but for directories above that one empty file.  If no call fails, nobody cancels and
        nothing is in the way, the pull succeeds.  `adbFails` is the exit of adb itself; after it, and
        after a cancel, no target is touched. */
    method Run(destination: Path, members: seq<Member>, adbFails: bool) returns (ok: bool, warnings: set<Path>)
      requires Fresh() && destination in names
      requires forall m :: m in members ==> m.target in names && m.target.Child?
      modifies this
      ensures SameOutside(files, start, names)
      ensures NothingForeign(destroyed, staged)
      ensures !ok ==> OriginalsSafe(scratch, backups, moved, restored)
      ensures !ok ==> forall t :: t in moved && t !in restored ==> t in warnings
      ensures dependable ==> if ok then scratch == map[] else Remains(warnings)
      ensures quiet ==> if ok then Published(destination, members) else Undone() && Unharmed(members, warnings)
      ensures quiet && dependable && !ok ==> AlmostUndone()
      ensures quiet && Sound() && !ok ==> files == start && scratch == map[]
      ensures quiet && calm && closeCall.CloseWorks? && !old(cancelled) && !adbFails ==>
        Smooth(start, destination, members) ==> ok
      ensures quiet && calm && closeCall.CloseFails? && !old(cancelled) && !adbFails ==>
        Smooth(start, destination, members) ==>
        (ok <==> NoFiles(members)) && (scratch == map[] <==> NoFiles(members))
      ensures ok ==> !cancelled
      ensures (ok ==> warnings == {}) && warnings <= pending.Keys && (quiet && dependable ==> warnings == {})
      ensures old(cancelled) || adbFails ==> !ok && committed == {} && moved == map[]
    {
      hide Staging, Committing, Cleaning, StagedLast, Delivered, Blocked, NothingForeign, OriginalsSafe, Smooth, Housed,
        AllNeeded, Roomy, Above, Get, Undone, Published, NoFiles, Unharmed, AlmostUndone, Remains, HasDirectories,
        SameOutside;
      warnings := {};
      ok := StageAll(destination, members);
      if ok {
        RoomNow(destination, members);
      }
      BeginCommit();
      var stop := IsCancelled();
      ok := ok && !adbFails && !stop;
      if ok {
        ok, warnings := CommitOrUndo(destination, members);
      } else {
        CommitToClose();
        FinishFailed(members, warnings);
      }
      WhatSoundMeans();
    }

    lemma WhatSoundMeans()
      ensures Sound() && Undone() ==> scratch == map[] && files == start
    {
    }

    /** The commit, and what follows it. */
    method CommitOrUndo(destination: Path, members: seq<Member>) returns (ok: bool, warnings: set<Path>)
      requires Committing() && Untouched() && StagedLast(staged, members) && directories == created
      requires (forall t :: t in pending ==> t.Child? && t in staged) && (forall t :: t in staged ==> t in pending)
      requires Unscathed() && AllNeeded(destination, members, created)
      requires quiet ==> HasDirectories(start, created, destination, members)
      modifies this
      ensures SameOutside(files, start, names)
      ensures NothingForeign(destroyed, staged)
      ensures !ok ==> OriginalsSafe(scratch, backups, moved, restored)
      ensures !ok ==> forall t :: t in moved && t !in restored ==> t in warnings
      ensures dependable ==> if ok then scratch == map[] else Remains(warnings)
      ensures quiet ==> if ok then Published(destination, members) else Undone() && Unharmed(members, warnings)
      ensures quiet && dependable && !ok ==> AlmostUndone()
      ensures quiet && calm && (closeCall.CloseWorks? || old(pending) == map[]) && !old(cancelled) ==>
        Roomy(old(files), old(pending).Keys) ==> ok
      ensures ok && old(pending) == map[] ==> scratch == old(scratch)
      ensures ok ==> !cancelled
      ensures warnings <= pending.Keys && (quiet && dependable ==> warnings == {}) && pending == old(pending)
      ensures ok ==> warnings == {}
    {
      hide Committing, Cleaning, StagedLast, Delivered, Blocked, NothingForeign, OriginalsSafe, Roomy, Get, Undone,
        Published, Unharmed, AlmostUndone, Remains, HasDirectories, AllNeeded, SameOutside;
      warnings := {};
      ok := CommitAll();
      if ok {
        FinishPublished(destination, members);
      } else {
        warnings := UndoCommit(members);
      }
    }
  }
}
