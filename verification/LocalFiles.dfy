/** The local file system as the TAR pull sees it: ordinary paths, and beside them the random
    staging and backup names that only this program knows. */
module LocalFiles {
  import opened Bytes
  import opened Wrappers

  datatype Path = Root | Child(parent: Path, name: string)

  /** A name that `mkstemp` made in the directory of `target`.  The serial number is the
      random part: no name is made twice, and no other program uses it. */
  datatype Name = Part(target: Path, serial: nat) | Backup(target: Path, serial: nat)

  /** A fingerprint (device, inode, size, modification time) is `inode` and `version`. */
  datatype Node = Dir | File(inode: nat, version: nat, data: seq<byte>)

  datatype Fingerprint = Fingerprint(inode: nat, version: nat)

  type Files = map<Path, Node>

  predicate IsDir(files: Files, p: Path) {
    Get(files, p) == Some(Dir)
  }

  function Depth(p: Path): nat {
    match p
    case Root => 0
    case Child(parent, _) => Depth(parent) + 1
  }

  /** `p` is `q` or one of the directories above it. */
  predicate Above(p: Path, q: Path) {
    p == q || (q.Child? && Above(p, q.parent))
  }

  /** `file_fingerprint`: None when there is no file. */
  function FingerprintOf(node: Option<Node>): Option<Fingerprint> {
    if node.Some? && node.value.File? then Some(Fingerprint(node.value.inode, node.value.version)) else None
  }

  /** A fingerprint tells files apart by inode and by version; directories and gaps have none. */
  lemma FingerprintTells(a: Option<Node>, b: Option<Node>)
    ensures FingerprintOf(a).Some? <==> a.Some? && a.value.File?
    ensures FingerprintOf(a).Some? && FingerprintOf(a) == FingerprintOf(b) ==>
      a.value.inode == b.value.inode && a.value.version == b.value.version
  {
  }

  /** Every path lies inside a directory. */
  ghost predicate TreeShaped(files: Files) {
    forall p: Path {:trigger p.parent} :: p in files && p.Child? ==> IsDir(files, p.parent)
  }

  ghost predicate PrefixClosed(names: set<Path>) {
    forall p {:trigger p.parent} :: p in names && p.Child? ==> p.parent in names
  }

  /** Of the nodes found at a target, only the staged one carries its fingerprint. */
  ghost predicate Identified(files: Files, staged: Files) {
    forall t :: t in staged && t in files && files[t].File? ==>
      FingerprintOf(Some(files[t])) == FingerprintOf(Some(staged[t])) ==> files[t] == staged[t]
  }

  lemma IdentifiedUpdate(files: Files, staged: Files, target: Path, node: Node)
    requires Identified(files, staged) && FingerprintOf(Get(files, target)) != FingerprintOf(Some(node))
    ensures Identified(files, staged[target := node])
  {
  }

  lemma IdentifiedMove(files: Files, moved: Files, staged: Files, target: Path)
    requires Identified(files, staged) && Identified(moved, staged) && target in files
    ensures Identified(files - {target}, staged) && Identified(moved[target := files[target]], staged)
  {
  }

  lemma IdentifiedAdd(files: Files, staged: Files, target: Path)
    requires Identified(files, staged) && target in staged
    ensures Identified(files[target := staged[target]], staged)
  {
  }

  lemma IdentifiedBack(files: Files, moved: Files, staged: Files, target: Path)
    requires Identified(files, staged) && Identified(moved, staged) && target in moved
    ensures Identified(files[target := moved[target]], staged)
  {
  }

  lemma IdentifiedLess(files: Files, staged: Files, target: Path)
    requires Identified(files, staged)
    ensures Identified(files - {target}, staged)
  {
  }
}
