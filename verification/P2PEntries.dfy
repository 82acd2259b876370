/** The entries of one peer transfer (`openadb/core/acbridge_p2p.py`, `P2PEntry`). */
module P2PEntries {
  import opened Bytes

  /** `path` is the UTF-8 form of the relative path. */
  datatype P2PEntry = P2PEntry(path: seq<byte>, size: nat, isDirectory: bool)

  function FilesOf(entries: seq<P2PEntry>): (files: seq<P2PEntry>)
    ensures forall i :: 0 <= i < |files| ==> !files[i].isDirectory
  {
    if entries == [] then [] else
    var n := |entries| - 1;
    if entries[n].isDirectory then FilesOf(entries[..n]) else FilesOf(entries[..n]) + [entries[n]]
  }

  function DirectoriesOf(entries: seq<P2PEntry>): (directories: seq<P2PEntry>)
    ensures forall i :: 0 <= i < |directories| ==> directories[i].isDirectory
  {
    if entries == [] then [] else
    var n := |entries| - 1;
    if entries[n].isDirectory then DirectoriesOf(entries[..n]) + [entries[n]] else DirectoriesOf(entries[..n])
  }

  /** The bytes that the files among `entries` carry; directories carry none. */
  function FileBytes(entries: seq<P2PEntry>): nat {
    if entries == [] then 0 else
    var n := |entries| - 1;
    FileBytes(entries[..n]) + if entries[n].isDirectory then 0 else entries[n].size
  }

  lemma {:induction false} FileBytesConcat(a: seq<P2PEntry>, b: seq<P2PEntry>)
    ensures FileBytes(a + b) == FileBytes(a) + FileBytes(b)
  {
    if b == [] {
      assert a + b == a;
    } else {
      FileBytesConcat(a, b[..|b| - 1]);
      assert (a + b)[..|a + b| - 1] == a + b[..|b| - 1];
    }
  }

  lemma FileBytesAppend(a: seq<P2PEntry>, e: P2PEntry)
    ensures FileBytes(a + [e]) == FileBytes(a) + if e.isDirectory then 0 else e.size
  {
    assert (a + [e])[..|a|] == a;
  }

  /** Directories keep their order. */
  lemma {:induction false} DirectoriesConcat(a: seq<P2PEntry>, b: seq<P2PEntry>)
    ensures DirectoriesOf(a + b) == DirectoriesOf(a) + DirectoriesOf(b)
  {
    if b == [] {
      assert a + b == a;
    } else {
      DirectoriesConcat(a, b[..|b| - 1]);
      assert (a + b)[..|a + b| - 1] == a + b[..|b| - 1];
    }
  }

  /** Splitting entries by kind keeps each of them exactly as often as before. */
  lemma {:induction false} FilesCount(entries: seq<P2PEntry>, e: P2PEntry)
    ensures multiset(FilesOf(entries))[e] == if e.isDirectory then 0 else multiset(entries)[e]
    ensures multiset(DirectoriesOf(entries))[e] == if e.isDirectory then multiset(entries)[e] else 0
  {
    if entries != [] {
      var n := |entries| - 1;
      FilesCount(entries[..n], e);
      assert entries == entries[..n] + [entries[n]];
    }
  }
}
