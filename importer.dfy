/**
  Building the tree from archive entries (main.py, VFS.load_from_zip,
  lines 62-85): each entry's name is cut into parts, missing directories
  on the way are created, and the last part becomes a file with the
  entry's bytes or, for a directory entry, a directory.
*/
module Importer {

  import opened Wrappers
  import opened Paths
  import opened Tree

  /** One archive entry: its name, and the bytes that reading it gives,
      or None when reading them fails. The bytes of a directory entry are
      never read. */
  datatype Member = Member(name: string, data: Option<seq<bv8>>)

  /** `info.is_dir()`: an archive entry names a directory when its name ends with "/". */
  predicate IsDirName(name: string)
    ensures IsDirName(name) <==> RStrip(name) != name
  {
    |name| > 0 && name[|name| - 1] == '/'
  }

  /** `info.filename.rstrip("/").split("/")` (main.py:63-64). */
  function Parts(name: string): (r: seq<string>)
    ensures |r| > 0
  {
    Split(RStrip(name))
  }

  /** A file entry whose bytes cannot be read: the read raises, and the
      import stops there (main.py:70, 86-88). */
  predicate ReadFails(m: Member)
  {
    !IsDirName(m.name) && m.data.None?
  }

  /** Every part before the last that already exists names a directory:
      the walk never descends into a file. */
  predicate NoFileOnWay(n: Node, parts: seq<string>)
    decreases |parts|
  {
    |parts| <= 1 ||
    (n.Dir? &&
     match Get(n.children, parts[0])
     case None => true
     case Some(c) => c.Dir? && NoFileOnWay(c, parts[1..]))
  }

  /** The directory `n` after one entry with the given parts: every part
      but the last is a directory, created with 0o755 when missing and
      kept as is when present; the last part becomes a file with 0o644 and
      the bytes read (replacing whatever had that name), or, for a
      directory entry, a new directory when missing. When the bytes of a
      file cannot be read, the directories on the way are still created. */
  function AddEntry(n: Node, parts: seq<string>, isDir: bool, data: Option<seq<bv8>>): (r: Node)
    requires n.Dir? && |parts| > 0 && NoFileOnWay(n, parts)
    ensures r.Dir? && r.perm == n.perm
    decreases |parts|
  {
    var name := parts[0];
    var existing := Get(n.children, name);
    if |parts| == 1 then
      if !isDir then
        match data
        case None => n
        case Some(bytes) => Dir(Put(n.children, name, File(bytes, Some(FilePerm))), n.perm)
      else if existing.None? then Dir(Put(n.children, name, NewDir()), n.perm)
      else n
    else
      var c := if existing.None? then NewDir() else existing.value;
      Dir(Put(n.children, name, AddEntry(c, parts[1..], isDir, data)), n.perm)
  }

  /** One entry of the archive, applied to the root: afterwards a readable
      file is at its path with 0o644 and its bytes, and a directory entry's
      path exists. */
  function AddMember(n: Node, m: Member): (r: Node)
    requires n.Dir? && NoFileOnWay(n, Parts(m.name))
    ensures r.Dir?
    ensures !IsDirName(m.name) && m.data.Some? ==>
              Walk(r, Parts(m.name)) == Some(File(m.data.value, Some(FilePerm)))
    ensures IsDirName(m.name) ==> Walk(r, Parts(m.name)).Some?
  {
    AddEntryTarget(n, Parts(m.name), IsDirName(m.name), m.data);
    AddEntry(n, Parts(m.name), IsDirName(m.name), m.data)
  }

  /** The entries can be imported in order without descending into a file. */
  predicate Loadable(n: Node, ms: seq<Member>)
    requires n.Dir?
    decreases |ms|
  {
    ms == [] ||
    (NoFileOnWay(n, Parts(ms[0].name)) &&
     (ReadFails(ms[0]) || Loadable(AddMember(n, ms[0]), ms[1..])))
  }

  /** The loop over the archive's entries: the tree after each entry in
      turn, and whether all were read. The first entry that cannot be read
      ends the import; what was built until then stays. */
  function ImportAll(n: Node, ms: seq<Member>): (r: (Node, bool))
    requires n.Dir? && Loadable(n, ms)
    ensures r.0.Dir?
    decreases |ms|
  {
    if ms == [] then (n, true)
    else
      var n' := AddMember(n, ms[0]);
      if ReadFails(ms[0]) then (n', false) else ImportAll(n', ms[1..])
  }

  // ---------------------------------------------------------------------
  // What one entry does
  // ---------------------------------------------------------------------

  /** The node at the entry's path: a file entry puts a file with 0o644 and
      exactly the bytes read; a directory entry puts a new directory with
      0o755 where nothing was, and keeps what was there, children included;
      a file that cannot be read leaves the node there as it was. */
  lemma {:induction false} AddEntryTarget(n: Node, parts: seq<string>, isDir: bool, data: Option<seq<bv8>>)
    requires n.Dir? && |parts| > 0 && NoFileOnWay(n, parts)
    ensures var r := AddEntry(n, parts, isDir, data);
            Walk(r, parts) ==
              if !isDir && data.Some? then Some(File(data.value, Some(FilePerm)))
              else if !isDir then Walk(n, parts)
              else if Walk(n, parts).None? then Some(NewDir())
              else Walk(n, parts)
    decreases |parts|
  {
    var r := AddEntry(n, parts, isDir, data);
    var existing := Get(n.children, parts[0]);
    WalkCons(n, parts[0], parts[1..]);
    WalkCons(r, parts[0], parts[1..]);
    assert parts == [parts[0]] + parts[1..];
    if |parts| > 1 {
      var c := if existing.None? then NewDir() else existing.value;
      AddEntryTarget(c, parts[1..], isDir, data);
      if existing.None? {
        assert Walk(NewDir(), parts[1..]) == None;
      }
    }
  }

  /** One level down: below the entry's first part, the tree after the
      entry is the child (or a new directory) after the rest of it. */
  lemma AddEntryDescend(n: Node, parts: seq<string>, isDir: bool, data: Option<seq<bv8>>, rest: seq<string>)
    requires n.Dir? && |parts| > 1 && NoFileOnWay(n, parts)
    ensures var existing := Get(n.children, parts[0]);
            var c := if existing.None? then NewDir() else existing.value;
            c.Dir? && NoFileOnWay(c, parts[1..]) &&
            Walk(AddEntry(n, parts, isDir, data), [parts[0]] + rest) == Walk(AddEntry(c, parts[1..], isDir, data), rest) &&
            Walk(n, [parts[0]] + rest) == if existing.None? then None else Walk(c, rest)
  {
    var existing := Get(n.children, parts[0]);
    var c := if existing.None? then NewDir() else existing.value;
    var r := AddEntry(n, parts, isDir, data);
    assert Get(r.children, parts[0]) == Some(AddEntry(c, parts[1..], isDir, data));
    WalkCons(r, parts[0], rest);
    WalkCons(n, parts[0], rest);
  }

  /** Every proper prefix of the entry's path is a directory afterwards,
      with the permissions it had, or 0o755 when it was created. */
  lemma {:induction false} AddEntryPrefixes(n: Node, parts: seq<string>, isDir: bool, data: Option<seq<bv8>>, k: nat)
    requires n.Dir? && |parts| > 0 && NoFileOnWay(n, parts) && k < |parts|
    ensures var r := AddEntry(n, parts, isDir, data);
            var w := Walk(n, parts[..k]);
            Walk(r, parts[..k]).Some? && Walk(r, parts[..k]).value.Dir? &&
            Walk(r, parts[..k]).value.perm == if w.Some? then w.value.perm else Some(DirPerm)
    decreases |parts|
  {
    if k == 0 {
      assert parts[..k] == [];
    } else {
      var existing := Get(n.children, parts[0]);
      var c := if existing.None? then NewDir() else existing.value;
      var rest := parts[1..][..k - 1];
      assert parts[..k] == [parts[0]] + rest;
      AddEntryDescend(n, parts, isDir, data, rest);
      AddEntryPrefixes(c, parts[1..], isDir, data, k - 1);
      if existing.None? && k > 1 {
        assert Walk(NewDir(), rest) == None;
      }
    }
  }

  /** `a` and `b` part ways: at some position both have, they differ. */
  predicate Diverge(a: seq<string>, b: seq<string>)
  {
    exists k :: 0 <= k < |a| && k < |b| && a[k] != b[k]
  }

  /** Paths that part ways with the entry's path are untouched. */
  lemma {:induction false} AddEntryElsewhere(n: Node, parts: seq<string>, isDir: bool, data: Option<seq<bv8>>, q: seq<string>)
    requires n.Dir? && |parts| > 0 && NoFileOnWay(n, parts) && Diverge(parts, q)
    ensures Walk(AddEntry(n, parts, isDir, data), q) == Walk(n, q)
    decreases |parts|
  {
    var r := AddEntry(n, parts, isDir, data);
    var k :| 0 <= k < |parts| && k < |q| && parts[k] != q[k];
    WalkCons(n, q[0], q[1..]);
    WalkCons(r, q[0], q[1..]);
    assert q == [q[0]] + q[1..];
    if q[0] == parts[0] {
      assert k > 0 && |parts| > 1;
      var existing := Get(n.children, parts[0]);
      var c := if existing.None? then NewDir() else existing.value;
      assert parts[1..][k - 1] != q[1..][k - 1];
      AddEntryElsewhere(c, parts[1..], isDir, data, q[1..]);
      if existing.None? {
        assert Walk(NewDir(), q[1..]) == None;
      }
    }
  }

  /** Importing keeps names unique in every directory. */
  lemma {:induction false} AddEntryWellFormed(n: Node, parts: seq<string>, isDir: bool, data: Option<seq<bv8>>)
    requires n.Dir? && WellFormed(n) && |parts| > 0 && NoFileOnWay(n, parts)
    ensures WellFormed(AddEntry(n, parts, isDir, data))
    decreases |parts|
  {
    var existing := Get(n.children, parts[0]);
    if |parts| == 1 {
      if !isDir && data.Some? {
        PutWellFormed(n, parts[0], File(data.value, Some(FilePerm)));
      } else if isDir && existing.None? {
        PutWellFormed(n, parts[0], NewDir());
      }
    } else {
      var c := if existing.None? then NewDir() else existing.value;
      if existing.Some? {
        GetWellFormed(n, parts[0]);
      }
      AddEntryWellFormed(c, parts[1..], isDir, data);
      PutWellFormed(n, parts[0], AddEntry(c, parts[1..], isDir, data));
    }
  }

  // ---------------------------------------------------------------------
  // The whole archive
  // ---------------------------------------------------------------------

  /** The import reports success exactly when every file entry was read. */
  lemma {:induction false} ImportAllOk(n: Node, ms: seq<Member>)
    requires n.Dir? && Loadable(n, ms)
    ensures ImportAll(n, ms).1 <==> forall i :: 0 <= i < |ms| ==> !ReadFails(ms[i])
    decreases |ms|
  {
    if ms != [] && !ReadFails(ms[0]) {
      ImportAllOk(AddMember(n, ms[0]), ms[1..]);
      assert forall i :: 1 <= i < |ms| ==> ms[i] == ms[1..][i - 1];
    }
  }

  /** There is no rollback: when entry `j` is the first that cannot be
      read, the tree is the one built from the entries before it, plus
      the directories on entry `j`'s way. */
  lemma {:induction false} ImportAllStopsAt(n: Node, ms: seq<Member>, j: nat)
    requires n.Dir? && Loadable(n, ms)
    requires j < |ms| && ReadFails(ms[j]) && forall i :: 0 <= i < j ==> !ReadFails(ms[i])
    ensures Loadable(n, ms[..j]) && ImportAll(n, ms[..j]).1
    ensures var t := ImportAll(n, ms[..j]).0;
            NoFileOnWay(t, Parts(ms[j].name)) &&
            ImportAll(n, ms) == (AddMember(t, ms[j]), false)
    decreases j
  {
    if j > 0 {
      assert ms[..j][0] == ms[0] && ms[..j][1..] == ms[1..][..j - 1];
      ImportAllStopsAt(AddMember(n, ms[0]), ms[1..], j - 1);
    } else {
      assert ms[..0] == [];
    }
  }

  /** Each entry of a successful import acts on the tree left by the ones before it. */
  lemma {:induction false} ImportAllSnoc(n: Node, ms: seq<Member>, m: Member)
    requires n.Dir? && Loadable(n, ms + [m]) && forall i :: 0 <= i < |ms| ==> !ReadFails(ms[i])
    ensures Loadable(n, ms) && ImportAll(n, ms).1
    ensures var t := ImportAll(n, ms).0;
            NoFileOnWay(t, Parts(m.name)) &&
            ImportAll(n, ms + [m]) == (AddMember(t, m), !ReadFails(m))
    decreases |ms|
  {
    if ms == [] {
      assert [m][1..] == [];
      assert ms + [m] == [m];
    } else {
      assert (ms + [m])[0] == ms[0] && (ms + [m])[1..] == ms[1..] + [m];
      ImportAllSnoc(AddMember(n, ms[0]), ms[1..], m);
    }
  }

  lemma {:induction false} ImportAllWellFormed(n: Node, ms: seq<Member>)
    requires n.Dir? && WellFormed(n) && Loadable(n, ms)
    ensures ImportAll(n, ms).0.Dir? && WellFormed(ImportAll(n, ms).0)
    decreases |ms|
  {
    if ms != [] {
      AddEntryWellFormed(n, Parts(ms[0].name), IsDirName(ms[0].name), ms[0].data);
      if !ReadFails(ms[0]) {
        ImportAllWellFormed(AddMember(n, ms[0]), ms[1..]);
      }
    }
  }
}
