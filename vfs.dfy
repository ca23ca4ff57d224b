/**
  The session of the virtual filesystem (main.py, class VFS): the tree
  and the current directory, and the operations the shell calls on them.
  Every operation first resolves its path argument against the current
  directory, then looks the canonical result up in the tree.
*/
module FileSystem {

  import opened Wrappers
  import opened Paths
  import opened Tree
  import opened Importer
  import opened Octal

  /** The ways an operation reports failure. */
  datatype Error = NotFound | NotADirectory | NotAFile | InvalidMode

  datatype Outcome<T> = Ok(value: T) | Fail(error: Error)

  /** One line of a listing: "d" or "-", the permission text, the name. */
  datatype Line = Line(kind: char, perm: string, name: string)

  /** The line `list_dir` writes for one child (main.py:102-104). */
  function LineOf(c: Child): (l: Line)
    ensures l.name == c.name
    ensures l.kind == 'd' <==> c.node.Dir?
    ensures |l.perm| == 3
  {
    Line(if c.node.Dir? then 'd' else '-', PermText(PermOrZero(c.node)), c.name)
  }

  /** `lines` has one line per child, in the children's order. */
  predicate ListsChildren(lines: seq<Line>, cs: seq<Child>)
  {
    |lines| == |cs| && forall i :: 0 <= i < |cs| ==> lines[i] == LineOf(cs[i])
  }

  /** `f"{typ}{perm} {name}"` (main.py:104): the kind, the permissions,
      one space, then the name. */
  function LineText(l: Line): (r: string)
    ensures |r| == |l.perm| + |l.name| + 2
    ensures r[0] == l.kind && r[1..|l.perm| + 1] == l.perm && r[|l.perm| + 1] == ' '
    ensures r[|l.perm| + 2..] == l.name
  {
    [l.kind] + l.perm + " " + l.name
  }

  /** `"\n".join` of the lines' texts: the first line's text comes first. */
  function JoinLines(lines: seq<Line>): (r: string)
    requires lines != []
    ensures |r| >= |LineText(lines[0])| && r[..|LineText(lines[0])|] == LineText(lines[0])
    ensures |lines| == 1 ==> r == LineText(lines[0])
    decreases |lines|
  {
    if |lines| == 1 then LineText(lines[0]) else LineText(lines[0]) + "\n" + JoinLines(lines[1..])
  }

  /** Joining two runs of lines is joining each, with one newline between:
      with `JoinLines([l]) == LineText(l)` this fixes every line of the text. */
  lemma {:induction false} JoinLinesAppend(a: seq<Line>, b: seq<Line>)
    requires a != [] && b != []
    ensures JoinLines(a + b) == JoinLines(a) + "\n" + JoinLines(b)
    decreases |a|
  {
    assert (a + b)[0] == a[0] && (a + b)[1..] == a[1..] + b;
    if |a| > 1 {
      JoinLinesAppend(a[1..], b);
    }
  }

  /** A listing grows by a newline and the new line's text. */
  lemma RenderSnoc(lines: seq<Line>, l: Line)
    requires lines != []
    ensures Render(lines + [l]) == Render(lines) + "\n" + LineText(l)
  {
    JoinLinesAppend(lines, [l]);
  }

  /** The text `list_dir` returns for a listing: the lines joined by
      newlines, or "(пусто)" ("(empty)") when there are none (main.py:106). */
  function Render(lines: seq<Line>): (r: string)
    ensures lines == [] ==> r == "(пусто)"
    ensures lines != [] ==> |r| >= |LineText(lines[0])| && r[..|LineText(lines[0])|] == LineText(lines[0])
  {
    if lines == [] then "(пусто)" else JoinLines(lines)
  }

  /** Resolving a normalised path again gives the same segments, whatever
      the current directory: the second normalisation in `get_node`
      (main.py:45) changes nothing. */
  lemma ResolveNormalized(path: string, current: string, current': string)
    ensures Resolve(Normalize(path, current), current') == Resolve(path, current)
  {
    NormalizeCanonical(path, current);
    CanonicalResolve(Normalize(path, current), current');
  }

  class Vfs {
    /** The root directory; it has no permissions until `chmod` sets them. */
    var root: Node
    /** The current directory, a canonical path. */
    var currentPath: string

    ghost predicate Valid()
      reads this
    {
      root.Dir? && WellFormed(root) && IsCanonical(currentPath)
    }

    /** The node a path names, resolved against the current directory. */
    function NodeAt(path: string): Option<Node>
      reads this
    {
      Walk(root, Resolve(path, currentPath))
    }

    /** An empty root directory without permissions, and "/" as the current directory (main.py:21-23). */
    constructor ()
      ensures Valid()
      ensures root == Dir([], None) && currentPath == "/"
    {
      root := Dir([], None);
      currentPath := "/";
    }

    /** `normalize_path` (main.py:25-41). */
    method NormalizePath(path: string) returns (r: string)
      ensures r == Normalize(path, currentPath)
      ensures IsCanonical(r)
    {
      var parts := Segments(Target(path, currentPath));
      var resolved: seq<string> := [];
      var i := 0;
      while i < |parts|
        invariant 0 <= i <= |parts|
        invariant Apply(resolved, parts[i..]) == Apply([], parts)
      {
        assert parts[i..] == [parts[i]] + parts[i + 1..];
        if parts[i] == ".." {
          if resolved != [] {
            resolved := resolved[..|resolved| - 1];
          }
        } else {
          resolved := resolved + [parts[i]];
        }
        i := i + 1;
      }
      r := if resolved != [] then "/" + JoinWith(resolved) else "/";
      NormalizeCanonical(path, currentPath);
    }

    /** `get_node` (main.py:43-56): the node reached from the root by
        following the children named by the path's segments, or None. */
    method GetNode(path: string) returns (r: Option<Node>)
      ensures r == NodeAt(path)
      ensures Resolve(path, currentPath) == [] ==> r == Some(root)
    {
      var p := NormalizePath(path);
      PiecesOfNormalize(path, currentPath);
      if p == "/" {
        return Some(root);
      }
      var parts := DropEmpty(Split(p));
      var node := root;
      var i := 0;
      while i < |parts|
        invariant 0 <= i <= |parts|
        invariant Walk(root, parts[..i]) == Some(node)
      {
        WalkPrefixStep(root, parts, i, node);
        if node.File? || Get(node.children, parts[i]).None? {
          return None;
        }
        node := Get(node.children, parts[i]).value;
        i := i + 1;
      }
      assert parts[..i] == parts;
      return Some(node);
    }

    /** Resolves a path and looks it up, as each command does: `get_node`
        on the result of `normalize_path`. */
    method Locate(path: string) returns (target: string, node: Option<Node>)
      ensures target == Normalize(path, currentPath)
      ensures node == NodeAt(path)
    {
      target := NormalizePath(path);
      node := GetNode(target);
      ResolveNormalized(path, currentPath, currentPath);
    }

    /** `list_dir` (main.py:90-106): one line per child, in the order the
        children were added; an error for a missing path or a file. */
    method ListDir(path: string) returns (r: Outcome<seq<Line>>)
      ensures NodeAt(path).None? ==> r == Fail(NotFound)
      ensures NodeAt(path).Some? && NodeAt(path).value.File? ==> r == Fail(NotADirectory)
      ensures NodeAt(path).Some? && NodeAt(path).value.Dir? ==>
                r.Ok? && ListsChildren(r.value, NodeAt(path).value.children)
    {
      var _, node := Locate(path);
      if node.None? {
        return Fail(NotFound);
      }
      if node.value.File? {
        return Fail(NotADirectory);
      }
      var cs := node.value.children;
      var items: seq<Line> := [];
      var i := 0;
      while i < |cs|
        invariant 0 <= i <= |cs|
        invariant ListsChildren(items, cs[..i])
      {
        var c := cs[i];
        var typ := if c.node.Dir? then 'd' else '-';
        var perm := PermText(PermOrZero(c.node));
        items := items + [Line(typ, perm, c.name)];
        i := i + 1;
      }
      assert cs[..i] == cs;
      return Ok(items);
    }

    /** `change_dir` (main.py:108-119): the current directory becomes the
        resolved path exactly when it names a directory; otherwise nothing
        changes. */
    method ChangeDir(path: string) returns (r: Outcome<string>)
      requires Valid()
      modifies this`currentPath
      ensures Valid()
      ensures var n := Walk(root, Resolve(path, old(currentPath)));
              if n.Some? && n.value.Dir? then
                r == Ok(Normalize(path, old(currentPath))) && currentPath == r.value &&
                Walk(root, CanonicalSegments(currentPath)) == n
              else
                currentPath == old(currentPath) && r == Fail(if n.None? then NotFound else NotADirectory)
    {
      var target, node := Locate(path);
      if node.None? {
        return Fail(NotFound);
      }
      if node.value.File? {
        return Fail(NotADirectory);
      }
      NormalizeCanonical(path, currentPath);
      currentPath := target;
      return Ok(target);
    }

    /** `cat_file` (main.py:121-130): the file's bytes, or an error for a
        missing path or a directory. */
    method CatFile(path: string) returns (r: Outcome<seq<bv8>>)
      ensures NodeAt(path).None? ==> r == Fail(NotFound)
      ensures NodeAt(path).Some? && NodeAt(path).value.Dir? ==> r == Fail(NotAFile)
      ensures NodeAt(path).Some? && NodeAt(path).value.File? ==> r == Ok(NodeAt(path).value.content)
    {
      var _, node := Locate(path);
      if node.None? {
        return Fail(NotFound);
      }
      if node.value.Dir? {
        return Fail(NotAFile);
      }
      return Ok(node.value.content);
    }

    /** `chmod` (main.py:137-152): a missing path is reported before the
        mode is looked at; a mode that is not octal changes nothing; any
        other mode is stored, unchecked, on that one node. */
    method Chmod(mode: string, path: string) returns (r: Outcome<nat>)
      requires Valid()
      modifies this`root
      ensures Valid()
      ensures var p := Resolve(path, currentPath);
              if Walk(old(root), p).None? then
                r == Fail(NotFound) && root == old(root)
              else if ParseOctal(mode).None? then
                r == Fail(InvalidMode) && root == old(root)
              else
                r == Ok(ParseOctal(mode).value) && root == SetPermAt(old(root), p, r.value)
    {
      var _, node := Locate(path);
      if node.None? {
        return Fail(NotFound);
      }
      var parsed := ParseOctal(mode);
      if parsed.None? {
        return Fail(InvalidMode);
      }
      var p := Resolve(path, currentPath);
      SetPermWellFormed(root, p, parsed.value);
      root := SetPermAt(root, p, parsed.value);
      return Ok(parsed.value);
    }

    /** `load_from_zip` (main.py:58-88), given the archive's entries, or
        None when the archive cannot be opened. Entries are applied to the
        tree one by one; the first file whose bytes cannot be read ends the
        import with false, and what was added before it stays. */
    method LoadFromZip(archive: Option<seq<Member>>) returns (ok: bool)
      requires Valid()
      requires archive.Some? ==> Loadable(root, archive.value)
      modifies this`root
      ensures Valid()
      ensures archive.None? ==> !ok && root == old(root)
      ensures archive.Some? ==> (root, ok) == ImportAll(old(root), archive.value)
    {
      if archive.None? {
        return false;
      }
      var ms := archive.value;
      var i := 0;
      while i < |ms|
        invariant 0 <= i <= |ms|
        invariant Valid()
        invariant Loadable(root, ms[i..])
        invariant ImportAll(root, ms[i..]) == ImportAll(old(root), ms)
      {
        var m := ms[i];
        assert ms[i..][0] == m && ms[i..][1..] == ms[i + 1..];
        AddEntryWellFormed(root, Parts(m.name), IsDirName(m.name), m.data);
        root := AddMember(root, m);
        if ReadFails(m) {
          return false;
        }
        i := i + 1;
      }
      return true;
    }
  }
}
