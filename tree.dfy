/**
  The directory tree of the virtual filesystem (main.py, VFS): nodes,
  the ordered child mapping of a directory, the walk that `get_node`
  performs, and the permission update that `chmod` performs.
*/
module Tree {

  import opened Wrappers

  /** 0o755, the permissions of a directory created by the importer. */
  const DirPerm: nat := 493
  /** 0o644, the permissions of a file created by the importer. */
  const FilePerm: nat := 420

  /** A node: a directory with its children in insertion order, or a file
      with its raw bytes. `perm` is None where the source node has no
      "permissions" key (the root, until it is chmod-ed). */
  datatype Node =
    | Dir(children: seq<Child>, perm: Option<nat>)
    | File(content: seq<bv8>, perm: Option<nat>)

  datatype Child = Child(name: string, node: Node)

  /** `{"type": "dir", "children": {}, "permissions": 0o755}` */
  function NewDir(): (r: Node)
    ensures r.Dir? && r.children == [] && r.perm == Some(DirPerm)
    ensures forall p :: p != [] ==> Walk(r, p) == None
  {
    Dir([], Some(DirPerm))
  }

  /** `node.get("permissions", 0)` */
  function PermOrZero(n: Node): (p: nat)
    ensures n.perm.Some? ==> p == n.perm.value
    ensures n.perm.None? ==> p == 0
  {
    match n.perm
    case Some(p) => p
    case None => 0
  }

  // ---------------------------------------------------------------------
  // The child mapping: a Python dict, keys in insertion order
  // ---------------------------------------------------------------------

  function Names(cs: seq<Child>): seq<string>
  {
    seq(|cs|, i requires 0 <= i < |cs| => cs[i].name)
  }

  predicate UniqueNames(cs: seq<Child>)
  {
    forall i, j :: 0 <= i < j < |cs| ==> cs[i].name != cs[j].name
  }

  /** `children.get(name)`: the node stored under `name`, if any. */
  function Get(cs: seq<Child>, name: string): (r: Option<Node>)
    ensures r.Some? <==> name in Names(cs)
    ensures r.Some? ==> Child(name, r.value) in cs
  {
    if cs == [] then None
    else if cs[0].name == name then
      assert cs[0] == Child(name, cs[0].node);
      assert Names(cs)[0] == name;
      Some(cs[0].node)
    else
      assert Names(cs) == [cs[0].name] + Names(cs[1..]);
      assert cs == [cs[0]] + cs[1..];
      Get(cs[1..], name)
  }

  /** `children[name] = node`: an existing key keeps its place and gets the
      new node; a new key goes last. */
  function Put(cs: seq<Child>, name: string, node: Node): (r: seq<Child>)
    ensures forall q :: Get(r, q) == if q == name then Some(node) else Get(cs, q)
    ensures Names(r) == if name in Names(cs) then Names(cs) else Names(cs) + [name]
  {
    if cs == [] then
      var r := [Child(name, node)];
      assert forall q :: Get(r, q) == GetCons(r[0], [], q);
      r
    else
      var head, tail := cs[0], cs[1..];
      assert cs == [head] + tail;
      NamesCons(head, tail);
      if head.name == name then
        var r := [Child(name, node)] + tail;
        NamesCons(Child(name, node), tail);
        assert forall q :: Get(r, q) == GetCons(Child(name, node), tail, q);
        assert forall q :: Get(cs, q) == GetCons(head, tail, q);
        r
      else
        var rest := Put(tail, name, node);
        var r := [head] + rest;
        NamesCons(head, rest);
        assert forall q :: Get(r, q) == GetCons(head, rest, q);
        assert forall q :: Get(cs, q) == GetCons(head, tail, q);
        r
  }

  /** `Get` on a list with a known first child, unfolded one step. */
  function GetCons(c: Child, rest: seq<Child>, q: string): Option<Node>
  {
    if c.name == q then Some(c.node) else Get(rest, q)
  }

  lemma NamesCons(c: Child, rest: seq<Child>)
    ensures Names([c] + rest) == [c.name] + Names(rest)
  {
  }

  /** Every child after an assignment is the new one or an old one. */
  lemma {:induction false} PutFrom(cs: seq<Child>, name: string, node: Node)
    ensures forall i :: 0 <= i < |Put(cs, name, node)| ==>
              Put(cs, name, node)[i] == Child(name, node) || Put(cs, name, node)[i] in cs
    decreases |cs|
  {
    if cs != [] && cs[0].name != name {
      PutFrom(cs[1..], name, node);
      var r := Put(cs, name, node);
      assert r == [cs[0]] + Put(cs[1..], name, node);
      forall i | 1 <= i < |r| ensures r[i] == Child(name, node) || r[i] in cs {
        assert r[i] == Put(cs[1..], name, node)[i - 1];
        assert cs == [cs[0]] + cs[1..];
      }
    }
  }

  /** Storing under a key twice keeps only the second node. */
  lemma {:induction false} PutPut(cs: seq<Child>, name: string, v: Node, w: Node)
    ensures Put(Put(cs, name, v), name, w) == Put(cs, name, w)
    decreases |cs|
  {
    if cs != [] && cs[0].name != name {
      PutPut(cs[1..], name, v, w);
      assert Put(cs, name, v)[1..] == Put(cs[1..], name, v);
    }
  }

  lemma PutUnique(cs: seq<Child>, name: string, v: Node)
    requires UniqueNames(cs)
    ensures UniqueNames(Put(cs, name, v))
  {
    var r := Put(cs, name, v);
    forall i, j | 0 <= i < j < |r| ensures r[i].name != r[j].name {
      assert Names(r)[i] == r[i].name && Names(r)[j] == r[j].name;
      assert Names(cs) == seq(|cs|, k requires 0 <= k < |cs| => cs[k].name);
      if name !in Names(cs) {
        if j < |cs| {
          assert Names(cs)[i] == cs[i].name && Names(cs)[j] == cs[j].name;
        }
      } else {
        assert Names(cs)[i] == cs[i].name && Names(cs)[j] == cs[j].name;
      }
    }
  }

  // ---------------------------------------------------------------------
  // The walk of get_node (main.py:49-56)
  // ---------------------------------------------------------------------

  /** The node reached from `n` by following `children[name]` for each
      name in order; None when a name is missing, and when a file is met
      before the end (a file has no children). */
  function Walk(n: Node, path: seq<string>): (r: Option<Node>)
    ensures path == [] ==> r == Some(n)
    ensures path != [] && r.Some? ==> n.Dir? && Get(n.children, path[0]).Some?
    decreases |path|
  {
    if path == [] then Some(n)
    else match n
      case File(_, _) => None
      case Dir(cs, _) =>
        match Get(cs, path[0])
        case None => None
        case Some(c) => Walk(c, path[1..])
  }

  lemma WalkCons(n: Node, name: string, rest: seq<string>)
    ensures Walk(n, [name] + rest) ==
            if n.File? || Get(n.children, name).None? then None
            else Walk(Get(n.children, name).value, rest)
  {
    assert ([name] + rest)[1..] == rest;
  }

  /** Walking `a + b` is walking `a`, then `b` from where `a` ends. */
  lemma {:induction false} WalkAppend(n: Node, a: seq<string>, b: seq<string>)
    ensures Walk(n, a + b) == if Walk(n, a).Some? then Walk(Walk(n, a).value, b) else None
    decreases |a|
  {
    if a == [] {
      assert a + b == b;
    } else {
      WalkCons(n, a[0], a[1..] + b);
      assert a + b == [a[0]] + (a[1..] + b);
      WalkCons(n, a[0], a[1..]);
      assert a == [a[0]] + a[1..];
      if n.Dir? && Get(n.children, a[0]).Some? {
        WalkAppend(Get(n.children, a[0]).value, a[1..], b);
      }
    }
  }

  /** One more step of the walk along `path`: from the node reached by
      the first `i` names, take name `i`; once the walk fails, the whole
      path fails. */
  lemma WalkPrefixStep(n: Node, path: seq<string>, i: nat, m: Node)
    requires i < |path| && Walk(n, path[..i]) == Some(m)
    ensures Walk(n, path[..i + 1]) ==
            if m.File? || Get(m.children, path[i]).None? then None
            else Some(Get(m.children, path[i]).value)
    ensures Walk(n, path[..i + 1]).None? ==> Walk(n, path).None?
  {
    assert path[..i + 1] == path[..i] + [path[i]];
    WalkAppend(n, path[..i], [path[i]]);
    WalkCons(m, path[i], []);
    assert path[..i + 1] + path[i + 1..] == path;
    WalkAppend(n, path[..i + 1], path[i + 1..]);
  }

  /** The walk fails exactly when, after some prefix that it reaches, the
      next name is missing or the node reached is a file. */
  lemma {:induction false} WalkFails(n: Node, path: seq<string>)
    ensures Walk(n, path).None? <==>
            exists k :: 0 <= k < |path| && StuckAt(n, path, k)
    decreases |path|
  {
    if path != [] {
      WalkCons(n, path[0], path[1..]);
      assert path == [path[0]] + path[1..];
      if n.File? || Get(n.children, path[0]).None? {
        assert StuckAt(n, path, 0);
      } else {
        var c := Get(n.children, path[0]).value;
        WalkFails(c, path[1..]);
        forall k | 1 <= k < |path|
          ensures StuckAt(n, path, k) <==> StuckAt(c, path[1..], k - 1)
        {
          assert path[..k] == [path[0]] + path[1..][..k - 1];
          WalkCons(n, path[0], path[1..][..k - 1]);
        }
        assert !StuckAt(n, path, 0) by { assert path[..0] == []; }
        if Walk(n, path).None? {
          var k :| 0 <= k < |path[1..]| && StuckAt(c, path[1..], k);
          assert StuckAt(n, path, k + 1);
        }
      }
    }
  }

  /** The walk reaches the first `k` names and cannot take name `k`. */
  predicate StuckAt(n: Node, path: seq<string>, k: nat)
    requires k < |path|
  {
    var w := Walk(n, path[..k]);
    w.Some? && (w.value.File? || Get(w.value.children, path[k]).None?)
  }

  // ---------------------------------------------------------------------
  // Well-formed trees: names unique in every directory
  // ---------------------------------------------------------------------

  predicate WellFormed(n: Node)
  {
    match n
    case File(_, _) => true
    case Dir(cs, _) => UniqueNames(cs) && forall i :: 0 <= i < |cs| ==> WellFormed(cs[i].node)
  }

  /** Storing a well-formed node in a well-formed directory keeps it well-formed. */
  lemma PutWellFormed(n: Node, name: string, v: Node)
    requires n.Dir? && WellFormed(n) && WellFormed(v)
    ensures WellFormed(Dir(Put(n.children, name, v), n.perm))
  {
    PutUnique(n.children, name, v);
    PutFrom(n.children, name, v);
    var r := Put(n.children, name, v);
    forall i | 0 <= i < |r| ensures WellFormed(r[i].node) {
      if r[i] != Child(name, v) {
        var j :| 0 <= j < |n.children| && n.children[j] == r[i];
      }
    }
  }

  lemma GetWellFormed(n: Node, name: string)
    requires n.Dir? && WellFormed(n) && Get(n.children, name).Some?
    ensures WellFormed(Get(n.children, name).value)
  {
    var c := Child(name, Get(n.children, name).value);
    var j :| 0 <= j < |n.children| && n.children[j] == c;
  }

  // ---------------------------------------------------------------------
  // chmod's update: node["permissions"] = mode (main.py:149)
  // ---------------------------------------------------------------------

  /** The tree with the permissions of the node at `path` set to `mode`;
      that node keeps everything else, its subtrees included. */
  function SetPermAt(n: Node, path: seq<string>, mode: nat): (r: Node)
    requires Walk(n, path).Some?
    ensures Walk(r, path) == Some(Walk(n, path).value.(perm := Some(mode)))
    ensures r.Dir? <==> n.Dir?
    decreases |path|
  {
    if path == [] then n.(perm := Some(mode))
    else
      var c := Get(n.children, path[0]).value;
      WalkCons(n, path[0], path[1..]);
      assert path == [path[0]] + path[1..];
      var r := Dir(Put(n.children, path[0], SetPermAt(c, path[1..], mode)), n.perm);
      WalkCons(r, path[0], path[1..]);
      r
  }

  /** What one node holds apart from its subtrees. */
  datatype Shape =
    | DirShape(names: seq<string>, perm: Option<nat>)
    | FileShape(content: seq<bv8>, perm: Option<nat>)

  function ShapeOf(n: Node): Shape
  {
    match n
    case Dir(cs, p) => DirShape(Names(cs), p)
    case File(c, p) => FileShape(c, p)
  }

  function ShapeAt(n: Node, path: seq<string>): Option<Shape>
  {
    match Walk(n, path)
    case None => None
    case Some(x) => Some(ShapeOf(x))
  }

  /** Every other node keeps its kind, content, child names and permissions. */
  lemma {:induction false} SetPermElsewhere(n: Node, path: seq<string>, mode: nat, q: seq<string>)
    requires Walk(n, path).Some? && q != path
    ensures ShapeAt(SetPermAt(n, path, mode), q) == ShapeAt(n, q)
    decreases |path|
  {
    var n' := SetPermAt(n, path, mode);
    if q != [] {
      WalkCons(n, q[0], q[1..]);
      WalkCons(n', q[0], q[1..]);
      assert q == [q[0]] + q[1..];
      if path != [] && q[0] == path[0] {
        assert path == [path[0]] + path[1..];
        SetPermElsewhere(Get(n.children, path[0]).value, path[1..], mode, q[1..]);
      }
    }
  }

  /** chmod with the same mode twice is chmod once. */
  lemma {:induction false} SetPermIdempotent(n: Node, path: seq<string>, mode: nat)
    requires Walk(n, path).Some?
    ensures SetPermAt(SetPermAt(n, path, mode), path, mode) == SetPermAt(n, path, mode)
    decreases |path|
  {
    if path != [] {
      var c := Get(n.children, path[0]).value;
      WalkCons(n, path[0], path[1..]);
      assert path == [path[0]] + path[1..];
      SetPermIdempotent(c, path[1..], mode);
      PutPut(n.children, path[0], SetPermAt(c, path[1..], mode), SetPermAt(c, path[1..], mode));
    }
  }

  lemma {:induction false} SetPermWellFormed(n: Node, path: seq<string>, mode: nat)
    requires Walk(n, path).Some? && WellFormed(n)
    ensures WellFormed(SetPermAt(n, path, mode))
    decreases |path|
  {
    if path != [] {
      var c := Get(n.children, path[0]).value;
      WalkCons(n, path[0], path[1..]);
      assert path == [path[0]] + path[1..];
      GetWellFormed(n, path[0]);
      SetPermWellFormed(c, path[1..], mode);
      PutWellFormed(n, path[0], SetPermAt(c, path[1..], mode));
    }
  }
}
