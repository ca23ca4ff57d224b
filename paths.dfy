/**
  Path strings of the virtual filesystem (main.py, VFS.normalize_path):
  splitting on "/", joining, and resolving a path against the current
  directory to its canonical absolute form.
*/
module Paths {

  // ---------------------------------------------------------------------
  // String primitives of the source, written out
  // ---------------------------------------------------------------------

  /** Python's `s.split("/")`: the pieces between separators, first to last. */
  function Split(s: string): (r: seq<string>)
    ensures |r| > 0
    decreases |s|
  {
    if s == [] then [""]
    else if s[0] == '/' then [""] + Split(s[1..])
    else
      var t := Split(s[1..]);
      [[s[0]] + t[0]] + t[1..]
  }

  /** Python's `"/".join(segs)`: the segments with one "/" between
      neighbours, so it starts with the first. */
  function JoinWith(segs: seq<string>): (r: string)
    ensures segs != [] ==> |r| >= |segs[0]| && r[..|segs[0]|] == segs[0]
    decreases |segs|
  {
    if segs == [] then ""
    else if |segs| == 1 then segs[0]
    else segs[0] + "/" + JoinWith(segs[1..])
  }

  /** Python's `s.rstrip("/")`: `s` without its run of trailing slashes. */
  function RStrip(s: string): (r: string)
    ensures |r| <= |s| && r == s[..|r|]
    ensures |r| == 0 || r[|r| - 1] != '/'
    ensures forall i :: |r| <= i < |s| ==> s[i] == '/'
    decreases |s|
  {
    if |s| > 0 && s[|s| - 1] == '/' then RStrip(s[..|s| - 1]) else s
  }

  /** Python's `os.path.join(a, b)` for a `b` that does not start with "/". */
  function PathJoin(a: string, b: string): (r: string)
    ensures |r| >= |a| + |b| && r[..|a|] == a && r[|r| - |b|..] == b
  {
    if a == [] || a[|a| - 1] == '/' then a + b else a + "/" + b
  }

  predicate IsAbsolute(path: string)
  {
    |path| > 0 && path[0] == '/'
  }

  // ---------------------------------------------------------------------
  // normalize_path (main.py:25-41)
  // ---------------------------------------------------------------------

  /** The string that is split: the path itself when absolute, otherwise
      the current directory joined with it, trailing slashes stripped. */
  function Target(path: string, current: string): (r: string)
    ensures IsAbsolute(path) ==> r == path
    ensures !IsAbsolute(path) ==> r == [] || r[|r| - 1] != '/'
  {
    if IsAbsolute(path) then path else RStrip(PathJoin(current, path))
  }

  /** The comprehension that drops the pieces "" and ".". */
  function DropTrivial(pieces: seq<string>): (r: seq<string>)
    ensures |r| <= |pieces|
    ensures forall i :: 0 <= i < |r| ==> r[i] != "" && r[i] != "."
  {
    if pieces == [] then []
    else (if pieces[0] == "" || pieces[0] == "." then [] else [pieces[0]]) + DropTrivial(pieces[1..])
  }

  /** The comprehension that drops only the empty pieces (get_node, main.py:49). */
  function DropEmpty(pieces: seq<string>): (r: seq<string>)
    ensures |r| <= |pieces|
    ensures forall i :: 0 <= i < |r| ==> r[i] != ""
  {
    if pieces == [] then []
    else (if pieces[0] == "" then [] else [pieces[0]]) + DropEmpty(pieces[1..])
  }

  /** The pieces `normalize_path` keeps from a path (main.py:33): none
      is empty, "." or holds a "/". */
  function Segments(s: string): (r: seq<string>)
    ensures Clean(r)
  {
    SplitPiecesSlashFree(s);
    DropTrivialClean(Split(s));
    DropTrivial(Split(s))
  }

  /** One iteration of the resolving loop: ".." pops when there is
      something to pop and is dropped at the root; anything else is pushed. */
  function Step(resolved: seq<string>, part: string): (r: seq<string>)
    ensures part == ".." ==> |r| == (if resolved == [] then 0 else |resolved| - 1) && r == resolved[..|r|]
    ensures part != ".." ==> |r| == |resolved| + 1 && r[..|resolved|] == resolved && r[|resolved|] == part
  {
    if part == ".." then
      (if resolved == [] then [] else resolved[..|resolved| - 1])
    else resolved + [part]
  }

  /** The resolving loop run from `resolved` over all of `parts`. */
  function Apply(resolved: seq<string>, parts: seq<string>): (r: seq<string>)
    ensures |r| <= |resolved| + |parts|
    decreases |parts|
  {
    if parts == [] then resolved else Apply(Step(resolved, parts[0]), parts[1..])
  }

  /** The segments `normalize_path` ends with. */
  function Resolve(path: string, current: string): (r: seq<string>)
    ensures AllValid(r)
  {
    ApplyValid([], Segments(Target(path, current)));
    Apply([], Segments(Target(path, current)))
  }

  /** The returned string: "/" + the segments joined, or "/" for none. */
  function JoinPath(resolved: seq<string>): (r: string)
    ensures resolved == [] ==> r == "/"
    ensures resolved != [] ==> |r| > |resolved[0]| && r[0] == '/' && r[1..|resolved[0]| + 1] == resolved[0]
  {
    if resolved == [] then "/" else "/" + JoinWith(resolved)
  }

  function Normalize(path: string, current: string): (r: string)
    ensures |r| > 0 && r[0] == '/'
  {
    JoinPath(Resolve(path, current))
  }

  // ---------------------------------------------------------------------
  // Canonical form
  // ---------------------------------------------------------------------

  predicate ValidSegment(seg: string)
  {
    seg != "" && seg != "." && seg != ".." && '/' !in seg
  }

  predicate AllValid(segs: seq<string>)
  {
    forall i :: 0 <= i < |segs| ==> ValidSegment(segs[i])
  }

  /** "/" alone, or "/" followed by valid segments separated by single slashes. */
  predicate IsCanonical(s: string)
  {
    s == "/" || (|s| > 0 && s[0] == '/' && AllValid(Split(s[1..])))
  }

  /** The segments of a canonical path. */
  function CanonicalSegments(s: string): seq<string>
  {
    if |s| <= 1 then [] else Split(s[1..])
  }

  /** Pieces that `Segments` keeps: no "", no ".", no "/" inside. */
  predicate Clean(parts: seq<string>)
  {
    forall i :: 0 <= i < |parts| ==> parts[i] != "" && parts[i] != "." && '/' !in parts[i]
  }

  // ---------------------------------------------------------------------
  // Split and join
  // ---------------------------------------------------------------------

  lemma {:induction false} SplitConcat(a: string, b: string)
    ensures Split(a + "/" + b) == Split(a) + Split(b)
    decreases |a|
  {
    if a == [] {
      assert a + "/" + b == "/" + b;
      assert ("/" + b)[1..] == b;
    } else {
      var s := a + "/" + b;
      assert s[0] == a[0];
      assert s[1..] == a[1..] + "/" + b;
      SplitConcat(a[1..], b);
    }
  }

  lemma {:induction false} SplitSlashFree(x: string)
    requires '/' !in x
    ensures Split(x) == [x]
    decreases |x|
  {
    if x != [] {
      assert '/' !in x[1..] by {
        forall i | 0 <= i < |x[1..]| ensures x[1..][i] != '/' { assert x[1..][i] == x[i + 1]; }
      }
      SplitSlashFree(x[1..]);
      assert [x[0]] + x[1..] == x;
    }
  }

  lemma {:induction false} SplitPiecesSlashFree(s: string)
    ensures forall i :: 0 <= i < |Split(s)| ==> '/' !in Split(s)[i]
    decreases |s|
  {
    if s != [] {
      SplitPiecesSlashFree(s[1..]);
      if s[0] != '/' {
        var t := Split(s[1..]);
        assert '/' !in [s[0]] + t[0];
      }
    }
  }

  lemma {:induction false} JoinWithCons(c: char, t: seq<string>)
    requires |t| > 0
    ensures JoinWith([[c] + t[0]] + t[1..]) == [c] + JoinWith(t)
  {
    var u := [[c] + t[0]] + t[1..];
    if |t| > 1 {
      assert u[1..] == t[1..];
    }
  }

  lemma {:induction false} JoinSplit(s: string)
    ensures JoinWith(Split(s)) == s
    decreases |s|
  {
    if s != [] {
      JoinSplit(s[1..]);
      var t := Split(s[1..]);
      if s[0] == '/' {
        assert ([""] + t)[1..] == t;
        assert s == "/" + s[1..];
      } else {
        JoinWithCons(s[0], t);
        assert s == [s[0]] + s[1..];
      }
    }
  }

  lemma {:induction false} SplitJoin(r: seq<string>)
    requires |r| > 0
    requires forall i :: 0 <= i < |r| ==> '/' !in r[i]
    ensures Split(JoinWith(r)) == r
    decreases |r|
  {
    SplitSlashFree(r[0]);
    if |r| > 1 {
      SplitJoin(r[1..]);
      SplitConcat(r[0], JoinWith(r[1..]));
      assert [r[0]] + r[1..] == r;
    }
  }

  // ---------------------------------------------------------------------
  // Segments
  // ---------------------------------------------------------------------

  /** The comprehension keeps exactly the pieces that are neither "" nor ".". */
  lemma {:induction false} DropTrivialMembers(pieces: seq<string>)
    ensures forall x :: x in DropTrivial(pieces) <==> x in pieces && x != "" && x != "."
    decreases |pieces|
  {
    if pieces != [] {
      DropTrivialMembers(pieces[1..]);
      assert pieces == [pieces[0]] + pieces[1..];
    }
  }

  /** get_node's comprehension keeps exactly the non-empty pieces. */
  lemma {:induction false} DropEmptyMembers(pieces: seq<string>)
    ensures forall x :: x in DropEmpty(pieces) <==> x in pieces && x != ""
    decreases |pieces|
  {
    if pieces != [] {
      DropEmptyMembers(pieces[1..]);
      assert pieces == [pieces[0]] + pieces[1..];
    }
  }

  /** Filtering a concatenation filters each part in turn, so the pieces
      kept stay in their order. */
  lemma {:induction false} DropTrivialConcat(a: seq<string>, b: seq<string>)
    ensures DropTrivial(a + b) == DropTrivial(a) + DropTrivial(b)
    decreases |a|
  {
    if a == [] {
      assert a + b == b;
    } else {
      var h: seq<string> := if a[0] == "" || a[0] == "." then [] else [a[0]];
      assert (a + b)[0] == a[0] && (a + b)[1..] == a[1..] + b;
      assert DropTrivial(a + b) == h + DropTrivial(a[1..] + b);
      DropTrivialConcat(a[1..], b);
      assert DropTrivial(a) == h + DropTrivial(a[1..]);
    }
  }

  lemma {:induction false} DropTrivialClean(pieces: seq<string>)
    requires forall i :: 0 <= i < |pieces| ==> '/' !in pieces[i]
    ensures Clean(DropTrivial(pieces))
    decreases |pieces|
  {
    if pieces != [] {
      DropTrivialClean(pieces[1..]);
    }
  }

  lemma {:induction false} DropTrivialValid(pieces: seq<string>)
    requires AllValid(pieces)
    ensures DropTrivial(pieces) == pieces
    decreases |pieces|
  {
    if pieces != [] {
      DropTrivialValid(pieces[1..]);
      assert [pieces[0]] + pieces[1..] == pieces;
    }
  }

  lemma {:induction false} DropEmptyValid(pieces: seq<string>)
    requires AllValid(pieces)
    ensures DropEmpty(pieces) == pieces
    decreases |pieces|
  {
    if pieces != [] {
      DropEmptyValid(pieces[1..]);
      assert [pieces[0]] + pieces[1..] == pieces;
    }
  }

  lemma SegmentsConcat(a: string, b: string)
    ensures Segments(a + "/" + b) == Segments(a) + Segments(b)
  {
    SplitConcat(a, b);
    DropTrivialConcat(Split(a), Split(b));
  }

  /** A trailing slash adds only an empty piece, which is dropped. */
  lemma SegmentsTrailingSlash(s: string)
    ensures Segments(s + "/") == Segments(s)
  {
    assert s + "/" == s + "/" + "";
    SegmentsConcat(s, "");
  }

  lemma {:induction false} SegmentsRStrip(s: string)
    ensures Segments(RStrip(s)) == Segments(s)
    decreases |s|
  {
    if |s| > 0 && s[|s| - 1] == '/' {
      var p := s[..|s| - 1];
      SegmentsRStrip(p);
      assert s == p + "/";
      SegmentsTrailingSlash(p);
    }
  }

  lemma SegmentsPathJoin(a: string, b: string)
    ensures Segments(PathJoin(a, b)) == Segments(a) + Segments(b)
  {
    if a == [] {
      assert PathJoin(a, b) == b;
    } else if a[|a| - 1] == '/' {
      var p := a[..|a| - 1];
      assert a == p + "/";
      assert a + b == p + "/" + b;
      SegmentsConcat(p, b);
      SegmentsTrailingSlash(p);
    } else {
      SegmentsConcat(a, b);
    }
  }

  /** The pieces resolved: those of an absolute path alone, otherwise
      those of the current directory followed by those of the path. */
  lemma TargetSegments(path: string, current: string)
    ensures Segments(Target(path, current)) ==
            if IsAbsolute(path) then Segments(path) else Segments(current) + Segments(path)
  {
    if !IsAbsolute(path) {
      SegmentsRStrip(PathJoin(current, path));
      SegmentsPathJoin(current, path);
    }
  }

  // ---------------------------------------------------------------------
  // The resolving loop
  // ---------------------------------------------------------------------

  lemma {:induction false} ApplyConcat(s: seq<string>, a: seq<string>, b: seq<string>)
    ensures Apply(s, a + b) == Apply(Apply(s, a), b)
    decreases |a|
  {
    if a == [] {
      assert a + b == b;
    } else {
      assert (a + b)[1..] == a[1..] + b;
      ApplyConcat(Step(s, a[0]), a[1..], b);
    }
  }

  /** Without "..", resolving appends the parts unchanged. */
  lemma {:induction false} ApplyNoParent(s: seq<string>, parts: seq<string>)
    requires AllValid(parts)
    ensures Apply(s, parts) == s + parts
    decreases |parts|
  {
    if parts != [] {
      ApplyNoParent(s + [parts[0]], parts[1..]);
      assert s + [parts[0]] + parts[1..] == s + parts;
    }
  }

  /** Resolved segments are valid: ".." is never pushed, and `Clean`
      pieces are never "", "." or hold a "/". */
  lemma {:induction false} ApplyValid(s: seq<string>, parts: seq<string>)
    requires AllValid(s) && Clean(parts)
    ensures AllValid(Apply(s, parts))
    decreases |parts|
  {
    if parts != [] {
      ApplyValid(Step(s, parts[0]), parts[1..]);
    }
  }

  /** `n` ".." segments.  */
  function Parents(n: nat): (r: seq<string>)
    ensures |r| == n && forall i :: 0 <= i < n ==> r[i] == ".."
  {
    if n == 0 then [] else [".."] + Parents(n - 1)
  }

  /** ".." beyond the root is dropped: climbing at least as far as the
      depth of `s` ends at the root, whatever follows. */
  lemma {:induction false} ExcessParentsClamped(s: seq<string>, n: nat, rest: seq<string>)
    requires n >= |s|
    ensures Apply(s, Parents(n) + rest) == Apply([], rest)
    decreases n
  {
    if n == 0 {
      assert Parents(0) + rest == rest;
    } else {
      assert (Parents(n) + rest)[0] == "..";
      assert (Parents(n) + rest)[1..] == Parents(n - 1) + rest;
      ExcessParentsClamped(Step(s, ".."), n - 1, rest);
    }
  }

  // ---------------------------------------------------------------------
  // normalize_path returns a canonical path
  // ---------------------------------------------------------------------

  lemma JoinPathCanonical(r: seq<string>)
    requires AllValid(r)
    ensures IsCanonical(JoinPath(r))
    ensures CanonicalSegments(JoinPath(r)) == r
  {
    if r != [] {
      var s := JoinPath(r);
      assert s[1..] == JoinWith(r);
      SplitJoin(r);
    }
  }

  /** normalize_path always returns a canonical path (main.py:25-41). */
  lemma NormalizeCanonical(path: string, current: string)
    ensures IsCanonical(Normalize(path, current))
    ensures CanonicalSegments(Normalize(path, current)) == Resolve(path, current)
  {
    JoinPathCanonical(Resolve(path, current));
  }

  /** A trailing slash leaves an empty last piece. */
  lemma SplitTrailingSlash(y: string)
    requires |y| > 0 && y[|y| - 1] == '/'
    ensures Split(y)[|Split(y)| - 1] == ""
  {
    var x := y[..|y| - 1];
    assert y == x + "/" + "";
    SplitConcat(x, "");
  }

  /** A canonical path starts with "/" and ends with "/" only when it is "/". */
  lemma CanonicalShape(s: string)
    requires IsCanonical(s)
    ensures |s| > 0 && s[0] == '/'
    ensures s != "/" ==> s[|s| - 1] != '/'
  {
    if s != "/" {
      var pieces := Split(s[1..]);
      assert ValidSegment(pieces[|pieces| - 1]);
      if |s[1..]| > 0 && s[1..][|s[1..]| - 1] == '/' {
        SplitTrailingSlash(s[1..]);
      }
      assert s[1..] != [] by { assert Split([]) == [""]; }
    }
  }

  /** The segments of a canonical path are exactly what resolving it yields,
      whatever the current directory, and joining them gives it back. */
  lemma CanonicalResolve(p: string, current: string)
    requires IsCanonical(p)
    ensures Resolve(p, current) == CanonicalSegments(p)
    ensures JoinPath(CanonicalSegments(p)) == p
  {
    if p == "/" {
      assert Split(p) == ["", ""];
      assert DropTrivial([""]) == [];
      assert Segments(p) == [];
    } else {
      var x := p[1..];
      var segs := Split(x);
      assert p == "/" + x;
      assert Split(p) == [""] + segs;
      DropTrivialValid(segs);
      assert Segments(p) == segs;
      ApplyNoParent([], segs);
      JoinSplit(x);
    }
  }

  /** Normalising an already-canonical path returns it unchanged,
      whatever the current directory (main.py:27-28, 33-41). */
  lemma NormalizeIdempotent(p: string, current: string)
    requires IsCanonical(p)
    ensures Normalize(p, current) == p
  {
    CanonicalResolve(p, current);
  }

  /** A relative path is resolved starting from the canonical current
      directory's segments. */
  lemma ResolveRelative(path: string, current: string)
    requires !IsAbsolute(path) && IsCanonical(current)
    ensures Resolve(path, current) == Apply(CanonicalSegments(current), Segments(path))
  {
    TargetSegments(path, current);
    CanonicalResolve(current, current);
    TargetSegments(current, current);
    ApplyConcat([], Segments(current), Segments(path));
  }

  /** The pieces `get_node` walks for a canonical path are its segments. */
  lemma PiecesOfJoinPath(r: seq<string>)
    requires AllValid(r)
    ensures DropEmpty(Split(JoinPath(r))) == r
  {
    if r == [] {
      assert Split("/") == ["", ""];
      assert DropEmpty([""]) == [];
    } else {
      var x := JoinWith(r);
      assert JoinPath(r) == "/" + x;
      assert ("/" + x)[1..] == x;
      SplitJoin(r);
      DropEmptyValid(r);
    }
  }

  /** The pieces `get_node` walks after normalising: none exactly when
      the result is "/", and otherwise the resolved segments. */
  lemma PiecesOfNormalize(path: string, current: string)
    ensures (Normalize(path, current) == "/") <==> Resolve(path, current) == []
    ensures DropEmpty(Split(Normalize(path, current))) == Resolve(path, current)
  {
    var r := Resolve(path, current);
    PiecesOfJoinPath(r);
    NormalizeCanonical(path, current);
    if r != [] {
      assert CanonicalSegments("/") == [];
    }
  }
}
