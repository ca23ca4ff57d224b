/** Worked examples of `normalize_path`, each following the definitions step by step. */
module PathExamples {

  import opened Paths

  /** One piece without a slash, then the rest. */
  lemma SplitCons(a: string, b: string, s: string)
    requires '/' !in a && s == a + "/" + b
    ensures Split(s) == [a] + Split(b)
  {
    SplitConcat(a, b);
    SplitSlashFree(a);
  }

  lemma SplitParentExample()
    ensures Split("/a/b/../c") == ["", "a", "b", "..", "c"]
  {
    SplitParentTail();
    SplitCons("", "a/b/../c", "/a/b/../c");
  }

  lemma SplitParentTail()
    ensures Split("a/b/../c") == ["a", "b", "..", "c"]
  {
    SplitThree("b", "..", "c");
    assert "b" + "/" + ".." + "/" + "c" == "b/../c";
    SplitCons("a", "b/../c", "a/b/../c");
  }

  /** Three slash-free pieces joined by "/" split back into those pieces. */
  lemma SplitThree(a: string, b: string, c: string)
    requires '/' !in a && '/' !in b && '/' !in c
    ensures Split(a + "/" + b + "/" + c) == [a, b, c]
  {
    SplitSlashFree(c);
    SplitCons(b, c, b + "/" + c);
    assert a + "/" + b + "/" + c == a + "/" + (b + "/" + c);
    SplitCons(a, b + "/" + c, a + "/" + b + "/" + c);
  }

  lemma SegmentsOfParent()
    ensures Segments("/a/b/../c") == ["a", "b", "..", "c"]
  {
    SplitParentExample();
    var x: seq<string> := ["", "a", "b", "..", "c"];
    assert DropTrivial(x[4..]) == ["c"];
    assert DropTrivial(x[3..]) == ["..", "c"];
    assert DropTrivial(x[2..]) == ["b", "..", "c"];
    assert DropTrivial(x[1..]) == ["a", "b", "..", "c"];
  }

  lemma ResolveParentSteps()
    ensures Apply([], ["a", "b", "..", "c"]) == ["a", "c"]
  {
    var parts: seq<string> := ["a", "b", "..", "c"];
    assert Apply(["a", "c"], parts[4..]) == ["a", "c"];
    assert Apply(["a"], parts[3..]) == ["a", "c"];
    assert Step(["a", "b"], "..") == ["a"];
    assert Apply(["a", "b"], parts[2..]) == ["a", "c"];
    assert Apply(["a"], parts[1..]) == ["a", "c"];
  }

  lemma JoinAC()
    ensures JoinPath(["a", "c"]) == "/a/c"
  {
    var segs: seq<string> := ["a", "c"];
    assert JoinWith(segs[1..]) == "c";
    assert JoinWith(segs) == "a" + "/" + "c";
  }

  /** "/a/b/../c" is "/a/c" from anywhere. */
  lemma NormalizeParentExample(current: string)
    ensures Normalize("/a/b/../c", current) == "/a/c"
  {
    var path := "/a/b/../c";
    assert IsAbsolute(path);
    SegmentsOfParent();
    ResolveParentSteps();
    JoinAC();
  }

  lemma SegmentsOfA()
    ensures Segments("/a") == ["a"]
  {
    SplitSlashFree("a");
    SplitCons("", "a", "/a");
    assert DropTrivial(["a"]) == ["a"];
  }

  lemma SegmentsOfClimb()
    ensures Segments("../../x") == ["..", "..", "x"]
  {
    SplitThree("..", "..", "x");
    assert ".." + "/" + ".." + "/" + "x" == "../../x";
    var x: seq<string> := ["..", "..", "x"];
    assert DropTrivial(x[2..]) == ["x"];
    assert DropTrivial(x[1..]) == ["..", "x"];
  }

  lemma ResolveClampSteps()
    ensures Apply([], ["a", "..", "..", "x"]) == ["x"]
  {
    var parts: seq<string> := ["a", "..", "..", "x"];
    assert Apply(["x"], parts[4..]) == ["x"];
    assert Apply([], parts[3..]) == ["x"];
    assert Apply([], parts[2..]) == ["x"];
    assert Step(["a"], "..") == [];
    assert Apply(["a"], parts[1..]) == ["x"];
  }

  lemma ResolveClamp()
    ensures Resolve("../../x", "/a") == ["x"]
  {
    TargetSegments("../../x", "/a");
    SegmentsOfA();
    SegmentsOfClimb();
    assert ["a"] + ["..", "..", "x"] == ["a", "..", "..", "x"];
    ResolveClampSteps();
  }

  /** "../../x" from "/a" climbs past the root and ends at "/x". */
  lemma NormalizeClampExample()
    ensures Normalize("../../x", "/a") == "/x"
  {
    ResolveClamp();
    assert JoinWith(["x"]) == "x";
  }

  /** ".." from the root stays at the root. */
  lemma NormalizeRootParentExample()
    ensures Normalize("..", "/") == "/"
  {
    assert Target("..", "/") == "/..";
    assert "/.." == "" + "/" + "..";
    SplitConcat("", "..");
    SplitSlashFree("..");
    assert Segments("/..") == [".."];
  }
}
