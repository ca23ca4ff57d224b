/** A worked import: a directory entry "docs/" and a file entry
    "docs/readme.txt" holding "hello", then `chmod 700` on the file. */
module ImportExamples {

  import opened Wrappers
  import opened Paths
  import opened Tree
  import opened Importer
  import opened Octal
  import opened FileSystem

  const Hello: seq<bv8> := [0x68, 0x65, 0x6c, 0x6c, 0x6f]

  const Entries: seq<Member> := [Member("docs/", None), Member("docs/readme.txt", Some(Hello))]

  const Readme: Node := File(Hello, Some(FilePerm))

  const Docs: Node := Dir([Child("readme.txt", Readme)], Some(DirPerm))

  const Imported: Node := Dir([Child("docs", Docs)], None)

  lemma PartsOfDocsDir()
    ensures Parts("docs/") == ["docs"]
  {
    assert "docs/"[..4] == "docs";
    assert RStrip("docs/") == "docs";
    SplitSlashFree("docs");
  }

  lemma PartsOfReadme()
    ensures Parts("docs/readme.txt") == ["docs", "readme.txt"]
  {
    var name := "docs/readme.txt";
    assert name[|name| - 1] == 't';
    assert RStrip(name) == name;
    assert name == "docs" + "/" + "readme.txt";
    SplitConcat("docs", "readme.txt");
    SplitSlashFree("docs");
    SplitSlashFree("readme.txt");
  }

  const AfterDocs: Node := Dir([Child("docs", NewDir())], None)

  lemma FirstEntry()
    ensures NoFileOnWay(Dir([], None), Parts("docs/"))
    ensures AddMember(Dir([], None), Entries[0]) == AfterDocs
  {
    PartsOfDocsDir();
    assert IsDirName("docs/");
  }

  lemma SecondEntry()
    ensures NoFileOnWay(AfterDocs, Parts("docs/readme.txt"))
    ensures AddMember(AfterDocs, Entries[1]) == Imported
  {
    PartsOfReadme();
    assert !IsDirName("docs/readme.txt");
    assert Get(AfterDocs.children, "docs") == Some(NewDir());
    var parts := ["docs", "readme.txt"];
    assert parts[1..] == ["readme.txt"];
    assert AddEntry(NewDir(), ["readme.txt"], false, Some(Hello)) == Docs;
  }

  /** The directory entry makes "docs" with 0o755; the file entry, whose
      parent now exists, puts "readme.txt" in it with 0o644 and its bytes. */
  lemma ImportReadme()
    ensures Loadable(AfterDocs, Entries[1..])
    ensures ImportAll(AfterDocs, Entries[1..]) == (Imported, true)
  {
    SecondEntry();
    var rest := Entries[1..];
    assert rest == [Entries[1]] && rest[1..] == [];
    assert !ReadFails(Entries[1]);
    assert Loadable(Imported, []);
  }

  lemma ImportDocs()
    ensures Loadable(Dir([], None), Entries)
    ensures ImportAll(Dir([], None), Entries) == (Imported, true)
  {
    FirstEntry();
    ImportReadme();
    assert !ReadFails(Entries[0]);
  }

  /** The imported file is found where it was named, and the listing of
      "/docs" is the single line "-644 readme.txt". */
  lemma LookupDocs()
    ensures Walk(Imported, ["docs"]) == Some(Docs)
    ensures Walk(Imported, ["docs", "readme.txt"]) == Some(Readme)
    ensures Docs.children == [Child("readme.txt", Readme)]
    ensures LineOf(Docs.children[0]) == Line('-', "644", "readme.txt")
  {
    WalkCons(Imported, "docs", []);
    WalkCons(Imported, "docs", ["readme.txt"]);
    WalkCons(Docs, "readme.txt", []);
    PermTextDigits(FilePerm);
  }

  /** `chmod 700 /docs/readme.txt` stores 0o700, and the listing then shows "700". */
  lemma ChmodReadme()
    ensures ParseOctal("700") == Some(448)
    ensures Walk(SetPermAt(Imported, ["docs", "readme.txt"], 448), ["docs", "readme.txt"]) ==
            Some(File(Hello, Some(448)))
    ensures PermText(448) == "700"
  {
    assert "700"[..2] == "70" && "70"[..1] == "7" && "7"[..0] == [];
    LookupDocs();
    PermTextDigits(448);
  }

  /** "abc" is not an octal mode. */
  lemma ChmodInvalid()
    ensures ParseOctal("abc") == None
  {
    assert !IsOctalDigit("abc"[0]);
  }
}
