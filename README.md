# In-memory virtual filesystem of the OS shell emulator

This project models the `VFS` class of `main.py`, the in-memory virtual
filesystem behind the shell emulator's `ls`, `cd`, `cat` and `chmod`
commands. It holds a tree of directories and files built from a ZIP
archive, and a current directory. The model proves properties of it in
Dafny.

- `wrappers.dfy`: `Option`, standing for the source's `None`.
- `paths.dfy` (module `Paths`): `normalize_path` as specification
  functions. These are Python's `split("/")`, `"/".join`, `rstrip("/")` and
  `os.path.join`, the comprehension that drops `""` and `"."` pieces, and the
  push/pop loop over the pieces. The lemmas show that the result is
  canonical, that extra `..` clamp at the root, and that normalising is
  idempotent.
- `path_examples.dfy` (module `PathExamples`): worked normalisations.
- `tree.dfy` (module `Tree`): nodes as values. A directory keeps its
  children as an ordered association list, which behaves like a Python
  dict: assigning to a key keeps an existing key's place, and a new key
  goes last. The module also holds the walk that `get_node` performs and
  the permission update that `chmod` performs.
- `octal.dfy` (module `Octal`): the octal parse of `chmod`'s mode and the
  `oct(p)[-3:]` text of `list_dir`.
- `importer.dfy` (module `Importer`): the tree-building loop of
  `load_from_zip`, over a sequence of archive entries.
- `vfs.dfy` (module `FileSystem`): the class `Vfs` with fields `root` and
  `currentPath`. Its methods are `NormalizePath`, `GetNode`, `ListDir`,
  `ChangeDir`, `CatFile`, `Chmod` and `LoadFromZip`. Each is proved against
  the specification functions above. `ChangeDir`, `Chmod` and `LoadFromZip`
  modify the fields, and the others only read them.
- `import_examples.dfy` (module `ImportExamples`): importing `docs/` and
  `docs/readme.txt`, then listing the tree and running `chmod 700`.

The source's node is a dict with a `"type"` tag. Here it is the datatype
`Node = Dir(children, perm) | File(content, perm)`. `perm` is an
`Option<nat>`, because the root dict has no `"permissions"` key until
`chmod` sets one (main.py:22). `list_dir` then reads a missing value as 0.
Content is the raw bytes of the archive entry. Every node of the source
tree is a fresh dict and no node is shared, so value semantics give the
same results as the source's in-place updates.

The model keeps these behaviours of the code, which a reader might not
expect:

- `chmod` looks the path up before it parses the mode, so a missing path
  is reported even when the mode is also bad (main.py:139-143).
- `chmod` does not check the range of the mode (main.py:147-149).
- `load_from_zip` changes the live tree entry by entry. It does not roll
  back when an entry fails (main.py:60-88); `Importer.ImportAllStopsAt`
  states what is left.
- A file entry replaces any existing child of the same name, even a
  directory (main.py:71).

## Model

| member | source | states |
|---|---|---|
| Paths.Split | main.py:33 | `str.split("/")`: always at least one piece |
| Paths.SplitConcat | main.py:33 | splitting at a "/" splits each side and concatenates the pieces |
| Paths.JoinSplit | main.py:33 | joining the pieces of a split with "/" gives the string back |
| Paths.JoinWith | main.py:41 | `"/".join` of segments starts with the first segment |
| Paths.JoinPath | main.py:41 | the returned string: "/" for no segments, and otherwise "/" followed by the first segment |
| Paths.JoinPathCanonical | main.py:41 | joining valid segments gives a canonical path whose segments are exactly those segments |
| Paths.SplitJoin | main.py:41 | splitting a "/"-join of slash-free pieces gives the pieces back |
| Paths.PathJoin | main.py:30 | `os.path.join` with a relative second part: the result starts with the first part and ends with the second |
| Paths.RStrip | main.py:30 | the result is a prefix of the input, does not end in "/", and only slashes were removed |
| Paths.Target | main.py:27-30 | an absolute path is taken as it is; a relative one, joined to the current directory, never ends in "/" |
| Paths.DropTrivial | main.py:33 | the comprehension keeps no "" or "." piece, and the result is never longer than the input |
| Paths.DropTrivialMembers | main.py:33 | a piece is kept exactly when it is one of the input pieces and is neither "" nor "." |
| Paths.DropTrivialConcat | main.py:33 | filtering a concatenation filters each part in turn, so the kept pieces stay in their order |
| Paths.Segments | main.py:33 | the pieces kept from a path's split are never empty or "." and hold no "/" |
| Paths.DropTrivialClean | main.py:33 | the pieces kept from slash-free pieces are all non-empty and not "." |
| Paths.SegmentsPathJoin | main.py:30-33 | the pieces of a joined path are those of the current directory followed by those of the argument |
| Paths.TargetSegments | main.py:27-33 | the pieces kept are those of an absolute path alone, or those of the current directory followed by those of a relative path |
| Paths.Step | main.py:35-40 | ".." pops the last resolved segment, or nothing at the root; any other piece is pushed |
| Paths.Resolve | main.py:33-40 | `resolved` after the loop: every segment is non-empty, not ".", not ".." and holds no "/" |
| Paths.Apply | main.py:34-40 | the loop never yields more segments than it was given |
| Paths.ApplyConcat | main.py:35-40 | running the loop over two runs of pieces is running it over the first, then the second from where it stopped |
| Paths.ApplyNoParent | main.py:35-40 | without "..", the loop appends the pieces unchanged |
| Paths.ExcessParentsClamped | main.py:36-38 | ".." with nothing left to pop is dropped: climbing at least as far as the depth ends at the root, whatever follows |
| Paths.Normalize | main.py:25-41 | the normalised path always starts with "/" |
| Paths.DropEmpty | main.py:49 | the comprehension keeps no empty piece, and the result is never longer than the input |
| Paths.DropEmptyMembers | main.py:49 | a piece is kept exactly when it is one of the input pieces and is not empty |
| Paths.NormalizeCanonical | main.py:25-41 | the result is canonical ("/" or "/" followed by segments that are not empty, ".", ".." and hold no "/"), and its segments are the resolved ones |
| Paths.CanonicalShape | main.py:41 | a canonical path starts with "/" and ends with "/" only when it is "/" |
| Paths.NormalizeIdempotent | main.py:25-41 | normalising a canonical path returns it unchanged, whatever the current directory |
| Paths.CanonicalResolve | main.py:27-28 | an absolute canonical path resolves to its own segments and joins back to itself |
| Paths.ResolveRelative | main.py:29-30 | a relative path is resolved starting from the current directory's segments |
| Paths.PiecesOfNormalize | main.py:45-49 | the normalised path is "/" exactly when no segment is left, and otherwise the pieces get_node walks are the resolved segments |
| PathExamples.NormalizeParentExample | main.py:33-41 | "/a/b/../c" normalises to "/a/c" from any current directory |
| PathExamples.ResolveClamp | main.py:36-38 | "../../x" from "/a" resolves to the single segment "x" |
| PathExamples.NormalizeClampExample | main.py:36-38 | "../../x" from "/a" normalises to "/x" |
| PathExamples.NormalizeRootParentExample | main.py:36-38 | ".." from "/" stays "/" |
| Tree.NewDir | main.py:79-83 | a created directory has no children and 0o755, and no path below it leads anywhere |
| Tree.PermOrZero | main.py:103 | a node's permissions, or 0 when it has none |
| Tree.Get | main.py:52-53 | a child is found exactly when its name is among the directory's names, and it is the child stored under that name |
| Tree.Put | main.py:71 | after the assignment the name maps to the new node and every other name to what it had; an existing name keeps its place and a new one goes last |
| Tree.PutFrom | main.py:71 | every child after the assignment is the new one or one that was already there |
| Tree.PutUnique | main.py:71 | assignment keeps the names of a directory unique |
| Tree.PutPut | main.py:71 | assigning under one key twice leaves only the second value; `Tree.SetPermIdempotent` relies on it |
| Tree.Walk | main.py:51-56 | the empty path gives the node itself; a found node means the first segment named a child of a directory |
| Tree.WalkCons | main.py:51-55 | a walk fails at a file or a missing name, and otherwise goes on from the named child |
| Tree.WalkAppend | main.py:51-55 | walking a path in two parts is walking the first part, then the second from where it ended |
| Tree.WalkPrefixStep | main.py:51-55 | each step follows the child named by the next segment, fails at a file or a missing name, and a failed step fails the whole lookup |
| Tree.WalkFails | main.py:51-56 | the lookup returns None exactly when, after some prefix it reaches, the next name is missing or the node reached is a file |
| Tree.SetPermAt | main.py:149 | the node at the path gets the new permissions and keeps everything else; the root keeps its kind |
| Tree.SetPermElsewhere | main.py:149 | every other node keeps its kind, content, child names and permissions |
| Tree.SetPermIdempotent | main.py:149 | setting the same mode twice gives the same tree as setting it once |
| Tree.SetPermWellFormed | main.py:149 | a permission update keeps names unique in every directory |
| Octal.ParseOctal | main.py:148 | a mode parses exactly when it is a non-empty run of digits 0 to 7, and a mode of k digits is below 8^k, so a three-digit mode is at most 0o777 |
| Octal.Value | main.py:148 | the number a run of k octal digits denotes is below 8^k; `Octal.ParseOctalText` proves it the inverse of oct |
| Octal.OctalText | main.py:103 | oct writes at least one digit, all octal, the last being the number mod 8 |
| Octal.PermText | main.py:103 | the listed text is three characters, the last being the lowest octal digit |
| Octal.ParseOctalText | main.py:103 | parsing the octal digits oct writes gives the number back |
| Octal.PermTextDigits | main.py:103 | from 0o100 up, the listed permissions are the last three octal digits |
| Octal.PermTextSmall | main.py:103 | below 0o10 the listed text is "0o" and the digit |
| Octal.PermTextMiddle | main.py:103 | from 0o10 to 0o77 the listed text is "o" and the two digits |
| Octal.PermTextRoundTrip | main.py:103 | a listed mode from 0o100 to 0o777, parsed as chmod parses it, is the same mode |
| Importer.IsDirName | main.py:68 | an entry names a directory exactly when stripping trailing "/" changes its name |
| Importer.Parts | main.py:63-64 | an entry's name always gives at least one part |
| Importer.AddEntry | main.py:66-84 | one entry leaves the root a directory with its own permissions |
| Importer.AddMember | main.py:62-84 | after one entry the root is a directory, a readable file is at its path with 0o644 and its bytes, and a directory entry's path exists |
| Importer.AddEntryTarget | main.py:67-84 | a file entry puts a file with 0o644 and exactly its bytes at its path, replacing what was there; a directory entry puts a new directory with 0o755 where nothing was and keeps an existing node with its children; an unreadable file leaves that node as it was |
| Importer.AddEntryPrefixes | main.py:76-84 | every proper prefix of an entry's path is a directory afterwards, with its old permissions, or 0o755 when it was created |
| Importer.AddEntryElsewhere | main.py:66-84 | every path that parts ways with the entry's path is untouched |
| Importer.AddEntryWellFormed | main.py:71-83 | importing an entry keeps names unique in every directory |
| Importer.ImportAll | main.py:62-85 | the imported tree's root is a directory |
| Importer.ImportAllOk | main.py:62-88 | the import reports success exactly when every file entry could be read |
| Importer.ImportAllStopsAt | main.py:60-88 | at the first unreadable entry the import stops with false, and keeps the tree built from the earlier entries plus the directories on that entry's way |
| Importer.ImportAllSnoc | main.py:62-85 | each entry of a successful import acts on the tree left by the entries before it |
| Importer.ImportAllWellFormed | main.py:62-85 | the imported tree has unique names in every directory |
| ImportExamples.ImportDocs | main.py:62-85 | importing "docs/" and then "docs/readme.txt" gives docs (0o755) holding readme.txt (0o644, its bytes), and reports success |
| ImportExamples.LookupDocs | main.py:100-104 | both imported nodes are found by name, and listing docs gives the one line "-644 readme.txt" |
| ImportExamples.ChmodReadme | main.py:147-149 | "700" parses to 0o700, chmod stores it on readme.txt, and the listing then shows "700" |
| ImportExamples.ChmodInvalid | main.py:147-152 | "abc" is not an octal mode |
| FileSystem.LineOf | main.py:102-104 | a child's line carries its name, "d" exactly for a directory, and three characters of permissions |
| FileSystem.LineText | main.py:104 | a line's text is the kind character, the permission text, one space, then the name, and nothing else |
| FileSystem.JoinLines | main.py:106 | joining the lines' texts with newlines starts with the first line's text, and one line gives exactly its text |
| FileSystem.JoinLinesAppend | main.py:106 | joining two runs of lines is joining each with one newline between, which with the one-line case fixes every line in order |
| FileSystem.Render | main.py:106 | an empty listing is "(пусто)", and otherwise the text starts with the first line; `FileSystem.RenderSnoc` gives the rest |
| FileSystem.RenderSnoc | main.py:106 | a listing with one more line is the previous text, a newline and that line's text |
| FileSystem.ResolveNormalized | main.py:45 | normalising an already normalised path again yields the same segments |
| FileSystem.Vfs.constructor | main.py:21-23 | an empty root without permissions, and "/" as the current directory |
| FileSystem.Vfs.NormalizePath | main.py:25-41 | the push/pop loop returns the canonical normalisation of the path against the current directory |
| FileSystem.Vfs.GetNode | main.py:43-56 | the loop returns the node reached by following the resolved segments from the root, the root itself for "/", and None when a name is missing or a file is met |
| FileSystem.Vfs.Locate | main.py:92-93 | a command's target is the normalised path, and its node is the one that path names |
| FileSystem.Vfs.ListDir | main.py:90-106 | a missing path is NotFound and a file is NotADirectory; a directory gives one line per child in insertion order, with "d" or "-" and the last three characters of oct of its permissions (0 when it has none) |
| FileSystem.Vfs.ChangeDir | main.py:108-119 | the current directory becomes the normalised path exactly when that path names a directory; otherwise it is unchanged and the error says why; the tree is never changed |
| FileSystem.Vfs.CatFile | main.py:121-130 | a missing path is NotFound, a directory is NotAFile, and a file gives its stored bytes; nothing changes |
| FileSystem.Vfs.Chmod | main.py:137-152 | a missing path is NotFound before the mode is parsed; a mode that does not parse is InvalidMode; in both cases nothing changes; otherwise the parsed mode, unchecked, is stored on that node only and returned |
| FileSystem.Vfs.LoadFromZip | main.py:58-88 | an archive that cannot be opened gives false and no change; otherwise the tree is the one the entries build in order, and the result is false exactly when an entry could not be read |

## Left out

- The `ShellEmulator` class (main.py:157-336) is not part of this model:
  argument and YAML configuration, console output, the startup script, the
  interactive loop, `$HOME` expansion and command dispatch are all I/O.
  This includes the argument defaults of the dispatcher (`ls` on ".", `cd`
  to "/"), and `list_dir`'s own default `path="."` (main.py:90), which the
  dispatcher never leaves to apply; `ListDir(".")` gives what that default
  would.
- Paths.PathJoin: does not model `os.path.join` dropping the first part
  when the second is absolute, because `normalize_path` only joins a
  relative path (main.py:27-30).
- The `Logger` class (main.py:341-356) is file I/O.
- Reading the ZIP container is not modelled. An archive is an
  `Option<seq<Member>>`: None when it cannot be opened, and otherwise the
  entries with the bytes each read yields (None when the read raises). The
  error message printed on failure is not modelled.
- FileSystem.Vfs.LoadFromZip: requires that no entry descends through a
  file (`Importer.Loadable`). The source would add a `children` key to that
  file's dict (main.py:78-84), which a two-variant node cannot express.
- FileSystem.Vfs.LoadFromZip: the source walks into the tree with a cursor
  and updates each dict in place. Here that inner descent is the recursive
  function `Importer.AddEntry`, which rebuilds the path from the root.
  No node is shared, so the resulting tree is the same.
- FileSystem.Vfs.CatFile: returns the stored raw bytes. The source stores
  them base64-encoded (main.py:73). On output it decodes them as UTF-8 text
  and falls back to the encoded string (main.py:131-135). Both codecs are
  library code.
- FileSystem.Vfs.Chmod: takes the mode as a string of octal digits.
  Python's `int(mode, 8)` also accepts a sign, whitespace, underscores, a
  "0o" prefix and non-ASCII Unicode decimal digits (fullwidth "７００" is
  0o700), which here are invalid modes. An integer mode, which the
  source stores as given, is not modelled, because the shell always passes
  a string.
- FileSystem.Vfs.ListDir: returns the listing lines. `FileSystem.Render`
  gives the joined text, with "(пусто)" for an empty directory. The error
  messages, which quote the argument, are not modelled; the errors are the
  `Error` values.
- FileSystem.Vfs.Valid: does not require the current directory to name a
  directory. The source keeps that only through `change_dir`, and a later
  import could replace the directory by a file. `ChangeDir` ensures it after
  every successful change.
