/** The walker behind `getDirectory(dir).getFiles()` in src/fs.ts. A
    subdirectory's results have their relative path rewritten by prefixing
    the full path of the directory being listed, not the subdirectory's name.
    The walker is written once, parameterised by that prefix: `AsWritten` is
    the program's behaviour, `Intended` the corrected one. */
module FsWalker {
  import opened Wrappers
  import opened Seqs
  import opened FileTree
  import opened Errors

  /** The `FileInfo` class: absolute path, relative path, base name and kind. */
  datatype FileInfo = FileInfo(filePath: Path, fileRelativePath: Path, fileName: string, isDirectory: bool)

  /** A `Directory` handle: the path it is bound to and what lives there. */
  datatype Directory = Directory(dir: Path, node: Node)

  /** Which prefix a subdirectory's results receive. */
  datatype Rewriting =
    /** The program: the full path of the directory being listed. */
    | AsWritten
    /** The evident intent: the subdirectory's own name. */
    | Intended

  function RewritePrefix(v: Rewriting, dir: Path, sub: string): Path {
    match v
    case AsWritten => dir
    case Intended => [sub]
  }

  /** A record the walker may emit: a non-directory whose absolute and
      relative paths both end with its name. */
  predicate IsLeaf(x: FileInfo) {
    && !x.isDirectory
    && |x.filePath| > 0 && x.filePath[|x.filePath| - 1] == x.fileName
    && |x.fileRelativePath| > 0 && x.fileRelativePath[|x.fileRelativePath| - 1] == x.fileName
  }

  function FilePaths(xs: seq<FileInfo>): seq<Path> {
    seq(|xs|, i requires 0 <= i < |xs| => xs[i].filePath)
  }

  function RelativePaths(xs: seq<FileInfo>): seq<Path> {
    seq(|xs|, i requires 0 <= i < |xs| => xs[i].fileRelativePath)
  }

  /** Validates the root: `at` is what exists at `dir`, `None` when nothing does. */
  function GetDirectory(dir: Path, at: Option<Node>): (r: Result<Directory, Error>)
    ensures r.Success? <==> at.Some? && at.value.IsDirectory()
    ensures r.Failure? ==> r.error == NotADirectory(dir)
    ensures r.Success? ==> r.value.dir == dir && Some(r.value.node) == at
  {
    if at.None? || !at.value.IsDirectory() then Failure(NotADirectory(dir))
    else Success(Directory(dir, at.value))
  }

  /** The record built for each directory entry as it is listed. */
  function ToFileInfo(dir: Path, n: Node): (r: FileInfo)
    ensures r.fileName == n.name && r.fileRelativePath == [r.fileName]
    ensures r.filePath == dir + r.fileRelativePath
    ensures r.isDirectory <==> !n.File?
    ensures n.File? ==> IsLeaf(r)
  {
    FileInfo(dir + [n.name], [n.name], n.name, n.IsDirectory())
  }

  /** The rewrite applied to a subdirectory's results. */
  function Rewrite(prefix: Path, xs: seq<FileInfo>): (r: seq<FileInfo>)
    ensures |r| == |xs|
    ensures forall i :: 0 <= i < |xs| ==>
      && r[i].fileRelativePath == prefix + xs[i].fileRelativePath
      && r[i].filePath == xs[i].filePath
      && r[i].fileName == xs[i].fileName
      && r[i].isDirectory == xs[i].isDirectory
  {
    seq(|xs|, i requires 0 <= i < |xs| => xs[i].(fileRelativePath := prefix + xs[i].fileRelativePath))
  }

  /** The list one entry of `dir` contributes: a singleton for a
      non-directory, the rewritten results of walking a subdirectory (whose
      `getDirectory` check passes, since the entry is a directory). */
  function EntryFiles(v: Rewriting, dir: Path, n: Node): (r: Result<seq<FileInfo>, Error>)
    ensures r.Success? <==> Readable([n])
    ensures r.Failure? ==> r.error.ReadFailed?
    ensures r.Success? ==> |r.value| == FileCount([n])
    ensures r.Success? ==> forall x :: x in r.value ==> IsLeaf(x)
    decreases n, 1
  {
    match n
    case File(_) => Success([ToFileInfo(dir, n)])
    case Unreadable(m) => Failure(ReadFailed(dir + [m]))
    case Dir(m, cs) =>
      var sub :- RecurseIntoSubDirectories(v, dir + [m], cs);
      var out := Rewrite(RewritePrefix(v, dir, m), Flatten(sub));
      assert forall i :: 0 <= i < |out| ==> Flatten(sub)[i] in Flatten(sub);
      Success(out)
  }

  /** One list per entry of the directory `dir`, in listing order, as
      `Promise.all` delivers them; the first failure aborts the whole walk. */
  function RecurseIntoSubDirectories(v: Rewriting, dir: Path, es: seq<Node>): (r: Result<seq<seq<FileInfo>>, Error>)
    ensures r.Success? <==> Readable(es)
    ensures r.Failure? ==> r.error.ReadFailed?
    ensures r.Success? ==> |r.value| == |es|
    ensures r.Success? ==> forall i :: 0 <= i < |es| && !es[i].IsDirectory() ==>
      r.value[i] == [ToFileInfo(dir, es[i])]
    ensures r.Success? ==> |Flatten(r.value)| == FileCount(es)
    ensures r.Success? ==> forall x :: x in Flatten(r.value) ==> IsLeaf(x)
    decreases es, 0
  {
    if es == [] then Success([])
    else
      var head :- EntryFiles(v, dir, es[0]);
      var rest :- RecurseIntoSubDirectories(v, dir, es[1..]);
      assert Flatten([head] + rest) == head + Flatten(rest);
      Success([head] + rest)
  }

  /** `Directory.getFiles`: list the bound directory, recurse, flatten. */
  function GetFiles(v: Rewriting, d: Directory): (r: Result<seq<FileInfo>, Error>)
    ensures r.Success? <==> d.node.Dir? && Readable(d.node.children)
    ensures r.Failure? ==> r.error.ReadFailed?
    ensures r.Success? ==> |r.value| == FileCount(d.node.children)
    ensures r.Success? ==> forall x :: x in r.value ==> IsLeaf(x)
  {
    match d.node
    case Dir(_, cs) =>
      var xss :- RecurseIntoSubDirectories(v, d.dir, cs);
      Success(Flatten(xss))
    case _ => Failure(ReadFailed(d.dir))
  }

  /** `getDirectory(dir).getFiles()`, the composition the tests exercise. */
  function ListFiles(v: Rewriting, dir: Path, at: Option<Node>): (r: Result<seq<FileInfo>, Error>)
    ensures (at.None? || at.value.File?) ==> r == Failure(NotADirectory(dir))
    ensures r.Success? <==> at.Some? && at.value.Dir? && Readable(at.value.children)
    ensures r.Failure? ==> (r.error == NotADirectory(dir) <==> at.None? || at.value.File?)
  {
    var d :- GetDirectory(dir, at);
    GetFiles(v, d)
  }

  // ---------------------------------------------------------------------
  // Paths

  /** The relative path a file at root-relative path `p` below `dir` ends
      up with: each enclosing level puts its rewrite prefix in front. */
  function RelativeOf(v: Rewriting, dir: Path, p: Path): Path
    decreases p
  {
    if |p| <= 1 then p
    else RewritePrefix(v, dir, p[0]) + RelativeOf(v, dir + [p[0]], p[1..])
  }

  function RelativesOf(v: Rewriting, dir: Path, ps: seq<Path>): seq<Path> {
    seq(|ps|, i requires 0 <= i < |ps| => RelativeOf(v, dir, ps[i]))
  }

  lemma FilePathsAppend(a: seq<FileInfo>, b: seq<FileInfo>)
    ensures FilePaths(a + b) == FilePaths(a) + FilePaths(b)
    ensures RelativePaths(a + b) == RelativePaths(a) + RelativePaths(b)
  {
  }

  /** Each entry's files have absolute paths `dir` joined with their real
      path below the entry. */
  lemma {:induction false} EntryFilePaths(v: Rewriting, dir: Path, n: Node)
    requires Readable([n])
    ensures FilePaths(EntryFiles(v, dir, n).value) == Prepend(dir, NodeLeaves(n))
    decreases n, 1
  {
    match n
    case File(m) =>
      assert FilePaths(EntryFiles(v, dir, n).value) == [dir + [m]];
    case Unreadable(_) =>
    case Dir(m, cs) =>
      var sub := RecurseIntoSubDirectories(v, dir + [m], cs).value;
      FilePathsAreReal(v, dir + [m], cs);
      PrependPrepend(dir, [m], Leaves(cs));
      assert FilePaths(Rewrite(RewritePrefix(v, dir, m), Flatten(sub))) == FilePaths(Flatten(sub));
  }

  /** Every emitted absolute path is `dir` joined with a file's real path
      below it, in the reference enumeration's order. */
  lemma {:induction false} FilePathsAreReal(v: Rewriting, dir: Path, es: seq<Node>)
    requires Readable(es)
    ensures FilePaths(Flatten(RecurseIntoSubDirectories(v, dir, es).value)) == Prepend(dir, Leaves(es))
    decreases es, 0
  {
    if es != [] {
      RecurseCons(v, dir, es);
      var head := EntryFiles(v, dir, es[0]).value;
      var rest := RecurseIntoSubDirectories(v, dir, es[1..]).value;
      assert Flatten([head] + rest) == head + Flatten(rest);
      EntryFilePaths(v, dir, es[0]);
      FilePathsAreReal(v, dir, es[1..]);
      FilePathsAppend(head, Flatten(rest));
      PrependAppend(dir, NodeLeaves(es[0]), Leaves(es[1..]));
    }
  }

  lemma {:induction false} EntryRelativePaths(v: Rewriting, dir: Path, n: Node)
    requires Readable([n])
    ensures RelativePaths(EntryFiles(v, dir, n).value) == RelativesOf(v, dir, NodeLeaves(n))
    decreases n, 1
  {
    match n
    case File(m) =>
      assert RelativePaths(EntryFiles(v, dir, n).value) == [[m]];
    case Unreadable(_) =>
    case Dir(m, cs) =>
      var sub := Flatten(RecurseIntoSubDirectories(v, dir + [m], cs).value);
      var out := Rewrite(RewritePrefix(v, dir, m), sub);
      RelativePathsFollowTree(v, dir + [m], cs);
      forall i | 0 <= i < |out|
        ensures RelativePaths(out)[i] == RelativesOf(v, dir, NodeLeaves(n))[i]
      {
        var q := Leaves(cs)[i];
        assert RelativePaths(sub)[i] == RelativeOf(v, dir + [m], q);
        assert NodeLeaves(n)[i] == [m] + q;
        assert ([m] + q)[0] == m && ([m] + q)[1..] == q && |[m] + q| > 1;
        assert RelativeOf(v, dir, [m] + q) == RewritePrefix(v, dir, m) + RelativeOf(v, dir + [m], q);
      }
  }

  lemma RelativesOfAppend(v: Rewriting, dir: Path, a: seq<Path>, b: seq<Path>)
    ensures RelativesOf(v, dir, a + b) == RelativesOf(v, dir, a) + RelativesOf(v, dir, b)
  {
  }

  /** Every emitted relative path is what the per-level rewriting makes of
      the file's real path below `dir`. */
  lemma {:induction false} RelativePathsFollowTree(v: Rewriting, dir: Path, es: seq<Node>)
    requires Readable(es)
    ensures RelativePaths(Flatten(RecurseIntoSubDirectories(v, dir, es).value)) == RelativesOf(v, dir, Leaves(es))
    decreases es, 0
  {
    if es != [] {
      RecurseCons(v, dir, es);
      var head := EntryFiles(v, dir, es[0]).value;
      var rest := RecurseIntoSubDirectories(v, dir, es[1..]).value;
      assert Flatten([head] + rest) == head + Flatten(rest);
      EntryRelativePaths(v, dir, es[0]);
      RelativePathsFollowTree(v, dir, es[1..]);
      FilePathsAppend(head, Flatten(rest));
      RelativesOfAppend(v, dir, NodeLeaves(es[0]), Leaves(es[1..]));
    }
  }

  /** The corrected rewrite adds nothing to a file's real path. */
  lemma {:induction false} IntendedRelativeIsPath(dir: Path, p: Path)
    ensures RelativeOf(Intended, dir, p) == p
    decreases p
  {
    if |p| > 1 {
      IntendedRelativeIsPath(dir + [p[0]], p[1..]);
      assert [p[0]] + p[1..] == p;
    }
  }

  /** With the corrected rewrite, relative paths are relative to the root:
      each names a file that exists there, and the absolute path is the root
      joined with it. */
  lemma {:induction false} IntendedPathsAreRootRelative(dir: Path, es: seq<Node>)
    requires Readable(es)
    ensures var out := Flatten(RecurseIntoSubDirectories(Intended, dir, es).value);
      && RelativePaths(out) == Leaves(es)
      && forall i :: 0 <= i < |out| ==>
           out[i].filePath == dir + out[i].fileRelativePath && FileAt(es, out[i].fileRelativePath)
  {
    var out := Flatten(RecurseIntoSubDirectories(Intended, dir, es).value);
    RelativePathsFollowTree(Intended, dir, es);
    FilePathsAreReal(Intended, dir, es);
    forall i | 0 <= i < |out|
      ensures out[i].fileRelativePath == Leaves(es)[i]
      ensures out[i].filePath == dir + out[i].fileRelativePath && FileAt(es, out[i].fileRelativePath)
    {
      IntendedRelativeIsPath(dir, Leaves(es)[i]);
      assert RelativePaths(out)[i] == out[i].fileRelativePath;
      assert FilePaths(out)[i] == out[i].filePath;
      LeavesAreFiles(es, Leaves(es)[i]);
    }
  }

  /** As written, a file one level down gets the root's own path, not the
      subdirectory's name, in front of its name: below root `a`, the file
      `b/f` is reported as `a/f`. */
  lemma RelativePathNotRootRelative()
    ensures var es := [Dir("b", [File("f")])];
      && ListFiles(AsWritten, ["a"], Some(Dir("a", es)))
         == Success([FileInfo(["a", "b", "f"], ["a", "f"], "f", false)])
      && Leaves(es) == [["b", "f"]]
  {
    var es := [Dir("b", [File("f")])];
    var nested := FileInfo(["a", "b", "f"], ["f"], "f", false);
    var out := FileInfo(["a", "b", "f"], ["a", "f"], "f", false);
    assert ["a", "b"] + ["f"] == ["a", "b", "f"];
    assert ["a"] + ["f"] == ["a", "f"];
    assert ["a"] + ["b"] == ["a", "b"];
    assert ["b"] + ["f"] == ["b", "f"];
    SingleEntryListing(AsWritten, ["a", "b"], File("f"));
    assert EntryFiles(AsWritten, ["a", "b"], File("f")).value == [nested];
    assert Flatten([[nested]]) == [nested];
    assert Rewrite(["a"], [nested]) == [out];
    assert EntryFiles(AsWritten, ["a"], es[0]).value == [out];
    SingleEntryListing(AsWritten, ["a"], es[0]);
    assert Flatten([[out]]) == [out];
    ListReadableDirectory(AsWritten, ["a"], "a", es);
    assert Leaves([File("f")]) == [["f"]];
    assert Prepend(["b"], [["f"]]) == [["b", "f"]];
    assert NodeLeaves(es[0]) == [["b", "f"]];
    assert es[1..] == [];
  }

  /** What an entry contributes when it can be read; nothing otherwise. */
  function EntryList(v: Rewriting, dir: Path, n: Node): seq<FileInfo>
  {
    match EntryFiles(v, dir, n)
    case Success(xs) => xs
    case Failure(_) => []
  }

  /** The listing read position by position: entry `i` gives list `i`. */
  function PerEntry(v: Rewriting, dir: Path, es: seq<Node>): seq<seq<FileInfo>>
  {
    seq(|es|, i requires 0 <= i < |es| => EntryList(v, dir, es[i]))
  }

  /** The recursive walk agrees with the position-by-position reading. */
  lemma {:induction false} RecurseIsPerEntry(v: Rewriting, dir: Path, es: seq<Node>)
    requires Readable(es)
    ensures RecurseIntoSubDirectories(v, dir, es).value == PerEntry(v, dir, es)
    decreases es
  {
    if es != [] {
      RecurseCons(v, dir, es);
      RecurseIsPerEntry(v, dir, es[1..]);
      EntryListOf(v, dir, es[0]);
      PerEntryCons(v, dir, es);
    }
  }

  /** Reading position by position starts with the first entry. */
  lemma PerEntryCons(v: Rewriting, dir: Path, es: seq<Node>)
    requires es != []
    ensures PerEntry(v, dir, es) == [EntryList(v, dir, es[0])] + PerEntry(v, dir, es[1..])
  {
    assert [es[0]] + es[1..] == es;
  }

  /** Listing is order-preserving: the files of a concatenated listing are
      the files of each part, in order. */
  lemma {:induction false} RecurseAppend(v: Rewriting, dir: Path, a: seq<Node>, b: seq<Node>)
    requires Readable(a + b)
    ensures Readable(a) && Readable(b)
    ensures RecurseIntoSubDirectories(v, dir, a + b).value
         == RecurseIntoSubDirectories(v, dir, a).value + RecurseIntoSubDirectories(v, dir, b).value
  {
    ReadableAppend(a, b);
    RecurseIsPerEntry(v, dir, a + b);
    RecurseIsPerEntry(v, dir, a);
    RecurseIsPerEntry(v, dir, b);
    PerEntryAppend(v, dir, a, b);
  }

  /** Reading position by position commutes with concatenation. */
  lemma PerEntryAppend(v: Rewriting, dir: Path, a: seq<Node>, b: seq<Node>)
    ensures PerEntry(v, dir, a + b) == PerEntry(v, dir, a) + PerEntry(v, dir, b)
  {
    var l, r := PerEntry(v, dir, a + b), PerEntry(v, dir, a) + PerEntry(v, dir, b);
    assert |l| == |r|;
    forall i | 0 <= i < |l| ensures l[i] == r[i] {
      if i < |a| {
        assert (a + b)[i] == a[i];
      } else {
        assert (a + b)[i] == b[i - |a|];
      }
    }
  }

  /** A readable entry contributes exactly its list. */
  lemma EntryListOf(v: Rewriting, dir: Path, n: Node)
    requires Readable([n])
    ensures EntryList(v, dir, n) == EntryFiles(v, dir, n).value
  {
  }

  /** Reading a slice position by position is slicing the reading. */
  lemma PerEntrySlices(v: Rewriting, dir: Path, es: seq<Node>, i: nat)
    requires i < |es|
    ensures PerEntry(v, dir, es[..i]) == PerEntry(v, dir, es)[..i]
    ensures PerEntry(v, dir, es[i + 1..]) == PerEntry(v, dir, es)[i + 1..]
    ensures PerEntry(v, dir, es)[i] == EntryList(v, dir, es[i])
  {
  }

  /** An entry's files stay together, at that entry's position in the
      listing: whatever precedes it first, whatever follows it after. */
  lemma {:induction false} EntryFilesContiguous(v: Rewriting, dir: Path, es: seq<Node>, i: nat)
    requires Readable(es) && i < |es|
    ensures Readable(es[..i]) && Readable([es[i]]) && Readable(es[i + 1..])
    ensures Flatten(RecurseIntoSubDirectories(v, dir, es).value)
         == Flatten(RecurseIntoSubDirectories(v, dir, es[..i]).value)
            + EntryFiles(v, dir, es[i]).value
            + Flatten(RecurseIntoSubDirectories(v, dir, es[i + 1..]).value)
  {
    ReadableAround(es, i);
    var p := PerEntry(v, dir, es);
    RecurseIsPerEntry(v, dir, es);
    RecurseIsPerEntry(v, dir, es[..i]);
    RecurseIsPerEntry(v, dir, es[i + 1..]);
    PerEntrySlices(v, dir, es, i);
    EntryListOf(v, dir, es[i]);
    FlattenAround(p, i);
  }

  /** A directory holding only empty directories yields no files. */
  lemma EmptyTreeYieldsNothing(v: Rewriting, dir: Path, name: string, es: seq<Node>)
    requires Readable(es) && FileCount(es) == 0
    ensures ListFiles(v, dir, Some(Dir(name, es))) == Success([])
  {
  }

  /** A non-empty listing yields its first entry's list, then the rest. */
  lemma RecurseCons(v: Rewriting, dir: Path, es: seq<Node>)
    requires Readable(es) && es != []
    ensures Readable([es[0]]) && Readable(es[1..])
    ensures RecurseIntoSubDirectories(v, dir, es).value
         == [EntryFiles(v, dir, es[0]).value] + RecurseIntoSubDirectories(v, dir, es[1..]).value
  {
  }

  /** `getDirectory` refuses exactly a missing root or a file root, with the
      message "<dir> is not a directory". */
  lemma RootRefusedWithMessage(v: Rewriting, dir: Path, at: Option<Node>)
    ensures (&& ListFiles(v, dir, at).Failure?
             && Message(ListFiles(v, dir, at).error) == Some(Render(dir) + " is not a directory"))
        <==> at.None? || at.value.File?
  {
  }

  /** A listing of one entry is that entry's list. */
  lemma SingleEntryListing(v: Rewriting, dir: Path, n: Node)
    requires Readable([n])
    ensures RecurseIntoSubDirectories(v, dir, [n]).value == [EntryFiles(v, dir, n).value]
  {
    assert [n][1..] == [];
    var r := RecurseIntoSubDirectories(v, dir, [n]);
    assert r.value[0] == EntryFiles(v, dir, n).value;
  }

  /** Listing a readable root directory flattens its entries' lists. */
  lemma ListReadableDirectory(v: Rewriting, dir: Path, name: string, es: seq<Node>)
    requires Readable(es)
    ensures ListFiles(v, dir, Some(Dir(name, es))) == Success(Flatten(RecurseIntoSubDirectories(v, dir, es).value))
  {
  }

  // ---------------------------------------------------------------------
  // The scenarios of src/test/suite/directory.test.ts

  /** A missing root and a root that is a file are both refused with the
      message "test is not a directory". */
  lemma TestRootIsNotADirectory(v: Rewriting)
    ensures ListFiles(v, ["test"], None) == Failure(NotADirectory(["test"]))
    ensures ListFiles(v, ["test"], Some(File("test"))) == Failure(NotADirectory(["test"]))
    ensures Message(NotADirectory(["test"])) == Some("test is not a directory")
  {
    assert Render(["test"]) == "test";
    assert "test" + " is not a directory" == "test is not a directory";
  }

  /** One file and no subdirectory: the file with its bare name. */
  lemma TestNoSubdirectories(v: Rewriting)
    ensures ListFiles(v, ["test"], Some(Dir("test", [File("test.txt")])))
         == Success([FileInfo(["test", "test.txt"], ["test.txt"], "test.txt", false)])
  {
    var file := FileInfo(["test", "test.txt"], ["test.txt"], "test.txt", false);
    assert ["test"] + ["test.txt"] == ["test", "test.txt"];
    SingleEntryListing(v, ["test"], File("test.txt"));
    assert EntryFiles(v, ["test"], File("test.txt")).value == [file];
    assert Flatten([[file]]) == [file];
    ListReadableDirectory(v, ["test"], "test", [File("test.txt")]);
  }

  /** An empty subdirectory contributes nothing, with or without a sibling file. */
  lemma TestEmptySubdirectory(v: Rewriting)
    ensures ListFiles(v, ["test"], Some(Dir("test", [Dir("test", [])]))) == Success([])
    ensures ListFiles(v, ["test"], Some(Dir("test", [Dir("test", []), File("test.txt")])))
         == Success([FileInfo(["test", "test.txt"], ["test.txt"], "test.txt", false)])
  {
    var file := FileInfo(["test", "test.txt"], ["test.txt"], "test.txt", false);
    assert ["test"] + ["test.txt"] == ["test", "test.txt"];
    var es := [Dir("test", []), File("test.txt")];
    assert EntryFiles(v, ["test"], es[0]).value == [];
    assert EntryFiles(v, ["test"], es[1]).value == [file];
    RecurseAppend(v, ["test"], [es[0]], [es[1]]);
    assert [es[0]] + [es[1]] == es;
    SingleEntryListing(v, ["test"], es[0]);
    SingleEntryListing(v, ["test"], es[1]);
    assert Flatten([[], [file]]) == [file];
    ListReadableDirectory(v, ["test"], "test", es);
  }

  /** A subdirectory named like its parent: the nested file comes first, with
      relative path `test/test.txt`, because the prefix is the parent's path
      `test`, which here coincides with the subdirectory's name. */
  lemma TestSubdirectoryAndFiles()
    ensures ListFiles(AsWritten, ["test"], Some(Dir("test", [Dir("test", [File("test.txt")]), File("test.txt")])))
         == Success([FileInfo(["test", "test", "test.txt"], ["test", "test.txt"], "test.txt", false),
                     FileInfo(["test", "test.txt"], ["test.txt"], "test.txt", false)])
  {
    var es := [Dir("test", [File("test.txt")]), File("test.txt")];
    var nested := FileInfo(["test", "test", "test.txt"], ["test.txt"], "test.txt", false);
    var first := FileInfo(["test", "test", "test.txt"], ["test", "test.txt"], "test.txt", false);
    var second := FileInfo(["test", "test.txt"], ["test.txt"], "test.txt", false);
    assert ["test", "test"] + ["test.txt"] == ["test", "test", "test.txt"];
    assert ["test"] + ["test"] == ["test", "test"];
    assert ["test"] + ["test.txt"] == ["test", "test.txt"];
    SingleEntryListing(AsWritten, ["test", "test"], File("test.txt"));
    assert EntryFiles(AsWritten, ["test", "test"], File("test.txt")).value == [nested];
    assert Flatten([[nested]]) == [nested];
    assert Rewrite(["test"], [nested]) == [first];
    assert EntryFiles(AsWritten, ["test"], es[0]).value == [first];
    assert EntryFiles(AsWritten, ["test"], es[1]).value == [second];
    RecurseAppend(AsWritten, ["test"], [es[0]], [es[1]]);
    assert [es[0]] + [es[1]] == es;
    SingleEntryListing(AsWritten, ["test"], es[0]);
    SingleEntryListing(AsWritten, ["test"], es[1]);
    assert Flatten([[first], [second]]) == [first, second];
    ListReadableDirectory(AsWritten, ["test"], "test", es);
  }
}
