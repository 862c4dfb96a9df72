/** The two walkers side by side: once its rewrite is corrected, the walker of
    src/fs.ts reports the same names and relative paths, in the same order, as
    the walker of src/extension.ts. */
module Agreement {
  import opened Wrappers
  import opened FileTree
  import FsWalker
  import Picker

  function AsEntries(xs: seq<FsWalker.FileInfo>): seq<Picker.Entry> {
    seq(|xs|, i requires 0 <= i < |xs| => Picker.Entry(xs[i].fileName, xs[i].fileRelativePath))
  }

  lemma {:induction false} WalkersAgree(dir: Path, name: string, es: seq<Node>)
    requires Readable(es)
    ensures AsEntries(FsWalker.ListFiles(FsWalker.Intended, dir, Some(Dir(name, es))).value)
         == Picker.GetFiles(dir, [], Some(Dir(name, es))).value
  {
    var xss := FsWalker.RecurseIntoSubDirectories(FsWalker.Intended, dir, es).value;
    FsWalker.ListReadableDirectory(FsWalker.Intended, dir, name, es);
    var fs := FsWalker.ListFiles(FsWalker.Intended, dir, Some(Dir(name, es))).value;
    var ext := Picker.GetFiles(dir, [], Some(Dir(name, es))).value;
    FsWalker.IntendedPathsAreRootRelative(dir, es);
    assert |fs| == |ext|;
    forall i | 0 <= i < |fs|
      ensures AsEntries(fs)[i] == ext[i]
    {
      assert FsWalker.RelativePaths(fs)[i] == Leaves(es)[i];
      assert Picker.Relatives(ext)[i] == Prepend([], Leaves(es))[i];
      assert [] + Leaves(es)[i] == Leaves(es)[i];
      assert fs[i] in fs && ext[i] in ext;
    }
  }
}
