/** The walker and the filtering step of the `filepicker.select` command in
    src/extension.ts. This walker passes each entry's relative path down the
    recursion, so every reported path is relative to the root. */
module Picker {
  import opened Wrappers
  import opened Seqs
  import opened FileTree
  import opened Errors

  /** What `lstat` establishes about one listed entry: its kind, its path
      relative to the root, its full path and its name. */
  datatype FileInfo = FileInfo(isDirectory: bool, relativePath: Path, path: Path, name: string)

  /** One walker result, `{ name, relative }`. */
  datatype Entry = Entry(name: string, relative: Path)

  /** One item offered to the picker. */
  datatype Candidate = Candidate(labelPath: Path, absolutePath: Path, fileName: string)

  /** A filter as given: a regular expression that compiled, seen only as the
      names it matches, or one that did not compile. */
  datatype Pattern = Valid(test: string -> bool) | Malformed

  /** `relative` names a file called `name`: its last segment is `name`. */
  predicate NamesFile(relative: Path, name: string) {
    |relative| > 0 && relative[|relative| - 1] == name
  }

  function Relatives(xs: seq<Entry>): seq<Path> {
    seq(|xs|, i requires 0 <= i < |xs| => xs[i].relative)
  }

  lemma RelativesAppend(a: seq<Entry>, b: seq<Entry>)
    ensures Relatives(a + b) == Relatives(a) + Relatives(b)
  {
  }

  /** Probing the listed entry `n` of `dir`, reached by `relativePath`. */
  function Probe(dir: Path, relativePath: Path, n: Node): (r: FileInfo)
    ensures r.name == n.name && (r.isDirectory <==> !n.File?)
    ensures r.relativePath == relativePath + [r.name] && NamesFile(r.relativePath, r.name)
    ensures r.path == dir + [r.name]
  {
    FileInfo(n.IsDirectory(), relativePath + [n.name], dir + [n.name], n.name)
  }

  /** The list one entry contributes: a singleton for a non-directory, the
      recursive walk of a directory with the entry's own paths passed down. */
  function EntryFiles(dir: Path, relativePath: Path, n: Node): (r: Result<seq<Entry>, Error>)
    ensures r.Success? <==> Readable([n])
    ensures r.Failure? ==> r.error == Rejected
    ensures r.Success? ==> Relatives(r.value) == Prepend(relativePath, NodeLeaves(n))
    ensures r.Success? ==> forall x :: x in r.value ==> NamesFile(x.relative, x.name)
    decreases n, 1
  {
    var info := Probe(dir, relativePath, n);
    if !info.isDirectory then
      assert Relatives([Entry(info.name, info.relativePath)]) == [relativePath + [n.name]];
      Success([Entry(info.name, info.relativePath)])
    else
      match n
      case Dir(m, cs) =>
        var xss :- Collect(info.path, info.relativePath, cs);
        PrependPrepend(relativePath, [m], Leaves(cs));
        Success(Flatten(xss))
      case _ => Failure(Rejected)
  }

  /** One list per entry of `dir`, in listing order; any failure rejects the
      whole walk, without a reason. */
  function Collect(dir: Path, relativePath: Path, es: seq<Node>): (r: Result<seq<seq<Entry>>, Error>)
    ensures r.Success? <==> Readable(es)
    ensures r.Failure? ==> r.error == Rejected
    ensures r.Success? ==> |r.value| == |es|
    ensures r.Success? ==> Relatives(Flatten(r.value)) == Prepend(relativePath, Leaves(es))
    ensures r.Success? ==> forall x :: x in Flatten(r.value) ==> NamesFile(x.relative, x.name)
    decreases es, 0
  {
    if es == [] then Success([])
    else
      var head :- EntryFiles(dir, relativePath, es[0]);
      var rest :- Collect(dir, relativePath, es[1..]);
      assert Flatten([head] + rest) == head + Flatten(rest);
      RelativesAppend(head, Flatten(rest));
      PrependAppend(relativePath, NodeLeaves(es[0]), Leaves(es[1..]));
      Success([head] + rest)
  }

  /** What an entry contributes when it can be read; nothing otherwise. */
  function EntryList(dir: Path, relativePath: Path, n: Node): seq<Entry> {
    match EntryFiles(dir, relativePath, n)
    case Success(xs) => xs
    case Failure(_) => []
  }

  /** The listing read position by position: entry `i` gives list `i`. */
  function PerEntry(dir: Path, relativePath: Path, es: seq<Node>): seq<seq<Entry>> {
    seq(|es|, i requires 0 <= i < |es| => EntryList(dir, relativePath, es[i]))
  }

  /** `getFiles(dir, relativePath)`: `at` is what exists at `dir`. Listing
      fails unless it is a directory that can be read. */
  function GetFiles(dir: Path, relativePath: Path, at: Option<Node>): (r: Result<seq<Entry>, Error>)
    ensures r.Success? <==> at.Some? && at.value.Dir? && Readable(at.value.children)
    ensures r.Failure? ==> r.error == Rejected
    ensures r.Success? ==> Relatives(r.value) == Prepend(relativePath, Leaves(at.value.children))
    ensures r.Success? ==> |r.value| == FileCount(at.value.children)
    ensures r.Success? ==> forall x :: x in r.value ==> NamesFile(x.relative, x.name)
  {
    match at
    case Some(Dir(_, cs)) =>
      var xss :- Collect(dir, relativePath, cs);
      Success(Flatten(xss))
    case _ => Failure(Rejected)
  }

  /** The items built from the walk: labelled by the relative path, located
      at the directory joined with it. */
  function ToCandidates(dirPath: Path, data: seq<Entry>): (r: seq<Candidate>)
    ensures |r| == |data|
    ensures forall i :: 0 <= i < |data| ==>
      && r[i].labelPath == data[i].relative
      && r[i].absolutePath == dirPath + r[i].labelPath
      && r[i].fileName == data[i].name
  {
    seq(|data|, i requires 0 <= i < |data| => Candidate(data[i].relative, dirPath + data[i].relative, data[i].name))
  }

  /** Compiles the filters in order; the first that does not compile fails
      the command. */
  function Compile(ps: seq<Pattern>): (r: Result<seq<string -> bool>, Error>)
    ensures r.Success? <==> forall i :: 0 <= i < |ps| ==> ps[i].Valid?
    ensures r.Success? ==> |r.value| == |ps| && forall i :: 0 <= i < |ps| ==> r.value[i] == ps[i].test
    ensures r.Failure? ==> && r.error.PatternError?
                           && r.error.index < |ps| && ps[r.error.index].Malformed?
                           && forall j :: 0 <= j < r.error.index ==> ps[j].Valid?
    decreases ps
  {
    if ps == [] then Success([])
    else if ps[0].Malformed? then Failure(PatternError(0))
    else
      match Compile(ps[1..])
      case Failure(e) => Failure(PatternError(e.index + 1))
      case Success(fs) => Success([ps[0].test] + fs)
  }

  /** `filters.some(f => f.exec(name))`. */
  predicate Matches(filters: seq<string -> bool>, name: string) {
    exists i :: 0 <= i < |filters| && filters[i](name)
  }

  /** `some` tries the filters in order: the first one matches, or one of the
      rest does. */
  lemma {:induction false} MatchesInOrder(filters: seq<string -> bool>, name: string)
    ensures Matches(filters, name) <==> filters != [] && (filters[0](name) || Matches(filters[1..], name))
  {
    if filters != [] && Matches(filters, name) && !filters[0](name) {
      var i :| 0 <= i < |filters| && filters[i](name);
      assert filters[1..][i - 1] == filters[i];
    }
  }

  /** Some given pattern compiled and matches `name`. */
  predicate AnyPatternMatches(ps: seq<Pattern>, name: string) {
    exists i :: 0 <= i < |ps| && ps[i].Valid? && ps[i].test(name)
  }

  /** The items whose file name matches at least one filter, in their order. */
  function Keep(filters: seq<string -> bool>, cs: seq<Candidate>): (r: seq<Candidate>)
    ensures forall c :: c in r <==> c in cs && Matches(filters, c.fileName)
    ensures IsSubsequence(r, cs)
    decreases cs
  {
    if cs == [] then []
    else if Matches(filters, cs[0].fileName) then
      assert ([cs[0]] + Keep(filters, cs[1..]))[1..] == Keep(filters, cs[1..]);
      [cs[0]] + Keep(filters, cs[1..])
    else
      SubsequenceCons(Keep(filters, cs[1..]), cs[0], cs[1..]);
      assert [cs[0]] + cs[1..] == cs;
      Keep(filters, cs[1..])
  }

  /** `select`: compile the filters, refuse an empty path, walk `dirPath`
      (where `at` exists), build the items and keep the matching ones. */
  function Select(dirPath: Path, patterns: seq<Pattern>, at: Option<Node>): (r: Result<seq<Candidate>, Error>)
    ensures (exists i :: 0 <= i < |patterns| && patterns[i].Malformed?) <==> r.Failure? && r.error.PatternError?
    ensures (forall i :: 0 <= i < |patterns| ==> patterns[i].Valid?) && dirPath == [] ==> r == Failure(NoPathSpecified)
    ensures (forall i :: 0 <= i < |patterns| ==> patterns[i].Valid?) && dirPath != [] ==>
      (r.Success? <==> at.Some? && at.value.Dir? && Readable(at.value.children))
    ensures r.Failure? ==> r.error.PatternError? || r.error == NoPathSpecified || r.error == Rejected
    ensures r == Failure(NoPathSpecified) ==> dirPath == []
  {
    var filters :- Compile(patterns);
    if dirPath == [] then Failure(NoPathSpecified)
    else
      var data :- GetFiles(dirPath, [], at);
      Success(Keep(filters, ToCandidates(dirPath, data)))
  }

  /** The picker's answer: the absolute path of the chosen item, or nothing
      when the user cancels (`choice` is `None` or names no item). */
  function Pick(cs: seq<Candidate>, choice: Option<nat>): (r: Option<Path>)
    ensures r.Some? <==> choice.Some? && choice.value < |cs|
    ensures r.Some? ==> r.value == cs[choice.value].absolutePath
  {
    if choice.Some? && choice.value < |cs| then Some(cs[choice.value].absolutePath) else None
  }

  // ---------------------------------------------------------------------
  // Properties

  /** Filtering distributes over concatenation: kept items keep their order. */
  lemma {:induction false} KeepAppend(filters: seq<string -> bool>, a: seq<Candidate>, b: seq<Candidate>)
    ensures Keep(filters, a + b) == Keep(filters, a) + Keep(filters, b)
    decreases a
  {
    if a == [] {
      assert a + b == b;
    } else {
      assert (a + b)[0] == a[0] && (a + b)[1..] == a[1..] + b;
      KeepAppend(filters, a[1..], b);
    }
  }

  /** Each matching item is kept as often as it occurs, every other item
      never. */
  lemma {:induction false} KeepMultiplicity(filters: seq<string -> bool>, cs: seq<Candidate>, c: Candidate)
    ensures multiset(Keep(filters, cs))[c] == if Matches(filters, c.fileName) then multiset(cs)[c] else 0
    decreases cs
  {
    if cs != [] {
      KeepMultiplicity(filters, cs[1..], c);
      assert cs == [cs[0]] + cs[1..];
      assert multiset(cs) == multiset([cs[0]]) + multiset(cs[1..]);
    }
  }

  /** With no filters nothing is kept. */
  lemma KeepNoFilters(cs: seq<Candidate>)
    ensures Keep([], cs) == []
  {
  }

  /** A compiled filter list matches a name exactly when a given pattern does. */
  lemma CompiledMatches(patterns: seq<Pattern>, name: string)
    requires Compile(patterns).Success?
    ensures Matches(Compile(patterns).value, name) <==> AnyPatternMatches(patterns, name)
  {
    var filters := Compile(patterns).value;
    if Matches(filters, name) {
      var i :| 0 <= i < |filters| && filters[i](name);
      assert patterns[i].Valid? && patterns[i].test(name);
    }
    if AnyPatternMatches(patterns, name) {
      var i :| 0 <= i < |patterns| && patterns[i].Valid? && patterns[i].test(name);
      assert filters[i](name);
    }
  }

  /** Every item offered is a file that exists below the root, located at the
      root joined with its label, and named by a matching pattern. */
  lemma {:induction false} SelectSound(dirPath: Path, patterns: seq<Pattern>, name: string, es: seq<Node>)
    requires Select(dirPath, patterns, Some(Dir(name, es))).Success?
    ensures forall c :: c in Select(dirPath, patterns, Some(Dir(name, es))).value ==>
      && c.absolutePath == dirPath + c.labelPath
      && FileAt(es, c.labelPath)
      && NamesFile(c.labelPath, c.fileName)
      && AnyPatternMatches(patterns, c.fileName)
  {
    var at := Some(Dir(name, es));
    SelectOffersKeptItems(dirPath, patterns, at);
    var filters := Compile(patterns).value;
    var cands := ToCandidates(dirPath, GetFiles(dirPath, [], at).value);
    forall c | c in Keep(filters, cands)
      ensures c.absolutePath == dirPath + c.labelPath
      ensures FileAt(es, c.labelPath)
      ensures NamesFile(c.labelPath, c.fileName)
      ensures AnyPatternMatches(patterns, c.fileName)
    {
      var i :| 0 <= i < |cands| && cands[i] == c;
      WalkEntry(dirPath, name, es, i);
      LeavesAreFiles(es, Leaves(es)[i]);
      CompiledMatches(patterns, c.fileName);
    }
  }

  /** The walk of a readable root labels its `i`th file with the file's
      root-relative path and names it by that path's last segment. */
  lemma {:induction false} WalkEntry(dirPath: Path, name: string, es: seq<Node>, i: nat)
    requires Readable(es) && i < FileCount(es)
    ensures var data := GetFiles(dirPath, [], Some(Dir(name, es))).value;
      && i < |data| && data[i].relative == Leaves(es)[i]
      && NamesFile(data[i].relative, data[i].name)
  {
    var data := GetFiles(dirPath, [], Some(Dir(name, es))).value;
    assert Relatives(data)[i] == Prepend([], Leaves(es))[i];
    assert [] + Leaves(es)[i] == Leaves(es)[i];
    assert data[i] in data;
  }

  /** Every file below the root whose name a pattern matches is offered,
      labelled by its path relative to the root. */
  lemma {:induction false} SelectComplete(dirPath: Path, patterns: seq<Pattern>, name: string, es: seq<Node>, p: Path)
    requires Select(dirPath, patterns, Some(Dir(name, es))).Success?
    requires FileAt(es, p) && |p| > 0 && AnyPatternMatches(patterns, p[|p| - 1])
    ensures exists c :: (c in Select(dirPath, patterns, Some(Dir(name, es))).value &&
                         c.labelPath == p && c.absolutePath == dirPath + p)
  {
    var at := Some(Dir(name, es));
    SelectOffersKeptItems(dirPath, patterns, at);
    var filters := Compile(patterns).value;
    var data := GetFiles(dirPath, [], at).value;
    LeavesAreFiles(es, p);
    var i :| 0 <= i < |Leaves(es)| && Leaves(es)[i] == p;
    WalkEntry(dirPath, name, es, i);
    CompiledMatches(patterns, p[|p| - 1]);
    KeptCandidate(filters, dirPath, data, i);
  }

  /** The item built for a walk result whose name matches is kept. */
  lemma {:induction false} KeptCandidate(filters: seq<string -> bool>, dirPath: Path, data: seq<Entry>, i: nat)
    requires i < |data| && Matches(filters, data[i].name)
    ensures var c := ToCandidates(dirPath, data)[i];
      && c in Keep(filters, ToCandidates(dirPath, data))
      && c.labelPath == data[i].relative && c.absolutePath == dirPath + data[i].relative
  {
    var cands := ToCandidates(dirPath, data);
    assert cands[i] in cands;
  }

  /** Without filters the picker is offered nothing. */
  lemma {:induction false} SelectNoFilters(dirPath: Path, at: Option<Node>)
    requires Select(dirPath, [], at).Success?
    ensures Select(dirPath, [], at).value == []
  {
    KeepNoFilters(ToCandidates(dirPath, GetFiles(dirPath, [], at).value));
  }

  /** A chosen item's path is the root joined with the path of a file that
      exists below it. */
  lemma {:induction false} PickedPathIsRealFile(dirPath: Path, patterns: seq<Pattern>, name: string, es: seq<Node>, choice: Option<nat>)
    requires Select(dirPath, patterns, Some(Dir(name, es))).Success?
    requires Pick(Select(dirPath, patterns, Some(Dir(name, es))).value, choice).Some?
    ensures exists q :: Pick(Select(dirPath, patterns, Some(Dir(name, es))).value, choice).value == dirPath + q
                        && FileAt(es, q)
  {
    var cs := Select(dirPath, patterns, Some(Dir(name, es))).value;
    SelectSound(dirPath, patterns, name, es);
    assert cs[choice.value] in cs;
  }

  /** The filter `\\.txt$`: the name ends with `.txt`. */
  predicate EndsWithTxt(s: string) {
    |s| >= 4 && s[|s| - 4..] == ".txt"
  }

  /** A file entry contributes itself, reached by the relative path
      extended with its name. */
  lemma FileEntry(dir: Path, relativePath: Path, name: string)
    ensures EntryFiles(dir, relativePath, File(name)) == Success([Entry(name, relativePath + [name])])
  {
  }

  /** Listing one more entry in front puts its list in front. */
  lemma CollectCons(dir: Path, relativePath: Path, n: Node, es: seq<Node>, x: seq<Entry>, xs: seq<seq<Entry>>)
    requires EntryFiles(dir, relativePath, n) == Success(x)
    requires Collect(dir, relativePath, es) == Success(xs)
    ensures Collect(dir, relativePath, [n] + es) == Success([x] + xs)
  {
    assert ([n] + es)[0] == n && ([n] + es)[1..] == es;
  }

  /** On a readable listing, list `i` of the walk is exactly what entry `i`
      yields, as `Promise.all` delivers them. */
  lemma {:induction false} CollectIsPerEntry(dir: Path, relativePath: Path, es: seq<Node>)
    requires Readable(es)
    ensures Collect(dir, relativePath, es).value == PerEntry(dir, relativePath, es)
    decreases es
  {
    if es != [] {
      ReadableAround(es, 0);
      CollectIsPerEntry(dir, relativePath, es[1..]);
      var x := EntryFiles(dir, relativePath, es[0]).value;
      CollectCons(dir, relativePath, es[0], es[1..], x, PerEntry(dir, relativePath, es[1..]));
      assert [es[0]] + es[1..] == es;
      assert PerEntry(dir, relativePath, es) == [x] + PerEntry(dir, relativePath, es[1..]);
    }
  }

  /** Walking a root holding the files `a.txt` and `b.log`. */
  lemma WalkTwoFiles()
    ensures GetFiles(["root"], [], Some(Dir("root", [File("a.txt"), File("b.log")])))
         == Success([Entry("a.txt", ["a.txt"]), Entry("b.log", ["b.log"])])
  {
    var a, b := Entry("a.txt", ["a.txt"]), Entry("b.log", ["b.log"]);
    FileEntry(["root"], [], "a.txt");
    FileEntry(["root"], [], "b.log");
    assert [] + ["a.txt"] == ["a.txt"] && [] + ["b.log"] == ["b.log"];
    CollectCons(["root"], [], File("b.log"), [], [b], []);
    assert [File("b.log")] + [] == [File("b.log")] && [[b]] + [] == [[b]];
    CollectCons(["root"], [], File("a.txt"), [File("b.log")], [a], [[b]]);
    assert [File("a.txt")] + [File("b.log")] == [File("a.txt"), File("b.log")];
    assert [[a], [b]][1..] == [[b]] && [[b]][1..] == [];
    assert Flatten([[a], [b]]) == [a, b];
  }

  /** `select` on valid filters, a non-empty path and a readable directory
      offers the matching items of the walk. */
  lemma SelectOffersKeptItems(dirPath: Path, patterns: seq<Pattern>, at: Option<Node>)
    requires Compile(patterns).Success? && dirPath != [] && GetFiles(dirPath, [], at).Success?
    ensures Select(dirPath, patterns, at)
         == Success(Keep(Compile(patterns).value, ToCandidates(dirPath, GetFiles(dirPath, [], at).value)))
  {
  }

  lemma TxtNames()
    ensures EndsWithTxt("a.txt") && !EndsWithTxt("b.log")
  {
    assert "a.txt"[1..] == ".txt";
    assert "b.log"[1..] != ".txt" by {
      assert "b.log"[1..][1] == 'l';
    }
  }

  /** Of the items for `a.txt` and `b.log`, the filter keeps the first. */
  lemma KeepTxt(a: Candidate, b: Candidate)
    requires a.fileName == "a.txt" && b.fileName == "b.log"
    ensures Keep([EndsWithTxt], [a, b]) == [a]
  {
    TxtNames();
    var filters := [EndsWithTxt];
    assert filters[0] == EndsWithTxt;
    assert Matches(filters, "a.txt");
    assert !Matches(filters, "b.log");
    assert [a, b][1..] == [b];
    assert [b][1..] == [];
  }

  /** The filter `\\.txt$` compiles. */
  lemma CompileTxt()
    ensures Compile([Valid(EndsWithTxt)]) == Success([EndsWithTxt])
  {
    var ps := [Valid(EndsWithTxt)];
    assert ps[1..] == [];
    assert Compile(ps[1..]) == Success([]);
    assert ps[0].test == EndsWithTxt;
    assert [ps[0].test] + [] == [EndsWithTxt];
  }

  /** The items offered for the walk of `root` holding `a.txt` and `b.log`. */
  lemma TwoFileCandidates()
    ensures ToCandidates(["root"], [Entry("a.txt", ["a.txt"]), Entry("b.log", ["b.log"])])
         == [Candidate(["a.txt"], ["root", "a.txt"], "a.txt"), Candidate(["b.log"], ["root", "b.log"], "b.log")]
  {
    assert ["root"] + ["a.txt"] == ["root", "a.txt"];
    assert ["root"] + ["b.log"] == ["root", "b.log"];
  }

  /** A tree with `a.txt` and `b.log` and the filter `\\.txt$` offers only
      `a.txt`. */
  lemma TxtFilterDropsLog()
    ensures Select(["root"], [Valid(EndsWithTxt)], Some(Dir("root", [File("a.txt"), File("b.log")])))
         == Success([Candidate(["a.txt"], ["root", "a.txt"], "a.txt")])
  {
    CompileTxt();
    WalkTwoFiles();
    SelectOffersKeptItems(["root"], [Valid(EndsWithTxt)], Some(Dir("root", [File("a.txt"), File("b.log")])));
    TwoFileCandidates();
    KeepTxt(Candidate(["a.txt"], ["root", "a.txt"], "a.txt"), Candidate(["b.log"], ["root", "b.log"], "b.log"));
  }
}
