/** The abstract filesystem the walkers read: a directory is the sequence of
    its entries in the order `readdir` lists them. */
module FileTree {

  /** A path as its segments; `path.join` is concatenation and the empty
      string is the empty path. Segments are non-empty and never `.` or `..`. */
  type Path = seq<string>

  /** One directory entry. `Unreadable` is a directory that exists (its
      directory entry and `lstat` both say so) but whose listing fails, the
      one kind of I/O failure the model represents. */
  datatype Node =
    | File(name: string)
    | Dir(name: string, children: seq<Node>)
    | Unreadable(name: string)
  {
    /** What a `Dirent` or `lstat` reports for this entry. */
    predicate IsDirectory() {
      !File?
    }
  }

  /** No directory anywhere below the entries `es` fails to list. */
  predicate Readable(es: seq<Node>)
    decreases es
  {
    if es == [] then true
    else
      && (match es[0]
          case File(_) => true
          case Unreadable(_) => false
          case Dir(_, cs) => Readable(cs))
      && Readable(es[1..])
  }

  /** The number of files (non-directory leaves) below the entries `es`. */
  function FileCount(es: seq<Node>): nat
    decreases es
  {
    if es == [] then 0
    else
      (match es[0]
       case File(_) => 1
       case Unreadable(_) => 0
       case Dir(_, cs) => FileCount(cs))
      + FileCount(es[1..])
  }

  /** Puts `prefix` in front of every path of `ps`. */
  function Prepend(prefix: Path, ps: seq<Path>): (r: seq<Path>)
  {
    seq(|ps|, i requires 0 <= i < |ps| => prefix + ps[i])
  }

  /** `Prepend` distributes over concatenation. */
  lemma PrependAppend(prefix: Path, a: seq<Path>, b: seq<Path>)
    ensures Prepend(prefix, a + b) == Prepend(prefix, a) + Prepend(prefix, b)
  {
  }

  /** Prepending twice is prepending the joined prefix. */
  lemma PrependPrepend(p: Path, q: Path, ps: seq<Path>)
    ensures Prepend(p, Prepend(q, ps)) == Prepend(p + q, ps)
  {
    forall i | 0 <= i < |ps|
      ensures p + (q + ps[i]) == (p + q) + ps[i]
    {
    }
  }

  /** Readability of a listing is readability of each of its parts. */
  lemma {:induction false} ReadableAppend(a: seq<Node>, b: seq<Node>)
    ensures Readable(a + b) <==> Readable(a) && Readable(b)
    decreases a
  {
    if a != [] {
      assert (a + b)[0] == a[0] && (a + b)[1..] == a[1..] + b;
      ReadableAppend(a[1..], b);
    } else {
      assert a + b == b;
    }
  }

  /** Every slice of a readable listing is readable. */
  lemma {:induction false} ReadableAround(es: seq<Node>, i: nat)
    requires Readable(es) && i < |es|
    ensures Readable(es[..i]) && Readable([es[i]]) && Readable(es[i + 1..])
    decreases i
  {
    if i == 0 {
      assert es[..0] == [];
    } else {
      var tl := es[1..];
      ReadableAround(tl, i - 1);
      assert tl[..i - 1] == es[..i][1..];
      assert tl[i - 1] == es[i] && tl[i..] == es[i + 1..];
      assert es[..i][0] == es[0];
    }
  }

  /** Reference enumeration: the path of every file below `es`, relative to
      the directory holding `es`, depth-first in listing order. */
  function Leaves(es: seq<Node>): (r: seq<Path>)
    ensures |r| == FileCount(es)
    ensures forall i :: 0 <= i < |r| ==> |r[i]| > 0
    decreases es, 0
  {
    if es == [] then [] else NodeLeaves(es[0]) + Leaves(es[1..])
  }

  /** Relational definition: a file lives at path `p` within the entry `n`
      (for a file, `p` is its name; for a directory, its name and the rest). */
  predicate HasFile(n: Node, p: Path)
    decreases n, 1
  {
    match n
    case File(m) => p == [m]
    case Unreadable(_) => false
    case Dir(m, cs) => |p| > 1 && p[0] == m && FileAt(cs, p[1..])
  }

  /** A file lives at path `p` below one of the entries `es`. */
  predicate FileAt(es: seq<Node>, p: Path)
    decreases es, 0
  {
    exists i :: 0 <= i < |es| && HasFile(es[i], p)
  }

  /** `FileAt` unrolled on the first entry. */
  lemma FileAtCons(es: seq<Node>, p: Path)
    requires es != []
    ensures FileAt(es, p) <==> HasFile(es[0], p) || FileAt(es[1..], p)
  {
    if FileAt(es[1..], p) {
      var j :| 0 <= j < |es[1..]| && HasFile(es[1..][j], p);
      assert es[j + 1] == es[1..][j];
    }
    if FileAt(es, p) {
      var i :| 0 <= i < |es| && HasFile(es[i], p);
      if i > 0 {
        assert es[1..][i - 1] == es[i];
      }
    }
  }

  /** The paths of the files within the entry `n`, relative to its parent. */
  function NodeLeaves(n: Node): (r: seq<Path>)
    ensures |r| == FileCount([n])
    ensures forall i :: 0 <= i < |r| ==> |r[i]| > 0
    decreases n, 1
  {
    match n
    case File(m) => [[m]]
    case Unreadable(_) => []
    case Dir(m, cs) => Prepend([m], Leaves(cs))
  }

  /** The enumeration finds exactly the files that exist: no directory, no
      missed nested file. */
  lemma {:induction false} LeavesAreFiles(es: seq<Node>, p: Path)
    ensures p in Leaves(es) <==> FileAt(es, p)
    decreases es, 0
  {
    if es != [] {
      FileAtCons(es, p);
      NodeLeavesAreFiles(es[0], p);
      LeavesAreFiles(es[1..], p);
    }
  }

  /** The same, for the files within one entry. */
  lemma {:induction false} NodeLeavesAreFiles(n: Node, p: Path)
    ensures p in NodeLeaves(n) <==> HasFile(n, p)
    decreases n, 1
  {
    match n
    case File(_) =>
    case Unreadable(_) =>
    case Dir(m, cs) =>
      if |p| > 1 {
        LeavesAreFiles(cs, p[1..]);
      }
      if p in NodeLeaves(n) {
        var k :| 0 <= k < |Leaves(cs)| && [m] + Leaves(cs)[k] == p;
        assert p[1..] == Leaves(cs)[k];
      }
      if HasFile(n, p) {
        var k :| 0 <= k < |Leaves(cs)| && Leaves(cs)[k] == p[1..];
        assert NodeLeaves(n)[k] == p;
      }
  }

  /** Renders a path with `/` separators, as it appears in messages. */
  function Render(p: Path): string
    decreases p
  {
    if p == [] then ""
    else if |p| == 1 then p[0]
    else p[0] + "/" + Render(p[1..])
  }
}
