/**
 * An in-memory model of the part of a filesystem the tool touches: a tree
 * of regular files (with text content) and directories (with their entries
 * in listing order).  Paths are sequences of names from the root.
 *
 * Symbolic links and special files are not part of the model.
 */
module Tree {
  import opened Wrappers
  import opened Errors

  datatype Node = File(content: string) | Dir(children: seq<Entry>)

  /** One directory entry: its file name and what it names. */
  datatype Entry = Entry(name: string, node: Node)

  /** The names of a directory listing are pairwise distinct. */
  predicate DistinctNames(es: seq<Entry>) {
    forall i, j :: 0 <= i < j < |es| ==> es[i].name != es[j].name
  }

  /** Every directory of the tree, at any depth, has distinct entry names (as on a real filesystem). */
  predicate WellFormed(n: Node) {
    match n
    case File(_) => true
    case Dir(es) => WellFormedEntries(es)
  }

  predicate WellFormedEntries(es: seq<Entry>) {
    && DistinctNames(es)
    && forall i :: 0 <= i < |es| ==> WellFormed(es[i].node)
  }

  /** The node listed under `name` (the first one, should names repeat). */
  function Find(es: seq<Entry>, name: string): (r: Option<Node>)
    ensures r.None? <==> forall i :: 0 <= i < |es| ==> es[i].name != name
    ensures r.Some? ==> exists i :: 0 <= i < |es| && es[i] == Entry(name, r.value)
  {
    if es == [] then None
    else if es[0].name == name then Some(es[0].node)
    else
      var r := Find(es[1..], name);
      assert forall i :: 1 <= i < |es| ==> es[i] == es[1..][i - 1];
      r
  }

  /**
   * The listing after writing `n` under `name`: an existing entry of that
   * name is replaced where it stands, otherwise the entry is appended.
   */
  function SetChild(es: seq<Entry>, name: string, n: Node): (r: seq<Entry>)
    ensures Find(r, name) == Some(n)
    ensures forall x :: x != name ==> Find(r, x) == Find(es, x)
    ensures forall i :: 0 <= i < |r| ==> r[i] in es || r[i] == Entry(name, n)
  {
    if es == [] then [Entry(name, n)]
    else if es[0].name == name then [Entry(name, n)] + es[1..]
    else [es[0]] + SetChild(es[1..], name, n)
  }

  /** The tail of a listing with distinct names has distinct names, none of them the head's. */
  lemma DistinctTail(es: seq<Entry>)
    requires es != [] && DistinctNames(es)
    ensures DistinctNames(es[1..])
    ensures forall k :: 0 <= k < |es| - 1 ==> es[1..][k].name != es[0].name
  {
    assert forall k :: 0 <= k < |es| - 1 ==> es[1..][k] == es[k + 1];
  }

  /** An entry put in front of a listing with distinct names none of which is its own keeps them distinct. */
  lemma DistinctCons(e: Entry, es: seq<Entry>)
    requires DistinctNames(es)
    requires forall k :: 0 <= k < |es| ==> es[k].name != e.name
    ensures DistinctNames([e] + es)
  {
    var r := [e] + es;
    forall i, j | 0 <= i < j < |r|
      ensures r[i].name != r[j].name
    {
      assert r[j] == es[j - 1];
      assert i > 0 ==> r[i] == es[i - 1];
    }
  }

  /** A name absent from a listing and different from `name` stays absent after writing under `name`. */
  lemma SetChildAbsent(es: seq<Entry>, name: string, n: Node, x: string)
    requires x != name
    requires forall k :: 0 <= k < |es| ==> es[k].name != x
    ensures forall j :: 0 <= j < |SetChild(es, name, n)| ==> SetChild(es, name, n)[j].name != x
  {
    var r := SetChild(es, name, n);
    forall j | 0 <= j < |r|
      ensures r[j].name != x
    {
      if r[j] in es {
        var k :| 0 <= k < |es| && es[k] == r[j];
      }
    }
  }

  /** Writing under a name keeps the names of a listing distinct. */
  lemma {:induction false} SetChildDistinct(es: seq<Entry>, name: string, n: Node)
    requires DistinctNames(es)
    ensures DistinctNames(SetChild(es, name, n))
  {
    if es != [] && es[0].name != name {
      DistinctTail(es);
      SetChildDistinct(es[1..], name, n);
      SetChildAbsent(es[1..], name, n, es[0].name);
      DistinctCons(es[0], SetChild(es[1..], name, n));
    } else if es != [] {
      DistinctTail(es);
      DistinctCons(Entry(name, n), es[1..]);
    }
  }

  /** The node at path `p` below `n`, if any. */
  function Lookup(n: Node, p: Path): Option<Node>
    decreases p
  {
    if p == [] then Some(n)
    else
      match n
      case File(_) => None
      case Dir(es) =>
        match Find(es, p[0])
        case None => None
        case Some(c) => Lookup(c, p[1..])
  }

  /** The content of the regular file at `p`, if `p` names one. */
  function FileAt(n: Node, p: Path): Option<string> {
    match Lookup(n, p)
    case Some(File(c)) => Some(c)
    case _ => None
  }

  predicate IsDirAt(n: Node, p: Path) {
    Lookup(n, p).Some? && Lookup(n, p).value.Dir?
  }

  predicate IsPrefix(p: Path, q: Path) {
    |p| <= |q| && q[..|p|] == p
  }

  /**
   * `n` written at path `p`, creating missing directories on the way.  A
   * regular file met on the way stops the write (callers only write below
   * paths that exist as directories).
   */
  function Put(t: Node, p: Path, n: Node): Node
    decreases p
  {
    if p == [] then n
    else
      match t
      case File(_) => t
      case Dir(es) =>
        var c := Find(es, p[0]).GetOr(Dir([]));
        Dir(SetChild(es, p[0], Put(c, p[1..], n)))
  }

  // ---------------------------------------------------------------------
  // Lemmas about lookups and writes
  // ---------------------------------------------------------------------

  lemma LookupCons(es: seq<Entry>, x: string, r: Path)
    ensures Lookup(Dir(es), [x] + r) == (match Find(es, x) case None => None case Some(c) => Lookup(c, r))
  {
    assert ([x] + r)[1..] == r;
  }

  /** Looking up `p + q` is looking up `q` below the node at `p`. */
  lemma {:induction false} LookupAppend(n: Node, p: Path, q: Path)
    ensures Lookup(n, p + q) == (if Lookup(n, p).Some? then Lookup(Lookup(n, p).value, q) else None)
    decreases p
  {
    if p == [] {
      assert p + q == q;
    } else {
      assert (p + q)[0] == p[0];
      assert (p + q)[1..] == p[1..] + q;
      match n
      case File(_) =>
      case Dir(es) =>
        match Find(es, p[0])
        case None =>
        case Some(c) => LookupAppend(c, p[1..], q);
    }
  }

  lemma FileAtAppend(n: Node, p: Path, q: Path)
    ensures FileAt(n, p + q) == (if Lookup(n, p).Some? then FileAt(Lookup(n, p).value, q) else None)
  {
    LookupAppend(n, p, q);
  }

  /** Every subtree of a well-formed tree is well formed. */
  lemma {:induction false} LookupWellFormed(n: Node, p: Path)
    requires WellFormed(n)
    requires Lookup(n, p).Some?
    ensures WellFormed(Lookup(n, p).value)
    decreases p
  {
    if p != [] {
      var c := Find(n.children, p[0]).value;
      LookupWellFormed(c, p[1..]);
    }
  }

  /** A directory with no entries holds nothing below itself. */
  lemma EmptyDirLookup(r: Path)
    requires r != []
    ensures Lookup(Dir([]), r) == None
  {
  }

  /** After `Put(t, p, n)` the node at `p` is `n`, provided `p` already existed. */
  lemma {:induction false} PutLookup(t: Node, p: Path, n: Node)
    requires Lookup(t, p).Some?
    ensures Lookup(Put(t, p, n), p) == Some(n)
    decreases p
  {
    if p != [] {
      var es := t.children;
      var c := Find(es, p[0]).value;
      PutLookup(c, p[1..], n);
    }
  }

  lemma PutLookupBelow(t: Node, p: Path, n: Node, r: Path)
    requires Lookup(t, p).Some?
    ensures Lookup(Put(t, p, n), p + r) == Lookup(n, r)
    ensures FileAt(Put(t, p, n), p + r) == FileAt(n, r)
  {
    PutLookup(t, p, n);
    LookupAppend(Put(t, p, n), p, r);
  }

  /** A write at `p` changes no file outside `p`. */
  lemma {:induction false} PutFileAtOutside(t: Node, p: Path, n: Node, q: Path)
    requires !IsPrefix(p, q)
    ensures FileAt(Put(t, p, n), q) == FileAt(t, q)
    decreases |p|, 1
  {
    if p != [] && t.Dir? && q != [] {
      if q[0] == p[0] {
        PutFileAtOutsideSame(t, p, n, q);
      } else {
        PutFileAtOutsideOther(t, p, n, q);
      }
    }
  }

  /** A write below one child leaves the files below every other child as they were. */
  lemma PutFileAtOutsideOther(t: Node, p: Path, n: Node, q: Path)
    requires p != [] && t.Dir? && q != [] && q[0] != p[0]
    ensures FileAt(Put(t, p, n), q) == FileAt(t, q)
  {
    PathSplit(q);
    SetChildFileAtOther(t.children, p[0], Put(Find(t.children, p[0]).GetOr(Dir([])), p[1..], n), q[0], q[1..]);
  }

  /** Replacing the child `x` leaves the files below a sibling `y` as they were. */
  lemma SetChildFileAtOther(es: seq<Entry>, x: string, c: Node, y: string, r: Path)
    requires y != x
    ensures FileAt(Dir(SetChild(es, x, c)), [y] + r) == FileAt(Dir(es), [y] + r)
  {
    FileAtCons(SetChild(es, x, c), y, r);
    FileAtCons(es, y, r);
  }

  /** The step of `PutFileAtOutside` into the child both paths start with. */
  lemma {:induction false} PutFileAtOutsideSame(t: Node, p: Path, n: Node, q: Path)
    requires p != [] && t.Dir? && q != [] && q[0] == p[0] && !IsPrefix(p, q)
    ensures FileAt(Put(t, p, n), q) == FileAt(t, q)
    decreases |p|, 0
  {
    var c := Find(t.children, p[0]).GetOr(Dir([]));
    PathSplit(q);
    PrefixCons(p, q);
    PutFileAtOutside(c, p[1..], n, q[1..]);
    SetChildFileAtSame(t.children, p[0], Put(c, p[1..], n), q[1..]);
  }

  /**
   * Below the child `x`, the listing with `x` replaced by `c` holds the
   * files of `c`, and the old listing those of its child `x` (none when
   * there is none).
   */
  lemma SetChildFileAtSame(es: seq<Entry>, x: string, c: Node, r: Path)
    ensures FileAt(Dir(SetChild(es, x, c)), [x] + r) == FileAt(c, r)
    ensures FileAt(Dir(es), [x] + r) == FileAt(Find(es, x).GetOr(Dir([])), r)
  {
    FileAtCons(SetChild(es, x, c), x, r);
    FileAtCons(es, x, r);
    EmptyDirFileAt(r);
  }

  /** An empty directory holds no file. */
  lemma EmptyDirFileAt(r: Path)
    ensures FileAt(Dir([]), r) == None
  {
  }

  /** A write at `p` leaves every node away from `p` (neither above nor below it) as it was. */
  lemma {:induction false} PutLookupAway(t: Node, p: Path, n: Node, q: Path)
    requires !IsPrefix(p, q) && !IsPrefix(q, p)
    ensures Lookup(Put(t, p, n), q) == Lookup(t, q)
    decreases p
  {
    if t.Dir? {
      var c := Find(t.children, p[0]).GetOr(Dir([]));
      PathSplit(q);
      if q[0] == p[0] {
        PrefixCons(p, q);
        PrefixCons(q, p);
        PutLookupAway(c, p[1..], n, q[1..]);
        SetChildLookupSame(t.children, p[0], Put(c, p[1..], n), q[1..]);
      } else {
        SetChildLookupOther(t.children, p[0], Put(c, p[1..], n), q[0], q[1..]);
      }
    }
  }

  /** Replacing the child `x` leaves everything below a sibling `y` as it was. */
  lemma SetChildLookupOther(es: seq<Entry>, x: string, c: Node, y: string, r: Path)
    requires y != x
    ensures Lookup(Dir(SetChild(es, x, c)), [y] + r) == Lookup(Dir(es), [y] + r)
  {
    LookupCons(SetChild(es, x, c), y, r);
    LookupCons(es, y, r);
  }

  /**
   * Strictly below the child `x`, the listing with `x` replaced by `c`
   * holds what `c` holds, and the old listing what its child `x` holds
   * (nothing when there is none).
   */
  lemma SetChildLookupSame(es: seq<Entry>, x: string, c: Node, r: Path)
    requires r != []
    ensures Lookup(Dir(SetChild(es, x, c)), [x] + r) == Lookup(c, r)
    ensures Lookup(Dir(es), [x] + r) == Lookup(Find(es, x).GetOr(Dir([])), r)
  {
    LookupCons(SetChild(es, x, c), x, r);
    LookupCons(es, x, r);
    EmptyDirLookup(r);
  }

  /** A non-empty path is its first name followed by the rest. */
  lemma PathSplit(p: Path)
    requires p != []
    ensures p == [p[0]] + p[1..]
  {
  }

  /** Two paths with the same first name are in prefix order exactly when their tails are. */
  lemma PrefixCons(p: Path, q: Path)
    requires p != [] && q != [] && p[0] == q[0]
    ensures IsPrefix(p, q) <==> IsPrefix(p[1..], q[1..])
  {
    if IsPrefix(p[1..], q[1..]) {
      assert q[..|p|] == [q[0]] + q[1..][..|p| - 1];
      PathSplit(p);
    }
  }

  /** Writing a well-formed node into a well-formed tree keeps it well formed. */
  lemma {:induction false} PutWellFormed(t: Node, p: Path, n: Node)
    requires WellFormed(t) && WellFormed(n)
    ensures WellFormed(Put(t, p, n))
    decreases p
  {
    if p != [] && t.Dir? {
      var es := t.children;
      var c := Find(es, p[0]).GetOr(Dir([]));
      if Find(es, p[0]).Some? {
        var k :| 0 <= k < |es| && es[k] == Entry(p[0], c);
      }
      PutWellFormed(c, p[1..], n);
      SetChildWellFormed(es, p[0], Put(c, p[1..], n));
    }
  }

  /** Writing back the node already at `p` changes nothing. */
  lemma {:induction false} PutSame(t: Node, p: Path)
    requires Lookup(t, p).Some?
    ensures Put(t, p, Lookup(t, p).value) == t
    decreases p
  {
    if p != [] {
      var es := t.children;
      var c := Find(es, p[0]).value;
      PutSame(c, p[1..]);
      SetChildSame(es, p[0]);
    }
  }

  /** Writing back the node a name already has changes nothing. */
  lemma {:induction false} SetChildSame(es: seq<Entry>, name: string)
    requires Find(es, name).Some?
    ensures SetChild(es, name, Find(es, name).value) == es
  {
    if es[0].name != name {
      var v := Find(es, name).value;
      assert Find(es[1..], name) == Some(v);
      SetChildSame(es[1..], name);
      assert SetChild(es, name, v) == [es[0]] + es[1..];
    }
  }

  lemma FileAtCons(es: seq<Entry>, x: string, r: Path)
    ensures FileAt(Dir(es), [x] + r) == (match Find(es, x) case None => None case Some(c) => FileAt(c, r))
  {
    LookupCons(es, x, r);
  }

  /** Writing a well-formed node into a well-formed listing keeps it well formed. */
  lemma SetChildWellFormed(es: seq<Entry>, name: string, n: Node)
    requires WellFormedEntries(es) && WellFormed(n)
    ensures WellFormedEntries(SetChild(es, name, n))
  {
    var es' := SetChild(es, name, n);
    SetChildDistinct(es, name, n);
    forall i | 0 <= i < |es'|
      ensures WellFormed(es'[i].node)
    {
      if es'[i] in es {
        var k :| 0 <= k < |es| && es[k] == es'[i];
      }
    }
  }

  lemma WellFormedTail(es: seq<Entry>)
    requires es != [] && WellFormedEntries(es)
    ensures WellFormed(es[0].node) && WellFormedEntries(es[1..])
  {
    assert forall i :: 0 <= i < |es| - 1 ==> es[1..][i] == es[i + 1];
  }

  /**
   * In a listing with distinct names, the files below the listing are those
   * below its first entry together with those below the rest.
   */
  lemma FileAtSplit(es: seq<Entry>, r: Path)
    requires es != [] && DistinctNames(es)
    ensures FileAt(Dir(es), r) == FileAt(Dir([es[0]]), r).Or(FileAt(Dir(es[1..]), r))
  {
    if r != [] {
      PathSplit(r);
      FileAtCons(es, r[0], r[1..]);
      FileAtCons([es[0]], r[0], r[1..]);
      FileAtCons(es[1..], r[0], r[1..]);
      if es[0].name == r[0] {
        assert forall i :: 0 <= i < |es| - 1 ==> es[1..][i] == es[i + 1];
        assert Find(es[1..], r[0]).None?;
      }
    }
  }

  /** Looking a name up in a joined listing finds it in the first part if it is there. */
  lemma {:induction false} FindAppend(a: seq<Entry>, b: seq<Entry>, x: string)
    ensures Find(a + b, x) == Find(a, x).Or(Find(b, x))
  {
    if a != [] {
      assert (a + b)[1..] == a[1..] + b;
      FindAppend(a[1..], b, x);
    } else {
      assert a + b == b;
    }
  }
}
