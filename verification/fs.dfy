/**
 * The directory helpers of rustx-cli/src/fs/mod.rs over the tree model:
 * `recreate_dir`, `copy_dir_all` and `remove_files_except`, together with
 * the `create_dir_all` call all of them rely on.
 *
 * Every operation returns the tree it leaves behind together with its
 * result, also when it fails: the source never rolls back what it has
 * already written.
 */
module Fs {
  import opened Wrappers
  import opened Errors
  import opened Tree

  /** The filesystem after an operation, and what the operation returned. */
  datatype Outcome<+T> = Outcome(fs: Node, result: Result<T>)

  /** Some prefix of `p` (possibly `p` itself) names a regular file. */
  predicate FileOnPath(t: Node, p: Path) {
    exists k :: 0 <= k <= |p| && FileAt(t, p[..k]).Some?
  }

  /**
   * The error `fs::read_dir(p)` raises when `p` names no directory:
   * `NotADir` (ENOTDIR) when a regular file sits at `p` or above it,
   * `NotFound` (ENOENT) when a directory on the way is missing.
   */
  function ReadDirError(t: Node, p: Path): (e: Error)
    requires !IsDirAt(t, p)
    ensures Lookup(t, p).Some? ==> e == Io(NotADir)
    ensures e == Io(NotFound) ==> Lookup(t, p).None? && forall k :: 0 <= k <= |p| ==> FileAt(t, p[..k]).None?
  {
    assert p[..|p|] == p;
    Io(if FileOnPath(t, p) then NotADir else NotFound)
  }

  // ---------------------------------------------------------------------
  // create_dir_all
  // ---------------------------------------------------------------------

  /**
   * `create_dir_all(p)`: every missing directory along `p` is created.  A
   * regular file at `p` itself fails with `AlreadyExists`; one on a proper
   * prefix fails with `NotADir`.  In both cases nothing has been created,
   * because every directory above an existing file exists already.
   */
  function MkdirAll(t: Node, p: Path): (r: Result<Node>)
    ensures r.Ok? ==> IsDirAt(r.value, p)
    ensures r.Err? ==> r.error == Io(if FileAt(t, p).Some? then AlreadyExists else NotADir)
    decreases p
  {
    match t
    case File(_) => if p == [] then Err(Io(AlreadyExists)) else Err(Io(NotADir))
    case Dir(es) =>
      if p == [] then Ok(t)
      else
        var c := Find(es, p[0]).GetOr(Dir([]));
        match MkdirAll(c, p[1..])
        case Err(e) => Err(e)
        case Ok(c') =>
          PutLookupOnDir(es, p[0], c', p[1..]);
          Ok(Dir(SetChild(es, p[0], c')))
  }

  lemma PutLookupOnDir(es: seq<Entry>, name: string, c: Node, p: Path)
    ensures Lookup(Dir(SetChild(es, name, c)), [name] + p) == Lookup(c, p)
  {
    LookupCons(SetChild(es, name, c), name, p);
  }

  /** A successful `create_dir_all` of a non-empty path is one in the first child, written back. */
  lemma MkdirAllStep(t: Node, p: Path)
    requires p != [] && MkdirAll(t, p).Ok?
    ensures t.Dir? && MkdirAll(Find(t.children, p[0]).GetOr(Dir([])), p[1..]).Ok?
    ensures MkdirAll(t, p).value
      == Dir(SetChild(t.children, p[0], MkdirAll(Find(t.children, p[0]).GetOr(Dir([])), p[1..]).value))
  {
  }

  /** `create_dir_all` fails exactly when a regular file sits on the path. */
  lemma {:induction false} MkdirAllFails(t: Node, p: Path)
    ensures MkdirAll(t, p).Err? <==> FileOnPath(t, p)
    decreases p
  {
    match t
    case File(_) =>
      assert FileAt(t, p[..0]).Some?;
    case Dir(es) =>
      if p == [] {
        assert forall k :: 0 <= k <= |p| ==> p[..k] == [];
      } else {
        var c := Find(es, p[0]).GetOr(Dir([]));
        MkdirAllFails(c, p[1..]);
        PrefixFiles(es, p);
        if FileOnPath(t, p) {
          var k :| 0 <= k <= |p| && FileAt(t, p[..k]).Some?;
          assert k >= 1;
          assert FileAt(c, p[1..][..k - 1]).Some?;
        }
        if FileOnPath(c, p[1..]) {
          var k :| 0 <= k <= |p[1..]| && FileAt(c, p[1..][..k]).Some?;
          assert FileAt(t, p[..k + 1]).Some?;
        }
      }
  }

  /** The files on the prefixes of `p[1..]` below the child `p[0]` are those on the prefixes of `p`. */
  lemma PrefixFiles(es: seq<Entry>, p: Path)
    requires p != []
    ensures forall k :: 1 <= k <= |p| ==>
      FileAt(Dir(es), p[..k]) == FileAt(Find(es, p[0]).GetOr(Dir([])), p[1..][..k - 1])
  {
    forall k | 1 <= k <= |p|
      ensures FileAt(Dir(es), p[..k]) == FileAt(Find(es, p[0]).GetOr(Dir([])), p[1..][..k - 1])
    {
      assert p[..k] == [p[0]] + p[1..][..k - 1];
      FileAtCons(es, p[0], p[1..][..k - 1]);
      if Find(es, p[0]).None? && k > 1 {
        EmptyDirLookup(p[1..][..k - 1]);
      }
    }
  }

  /** `create_dir_all` changes no file anywhere. */
  lemma {:induction false} MkdirAllFiles(t: Node, p: Path, q: Path)
    requires MkdirAll(t, p).Ok?
    ensures FileAt(MkdirAll(t, p).value, q) == FileAt(t, q)
    decreases p
  {
    if p != [] && q != [] {
      MkdirAllStep(t, p);
      var c := Find(t.children, p[0]).GetOr(Dir([]));
      var c' := MkdirAll(c, p[1..]).value;
      PathSplit(q);
      if q[0] == p[0] {
        MkdirAllFiles(c, p[1..], q[1..]);
        SetChildFileAtSame(t.children, p[0], c', q[1..]);
      } else {
        SetChildFileAtOther(t.children, p[0], c', q[0], q[1..]);
      }
    }
  }

  /** A directory that `create_dir_all` had to create is empty. */
  lemma {:induction false} MkdirAllCreatesEmpty(t: Node, p: Path)
    requires MkdirAll(t, p).Ok? && Lookup(t, p).None?
    ensures Lookup(MkdirAll(t, p).value, p) == Some(Dir([]))
    decreases p
  {
    var es := t.children;
    var c := Find(es, p[0]).GetOr(Dir([]));
    LookupCons(es, p[0], p[1..]);
    PathSplit(p);
    if Find(es, p[0]).None? && p[1..] != [] {
      EmptyDirLookup(p[1..]);
    }
    if p[1..] != [] {
      MkdirAllCreatesEmpty(c, p[1..]);
    }
  }

  /** `create_dir_all` on an existing directory changes nothing. */
  lemma {:induction false} MkdirAllExisting(t: Node, p: Path)
    requires IsDirAt(t, p)
    ensures MkdirAll(t, p) == Ok(t)
    decreases p
  {
    if p != [] {
      var es := t.children;
      LookupCons(es, p[0], p[1..]);
      PathSplit(p);
      MkdirAllExisting(Find(es, p[0]).value, p[1..]);
      SetChildSame(es, p[0]);
    }
  }

  /** `create_dir_all` keeps a tree well formed. */
  lemma {:induction false} MkdirAllWellFormed(t: Node, p: Path)
    requires WellFormed(t) && MkdirAll(t, p).Ok?
    ensures WellFormed(MkdirAll(t, p).value)
    decreases p
  {
    if p != [] {
      var es := t.children;
      var c := Find(es, p[0]).GetOr(Dir([]));
      if Find(es, p[0]).Some? {
        var i :| 0 <= i < |es| && es[i] == Entry(p[0], c);
      }
      MkdirAllWellFormed(c, p[1..]);
      SetChildWellFormed(es, p[0], MkdirAll(c, p[1..]).value);
    }
  }

  /**
   * `create_dir_all` fails exactly when a regular file sits on the path; on
   * success no file anywhere changes, a missing directory is created empty,
   * and an existing directory leaves the tree as it was.
   */
  lemma MkdirAllSpec(t: Node, p: Path)
    ensures MkdirAll(t, p).Err? <==> FileOnPath(t, p)
    ensures MkdirAll(t, p).Ok? ==> forall q :: FileAt(MkdirAll(t, p).value, q) == FileAt(t, q)
    ensures MkdirAll(t, p).Ok? && Lookup(t, p).None? ==> Lookup(MkdirAll(t, p).value, p) == Some(Dir([]))
    ensures IsDirAt(t, p) ==> MkdirAll(t, p) == Ok(t)
    ensures WellFormed(t) && MkdirAll(t, p).Ok? ==> WellFormed(MkdirAll(t, p).value)
  {
    MkdirAllFails(t, p);
    if MkdirAll(t, p).Ok? {
      forall q
        ensures FileAt(MkdirAll(t, p).value, q) == FileAt(t, q)
      {
        MkdirAllFiles(t, p, q);
      }
      if Lookup(t, p).None? {
        MkdirAllCreatesEmpty(t, p);
      }
      if WellFormed(t) {
        MkdirAllWellFormed(t, p);
      }
    }
    if IsDirAt(t, p) {
      MkdirAllExisting(t, p);
    }
  }

  /** `create_dir_all` changes no file, so it cannot change whether a file sits on a path. */
  lemma MkdirAllFileOnPath(t: Node, p: Path, q: Path)
    requires MkdirAll(t, p).Ok?
    ensures FileOnPath(MkdirAll(t, p).value, q) <==> FileOnPath(t, q)
  {
    MkdirAllSpec(t, p);
  }

  /** `create_dir_all(p)` changes nothing at a path that is neither above nor below `p`. */
  lemma {:induction false} MkdirAllLookupAway(t: Node, p: Path, q: Path)
    requires MkdirAll(t, p).Ok? && !IsPrefix(p, q) && !IsPrefix(q, p)
    ensures Lookup(MkdirAll(t, p).value, q) == Lookup(t, q)
    decreases p
  {
    MkdirAllStep(t, p);
    var c := Find(t.children, p[0]).GetOr(Dir([]));
    var c' := MkdirAll(c, p[1..]).value;
    PathSplit(q);
    if q[0] == p[0] {
      PrefixCons(p, q);
      PrefixCons(q, p);
      MkdirAllLookupAway(c, p[1..], q[1..]);
      SetChildLookupSame(t.children, p[0], c', q[1..]);
    } else {
      SetChildLookupOther(t.children, p[0], c', q[0], q[1..]);
    }
  }

  // ---------------------------------------------------------------------
  // recreate_dir
  // ---------------------------------------------------------------------

  /**
   * `recreate_dir(p)`: a regular file at `p` is an error; an existing
   * directory is emptied (removed and created again); a missing one is
   * created together with its missing parents.
   */
  function RecreateDir(t: Node, p: Path): (r: Outcome<()>)
    ensures r.result.Err? ==> r.fs == t
  {
    match Lookup(t, p)
    case Some(File(_)) => Outcome(t, Err(NotADirectory(p)))
    case Some(Dir(_)) => Outcome(Put(t, p, Dir([])), Ok(()))
    case None =>
      match MkdirAll(t, p)
      case Err(e) => Outcome(t, Err(e))
      case Ok(t') => Outcome(t', Ok(()))
  }

  /**
   * After `recreate_dir(p)` succeeds, `p` is an empty directory and no file
   * outside `p` changed.  A regular file at `p` gives `NotADirectory(p)`, a
   * regular file above `p` an I/O error; neither changes anything.
   */
  lemma RecreateDirSpec(t: Node, p: Path)
    ensures var r := RecreateDir(t, p);
      && (r.result.Ok? <==> !FileOnPath(t, p))
      && (r.result.Ok? ==> Lookup(r.fs, p) == Some(Dir([])))
      && (r.result.Ok? ==> forall q :: !IsPrefix(p, q) ==> FileAt(r.fs, q) == FileAt(t, q))
      && (FileAt(t, p).Some? ==> r == Outcome(t, Err(NotADirectory(p))))
      && (r.result.Err? ==> r.fs == t)
      && (WellFormed(t) ==> WellFormed(r.fs))
  {
    var r := RecreateDir(t, p);
    MkdirAllSpec(t, p);
    match Lookup(t, p)
    case Some(File(_)) =>
      assert p[..|p|] == p;
    case Some(Dir(_)) =>
      PutLookup(t, p, Dir([]));
      forall q | !IsPrefix(p, q)
        ensures FileAt(r.fs, q) == FileAt(t, q)
      {
        PutFileAtOutside(t, p, Dir([]), q);
      }
      if WellFormed(t) {
        PutWellFormed(t, p, Dir([]));
      }
    case None =>
  }

  /** `recreate_dir(p)` changes nothing at a path that is neither above nor below `p`. */
  lemma RecreateDirLookupAway(t: Node, p: Path, q: Path)
    requires !IsPrefix(p, q) && !IsPrefix(q, p)
    ensures Lookup(RecreateDir(t, p).fs, q) == Lookup(t, q)
  {
    match Lookup(t, p)
    case Some(File(_)) =>
    case Some(Dir(_)) => PutLookupAway(t, p, Dir([]), q);
    case None =>
      if MkdirAll(t, p).Ok? {
        MkdirAllLookupAway(t, p, q);
      }
  }

  // ---------------------------------------------------------------------
  // copy_dir_all
  // ---------------------------------------------------------------------

  /**
   * `copy_dir_all(src, dst)`: `dst` is created, then each entry of `src` is
   * copied in listing order: a directory by a recursive copy into the
   * same-named directory of `dst`, anything else by `fs::copy`, which
   * overwrites an existing file.  Entries of `dst` that `src` lacks are
   * kept.  The source listing is the one present once `dst` exists.
   */
  function CopyDirAll(t: Node, src: Path, dst: Path): (r: Outcome<()>)
    ensures r.result.Err? ==> r.result.error.Io?
    ensures MkdirAll(t, dst).Ok? ==> IsDirAt(r.fs, dst)
    ensures MkdirAll(t, dst).Err? ==> r == Outcome(t, MkdirAll(t, dst).PropagateFailure())
    ensures MkdirAll(t, dst).Ok? && !IsDirAt(MkdirAll(t, dst).value, src)
      ==> r == Outcome(MkdirAll(t, dst).value, Err(ReadDirError(MkdirAll(t, dst).value, src)))
  {
    match MkdirAll(t, dst)
    case Err(e) => Outcome(t, Err(e))
    case Ok(t1) =>
      match Lookup(t1, src)
      case None => Outcome(t1, Err(ReadDirError(t1, src)))
      case Some(File(_)) => Outcome(t1, Err(ReadDirError(t1, src)))
      case Some(Dir(es)) =>
        var c := CopyEntries(Lookup(t1, dst).value, es);
        PutLookup(t1, dst, c.fs);
        Outcome(Put(t1, dst, c.fs), c.result)
  }

  /** The directory `d` after copying the entries `es` into it one after another; stops at the first failure. */
  function CopyEntries(d: Node, es: seq<Entry>): (r: Outcome<()>)
    requires d.Dir?
    ensures r.fs.Dir?
    ensures r.result.Err? ==> r.result.error.Io?
    decreases es
  {
    if es == [] then Outcome(d, Ok(()))
    else
      var first := CopyEntry(d, es[0]);
      if first.result.Err? then first else CopyEntries(first.fs, es[1..])
  }

  /** The directory `d` after copying one source entry `e` into it. */
  function CopyEntry(d: Node, e: Entry): (r: Outcome<()>)
    requires d.Dir?
    ensures r.fs.Dir?
    ensures r.result.Err? ==> r.result.error.Io?
    decreases e
  {
    var existing := Find(d.children, e.name);
    match e.node
    case File(c) =>
      if existing.Some? && existing.value.Dir? then Outcome(d, Err(Io(IsADir)))
      else Outcome(Dir(SetChild(d.children, e.name, File(c))), Ok(()))
    case Dir(sub) =>
      if existing.Some? && existing.value.File? then Outcome(d, Err(Io(AlreadyExists)))
      else
        var inner := CopyEntries(existing.GetOr(Dir([])), sub);
        Outcome(Dir(SetChild(d.children, e.name, inner.fs)), inner.result)
  }

  /**
   * A successful copy of `es` into `d` leaves at every path the file that
   * `es` has there, or else the file `d` had there.
   */
  lemma {:induction false} CopyEntriesFiles(d: Node, es: seq<Entry>, r: Path)
    requires d.Dir? && WellFormedEntries(es)
    requires CopyEntries(d, es).result.Ok?
    ensures FileAt(CopyEntries(d, es).fs, r) == FileAt(Dir(es), r).Or(FileAt(d, r))
    decreases es
  {
    if es == [] {
      if r != [] {
        EmptyDirLookup(r);
      }
    } else {
      var first := CopyEntry(d, es[0]);
      WellFormedTail(es);
      CopyEntryFiles(d, es[0], r);
      CopyEntriesFiles(first.fs, es[1..], r);
      FileAtSplit(es, r);
    }
  }

  lemma {:induction false} CopyEntryFiles(d: Node, e: Entry, r: Path)
    requires d.Dir? && WellFormed(e.node)
    requires CopyEntry(d, e).result.Ok?
    ensures FileAt(CopyEntry(d, e).fs, r) == FileAt(Dir([e]), r).Or(FileAt(d, r))
    decreases e
  {
    var existing := Find(d.children, e.name);
    var out := CopyEntry(d, e).fs;
    if r != [] {
      PathSplit(r);
      FileAtCons(out.children, r[0], r[1..]);
      FileAtCons([e], r[0], r[1..]);
      FileAtCons(d.children, r[0], r[1..]);
      if r[0] == e.name {
        match e.node
        case File(c) =>
        case Dir(sub) =>
          CopyEntriesFiles(existing.GetOr(Dir([])), sub, r[1..]);
          if existing.None? && r[1..] != [] {
            EmptyDirLookup(r[1..]);
          }
      }
    }
  }

  /** A copy into a well-formed directory yields a well-formed directory. */
  lemma {:induction false} CopyEntriesWellFormed(d: Node, es: seq<Entry>)
    requires d.Dir? && WellFormed(d)
    ensures WellFormed(CopyEntries(d, es).fs)
    decreases es
  {
    if es != [] {
      CopyEntryWellFormed(d, es[0]);
      var first := CopyEntry(d, es[0]);
      if first.result.Ok? {
        CopyEntriesWellFormed(first.fs, es[1..]);
      }
    }
  }

  lemma {:induction false} CopyEntryWellFormed(d: Node, e: Entry)
    requires d.Dir? && WellFormed(d)
    ensures WellFormed(CopyEntry(d, e).fs)
    decreases e
  {
    var existing := Find(d.children, e.name);
    match e.node
    case File(c) =>
      if !(existing.Some? && existing.value.Dir?) {
        SetChildWellFormed(d.children, e.name, File(c));
      }
    case Dir(sub) =>
      if !(existing.Some? && existing.value.File?) {
        var target := existing.GetOr(Dir([]));
        if existing.Some? {
          var i :| 0 <= i < |d.children| && d.children[i] == Entry(e.name, existing.value);
        }
        CopyEntriesWellFormed(target, sub);
        SetChildWellFormed(d.children, e.name, CopyEntries(target, sub).fs);
      }
  }

  /** A successful `copy_dir_all` leaves a well-formed tree with a directory at `dst`. */
  lemma CopyDirAllWellFormed(t: Node, src: Path, dst: Path)
    requires WellFormed(t)
    requires CopyDirAll(t, src, dst).result.Ok?
    ensures IsDirAt(CopyDirAll(t, src, dst).fs, dst)
    ensures WellFormed(CopyDirAll(t, src, dst).fs)
  {
    var t1 := MkdirAll(t, dst).value;
    MkdirAllSpec(t, dst);
    var es := Lookup(t1, src).value.children;
    LookupWellFormed(t1, src);
    var d := Lookup(t1, dst).value;
    LookupWellFormed(t1, dst);
    var c := CopyEntries(d, es);
    CopyEntriesWellFormed(d, es);
    PutWellFormed(t1, dst, c.fs);
  }

  /** The merge step of `copy_dir_all`, once `dst` exists and `src` is a directory. */
  lemma CopyIntoFiles(t1: Node, src: Path, dst: Path, r: Path)
    requires WellFormed(t1) && Lookup(t1, src).Some? && Lookup(t1, src).value.Dir?
    requires IsDirAt(t1, dst)
    requires CopyEntries(Lookup(t1, dst).value, Lookup(t1, src).value.children).result.Ok?
    ensures FileAt(Put(t1, dst, CopyEntries(Lookup(t1, dst).value, Lookup(t1, src).value.children).fs), dst + r)
      == FileAt(t1, src + r).Or(FileAt(t1, dst + r))
  {
    var es := Lookup(t1, src).value.children;
    LookupWellFormed(t1, src);
    var d := Lookup(t1, dst).value;
    var c := CopyEntries(d, es);
    PutLookupBelow(t1, dst, c.fs, r);
    CopyEntriesFiles(d, es, r);
    FileAtAppend(t1, src, r);
    FileAtAppend(t1, dst, r);
  }

  /** Below `dst`, a successful `copy_dir_all` holds the source's file where it has one, and the old file otherwise. */
  lemma CopyDirAllInside(t: Node, src: Path, dst: Path, r: Path)
    requires WellFormed(t)
    requires CopyDirAll(t, src, dst).result.Ok?
    ensures FileAt(CopyDirAll(t, src, dst).fs, dst + r) == FileAt(t, src + r).Or(FileAt(t, dst + r))
  {
    var t1 := MkdirAll(t, dst).value;
    MkdirAllFiles(t, dst, src + r);
    MkdirAllFiles(t, dst, dst + r);
    MkdirAllWellFormed(t, dst);
    CopyIntoFiles(t1, src, dst, r);
  }

  /**
   * After a successful `copy_dir_all(src, dst)`: `dst` is a directory; at
   * every relative path `r`, `dst/r` holds the file `src/r` had if there was
   * one (same content), and otherwise the file `dst/r` already had; no file
   * outside `dst` changed.
   */
  lemma CopyDirAllFiles(t: Node, src: Path, dst: Path)
    requires WellFormed(t)
    requires CopyDirAll(t, src, dst).result.Ok?
    ensures IsDirAt(CopyDirAll(t, src, dst).fs, dst)
    ensures forall r :: FileAt(CopyDirAll(t, src, dst).fs, dst + r) == FileAt(t, src + r).Or(FileAt(t, dst + r))
    ensures forall q :: !IsPrefix(dst, q) ==> FileAt(CopyDirAll(t, src, dst).fs, q) == FileAt(t, q)
    ensures WellFormed(CopyDirAll(t, src, dst).fs)
  {
    forall r
      ensures FileAt(CopyDirAll(t, src, dst).fs, dst + r) == FileAt(t, src + r).Or(FileAt(t, dst + r))
    {
      CopyDirAllInside(t, src, dst, r);
    }
    forall q | !IsPrefix(dst, q)
      ensures FileAt(CopyDirAll(t, src, dst).fs, q) == FileAt(t, q)
    {
      CopyDirAllOutside(t, src, dst, q);
    }
    CopyDirAllWellFormed(t, src, dst);
  }

  /** Whatever happens, `copy_dir_all` writes nothing outside `dst`. */
  lemma CopyDirAllOutside(t: Node, src: Path, dst: Path, q: Path)
    requires !IsPrefix(dst, q)
    ensures FileAt(CopyDirAll(t, src, dst).fs, q) == FileAt(t, q)
  {
    MkdirAllSpec(t, dst);
    match MkdirAll(t, dst)
    case Err(_) =>
    case Ok(t1) =>
      match Lookup(t1, src)
      case None =>
      case Some(File(_)) =>
      case Some(Dir(es)) =>
        var c := CopyEntries(Lookup(t1, dst).value, es);
        PutFileAtOutside(t1, dst, c.fs, q);
  }

  // ---------------------------------------------------------------------
  // remove_files_except
  // ---------------------------------------------------------------------

  /** The entries of a listing whose names are in `keep`, in listing order. */
  function KeepOnly(es: seq<Entry>, keep: seq<string>): (r: seq<Entry>)
    ensures forall x :: Find(r, x) == if x in keep then Find(es, x) else None
  {
    if es == [] then []
    else
      var rest := KeepOnly(es[1..], keep);
      if es[0].name in keep then [es[0]] + rest else rest
  }

  /** Dropping entries keeps the remaining names distinct. */
  lemma {:induction false} KeepOnlyDistinct(es: seq<Entry>, keep: seq<string>)
    requires DistinctNames(es)
    ensures DistinctNames(KeepOnly(es, keep))
  {
    if es != [] {
      var rest := KeepOnly(es[1..], keep);
      assert DistinctNames(es[1..]) by {
        assert forall i :: 0 <= i < |es| - 1 ==> es[1..][i] == es[i + 1];
      }
      KeepOnlyDistinct(es[1..], keep);
      assert Find(es[1..], es[0].name).None? by {
        assert forall i :: 0 <= i < |es| - 1 ==> es[1..][i] == es[i + 1];
      }
      assert Find(rest, es[0].name).None?;
    }
  }

  /**
   * `remove_files_except(dir, keep)`: every top-level entry of `dir` whose
   * name is not in `keep` is removed with everything below it.
   */
  function RemoveFilesExcept(t: Node, dir: Path, keep: seq<string>): (r: Outcome<()>)
    ensures r.result.Ok? <==> IsDirAt(t, dir)
    ensures r.result.Err? ==> r.fs == t
    ensures !IsDirAt(t, dir) ==> r.result == Err(ReadDirError(t, dir))
  {
    match Lookup(t, dir)
    case None => Outcome(t, Err(ReadDirError(t, dir)))
    case Some(File(_)) => Outcome(t, Err(ReadDirError(t, dir)))
    case Some(Dir(es)) => Outcome(Put(t, dir, Dir(KeepOnly(es, keep))), Ok(()))
  }

  /**
   * On success the directory still exists; a top-level name in `keep` still
   * names exactly what it named before (its subtree untouched), any other
   * top-level name is gone together with everything below it, whatever the
   * names further down; nothing outside `dir` changed.
   */
  lemma RemoveFilesExceptSpec(t: Node, dir: Path, keep: seq<string>)
    requires IsDirAt(t, dir)
    ensures var out := RemoveFilesExcept(t, dir, keep).fs;
      && IsDirAt(out, dir)
      && (forall x, r :: Lookup(out, dir + [x] + r) == if x in keep then Lookup(t, dir + [x] + r) else None)
      && (forall q :: !IsPrefix(dir, q) ==> FileAt(out, q) == FileAt(t, q))
      && (WellFormed(t) ==> WellFormed(out))
  {
    var es := Lookup(t, dir).value.children;
    var kept := Dir(KeepOnly(es, keep));
    var out := RemoveFilesExcept(t, dir, keep).fs;
    PutLookup(t, dir, kept);
    forall x, r
      ensures Lookup(out, dir + [x] + r) == if x in keep then Lookup(t, dir + [x] + r) else None
    {
      assert dir + [x] + r == dir + ([x] + r);
      PutLookupBelow(t, dir, kept, [x] + r);
      LookupAppend(t, dir, [x] + r);
      LookupCons(KeepOnly(es, keep), x, r);
      LookupCons(es, x, r);
    }
    forall q | !IsPrefix(dir, q)
      ensures FileAt(out, q) == FileAt(t, q)
    {
      PutFileAtOutside(t, dir, kept, q);
    }
    if WellFormed(t) {
      LookupWellFormed(t, dir);
      KeepOnlyDistinct(es, keep);
      KeepOnlyWellFormed(es, keep);
      PutWellFormed(t, dir, kept);
    }
  }

  /** `remove_files_except` keeps a tree well formed, whether or not it succeeds. */
  lemma RemoveFilesExceptWellFormed(t: Node, dir: Path, keep: seq<string>)
    requires WellFormed(t)
    ensures WellFormed(RemoveFilesExcept(t, dir, keep).fs)
  {
    if IsDirAt(t, dir) {
      RemoveFilesExceptSpec(t, dir, keep);
    }
  }

  /** Dropping entries keeps every remaining subtree well formed. */
  lemma {:induction false} KeepOnlyWellFormed(es: seq<Entry>, keep: seq<string>)
    requires forall i :: 0 <= i < |es| ==> WellFormed(es[i].node)
    ensures forall i :: 0 <= i < |KeepOnly(es, keep)| ==> WellFormed(KeepOnly(es, keep)[i].node)
  {
    if es != [] {
      assert forall i :: 0 <= i < |es| - 1 ==> es[1..][i] == es[i + 1];
      KeepOnlyWellFormed(es[1..], keep);
    }
  }
}
