/**
 * The template store (aix-cli/src/config/mod.rs): where the tool keeps
 * its templates, and `sync_store`, which refreshes them from a Git
 * repository.
 *
 * The Git commands are opaque.  Their exit statuses are never inspected,
 * so once `git` is found they never fail; their only effect in the model
 * is the tree they leave in the temporary directory, given as a parameter.
 */
module Config {
  import opened Wrappers
  import opened Errors
  import opened Tree
  import opened Fs

  /** Name of the template directory below the local data directory. */
  const TemplatesDirName: string := "templates"
  /** Name of the checkout directory below the local data directory. */
  const TempDirName: string := ".tmp"

  /** Where the templates are fetched from: a repository, a branch, and the directory of the repository that holds them. */
  datatype GitRepository = GitRepository(url: string, branch: string, directory: string)

  datatype Config = Config(
    name: string,
    localDataDir: Path,
    templatesDir: Path,
    tempDir: Path,
    gitRepository: GitRepository)
  {
    /** The store layout: both working directories sit directly below the local data directory. */
    predicate Valid() {
      && templatesDir == localDataDir + [TemplatesDirName]
      && tempDir == localDataDir + [TempDirName]
    }
  }

  /**
   * `PathBuf::join` of one path component: an empty component leaves the
   * path as it is.
   */
  function Join(base: Path, name: string): (p: Path)
    ensures name != "" ==> |p| == |base| + 1 && p[..|base|] == base && p[|base|] == name
    ensures name == "" ==> p == base
  {
    if name == "" then base else base + [name]
  }

  /**
   * `Config::new(app_name, git_repository)`, with the operating system's
   * local data directory as a parameter (`None` when it cannot be
   * determined).
   */
  function NewConfig(dataRoot: Option<Path>, appName: string, repo: GitRepository): (r: Result<Config>)
    ensures r.Err? <==> dataRoot.None?
    ensures r.Err? ==> r.error == MissingLocalDataDir
    ensures r.Ok? ==> r.value.Valid()
    ensures r.Ok? ==> r.value.localDataDir == Join(dataRoot.value, appName)
    ensures r.Ok? ==> r.value.name == appName && r.value.gitRepository == repo
  {
    match dataRoot
    case None => Err(MissingLocalDataDir)
    case Some(root) =>
      var local := Join(root, appName);
      Ok(Config(appName, local, local + [TemplatesDirName], local + [TempDirName], repo))
  }

  /**
   * In a valid layout the template and checkout directories are distinct,
   * and neither lies inside the other, so work on one never touches the
   * other.
   */
  lemma LayoutDisjoint(c: Config)
    requires c.Valid()
    ensures c.templatesDir != c.tempDir
    ensures forall r, s :: c.templatesDir + r != c.tempDir + s
  {
    var n := |c.localDataDir|;
    assert TemplatesDirName != TempDirName by {
      assert |TemplatesDirName| != |TempDirName|;
    }
    assert c.templatesDir[n] == TemplatesDirName && c.tempDir[n] == TempDirName;
    forall r, s
      ensures c.templatesDir + r != c.tempDir + s
    {
      assert (c.templatesDir + r)[n] == c.templatesDir[n];
      assert (c.tempDir + s)[n] == c.tempDir[n];
    }
  }

  /** The same in terms of `IsPrefix`. */
  lemma LayoutNotNested(c: Config, r: Path, s: Path)
    requires c.Valid()
    ensures !IsPrefix(c.templatesDir + r, c.tempDir + s)
    ensures !IsPrefix(c.tempDir + s, c.templatesDir + r)
  {
    LayoutDisjoint(c);
    var n := |c.localDataDir|;
    assert (c.templatesDir + r)[n] == c.templatesDir[n];
    assert (c.tempDir + s)[n] == c.tempDir[n];
  }

  // ---------------------------------------------------------------------
  // sync_store as an ordered protocol
  // ---------------------------------------------------------------------

  /** The outside world `sync_store` depends on. */
  datatype GitHost = GitHost(
    installed: bool,   // what `is_git_installed` reports
    checkout: Node)    // the checkout directory's content after clone and sparse checkout

  /** One step of `sync_store`. */
  datatype Step =
    | CreateDir(path: Path)
    | Clone(dir: Path, url: string)
    | SparseInit(dir: Path)
    | SparseSet(dir: Path, sparsePath: string)
    | Recreate(path: Path)
    | Cleanup(dir: Path, keep: seq<string>)
    | Copy(src: Path, dst: Path)

  /** The filesystem after a run of steps, its result, and the steps that completed. */
  datatype Run = Run(fs: Node, result: Result<()>, done: seq<Step>)

  /** The effect of one step. */
  function Exec(t: Node, s: Step, git: GitHost): Outcome<()> {
    match s
    case CreateDir(p) =>
      (match MkdirAll(t, p)
       case Err(e) => Outcome(t, Err(e))
       case Ok(t') => Outcome(t', Ok(())))
    case Clone(dir, _) => Outcome(Put(t, dir, git.checkout), Ok(()))
    case SparseInit(_) => Outcome(t, Ok(()))
    case SparseSet(_, _) => Outcome(t, Ok(()))
    case Recreate(p) => RecreateDir(t, p)
    case Cleanup(dir, keep) => RemoveFilesExcept(t, dir, keep)
    case Copy(src, dst) => CopyDirAll(t, src, dst)
  }

  /**
   * The steps in order, each on the filesystem the previous one left; the
   * first failure ends the run.  `done` is what completed: all of the
   * steps on success, a proper prefix of them on failure, the step after
   * it being the one that failed.
   */
  function RunSteps(t: Node, steps: seq<Step>, git: GitHost): (r: Run)
    ensures r.done <= steps
    ensures r.result.Ok? ==> r.done == steps
    ensures r.result.Err? ==> |r.done| < |steps| && Exec(RunSteps(t, r.done, git).fs, steps[|r.done|], git).result.Err?
    decreases |steps|
  {
    if steps == [] then Run(t, Ok(()), [])
    else
      var o := Exec(t, steps[0], git);
      if o.result.Err? then Run(o.fs, o.result, [])
      else
        var rest := RunSteps(o.fs, steps[1..], git);
        assert rest.result.Err? ==> RunSteps(t, [steps[0]] + rest.done, git).fs == RunSteps(o.fs, rest.done, git).fs by {
          if rest.result.Err? {
            assert ([steps[0]] + rest.done)[1..] == rest.done;
          }
        }
        Run(rest.fs, rest.result, [steps[0]] + rest.done)
  }

  /** The steps of `sync_store`, with the list of names the cleanup keeps. */
  function Plan(c: Config, keep: seq<string>): (r: seq<Step>)
    ensures |r| == 8
    ensures r[..3] == [CreateDir(c.localDataDir), CreateDir(c.tempDir), Clone(c.tempDir, c.gitRepository.url)]
    ensures r[3..5] == [SparseInit(c.tempDir), SparseSet(c.tempDir, c.gitRepository.directory)]
    ensures r[5..] == [Recreate(c.templatesDir), Cleanup(c.tempDir, keep), Copy(Join(c.tempDir, c.gitRepository.directory), c.templatesDir)]
  {
    [CreateDir(c.localDataDir)] + ([CreateDir(c.tempDir)] + ([Clone(c.tempDir, c.gitRepository.url)] + PlanAfterClone(c, keep)))
  }

  /** The steps of `sync_store` that follow the clone. */
  function PlanAfterClone(c: Config, keep: seq<string>): seq<Step> {
    [SparseInit(c.tempDir)] + ([SparseSet(c.tempDir, c.gitRepository.directory)] + ([Recreate(c.templatesDir)] +
      ([Cleanup(c.tempDir, keep)] + [Copy(Join(c.tempDir, c.gitRepository.directory), c.templatesDir)])))
  }

  /** `sync_store` with a given cleanup keep list; with no `git` nothing happens. */
  function SyncWith(c: Config, git: GitHost, t: Node, keep: seq<string>): (r: Run)
    ensures !git.installed ==> r == Run(t, Err(MissingGitInstallation), [])
    ensures git.installed ==> r.done <= Plan(c, keep)
    ensures git.installed ==> (r.result.Ok? <==> r.done == Plan(c, keep))
  {
    if !git.installed then Run(t, Err(MissingGitInstallation), [])
    else RunSteps(t, Plan(c, keep), git)
  }

  /**
   * `sync_store` as written: the cleanup keeps the literal name
   * `templates`, whatever directory the copy then reads.
   */
  function SyncStoreAsWritten(c: Config, git: GitHost, t: Node): (r: Run)
    ensures !git.installed ==> r == Run(t, Err(MissingGitInstallation), [])
    ensures git.installed ==> r.done <= Plan(c, ["templates"])
    ensures git.installed ==> (r.result.Ok? <==> r.done == Plan(c, ["templates"]))
  {
    SyncWith(c, git, t, [TemplatesDirName])
  }

  /** `sync_store` as intended: the cleanup keeps the directory the copy reads. */
  function SyncStore(c: Config, git: GitHost, t: Node): (r: Run)
    ensures !git.installed ==> r == Run(t, Err(MissingGitInstallation), [])
    ensures git.installed ==> r.done <= Plan(c, [c.gitRepository.directory])
    ensures git.installed ==> (r.result.Ok? <==> r.done == Plan(c, [c.gitRepository.directory]))
  {
    SyncWith(c, git, t, [c.gitRepository.directory])
  }

  // ---------------------------------------------------------------------
  // Properties of sync_store
  // ---------------------------------------------------------------------

  /** A successful run whose first step is `s` is the run of the remaining steps from where `s` left. */
  lemma RunStepsCons(t: Node, s: Step, rest: seq<Step>, git: GitHost)
    requires RunSteps(t, [s] + rest, git).result.Ok?
    ensures Exec(t, s, git).result.Ok?
    ensures RunSteps(t, [s] + rest, git).fs == RunSteps(Exec(t, s, git).fs, rest, git).fs
    ensures RunSteps(Exec(t, s, git).fs, rest, git).result.Ok?
  {
    assert ([s] + rest)[0] == s && ([s] + rest)[1..] == rest;
  }

  /** The filesystem once the data and checkout directories are created. */
  function Prepared(c: Config, git: GitHost, t: Node): Node {
    var t1 := Exec(t, CreateDir(c.localDataDir), git).fs;
    Exec(t1, CreateDir(c.tempDir), git).fs
  }

  /** The filesystem once the checkout is in place and the template directory recreated. */
  function Recreated(c: Config, git: GitHost, t: Node): Node {
    RecreateDir(Put(Prepared(c, git, t), c.tempDir, git.checkout), c.templatesDir).fs
  }

  /** The filesystem just before the copy, on a run in which every step succeeds. */
  function BeforeCopy(c: Config, git: GitHost, t: Node, keep: seq<string>): Node {
    RemoveFilesExcept(Recreated(c, git, t), c.tempDir, keep).fs
  }

  /** A successful run creates both directories, then runs the steps after the clone on the checked-out tree. */
  lemma SyncToClone(c: Config, git: GitHost, t: Node, keep: seq<string>)
    requires RunSteps(t, Plan(c, keep), git).result.Ok?
    ensures IsDirAt(Prepared(c, git, t), c.tempDir)
    ensures var t3 := Put(Prepared(c, git, t), c.tempDir, git.checkout);
      && RunSteps(t3, PlanAfterClone(c, keep), git).result.Ok?
      && RunSteps(t, Plan(c, keep), git).fs == RunSteps(t3, PlanAfterClone(c, keep), git).fs
  {
    var r3 := [Clone(c.tempDir, c.gitRepository.url)] + PlanAfterClone(c, keep);
    var t1 := Exec(t, CreateDir(c.localDataDir), git).fs;
    RunStepsCons(t, CreateDir(c.localDataDir), [CreateDir(c.tempDir)] + r3, git);
    RunStepsCons(t1, CreateDir(c.tempDir), r3, git);
    RunStepsCons(Prepared(c, git, t), Clone(c.tempDir, c.gitRepository.url), PlanAfterClone(c, keep), git);
  }

  /** The last two steps: the cleanup, then a successful copy. */
  lemma SyncCleanupCopy(c: Config, git: GitHost, t4: Node, keep: seq<string>)
    requires RunSteps(t4, [Cleanup(c.tempDir, keep)] + [Copy(Join(c.tempDir, c.gitRepository.directory), c.templatesDir)], git).result.Ok?
    ensures IsDirAt(t4, c.tempDir)
    ensures var u := RemoveFilesExcept(t4, c.tempDir, keep).fs;
      var copy := CopyDirAll(u, Join(c.tempDir, c.gitRepository.directory), c.templatesDir);
      && copy.result.Ok?
      && RunSteps(t4, [Cleanup(c.tempDir, keep)] + [Copy(Join(c.tempDir, c.gitRepository.directory), c.templatesDir)], git).fs == copy.fs
  {
    var r8 := [Copy(Join(c.tempDir, c.gitRepository.directory), c.templatesDir)];
    RunStepsCons(t4, Cleanup(c.tempDir, keep), r8, git);
    var u := RemoveFilesExcept(t4, c.tempDir, keep).fs;
    assert r8 == [r8[0]] + [];
    RunStepsCons(u, r8[0], [], git);
  }

  /** The steps after the clone: the recreation, the cleanup and a successful copy. */
  lemma SyncAfterClone(c: Config, git: GitHost, t3: Node, keep: seq<string>)
    requires RunSteps(t3, PlanAfterClone(c, keep), git).result.Ok?
    ensures RecreateDir(t3, c.templatesDir).result.Ok?
    ensures var t4 := RecreateDir(t3, c.templatesDir).fs;
      var u := RemoveFilesExcept(t4, c.tempDir, keep).fs;
      var copy := CopyDirAll(u, Join(c.tempDir, c.gitRepository.directory), c.templatesDir);
      && IsDirAt(t4, c.tempDir)
      && copy.result.Ok?
      && RunSteps(t3, PlanAfterClone(c, keep), git).fs == copy.fs
  {
    var r7 := [Cleanup(c.tempDir, keep)] + [Copy(Join(c.tempDir, c.gitRepository.directory), c.templatesDir)];
    SyncSparse(c, git, t3, keep);
    RunStepsCons(t3, Recreate(c.templatesDir), r7, git);
    SyncCleanupCopy(c, git, RecreateDir(t3, c.templatesDir).fs, keep);
  }

  /** The two sparse-checkout steps change nothing. */
  lemma SyncSparse(c: Config, git: GitHost, t3: Node, keep: seq<string>)
    requires RunSteps(t3, PlanAfterClone(c, keep), git).result.Ok?
    ensures var r6 := [Recreate(c.templatesDir)] + ([Cleanup(c.tempDir, keep)] + [Copy(Join(c.tempDir, c.gitRepository.directory), c.templatesDir)]);
      && RunSteps(t3, r6, git).result.Ok?
      && RunSteps(t3, PlanAfterClone(c, keep), git).fs == RunSteps(t3, r6, git).fs
  {
    var r6 := [Recreate(c.templatesDir)] + ([Cleanup(c.tempDir, keep)] + [Copy(Join(c.tempDir, c.gitRepository.directory), c.templatesDir)]);
    RunStepsCons(t3, SparseInit(c.tempDir), [SparseSet(c.tempDir, c.gitRepository.directory)] + r6, git);
    RunStepsCons(t3, SparseSet(c.tempDir, c.gitRepository.directory), r6, git);
  }

  /** A successful run passes through the states above and ends with a successful copy. */
  lemma SyncUnrolled(c: Config, git: GitHost, t: Node, keep: seq<string>)
    requires git.installed
    requires SyncWith(c, git, t, keep).result.Ok?
    ensures IsDirAt(Prepared(c, git, t), c.tempDir)
    ensures RecreateDir(Put(Prepared(c, git, t), c.tempDir, git.checkout), c.templatesDir).result.Ok?
    ensures IsDirAt(Recreated(c, git, t), c.tempDir)
    ensures SyncWith(c, git, t, keep).fs == CopyDirAll(BeforeCopy(c, git, t, keep), Join(c.tempDir, c.gitRepository.directory), c.templatesDir).fs
    ensures CopyDirAll(BeforeCopy(c, git, t, keep), Join(c.tempDir, c.gitRepository.directory), c.templatesDir).result.Ok?
  {
    SyncToClone(c, git, t, keep);
    SyncAfterClone(c, git, Put(Prepared(c, git, t), c.tempDir, git.checkout), keep);
  }

  /** After the checkout and the recreation, the checkout directory holds exactly the checkout. */
  lemma CheckoutInPlace(c: Config, git: GitHost, t: Node, s: Path)
    requires c.Valid()
    requires IsDirAt(Prepared(c, git, t), c.tempDir)
    ensures Lookup(Recreated(c, git, t), c.tempDir + s) == Lookup(git.checkout, s)
  {
    var t2 := Prepared(c, git, t);
    LayoutNotNested(c, [], s);
    RecreateDirLookupAway(Put(t2, c.tempDir, git.checkout), c.templatesDir, c.tempDir + s);
    PutLookupBelow(t2, c.tempDir, git.checkout, s);
  }

  /**
   * Before the copy, the template directory is empty, and the checkout
   * directory holds the checkout restricted to the kept names.
   */
  lemma BeforeCopyState(c: Config, git: GitHost, t: Node, keep: seq<string>)
    requires c.Valid()
    requires IsDirAt(Prepared(c, git, t), c.tempDir)
    requires RecreateDir(Put(Prepared(c, git, t), c.tempDir, git.checkout), c.templatesDir).result.Ok?
    requires IsDirAt(Recreated(c, git, t), c.tempDir)
    ensures var u := BeforeCopy(c, git, t, keep);
      && Lookup(u, c.templatesDir) == Some(Dir([]))
      && (forall x, r :: Lookup(u, c.tempDir + [x] + r) == if x in keep then Lookup(git.checkout, [x] + r) else None)
  {
    var t4 := Recreated(c, git, t);
    var u := BeforeCopy(c, git, t, keep);
    RecreateDirSpec(Put(Prepared(c, git, t), c.tempDir, git.checkout), c.templatesDir);
    RemoveFilesExceptSpec(t4, c.tempDir, keep);
    forall x, r
      ensures Lookup(u, c.tempDir + [x] + r) == if x in keep then Lookup(git.checkout, [x] + r) else None
    {
      assert c.tempDir + [x] + r == c.tempDir + ([x] + r);
      CheckoutInPlace(c, git, t, [x] + r);
    }
    LayoutNotNested(c, [], []);
    PutLookupAway(t4, c.tempDir, Dir(KeepOnly(Lookup(t4, c.tempDir).value.children, keep)), c.templatesDir);
  }

  /** Creating a directory keeps the filesystem well formed. */
  lemma CreateDirWellFormed(t: Node, p: Path, git: GitHost)
    requires WellFormed(t)
    ensures WellFormed(Exec(t, CreateDir(p), git).fs)
  {
    if MkdirAll(t, p).Ok? {
      MkdirAllWellFormed(t, p);
    }
  }

  /** Up to the recreation of the template directory, every step keeps the filesystem well formed. */
  lemma RecreatedWellFormed(c: Config, git: GitHost, t: Node)
    requires WellFormed(t) && WellFormed(git.checkout)
    ensures WellFormed(Recreated(c, git, t))
  {
    var t1 := Exec(t, CreateDir(c.localDataDir), git).fs;
    CreateDirWellFormed(t, c.localDataDir, git);
    CreateDirWellFormed(t1, c.tempDir, git);
    PutWellFormed(Prepared(c, git, t), c.tempDir, git.checkout);
    RecreateDirSpec(Put(Prepared(c, git, t), c.tempDir, git.checkout), c.templatesDir);
  }

  /** Every step keeps the filesystem well formed, given a well-formed checkout. */
  lemma BeforeCopyWellFormed(c: Config, git: GitHost, t: Node, keep: seq<string>)
    requires WellFormed(t) && WellFormed(git.checkout)
    ensures WellFormed(BeforeCopy(c, git, t, keep))
  {
    RecreatedWellFormed(c, git, t);
    RemoveFilesExceptWellFormed(Recreated(c, git, t), c.tempDir, keep);
  }


  /**
   * After a successful `sync_store`, the template directory holds exactly
   * the files of the checkout's `directory`: whatever it held before is
   * gone.
   */
  lemma SyncStoreContents(c: Config, git: GitHost, t: Node)
    requires c.Valid() && git.installed && c.gitRepository.directory != ""
    requires WellFormed(t) && WellFormed(git.checkout)
    requires SyncStore(c, git, t).result.Ok?
    ensures forall r :: FileAt(SyncStore(c, git, t).fs, c.templatesDir + r) == FileAt(git.checkout, [c.gitRepository.directory] + r)
  {
    var d := c.gitRepository.directory;
    var keep := [d];
    SyncUnrolled(c, git, t, keep);
    BeforeCopyState(c, git, t, keep);
    BeforeCopyWellFormed(c, git, t, keep);
    var u := BeforeCopy(c, git, t, keep);
    CopyDirAllFiles(u, c.tempDir + [d], c.templatesDir);
    forall r
      ensures FileAt(SyncStore(c, git, t).fs, c.templatesDir + r) == FileAt(git.checkout, [d] + r)
    {
      CopiedFile(u, c.tempDir, c.templatesDir, d, r, git.checkout);
    }
  }

  /**
   * One file of the copy from the checkout's `d` into the emptied template
   * directory: it is the checkout's file.
   */
  lemma CopiedFile(u: Node, tempDir: Path, templatesDir: Path, d: string, r: Path, checkout: Node)
    requires Lookup(u, templatesDir) == Some(Dir([]))
    requires Lookup(u, tempDir + [d] + r) == Lookup(checkout, [d] + r)
    ensures FileAt(u, tempDir + [d] + r).Or(FileAt(u, templatesDir + r)) == FileAt(checkout, [d] + r)
  {
    FileAtAppend(u, templatesDir, r);
    EmptyDirFileAt(r);
  }

  /** Without `git`, `sync_store` fails before touching the filesystem. */
  lemma SyncStoreWithoutGit(c: Config, git: GitHost, t: Node)
    requires !git.installed
    ensures SyncStore(c, git, t) == Run(t, Err(MissingGitInstallation), [])
    ensures SyncStoreAsWritten(c, git, t) == Run(t, Err(MissingGitInstallation), [])
  {
  }

  /**
   * As written, `sync_store` can only succeed when the repository's
   * directory is called `templates`: for any other name the cleanup deletes
   * the directory the copy then reads.
   */
  lemma SyncStoreAsWrittenNeedsTemplates(c: Config, git: GitHost, t: Node)
    requires c.Valid() && c.gitRepository.directory != ""
    requires SyncStoreAsWritten(c, git, t).result.Ok?
    ensures c.gitRepository.directory == TemplatesDirName
  {
    var d := c.gitRepository.directory;
    if d != TemplatesDirName {
      var keep := [TemplatesDirName];
      SyncUnrolled(c, git, t, keep);
      BeforeCopyState(c, git, t, keep);
      var u := BeforeCopy(c, git, t, keep);
      assert c.tempDir + [d] + [] == c.tempDir + [d];
      assert Lookup(u, c.tempDir + [d]) == None;
      MkdirAllExisting(u, c.templatesDir);
      assert false;
    }
  }

  /** When the repository's directory is `templates`, the two keep lists coincide. */
  lemma SyncStoreAgrees(c: Config, git: GitHost, t: Node)
    requires c.gitRepository.directory == TemplatesDirName
    ensures SyncStoreAsWritten(c, git, t) == SyncStore(c, git, t)
  {
  }
}
