/**
 * The `new` command (rustx-cli/src/bin/new/mod.rs): from the command-line
 * flags to a project type, the output directory, the builder chain, and
 * the summary of the created files.
 */
module NewCommand {
  import opened Wrappers
  import opened Errors
  import opened Tree
  import opened Fs
  import opened Config
  import opened Extras
  import opened Builder

  // ---------------------------------------------------------------------
  // Kind flags
  // ---------------------------------------------------------------------

  /** The two mutually exclusive kind flags; neither need be given. */
  datatype ProjectKind = ProjectKind(standalone: bool, workspace: bool)

  /**
   * The flags' project type, by the source's test
   * `standalone == (workspace | standalone)` (`|` binds tighter than `==`):
   * a workspace exactly when only the workspace flag is set.
   */
  function KindType(k: ProjectKind): (r: ProjectType)
    ensures r == Workspace <==> k.workspace && !k.standalone
  {
    if k.standalone == (k.workspace || k.standalone) then Standalone else Workspace
  }

  // ---------------------------------------------------------------------
  // Output directory
  // ---------------------------------------------------------------------

  /**
   * The output directory: the given one as is, without the name appended;
   * otherwise the project's name below the working directory, which is
   * only consulted (and can only fail) then.
   */
  function OutDirPath(cwd: Result<Path>, name: string, rootDir: Option<Path>): (r: Result<Path>)
    ensures rootDir.Some? ==> r == Ok(rootDir.value)
    ensures rootDir.None? ==> (r.Ok? <==> cwd.Ok?)
    ensures rootDir.None? && cwd.Err? ==> r == Err(cwd.error)
    ensures rootDir.None? && cwd.Ok? && name != "" ==>
      |r.value| == |cwd.value| + 1 && r.value[..|cwd.value|] == cwd.value && r.value[|cwd.value|] == name
  {
    match rootDir
    case Some(d) => Ok(d)
    case None =>
      match cwd
      case Err(e) => Err(e)
      case Ok(w) => Ok(Join(w, name))
  }

  /**
   * `build_project_out_dir`: a missing directory is created; one that
   * exists but is not a directory is `NotADirectory`.
   */
  function BuildOutDir(t: Node, cwd: Result<Path>, name: string, rootDir: Option<Path>): (r: Outcome<Path>)
    ensures r.result.Err? ==> r.fs == t
    ensures r.result.Ok? ==> IsDirAt(r.fs, r.result.value)
    ensures r.result.Ok? ==> OutDirPath(cwd, name, rootDir) == Ok(r.result.value)
  {
    match OutDirPath(cwd, name, rootDir)
    case Err(e) => Outcome(t, Err(e))
    case Ok(out) =>
      match Lookup(t, out)
      case Some(File(_)) => Outcome(t, Err(NotADirectory(out)))
      case Some(Dir(_)) => Outcome(t, Ok(out))
      case None =>
        match MkdirAll(t, out)
        case Err(e) => Outcome(t, Err(e))
        case Ok(t') => Outcome(t', Ok(out))
  }

  /**
   * The outcomes of `build_project_out_dir` once the path is known: an
   * existing directory is used as it is; a file there is `NotADirectory`;
   * a missing directory is created empty, with every file of the tree
   * kept, or the creation's I/O error is returned.
   */
  lemma BuildOutDirCases(t: Node, cwd: Result<Path>, name: string, rootDir: Option<Path>)
    requires OutDirPath(cwd, name, rootDir).Ok?
    ensures var out := OutDirPath(cwd, name, rootDir).value;
      var r := BuildOutDir(t, cwd, name, rootDir);
      && (IsDirAt(t, out) ==> r == Outcome(t, Ok(out)))
      && (FileAt(t, out).Some? ==> r == Outcome(t, Err(NotADirectory(out))))
      && (Lookup(t, out).None? && r.result.Ok? ==>
            Lookup(r.fs, out) == Some(Dir([])) && forall q :: FileAt(r.fs, q) == FileAt(t, q))
      && (Lookup(t, out).None? && r.result.Err? ==> r.result.error.Io?)
  {
    MkdirAllSpec(t, OutDirPath(cwd, name, rootDir).value);
  }

  // ---------------------------------------------------------------------
  // The summary of created files
  // ---------------------------------------------------------------------

  /** The escape character that starts a terminal colour sequence. */
  const Esc: char := 27 as char

  /** The separator between two listed files. */
  const Separator: string := "\n   "

  /** One listed file: a green `ADD` tag, the colour reset, a space and the path. */
  function AddLine(path: string): (s: string)
    ensures |s| > |path| && s[|s| - |path|..] == path
  {
    [Esc] + "[38;2;46;111;64mADD" + [Esc] + "[0m " + path
  }

  function AddLines(paths: seq<string>): (r: seq<string>)
    ensures |r| == |paths|
    ensures forall i :: 0 <= i < |paths| ==> r[i] == AddLine(paths[i])
  {
    if paths == [] then [] else [AddLine(paths[0])] + AddLines(paths[1..])
  }

  /** `reduce` with `format!("{prev}\n   {curr}")`: the left fold of a non-empty list. */
  function ReduceJoin(xs: seq<string>): string
    requires xs != []
    decreases |xs|
  {
    if |xs| == 1 then xs[0] else ReduceJoin(xs[..|xs| - 1]) + Separator + xs[|xs| - 1]
  }

  /** Reference definition: the first element, then each of the others after a separator. */
  function SeparatorBeforeEach(xs: seq<string>): string {
    if xs == [] then "" else Separator + xs[0] + SeparatorBeforeEach(xs[1..])
  }

  lemma {:induction false} SeparatorBeforeEachSnoc(xs: seq<string>, x: string)
    ensures SeparatorBeforeEach(xs + [x]) == SeparatorBeforeEach(xs) + Separator + x
  {
    if xs == [] {
      assert SeparatorBeforeEach([x]) == Separator + x + SeparatorBeforeEach([]);
    } else {
      assert (xs + [x])[1..] == xs[1..] + [x];
      SeparatorBeforeEachSnoc(xs[1..], x);
    }
  }

  /** The left fold is the first element followed by a separator and each other element. */
  lemma {:induction false} ReduceJoinShape(xs: seq<string>)
    requires xs != []
    ensures ReduceJoin(xs) == xs[0] + SeparatorBeforeEach(xs[1..])
    decreases |xs|
  {
    if |xs| > 1 {
      var init := xs[..|xs| - 1];
      ReduceJoinShape(init);
      assert init[1..] + [xs[|xs| - 1]] == xs[1..];
      SeparatorBeforeEachSnoc(init[1..], xs[|xs| - 1]);
    }
  }

  /** The formatted list of created files; nothing at all for an empty list. */
  function FormatFileList(files: seq<string>): (r: Option<string>)
    ensures r.None? <==> files == []
  {
    if files == [] then None else Some(ReduceJoin(AddLines(files)))
  }

  /** A non-empty list reads: the first file's line, then each further line after `"\n   "`. */
  lemma FormatFileListShape(files: seq<string>)
    requires files != []
    ensures FormatFileList(files) == Some(AddLine(files[0]) + SeparatorBeforeEach(AddLines(files[1..])))
  {
    ReduceJoinShape(AddLines(files));
    assert AddLines(files)[1..] == AddLines(files[1..]);
  }

  /** The summary logged after a successful run: none when no file was created. */
  function Summary(p: Project, files: seq<string>): (r: Option<string>)
    ensures r.None? <==> files == []
  {
    match FormatFileList(files)
    case None => None
    case Some(list) => Some("Successfully created new " + KindName(p.typ) + " project " + p.name + Separator + list)
  }

  /** A path as `Path::display` shows it: each name after a `/`. */
  function ShowPath(p: Path): string {
    if p == [] then "" else "/" + p[0] + ShowPath(p[1..])
  }

  function ShowPaths(ps: seq<Path>): (r: seq<string>)
    ensures |r| == |ps|
    ensures forall i :: 0 <= i < |ps| ==> r[i] == ShowPath(ps[i])
  {
    if ps == [] then [] else [ShowPath(ps[0])] + ShowPaths(ps[1..])
  }

  // ---------------------------------------------------------------------
  // run
  // ---------------------------------------------------------------------

  /** The command's arguments. */
  datatype NewProjectArgs = NewProjectArgs(
    name: string,
    kind: ProjectKind,
    rootDir: Option<Path>,
    setupCi: Option<CiProvider>,
    setupDocker: bool)

  /**
   * The builder chain of `run` on a fresh builder: type, name, root, then
   * the CI and Docker setters, each called once.
   */
  function Configured(args: NewProjectArgs, out: Path, sem: Semantics): (r: Project)
    ensures r.name == args.name && r.typ == KindType(args.kind) && r.srcRoot == out
    ensures NoDuplicates(r.extras)
    ensures sem == Corrected ==> (HasExtra(r, CI) <==> args.setupCi.Some?) && (HasExtra(r, Docker) <==> args.setupDocker)
  {
    var p1 := Apply(DefaultProject, SetType(KindType(args.kind)), sem);
    var p2 := Apply(p1, SetName(args.name), sem);
    var p3 := Apply(p2, SetSrcRoot(out), sem);
    var p4 := Apply(p3, SetupCiFlag(args.setupCi.Some?), sem);
    Apply(p4, SetupDockerFlag(args.setupDocker), sem)
  }

  /**
   * The configured project has the requested name, type and root, and
   * exactly the requested extras, each once; the setters as written give
   * the same project, since each is called once on a fresh builder.
   */
  lemma ConfiguredProject(args: NewProjectArgs, out: Path)
    ensures var p := Configured(args, out, Corrected);
      && p.name == args.name && p.typ == KindType(args.kind) && p.srcRoot == out
      && (HasExtra(p, CI) <==> args.setupCi.Some?)
      && (HasExtra(p, Docker) <==> args.setupDocker)
      && NoDuplicates(p.extras)
      && Configured(args, out, AsWritten) == p
  {
    var p3 := DefaultProject.(typ := KindType(args.kind), name := args.name, srcRoot := out);
    var p4 := SetupExtra(p3, CI, args.setupCi.Some?);
    var p5 := SetupExtra(p4, Docker, args.setupDocker);
    assert Configured(args, out, Corrected) == p5;
    SetupExtraAgrees(p3, CI, args.setupCi.Some?);
    SetupExtraAgrees(p4, Docker, args.setupDocker);
    assert Configured(args, out, AsWritten) == p5;
  }

  /** What a successful run leaves: the built project, the files `compile` rewrote, and the logged summary. */
  datatype Report = Report(project: Project, files: seq<Path>, summary: Option<string>)

  /** `build`, then `compile` on the built project, then the summary. */
  function BuildAndCompile(c: Config, git: GitHost, t: Node, p: Project): (r: Outcome<Report>)
    ensures r.result.Ok? ==> r.result.value.project == p
    ensures r.result.Ok? ==> (r.result.value.files == [] <==> r.result.value.summary.None?)
    ensures r.result.Ok? ==> Build(c, git, t, p).result.Ok? && IsDirAt(Build(c, git, t, p).fs, p.srcRoot)
  {
    var built := Build(c, git, t, p);
    if built.result.Err? then Outcome(built.fs, Err(built.result.error))
    else
      var compiled := Compile(built.fs, p);
      if compiled.result.Err? then Outcome(compiled.fs, Err(compiled.result.error))
      else
        var files := compiled.result.value;
        Outcome(compiled.fs, Ok(Report(p, files, Summary(p, ShowPaths(files)))))
  }

  /**
   * `run`: the project type from the flags, the output directory, the
   * builder chain and `build`, then `compile`; the first error ends the
   * run, with everything done up to it kept.
   */
  function NewProject(c: Config, git: GitHost, t: Node, cwd: Result<Path>, args: NewProjectArgs): (r: Outcome<Report>)
    ensures r.result.Ok? ==> OutDirPath(cwd, args.name, args.rootDir) == Ok(r.result.value.project.srcRoot)
    ensures r.result.Ok? ==> r.result.value.project == Configured(args, r.result.value.project.srcRoot, Corrected)
  {
    var dir := BuildOutDir(t, cwd, args.name, args.rootDir);
    if dir.result.Err? then Outcome(dir.fs, Err(dir.result.error))
    else
      ConfiguredProject(args, dir.result.value);
      BuildAndCompile(c, git, dir.fs, Configured(args, dir.result.value, Corrected))
  }

  /**
   * A successful run's project has the requested type and exactly the
   * requested extras, and a summary exactly when some file was rewritten.
   */
  lemma NewProjectReport(c: Config, git: GitHost, t: Node, cwd: Result<Path>, args: NewProjectArgs)
    requires NewProject(c, git, t, cwd, args).result.Ok?
    ensures var rep := NewProject(c, git, t, cwd, args).result.value;
      && (HasExtra(rep.project, CI) <==> args.setupCi.Some?)
      && (HasExtra(rep.project, Docker) <==> args.setupDocker)
      && rep.project.typ == KindType(args.kind)
      && (rep.files == [] <==> rep.summary.None?)
  {
    var rep := NewProject(c, git, t, cwd, args).result.value;
    ConfiguredProject(args, rep.project.srcRoot);
  }
}
