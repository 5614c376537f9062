/**
 * The project builder (rustx-cli/src/project/builder.rs): the project
 * record and its extras list, the fluent setters, the project kinds and
 * their names, the copy plan `build` follows, and `compile`.
 */
module Builder {
  import opened Wrappers
  import opened Errors
  import opened Tree
  import opened Fs
  import opened Interpolation
  import opened Config
  import opened Extras

  // ---------------------------------------------------------------------
  // Project kinds
  // ---------------------------------------------------------------------

  datatype ProjectType = Standalone | Workspace

  /** The kind's name as printed, which is also its template's directory name. */
  function KindName(k: ProjectType): (s: string)
    ensures ParseProjectType(s) == Ok(k)
  {
    match k
    case Standalone => "standalone"
    case Workspace => "workspace"
  }

  /** Parsing a kind name; anything but the two printed names is an error carrying the text. */
  function ParseProjectType(s: string): (r: Result<ProjectType>)
    ensures r.Err? ==> r.error == InvalidProjectKind(s)
  {
    if s == "standalone" then Ok(Standalone)
    else if s == "workspace" then Ok(Workspace)
    else Err(InvalidProjectKind(s))
  }

  /** Parsing succeeds exactly on the printed names, and printing what was parsed gives the text back. */
  lemma ParseProjectTypeExact(s: string)
    ensures ParseProjectType(s).Ok? <==> exists k :: KindName(k) == s
    ensures ParseProjectType(s).Ok? ==> KindName(ParseProjectType(s).value) == s
  {
    if ParseProjectType(s).Ok? {
      assert KindName(ParseProjectType(s).value) == s;
    }
  }

  // ---------------------------------------------------------------------
  // The project record and its extras
  // ---------------------------------------------------------------------

  datatype Project = Project(name: string, typ: ProjectType, srcRoot: Path, extras: seq<ProjectExtra>)

  /** `Project::default()`: no name, a standalone project, an empty root path, no extras. */
  const DefaultProject: Project := Project("", Standalone, [], [])

  predicate HasExtra(p: Project, x: ProjectExtra) {
    x in p.extras
  }

  /** No extra is listed twice. */
  predicate NoDuplicates(xs: seq<ProjectExtra>) {
    forall i, j :: 0 <= i < j < |xs| ==> xs[i] != xs[j]
  }

  /** `add_extra`: appends, whether or not the extra is already listed. */
  function AddExtra(p: Project, x: ProjectExtra): (r: Project)
    ensures HasExtra(r, x)
    ensures forall y :: y != x ==> (HasExtra(r, y) <==> HasExtra(p, y))
    ensures |r.extras| == |p.extras| + 1
    ensures r.extras[..|p.extras|] == p.extras && r.extras[|p.extras|] == x
    ensures NoDuplicates(p.extras) && !HasExtra(p, x) ==> NoDuplicates(r.extras)
    ensures r.(extras := p.extras) == p
  {
    p.(extras := p.extras + [x])
  }

  /** The index of the first occurrence of `x`. */
  function Position(xs: seq<ProjectExtra>, x: ProjectExtra): (r: Option<nat>)
    ensures r.None? <==> x !in xs
    ensures r.Some? ==> r.value < |xs| && xs[r.value] == x && x !in xs[..r.value]
  {
    if xs == [] then None
    else if xs[0] == x then Some(0)
    else
      match Position(xs[1..], x)
      case None => None
      case Some(i) =>
        assert xs[..i + 1] == [xs[0]] + xs[1..][..i];
        Some(i + 1)
  }

  /** Position `k` after dropping the element at `i` holds what was at `k`, or at `k + 1` from `i` on. */
  lemma DropAtIndex(xs: seq<ProjectExtra>, i: nat, k: nat)
    requires i < |xs| && k < |xs| - 1
    ensures (xs[..i] + xs[i + 1..])[k] == xs[if k < i then k else k + 1]
  {
  }

  /** Dropping the element at `i`: what remains, in order, with one occurrence of that element fewer. */
  lemma DropAt(xs: seq<ProjectExtra>, i: nat)
    requires i < |xs|
    ensures multiset(xs[..i] + xs[i + 1..]) == multiset(xs) - multiset{xs[i]}
    ensures NoDuplicates(xs) ==> NoDuplicates(xs[..i] + xs[i + 1..]) && xs[i] !in xs[..i] + xs[i + 1..]
  {
    assert xs == xs[..i] + [xs[i]] + xs[i + 1..];
    if NoDuplicates(xs) {
      DropAtDistinct(xs, i);
    }
  }

  /** Dropping an element of a list without repeats leaves a list without repeats that lacks it. */
  lemma DropAtDistinct(xs: seq<ProjectExtra>, i: nat)
    requires i < |xs| && NoDuplicates(xs)
    ensures NoDuplicates(xs[..i] + xs[i + 1..]) && xs[i] !in xs[..i] + xs[i + 1..]
  {
    var ys := xs[..i] + xs[i + 1..];
    forall a, b | 0 <= a < b < |ys|
      ensures ys[a] != ys[b]
    {
      DropAtIndex(xs, i, a);
      DropAtIndex(xs, i, b);
    }
    forall k | 0 <= k < |ys|
      ensures ys[k] != xs[i]
    {
      DropAtIndex(xs, i, k);
    }
  }

  /**
   * `remove_extra`: removes the first occurrence of `x`, keeping the order
   * of the rest, and reports whether there was one.
   */
  function RemoveExtra(p: Project, x: ProjectExtra): (r: (Project, bool))
    ensures r.1 <==> HasExtra(p, x)
    ensures !r.1 ==> r.0 == p
    ensures r.1 ==> exists i :: (0 <= i < |p.extras| && p.extras[i] == x && x !in p.extras[..i]
      && r.0.extras == p.extras[..i] + p.extras[i + 1..])
    ensures multiset(r.0.extras) == multiset(p.extras) - multiset{x}
    ensures NoDuplicates(p.extras) ==> NoDuplicates(r.0.extras) && !HasExtra(r.0, x)
    ensures r.0.(extras := p.extras) == p
  {
    match Position(p.extras, x)
    case None => (p, false)
    case Some(i) =>
      DropAt(p.extras, i);
      (p.(extras := p.extras[..i] + p.extras[i + 1..]), true)
  }

  /** Removing what was just added to a project that lacked it gives the project back. */
  lemma RemoveUndoesAdd(p: Project, x: ProjectExtra)
    requires !HasExtra(p, x)
    ensures RemoveExtra(AddExtra(p, x), x) == (p, true)
  {
    var xs := p.extras + [x];
    assert xs[..|p.extras|] == p.extras;
    assert xs[|p.extras|] == x;
    assert Position(xs, x) == Some(|p.extras|);
    assert xs[..|p.extras|] + xs[|p.extras| + 1..] == p.extras;
  }

  // ---------------------------------------------------------------------
  // The fluent setters
  // ---------------------------------------------------------------------

  /**
   * `setup_ci(yes)` / `setup_docker(yes)` as written: the extra is added
   * when asked for and absent; in every other case the first occurrence
   * is removed, so asking for an extra that is already there takes it out.
   */
  function SetupExtraAsWritten(p: Project, x: ProjectExtra, yes: bool): (r: Project)
    ensures !HasExtra(p, x) ==> (HasExtra(r, x) <==> yes)
    ensures HasExtra(p, x) ==> r == RemoveExtra(p, x).0
    ensures HasExtra(p, x) && NoDuplicates(p.extras) ==> !HasExtra(r, x)
    ensures forall y :: y != x ==> (HasExtra(r, y) <==> HasExtra(p, y))
    ensures NoDuplicates(p.extras) ==> NoDuplicates(r.extras)
    ensures r.(extras := p.extras) == p
  {
    if yes && !HasExtra(p, x) then AddExtra(p, x)
    else RemoveExtra(p, x).0
  }

  /** Asking twice for an extra a project lacks leaves the project without it. */
  lemma SetupExtraAsWrittenToggles(p: Project, x: ProjectExtra)
    requires NoDuplicates(p.extras) && !HasExtra(p, x)
    ensures HasExtra(SetupExtraAsWritten(p, x, true), x)
    ensures !HasExtra(SetupExtraAsWritten(SetupExtraAsWritten(p, x, true), x, true), x)
  {
    var once := SetupExtraAsWritten(p, x, true);
    assert NoDuplicates(once.extras);
  }

  /** The setters as evidently intended: afterwards the extra is listed exactly when asked for. */
  function SetupExtra(p: Project, x: ProjectExtra, yes: bool): (r: Project)
    ensures NoDuplicates(p.extras) ==> (HasExtra(r, x) <==> yes) && NoDuplicates(r.extras)
    ensures forall y :: y != x ==> (HasExtra(r, y) <==> HasExtra(p, y))
    ensures r.(extras := p.extras) == p
  {
    if !yes then RemoveExtra(p, x).0
    else if HasExtra(p, x) then p
    else AddExtra(p, x)
  }

  /** The corrected setter is idempotent. */
  lemma SetupExtraIdempotent(p: Project, x: ProjectExtra, yes: bool)
    requires NoDuplicates(p.extras)
    ensures SetupExtra(SetupExtra(p, x, yes), x, yes) == SetupExtra(p, x, yes)
  {
    var once := SetupExtra(p, x, yes);
    if !yes {
      assert !HasExtra(once, x);
    }
  }

  /** On a project that lacks the extra, and whenever the extra is not asked for, both setters agree. */
  lemma SetupExtraAgrees(p: Project, x: ProjectExtra, yes: bool)
    requires !HasExtra(p, x) || !yes
    ensures SetupExtraAsWritten(p, x, yes) == SetupExtra(p, x, yes)
  {
  }

  /** One call of the builder's setters. */
  datatype Setter =
    | SetName(name: string)
    | SetType(typ: ProjectType)
    | SetSrcRoot(dir: Path)
    | SetupCiFlag(ci: bool)
    | SetupDockerFlag(docker: bool)

  /** Which behaviour of the extras setters to apply. */
  datatype Semantics = AsWritten | Corrected

  /** One setter call: the first three change only their own field. */
  function Apply(p: Project, s: Setter, sem: Semantics): (r: Project)
    ensures s.SetName? ==> r == p.(name := s.name)
    ensures s.SetType? ==> r == p.(typ := s.typ)
    ensures s.SetSrcRoot? ==> r == p.(srcRoot := s.dir)
    ensures s.SetupCiFlag? ==> r == if sem == AsWritten then SetupExtraAsWritten(p, CI, s.ci) else SetupExtra(p, CI, s.ci)
    ensures s.SetupDockerFlag? ==> r == if sem == AsWritten then SetupExtraAsWritten(p, Docker, s.docker) else SetupExtra(p, Docker, s.docker)
    ensures !s.SetName? ==> r.name == p.name
    ensures !s.SetType? ==> r.typ == p.typ
    ensures !s.SetSrcRoot? ==> r.srcRoot == p.srcRoot
    ensures !s.SetupCiFlag? && !s.SetupDockerFlag? ==> r.extras == p.extras
    ensures NoDuplicates(p.extras) ==> NoDuplicates(r.extras)
  {
    match s
    case SetName(n) => p.(name := n)
    case SetType(k) => p.(typ := k)
    case SetSrcRoot(d) => p.(srcRoot := d)
    case SetupCiFlag(yes) =>
      if sem == AsWritten then SetupExtraAsWritten(p, CI, yes) else SetupExtra(p, CI, yes)
    case SetupDockerFlag(yes) =>
      if sem == AsWritten then SetupExtraAsWritten(p, Docker, yes) else SetupExtra(p, Docker, yes)
  }

  /** A chain of setter calls, first to last. */
  function ApplyAll(p: Project, ss: seq<Setter>, sem: Semantics): Project
    decreases |ss|
  {
    if ss == [] then p else ApplyAll(Apply(p, ss[0], sem), ss[1..], sem)
  }

  /** Whatever the chain of setters, a list without duplicates stays without duplicates. */
  lemma {:induction false} ApplyAllNoDuplicates(p: Project, ss: seq<Setter>, sem: Semantics)
    requires NoDuplicates(p.extras)
    ensures NoDuplicates(ApplyAll(p, ss, sem).extras)
    decreases |ss|
  {
    if ss != [] {
      ApplyAllNoDuplicates(Apply(p, ss[0], sem), ss[1..], sem);
    }
  }

  /** Starting from the default project, the extras list never holds duplicates. */
  lemma FromDefaultNoDuplicates(ss: seq<Setter>, sem: Semantics)
    ensures NoDuplicates(ApplyAll(DefaultProject, ss, sem).extras)
  {
    ApplyAllNoDuplicates(DefaultProject, ss, sem);
  }

  /** The flag the last setter for `x` in the chain gave, or `current` if none did. */
  function LastFlag(ss: seq<Setter>, x: ProjectExtra, current: bool): bool
    decreases |ss|
  {
    if ss == [] then current
    else
      var now := match ss[0]
        case SetupCiFlag(yes) => if x == CI then yes else current
        case SetupDockerFlag(yes) => if x == Docker then yes else current
        case _ => current;
      LastFlag(ss[1..], x, now)
  }

  /** With the corrected setters, an extra is listed exactly when the last call about it asked for it. */
  lemma {:induction false} ApplyAllExtras(p: Project, ss: seq<Setter>, x: ProjectExtra)
    requires NoDuplicates(p.extras)
    ensures HasExtra(ApplyAll(p, ss, Corrected), x) <==> LastFlag(ss, x, HasExtra(p, x))
    decreases |ss|
  {
    if ss != [] {
      var q := Apply(p, ss[0], Corrected);
      ApplyAllExtras(q, ss[1..], x);
    }
  }

  // ---------------------------------------------------------------------
  // build
  // ---------------------------------------------------------------------

  /** `get_template_dir`: the kind's directory in the template store. */
  function GetTemplateDir(c: Config, k: ProjectType): (r: Path)
    ensures |r| == |c.templatesDir| + 1 && r[..|c.templatesDir|] == c.templatesDir
    ensures ParseProjectType(r[|c.templatesDir|]) == Ok(k)
  {
    c.templatesDir + [KindName(k)]
  }

  /** One step of `build` after the template store is in place. */
  datatype BuildStep =
    | CopyTemplate(src: Path, dst: Path)
    | AddDocker
    | AddCi(ci: CiProvider)

  /**
   * The steps of `build`: the kind's template into the root; for a
   * workspace, the standalone template into the member crate named after
   * the project; then Docker, then CI, each if listed.
   */
  function BuildPlan(c: Config, p: Project): (plan: seq<BuildStep>)
    ensures |plan| == 1 + (if p.typ == Workspace then 1 else 0)
      + (if HasExtra(p, Docker) then 1 else 0) + (if HasExtra(p, CI) then 1 else 0)
    ensures plan[0] == CopyTemplate(GetTemplateDir(c, p.typ), p.srcRoot)
    ensures CopyTemplate(GetTemplateDir(c, Standalone), Join(p.srcRoot, p.name)) in plan[1..] <==> p.typ == Workspace
    ensures AddDocker in plan <==> HasExtra(p, Docker)
    ensures AddCi(GitHub) in plan <==> HasExtra(p, CI)
  {
    var plan := TemplateCopies(c, p) + ExtraSteps(p);
    assert plan[1..] == TemplateCopies(c, p)[1..] + ExtraSteps(p);
    plan
  }

  /** The template copies of `build`: the kind's template, then for a workspace the member crate's. */
  function TemplateCopies(c: Config, p: Project): (r: seq<BuildStep>)
    ensures |r| == if p.typ == Workspace then 2 else 1
    ensures forall i :: 0 <= i < |r| ==> r[i].CopyTemplate?
    ensures forall i :: 0 <= i < |r| ==> IsPrefix(p.srcRoot, r[i].dst)
  {
    [CopyTemplate(GetTemplateDir(c, p.typ), p.srcRoot)]
      + (if p.typ == Workspace then [CopyTemplate(GetTemplateDir(c, Standalone), Join(p.srcRoot, p.name))] else [])
  }

  /** The extras steps of `build`: Docker, then CI, each if listed. */
  function ExtraSteps(p: Project): (r: seq<BuildStep>)
    ensures |r| == (if HasExtra(p, Docker) then 1 else 0) + (if HasExtra(p, CI) then 1 else 0)
    ensures forall i :: 0 <= i < |r| ==> !r[i].CopyTemplate?
  {
    (if HasExtra(p, Docker) then [AddDocker] else []) + (if HasExtra(p, CI) then [AddCi(GitHub)] else [])
  }

  lemma AppendIndex(a: seq<BuildStep>, b: seq<BuildStep>, i: int)
    requires 0 <= i < |a| + |b|
    ensures (a + b)[i] == if i < |a| then a[i] else b[i - |a|]
  {
  }

  /** In the plan, every template copy comes before every extra, and Docker comes before CI. */
  lemma BuildPlanOrder(c: Config, p: Project)
    ensures var plan := BuildPlan(c, p);
      && (forall i, j :: 0 <= i < |plan| && 0 <= j < |plan| && plan[i].CopyTemplate? && !plan[j].CopyTemplate? ==> i < j)
      && (forall i, j :: 0 <= i < |plan| && 0 <= j < |plan| && plan[i] == AddDocker && plan[j].AddCi? ==> i < j)
  {
    var copies := TemplateCopies(c, p);
    var extras := ExtraSteps(p);
    var plan := BuildPlan(c, p);
    forall i, j | 0 <= i < |plan| && 0 <= j < |plan| && plan[i].CopyTemplate? && !plan[j].CopyTemplate?
      ensures i < j
    {
      AppendIndex(copies, extras, i);
      AppendIndex(copies, extras, j);
    }
    forall i, j | 0 <= i < |plan| && 0 <= j < |plan| && plan[i] == AddDocker && plan[j].AddCi?
      ensures i < j
    {
      AppendIndex(copies, extras, i);
      AppendIndex(copies, extras, j);
    }
  }

  /** One build step, on the template store of `c` and the root of `p`. */
  function ExecBuildStep(t: Node, c: Config, p: Project, s: BuildStep): (r: Outcome<()>)
    ensures r.result.Err? ==> r.result.error.Io?
    ensures s.CopyTemplate? && MkdirAll(t, s.dst).Ok? ==> IsDirAt(r.fs, s.dst)
  {
    match s
    case CopyTemplate(src, dst) => CopyDirAll(t, src, dst)
    case AddDocker => SetupDocker(t, c.templatesDir, p.srcRoot)
    case AddCi(ci) => SetupCi(t, c.templatesDir, p.srcRoot, ci)
  }

  /** The steps in order; the first failure ends the run with its error. */
  function RunBuild(t: Node, c: Config, p: Project, plan: seq<BuildStep>): (r: Outcome<()>)
    ensures r.result.Err? ==> r.result.error.Io?
    decreases |plan|
  {
    if plan == [] then Outcome(t, Ok(()))
    else
      var o := ExecBuildStep(t, c, p, plan[0]);
      if o.result.Err? then o else RunBuild(o.fs, c, p, plan[1..])
  }

  /**
   * `build`, with the store synchronised by `sync_store` as written
   * (`AsWritten`) or as intended (`Corrected`).  `try_exists` on the
   * kind's template directory reports a miss only when the path is absent
   * with directories all the way down; a regular file above it makes the
   * lookup itself fail with an I/O error, before anything is done.  The
   * store is synchronised only on a clean miss, and a failed
   * synchronisation ends the build with its error.  Then the plan runs,
   * and the project is returned unchanged.
   */
  function BuildWith(c: Config, git: GitHost, t: Node, p: Project, sem: Semantics): (r: Outcome<Project>)
    ensures Lookup(t, GetTemplateDir(c, p.typ)).None? && FileOnPath(t, GetTemplateDir(c, p.typ))
      ==> r == Outcome(t, Err(Io(NotADir)))
    ensures Lookup(t, GetTemplateDir(c, p.typ)).None? && !FileOnPath(t, GetTemplateDir(c, p.typ)) && !git.installed
      ==> r == Outcome(t, Err(MissingGitInstallation))
    ensures r.result.Ok? ==> r.result.value == p
  {
    var template := GetTemplateDir(c, p.typ);
    var synced :=
      if Lookup(t, template).Some? then Run(t, Ok(()), [])
      else if FileOnPath(t, template) then Run(t, Err(Io(NotADir)), [])
      else if sem == AsWritten then SyncStoreAsWritten(c, git, t)
      else SyncStore(c, git, t);
    if synced.result.Err? then Outcome(synced.fs, Err(synced.result.error))
    else
      var o := RunBuild(synced.fs, c, p, BuildPlan(c, p));
      Outcome(o.fs, if o.result.Ok? then Ok(p) else Err(o.result.error))
  }

  /** `build` with the intended `sync_store`, the one the rest of the model uses. */
  function Build(c: Config, git: GitHost, t: Node, p: Project): (r: Outcome<Project>)
    ensures Lookup(t, GetTemplateDir(c, p.typ)).None? && FileOnPath(t, GetTemplateDir(c, p.typ))
      ==> r == Outcome(t, Err(Io(NotADir)))
    ensures Lookup(t, GetTemplateDir(c, p.typ)).None? && !FileOnPath(t, GetTemplateDir(c, p.typ)) && !git.installed
      ==> r == Outcome(t, Err(MissingGitInstallation))
    ensures r.result.Ok? ==> r.result.value == p
  {
    BuildWith(c, git, t, p, Corrected)
  }

  /**
   * `build` as written and `build` with the intended `sync_store` differ
   * only through the synchronisation; when the repository's template
   * directory is named `templates` they coincide.
   */
  lemma BuildAgrees(c: Config, git: GitHost, t: Node, p: Project)
    ensures Lookup(t, GetTemplateDir(c, p.typ)).Some? ==> BuildWith(c, git, t, p, AsWritten) == Build(c, git, t, p)
    ensures c.gitRepository.directory == TemplatesDirName ==> BuildWith(c, git, t, p, AsWritten) == Build(c, git, t, p)
  {
    if Lookup(t, GetTemplateDir(c, p.typ)).None? && !FileOnPath(t, GetTemplateDir(c, p.typ))
      && c.gitRepository.directory == TemplatesDirName
    {
      SyncStoreAgrees(c, git, t);
    }
  }

  /** With the kind's template present, `build` is the plan run on the unchanged tree. */
  lemma BuildWithTemplate(c: Config, git: GitHost, t: Node, p: Project)
    requires Lookup(t, GetTemplateDir(c, p.typ)).Some?
    ensures Build(c, git, t, p).fs == RunBuild(t, c, p, BuildPlan(c, p)).fs
    ensures Build(c, git, t, p).result.Ok? <==> RunBuild(t, c, p, BuildPlan(c, p)).result.Ok?
  {
  }

  lemma PrefixExtend(p: Path, x: Path, q: Path)
    requires !IsPrefix(p, q)
    ensures !IsPrefix(p + x, q)
  {
  }

  /** Every template copy of the plan goes to the project's root or below it. */
  lemma BuildPlanInRoot(c: Config, p: Project)
    ensures var plan := BuildPlan(c, p);
      forall i :: 0 <= i < |plan| && plan[i].CopyTemplate? ==> IsPrefix(p.srcRoot, plan[i].dst)
  {
    var plan := BuildPlan(c, p);
    forall i | 0 <= i < |plan| && plan[i].CopyTemplate?
      ensures IsPrefix(p.srcRoot, plan[i].dst)
    {
      AppendIndex(TemplateCopies(c, p), ExtraSteps(p), i);
    }
  }

  /** Every step writes only below the project's root. */
  lemma ExecBuildStepOutside(t: Node, c: Config, p: Project, s: BuildStep, q: Path)
    requires s.CopyTemplate? ==> IsPrefix(p.srcRoot, s.dst)
    requires !IsPrefix(p.srcRoot, q)
    ensures FileAt(ExecBuildStep(t, c, p, s).fs, q) == FileAt(t, q)
  {
    match s
    case CopyTemplate(src, dst) =>
      CopyDirAllOutside(t, src, dst, q);
    case AddDocker => CopyDirAllOutside(t, DockerTemplateDir(c.templatesDir), p.srcRoot, q);
    case AddCi(ci) =>
      PrefixExtend(p.srcRoot, [".github"], q);
      CopyDirAllOutside(t, CiTemplateDir(c.templatesDir, ci), CiProjectDir(p.srcRoot), q);
  }

  lemma {:induction false} RunBuildOutside(t: Node, c: Config, p: Project, plan: seq<BuildStep>, q: Path)
    requires forall i :: 0 <= i < |plan| && plan[i].CopyTemplate? ==> IsPrefix(p.srcRoot, plan[i].dst)
    requires !IsPrefix(p.srcRoot, q)
    ensures FileAt(RunBuild(t, c, p, plan).fs, q) == FileAt(t, q)
    decreases |plan|
  {
    if plan != [] {
      ExecBuildStepOutside(t, c, p, plan[0], q);
      var o := ExecBuildStep(t, c, p, plan[0]);
      if o.result.Ok? {
        assert forall i :: 0 <= i < |plan[1..]| ==> plan[1..][i] == plan[i + 1];
        RunBuildOutside(o.fs, c, p, plan[1..], q);
      }
    }
  }

  /**
   * When the kind's template is already in the store, `build` writes
   * nothing outside the project's root: no synchronisation takes place.
   */
  lemma BuildWithTemplateStaysInRoot(c: Config, git: GitHost, t: Node, p: Project, q: Path)
    requires Lookup(t, GetTemplateDir(c, p.typ)).Some?
    requires !IsPrefix(p.srcRoot, q)
    ensures FileAt(Build(c, git, t, p).fs, q) == FileAt(t, q)
  {
    BuildPlanInRoot(c, p);
    RunBuildOutside(t, c, p, BuildPlan(c, p), q);
    BuildWithTemplate(c, git, t, p);
  }

  /**
   * A standalone project with no extras, whose template is present: after
   * a successful `build`, the root holds the template's files over what
   * it held before.
   */
  lemma BuildStandaloneFiles(c: Config, git: GitHost, t: Node, p: Project)
    requires WellFormed(t)
    requires p.typ == Standalone && p.extras == []
    requires Lookup(t, GetTemplateDir(c, Standalone)).Some?
    requires Build(c, git, t, p).result.Ok?
    ensures forall r :: (FileAt(Build(c, git, t, p).fs, p.srcRoot + r)
      == FileAt(t, c.templatesDir + ["standalone"] + r).Or(FileAt(t, p.srcRoot + r)))
  {
    var tpl := GetTemplateDir(c, Standalone);
    var plan := BuildPlan(c, p);
    assert plan == [CopyTemplate(tpl, p.srcRoot)];
    var o := CopyDirAll(t, tpl, p.srcRoot);
    assert plan[1..] == [];
    assert ExecBuildStep(t, c, p, plan[0]) == o;
    assert RunBuild(t, c, p, plan).fs == o.fs && (RunBuild(t, c, p, plan).result.Ok? ==> o.result.Ok?);
    BuildWithTemplate(c, git, t, p);
    CopyDirAllFiles(t, tpl, p.srcRoot);
  }

  /**
   * On a clean miss of the kind's template directory, `build` is the
   * synchronisation followed by the plan on the synchronised tree: a
   * failed synchronisation ends it with the synchronisation's error and
   * its partial effects.
   */
  lemma BuildSyncsOnCleanMiss(c: Config, git: GitHost, t: Node, p: Project, sem: Semantics)
    requires Lookup(t, GetTemplateDir(c, p.typ)).None? && !FileOnPath(t, GetTemplateDir(c, p.typ))
    ensures var s := if sem == AsWritten then SyncStoreAsWritten(c, git, t) else SyncStore(c, git, t);
      && (s.result.Err? ==> BuildWith(c, git, t, p, sem) == Outcome(s.fs, Err(s.result.error)))
      && (s.result.Ok? ==> BuildWith(c, git, t, p, sem).fs == RunBuild(s.fs, c, p, BuildPlan(c, p)).fs)
      && (s.result.Ok? ==> (BuildWith(c, git, t, p, sem).result.Ok? <==> RunBuild(s.fs, c, p, BuildPlan(c, p)).result.Ok?))
  {
  }

  /** The plan of a standalone project with no extras is the one copy of the standalone template into the root. */
  lemma StandalonePlanRun(t: Node, c: Config, p: Project)
    requires p.typ == Standalone && p.extras == []
    ensures RunBuild(t, c, p, BuildPlan(c, p)).fs == CopyDirAll(t, c.templatesDir + ["standalone"], p.srcRoot).fs
    ensures RunBuild(t, c, p, BuildPlan(c, p)).result.Ok? <==> CopyDirAll(t, c.templatesDir + ["standalone"], p.srcRoot).result.Ok?
  {
    var plan := BuildPlan(c, p);
    var o := CopyDirAll(t, c.templatesDir + ["standalone"], p.srcRoot);
    assert plan == [CopyTemplate(c.templatesDir + ["standalone"], p.srcRoot)];
    assert plan[1..] == [];
    assert ExecBuildStep(t, c, p, plan[0]) == o;
  }

  /**
   * A standalone project with no extras, on a clean miss of its template
   * with `git` installed: after a successful `build`, the root holds the
   * files of the repository's `<directory>/standalone`, over what the
   * synchronised tree held there.
   */
  lemma BuildStandaloneFromRepository(c: Config, git: GitHost, t: Node, p: Project)
    requires c.Valid() && git.installed && c.gitRepository.directory != ""
    requires WellFormed(t) && WellFormed(git.checkout)
    requires p.typ == Standalone && p.extras == []
    requires Lookup(t, GetTemplateDir(c, Standalone)).None? && !FileOnPath(t, GetTemplateDir(c, Standalone))
    requires Build(c, git, t, p).result.Ok?
    ensures SyncStore(c, git, t).result.Ok?
    ensures forall r :: (FileAt(Build(c, git, t, p).fs, p.srcRoot + r)
      == FileAt(git.checkout, [c.gitRepository.directory, "standalone"] + r).Or(FileAt(SyncStore(c, git, t).fs, p.srcRoot + r)))
  {
    var d := c.gitRepository.directory;
    var s := SyncStore(c, git, t);
    BuildSyncsOnCleanMiss(c, git, t, p, Corrected);
    SyncUnrolled(c, git, t, [d]);
    BeforeCopyWellFormed(c, git, t, [d]);
    CopyDirAllWellFormed(BeforeCopy(c, git, t, [d]), Join(c.tempDir, d), c.templatesDir);
    SyncStoreContents(c, git, t);
    StandalonePlanRun(s.fs, c, p);
    StandaloneFromStore(s.fs, c.templatesDir, p.srcRoot, git.checkout, d);
  }

  /**
   * A copy of the store's `standalone` into the root, where the store
   * holds the checkout's `d`: the root holds the checkout's
   * `d/standalone` over what it held.
   */
  lemma StandaloneFromStore(u: Node, store: Path, root: Path, checkout: Node, d: string)
    requires WellFormed(u)
    requires forall r :: FileAt(u, store + r) == FileAt(checkout, [d] + r)
    requires CopyDirAll(u, store + ["standalone"], root).result.Ok?
    ensures forall r :: (FileAt(CopyDirAll(u, store + ["standalone"], root).fs, root + r)
      == FileAt(checkout, [d, "standalone"] + r).Or(FileAt(u, root + r)))
  {
    var sa := store + ["standalone"];
    CopyDirAllFiles(u, sa, root);
    forall r
      ensures FileAt(CopyDirAll(u, sa, root).fs, root + r) == FileAt(checkout, [d, "standalone"] + r).Or(FileAt(u, root + r))
    {
      StoreEntryFile(u, store, checkout, d, "standalone", r);
    }
  }

  /** A file below an entry `x` of the store is the checkout's file below `d/x`. */
  lemma StoreEntryFile(u: Node, store: Path, checkout: Node, d: string, x: string, r: Path)
    requires FileAt(u, store + ([x] + r)) == FileAt(checkout, [d] + ([x] + r))
    ensures FileAt(u, store + [x] + r) == FileAt(checkout, [d, x] + r)
  {
    assert store + [x] + r == store + ([x] + r);
    assert [d, x] + r == [d] + ([x] + r);
  }

  /**
   * A workspace with no extras, whose template is present and whose root
   * lies apart from the template store: after a successful `build`, the
   * member crate named after the project holds the standalone template's
   * files, over whatever the workspace template put there, over what it
   * held before.
   */
  lemma BuildWorkspaceFiles(c: Config, git: GitHost, t: Node, p: Project)
    requires WellFormed(t)
    requires p.typ == Workspace && p.extras == []
    requires !IsPrefix(p.srcRoot, c.templatesDir) && !IsPrefix(c.templatesDir, p.srcRoot)
    requires Lookup(t, GetTemplateDir(c, Workspace)).Some?
    requires Build(c, git, t, p).result.Ok?
    ensures forall r :: (FileAt(Build(c, git, t, p).fs, Join(p.srcRoot, p.name) + r)
      == FileAt(t, c.templatesDir + ["standalone"] + r)
           .Or(FileAt(t, Join(c.templatesDir + ["workspace"], p.name) + r).Or(FileAt(t, Join(p.srcRoot, p.name) + r))))
  {
    WorkspacePlanRun(t, c, p);
    BuildWithTemplate(c, git, t, p);
    StoreEntryApartFromRoot(c.templatesDir, p.srcRoot, "standalone");
    WorkspaceCopiesFiles(t, c.templatesDir + ["workspace"], c.templatesDir + ["standalone"], p.srcRoot, p.name);
  }

  /**
   * The files of the member crate after two copies, the first of `w` into
   * the root, the second of `sa`, apart from the root, into the member.
   */
  lemma WorkspaceCopiesFiles(t: Node, w: Path, sa: Path, root: Path, name: string)
    requires WellFormed(t)
    requires !IsPrefix(root, sa) && !IsPrefix(sa, root)
    requires CopyDirAll(t, w, root).result.Ok?
    requires CopyDirAll(CopyDirAll(t, w, root).fs, sa, Join(root, name)).result.Ok?
    ensures forall r :: (FileAt(CopyDirAll(CopyDirAll(t, w, root).fs, sa, Join(root, name)).fs, Join(root, name) + r)
      == FileAt(t, sa + r).Or(FileAt(t, Join(w, name) + r).Or(FileAt(t, Join(root, name) + r))))
  {
    forall r
      ensures FileAt(CopyDirAll(CopyDirAll(t, w, root).fs, sa, Join(root, name)).fs, Join(root, name) + r)
           == FileAt(t, sa + r).Or(FileAt(t, Join(w, name) + r).Or(FileAt(t, Join(root, name) + r)))
    {
      StoreApartFromRoot(sa, root, r);
      WorkspaceMemberFile(t, w, sa, root, name, r);
    }
  }

  /** An entry of a store that lies apart from the root lies apart from it too. */
  lemma StoreEntryApartFromRoot(store: Path, root: Path, n: string)
    requires !IsPrefix(root, store) && !IsPrefix(store, root)
    ensures !IsPrefix(root, store + [n]) && !IsPrefix(store + [n], root)
  {
    StoreApartFromRoot(store, root, [n]);
  }

  /** The plan of a workspace without extras: the two template copies, the second on the first's tree. */
  lemma WorkspacePlanRun(t: Node, c: Config, p: Project)
    requires p.typ == Workspace && p.extras == []
    ensures var o1 := CopyDirAll(t, c.templatesDir + ["workspace"], p.srcRoot);
      var o2 := CopyDirAll(o1.fs, c.templatesDir + ["standalone"], Join(p.srcRoot, p.name));
      RunBuild(t, c, p, BuildPlan(c, p)) == if o1.result.Err? then o1 else if o2.result.Err? then o2 else Outcome(o2.fs, Ok(()))
  {
    var plan := BuildPlan(c, p);
    var o1 := CopyDirAll(t, c.templatesDir + ["workspace"], p.srcRoot);
    var o2 := CopyDirAll(o1.fs, c.templatesDir + ["standalone"], Join(p.srcRoot, p.name));
    assert plan == [CopyTemplate(c.templatesDir + ["workspace"], p.srcRoot),
                    CopyTemplate(c.templatesDir + ["standalone"], Join(p.srcRoot, p.name))];
    var rest := plan[1..];
    assert rest[1..] == [];
    assert RunBuild(o1.fs, c, p, rest) == if o2.result.Err? then o2 else Outcome(o2.fs, Ok(()));
  }

  /**
   * One file of the member crate after the two copies of a workspace
   * build: the standalone template's, else the workspace template's, else
   * the old one.
   */
  lemma WorkspaceMemberFile(t: Node, w: Path, sa: Path, root: Path, name: string, r: Path)
    requires WellFormed(t)
    requires CopyDirAll(t, w, root).result.Ok?
    requires CopyDirAll(CopyDirAll(t, w, root).fs, sa, Join(root, name)).result.Ok?
    requires !IsPrefix(root, sa + r)
    ensures FileAt(CopyDirAll(CopyDirAll(t, w, root).fs, sa, Join(root, name)).fs, Join(root, name) + r)
         == FileAt(t, sa + r).Or(FileAt(t, Join(w, name) + r).Or(FileAt(t, Join(root, name) + r)))
  {
    var x := Join([], name) + r;
    assert Join(root, name) + r == root + x && Join(w, name) + r == w + x by {
      WorkspaceMemberPath(root, w, name, r);
    }
    TwoCopiesFile(t, w, root, sa, Join(root, name), x, r);
  }

  /**
   * One file after two copies, the second into `m` below the first's
   * destination `root`, from a source `sa` the first copy does not touch:
   * the second source's file, else the first source's at the same place
   * relative to `root`, else the old one.
   */
  lemma TwoCopiesFile(t: Node, w: Path, root: Path, sa: Path, m: Path, x: Path, r: Path)
    requires WellFormed(t)
    requires CopyDirAll(t, w, root).result.Ok?
    requires CopyDirAll(CopyDirAll(t, w, root).fs, sa, m).result.Ok?
    requires !IsPrefix(root, sa + r)
    requires m + r == root + x
    ensures FileAt(CopyDirAll(CopyDirAll(t, w, root).fs, sa, m).fs, m + r)
         == FileAt(t, sa + r).Or(FileAt(t, w + x).Or(FileAt(t, m + r)))
  {
    var t1 := CopyDirAll(t, w, root).fs;
    CopyDirAllWellFormed(t, w, root);
    CopyDirAllInside(t1, sa, m, r);
    CopyDirAllOutside(t, w, root, sa + r);
    CopyDirAllInside(t, w, root, x);
  }

  /** A path below a store that lies apart from the root is not below the root. */
  lemma StoreApartFromRoot(store: Path, root: Path, x: Path)
    requires !IsPrefix(root, store) && !IsPrefix(store, root)
    ensures !IsPrefix(root, store + x)
  {
  }

  /** The member crate's path, relative to the root, is the same below the workspace template. */
  lemma WorkspaceMemberPath(root: Path, tpl: Path, name: string, r: Path)
    ensures Join(root, name) + r == root + (Join([], name) + r)
    ensures Join(tpl, name) + r == tpl + (Join([], name) + r)
  {
  }

  // ---------------------------------------------------------------------
  // compile
  // ---------------------------------------------------------------------

  /** The Rust version the generated project names. */
  const RustVersion: string := "1.75"

  /** The variables `compile` substitutes. */
  function CompileVars(name: string): (v: Vars)
    ensures v.Keys == {"crate_name", "rust_version"}
    ensures v["crate_name"] == name && v["rust_version"] == RustVersion
  {
    map["crate_name" := name, "rust_version" := RustVersion]
  }

  /** `compile`: interpolation of every file below the root, with nothing excluded. */
  function Compile(t: Node, p: Project): (r: Outcome<seq<Path>>)
    ensures r.result.Ok? <==> IsDirAt(t, p.srcRoot)
  {
    ReplaceTemplateVarsAll(t, p.srcRoot, [], CompileVars(p.name))
  }

  /**
   * On an existing root, `compile` visits every file below it, each now
   * holding its old content with the project's variables substituted, and
   * changes nothing elsewhere.
   */
  lemma CompileSpec(t: Node, p: Project)
    requires WellFormed(t) && IsDirAt(t, p.srcRoot)
    ensures var out := Compile(t, p);
      && (forall r :: p.srcRoot + r in out.result.value <==> FileAt(t, p.srcRoot + r).Some?)
      && (forall r :: FileAt(t, p.srcRoot + r).Some? ==>
            FileAt(out.fs, p.srcRoot + r) == Some(Interpolate(FileAt(t, p.srcRoot + r).value, CompileVars(p.name))))
      && (forall q :: !IsPrefix(p.srcRoot, q) ==> FileAt(out.fs, q) == FileAt(t, q))
  {
    var vars := CompileVars(p.name);
    ReplaceTemplateVarsAllSpec(t, p.srcRoot, [], vars);
    forall r
      ensures p.srcRoot + r in Compile(t, p).result.value <==> FileAt(t, p.srcRoot + r).Some?
    {
      ReplaceTemplateVarsAllVisited(t, p.srcRoot, [], vars, r);
    }
  }

  /** A `{{crate_name}}` placeholder, written with or without inner spaces, becomes the project's name. */
  lemma CrateNameSubstituted(pre: string, m: Match, post: string, name: string)
    requires m.Valid() && m.key == "crate_name" && NoOpen(pre) && NoOpen(post)
    ensures Interpolate(pre + m.Text() + post, CompileVars(name)) == pre + name + post
  {
    KnownKeyReplaced(pre, m, post, CompileVars(name));
  }
}
