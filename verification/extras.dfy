/**
 * The optional parts a generated project can receive on top of its
 * template (rustx-cli/src/project/extras): a CI configuration and a
 * Docker setup.  Both are copies out of the template store.
 */
module Extras {
  import opened Wrappers
  import opened Errors
  import opened Tree
  import opened Fs

  /** The extras a project can ask for. */
  datatype ProjectExtra = Docker | CI

  /** The supported CI providers. */
  datatype CiProvider = GitHub

  /** The provider's name as printed, which is also its directory in the template store. */
  function CiName(ci: CiProvider): (s: string)
    ensures ParseCi(s) == Ok(ci)
  {
    match ci
    case GitHub => "github"
  }

  /**
   * Parsing a provider name: only the exact printed name is accepted (the
   * comparison is case sensitive); anything else is an error carrying the
   * rejected text.
   */
  function ParseCi(s: string): (r: Result<CiProvider>)
    ensures r.Err? ==> r.error == InvalidProjectCiProvider(s)
  {
    if s == "github" then Ok(GitHub) else Err(InvalidProjectCiProvider(s))
  }

  /** Parsing succeeds exactly on the printed names, and printing what was parsed gives the text back. */
  lemma ParseCiExact(s: string)
    ensures ParseCi(s).Ok? <==> exists ci :: CiName(ci) == s
    ensures ParseCi(s).Ok? ==> CiName(ParseCi(s).value) == s
  {
    if ParseCi(s).Ok? {
      assert CiName(ParseCi(s).value) == s;
    }
  }

  /** A differently cased name is rejected. */
  lemma ParseCiCaseSensitive()
    ensures ParseCi("GitHub") == Err(InvalidProjectCiProvider("GitHub"))
  {
    assert "GitHub" != "github" by {
      assert "GitHub"[3] != "github"[3];
    }
  }

  // ---------------------------------------------------------------------
  // setup_ci
  // ---------------------------------------------------------------------

  /** The provider's CI template: `extras/ci/<provider>/.github` in the template store. */
  function CiTemplateDir(templatesDir: Path, ci: CiProvider): Path {
    match ci
    case GitHub => templatesDir + ["extras", "ci", CiName(ci), ".github"]
  }

  /** Where the CI configuration goes: `.github` in the project's root. */
  function CiProjectDir(srcRoot: Path): Path {
    srcRoot + [".github"]
  }

  /** `setup_ci`: a merging copy of the provider's template into the project's `.github`. */
  function SetupCi(t: Node, templatesDir: Path, srcRoot: Path, ci: CiProvider): (r: Outcome<()>)
    ensures r.result.Err? ==> r.result.error.Io?
  {
    match ci
    case GitHub => CopyDirAll(t, CiTemplateDir(templatesDir, ci), CiProjectDir(srcRoot))
  }

  /**
   * After a successful `setup_ci`, each file of the template is in the
   * project's `.github` at the same relative path, each other file there is
   * as it was, and nothing outside `.github` changed.
   */
  lemma SetupCiSpec(t: Node, templatesDir: Path, srcRoot: Path, ci: CiProvider)
    requires WellFormed(t)
    requires SetupCi(t, templatesDir, srcRoot, ci).result.Ok?
    ensures var out := SetupCi(t, templatesDir, srcRoot, ci).fs;
      && IsDirAt(out, srcRoot + [".github"])
      && (forall r :: FileAt(out, srcRoot + [".github"] + r)
            == FileAt(t, templatesDir + ["extras", "ci", "github", ".github"] + r).Or(FileAt(t, srcRoot + [".github"] + r)))
      && (forall q :: !IsPrefix(srcRoot + [".github"], q) ==> FileAt(out, q) == FileAt(t, q))
      && WellFormed(out)
  {
    CopyDirAllFiles(t, CiTemplateDir(templatesDir, ci), CiProjectDir(srcRoot));
  }

  /**
   * A missing CI template is reported as the copy's `read_dir` error, once
   * the destination has been created: `NotADir` when a regular file sits
   * on the template's path, `NotFound` otherwise.
   */
  lemma SetupCiMissingTemplate(t: Node, templatesDir: Path, srcRoot: Path)
    requires MkdirAll(t, srcRoot + [".github"]).Ok?
    requires Lookup(t, CiTemplateDir(templatesDir, GitHub)).None?
    requires !IsPrefix(CiTemplateDir(templatesDir, GitHub), srcRoot + [".github"])
    requires !IsPrefix(srcRoot + [".github"], CiTemplateDir(templatesDir, GitHub))
    ensures SetupCi(t, templatesDir, srcRoot, GitHub)
      == Outcome(MkdirAll(t, srcRoot + [".github"]).value,
                 Err(Io(if FileOnPath(t, CiTemplateDir(templatesDir, GitHub)) then NotADir else NotFound)))
  {
    MkdirAllLookupAway(t, srcRoot + [".github"], CiTemplateDir(templatesDir, GitHub));
    MkdirAllFileOnPath(t, srcRoot + [".github"], CiTemplateDir(templatesDir, GitHub));
  }

  // ---------------------------------------------------------------------
  // setup_docker
  // ---------------------------------------------------------------------

  /** The Docker template: `extras/docker` in the template store. */
  function DockerTemplateDir(templatesDir: Path): Path {
    templatesDir + ["extras", "docker"]
  }

  /** `setup_docker`: a merging copy of the Docker template into the project's root itself. */
  function SetupDocker(t: Node, templatesDir: Path, srcRoot: Path): (r: Outcome<()>)
    ensures r.result.Err? ==> r.result.error.Io?
  {
    CopyDirAll(t, DockerTemplateDir(templatesDir), srcRoot)
  }

  /**
   * After a successful `setup_docker`, the template's entries sit directly
   * in the project's root: its files overwrite same-named ones, every other
   * file of the root survives, and nothing outside the root changed.
   */
  lemma SetupDockerSpec(t: Node, templatesDir: Path, srcRoot: Path)
    requires WellFormed(t)
    requires SetupDocker(t, templatesDir, srcRoot).result.Ok?
    ensures var out := SetupDocker(t, templatesDir, srcRoot).fs;
      && IsDirAt(out, srcRoot)
      && (forall r :: FileAt(out, srcRoot + r) == FileAt(t, templatesDir + ["extras", "docker"] + r).Or(FileAt(t, srcRoot + r)))
      && (forall q :: !IsPrefix(srcRoot, q) ==> FileAt(out, q) == FileAt(t, q))
      && WellFormed(out)
  {
    CopyDirAllFiles(t, DockerTemplateDir(templatesDir), srcRoot);
  }

  /**
   * A missing Docker template is reported as the copy's `read_dir` error,
   * once the project's root has been created: `NotADir` when a regular
   * file sits on the template's path, `NotFound` otherwise.
   */
  lemma SetupDockerMissingTemplate(t: Node, templatesDir: Path, srcRoot: Path)
    requires MkdirAll(t, srcRoot).Ok?
    requires Lookup(t, DockerTemplateDir(templatesDir)).None?
    requires !IsPrefix(DockerTemplateDir(templatesDir), srcRoot)
    requires !IsPrefix(srcRoot, DockerTemplateDir(templatesDir))
    ensures SetupDocker(t, templatesDir, srcRoot)
      == Outcome(MkdirAll(t, srcRoot).value,
                 Err(Io(if FileOnPath(t, DockerTemplateDir(templatesDir)) then NotADir else NotFound)))
  {
    MkdirAllLookupAway(t, srcRoot, DockerTemplateDir(templatesDir));
    MkdirAllFileOnPath(t, srcRoot, DockerTemplateDir(templatesDir));
  }
}
