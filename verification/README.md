# A Dafny model of the rustx / aix project scaffolder

The tool creates a new Rust project from templates.  It keeps a local
*template store*, refreshed from a Git repository by `sync_store`.  The
*project builder* copies the template for the requested project type into
the project's root, then layers optional *extras* (a Docker setup, a CI
configuration) on top.  Finally the *interpolation engine* walks the
project's root and rewrites every `{{ variable }}` placeholder in every
file.  The `new` command ties the three together: project type from the
flags, output directory, builder, `compile`, and a summary of the
rewritten files.

The model has one module per part of the program:

- `Tree` (tree.dfy): the file system as an immutable tree.  A node is
  `File(content)` or `Dir(children)`; a directory's children are named
  entries in listing order.  A path is a sequence of names from the
  root.  `Lookup`, `FileAt`, `Put` and their algebra live here.
- `Errors`, `Wrappers` (errors.dfy, wrappers.dfy): the error kinds of
  `rustx::Error`, with I/O errors narrowed to the few kinds the model
  produces (`NotFound`, `NotADir`, `IsADir`, `AlreadyExists`); `Result`
  and `Option`.
- `Fs` (fs.dfy): `create_dir_all`, `recreate_dir`, `copy_dir_all` and
  `remove_files_except`.  Each returns an `Outcome`: the tree it leaves
  and its result.  A failure part-way keeps everything done before it,
  as the program does (it never rolls back).
- `Interpolation` (interpolation.dfy): `interpolate_content` as a scanner
  equivalent to the regex `\{\{\s*(\w+)\s*\}\}` applied left to right
  without overlap, and the recursive walk of `replace_template_vars_all`.
- `Config` (config.dfy): the store layout and `sync_store` as an ordered
  list of steps, run until the first failure.
- `Extras` (extras.dfy): CI providers, `setup_ci` and `setup_docker`.
- `Builder` (builder.dfy): `ProjectType`, the extras list with
  `add_extra`, `remove_extra` and the builder setters, `build` as a plan
  of copy steps, and `compile`.
- `NewCommand` (new_command.dfy): the `new` command.

Git is opaque.  `GitHost` says whether `git` is installed and what tree a
clone plus sparse checkout leaves in the checkout directory.  The program
never inspects the commands' exit statuses, so once `git` is found the
Git steps never fail in the model.  The operating system's local data
directory and the current directory are parameters.

Where the prose design and the code disagree, the model follows the code:

- An unbound placeholder is not left as written.  It is rewritten as
  `{{ key }}`, one space inside each brace pair, whatever spacing it had
  (`Interpolation.UnknownKeyNormalised`).  The doc comment of
  `interpolate_content` also promises "unchanged".
- `add_extra` appends even when the extra is already listed, and the
  builder setters toggle (see Findings).  The design describes extras as
  a set in which adding twice is a no-op.
- Exclusion in the walk is `path.ends_with(ex)` on the entry's full path.
  For the single-name exclusions the program passes, this is "the entry's
  name equals `ex`", except that an empty `ex` matches every path.  The
  model keeps that quirk (`Interpolation.Excluded`).

## Model

| member | source | states |
|---|---|---|
| Interpolation.MatchPrefix | aix-cli/src/utils/interpolation.rs:153 | a match found at the front of a text is a well-formed placeholder (`{{`, a run of spaces, a non-empty word, a run of spaces, `}}`) that the text starts with |
| Interpolation.MatchPrefixComplete | aix-cli/src/utils/interpolation.rs:153 | every well-formed placeholder at the front of a text is found, whatever follows it, with its exact key and spacing |
| Interpolation.MatchUnique | aix-cli/src/utils/interpolation.rs:153 | a text starts with at most one well-formed placeholder, so the leftmost match is determined |
| Interpolation.Interpolate | aix-cli/src/utils/interpolation.rs:151-164 | a text with no `{{` in it comes back unchanged |
| Interpolation.InterpolateSplit | aix-cli/src/utils/interpolation.rs:156-163 | rewriting splits at any `{{`: the text before it is rewritten on its own and no match reaches across it |
| Interpolation.InterpolateInContext | aix-cli/src/utils/interpolation.rs:156-162 | a placeholder anywhere in a text is replaced whole by its replacement; the text on either side is rewritten independently |
| Interpolation.KnownKeyReplaced | aix-cli/src/utils/interpolation.rs:157-160 | a bound key's placeholder becomes the bound value verbatim; surrounding text without `{{` is kept |
| Interpolation.WhitespaceIrrelevant | aix-cli/src/utils/interpolation.rs:153 | two placeholders for the same key that differ only in spacing give the same output in any context |
| Interpolation.UnknownKeyCanonical | aix-cli/src/utils/interpolation.rs:161 | an unbound key's placeholder is written back as exactly `{{ key }}` |
| Interpolation.UnknownKeyNormalised | aix-cli/src/utils/interpolation.rs:161 | an unbound `{{key}}` written without spaces comes back as `{{ key }}` and so is not unchanged |
| Interpolation.CanonicalUnknownSurvives | aix-cli/src/utils/interpolation.rs:158-161 | between texts without `{{`, an unbound placeholder in canonical spacing survives rewriting unchanged |
| Interpolation.ValuesNotRescanned | aix-cli/src/utils/interpolation.rs:156-162 | for any placeholder whose bound value is itself the text of a bound placeholder, one pass inserts that text verbatim, while a pass over the value alone would replace it: values are never rescanned |
| Interpolation.ValuesNotRescannedExample | aix-cli/src/utils/interpolation.rs:156-162 | for example `{{a}}`, with `a` bound to `{{ b }}` and `b` to `x`, reads `{{ b }}`, while `{{ b }}` alone reads `x` |
| Interpolation.HelloName | aix-cli/src/utils/interpolation.rs:293-300 | `Hello {{ name }}!` with `name` bound to a value reads `Hello ` + value + `!` |
| Interpolation.HelloNameUnbound | aix-cli/src/utils/interpolation.rs:302-304 | `Hello {{ name }}!` with no bindings comes back unchanged |
| Interpolation.ExcludedMeansEndsWith | aix-cli/src/utils/interpolation.rs:87 | an entry is skipped exactly when some exclusion, read as a path of at most one name, is a suffix of the entry's full path, so an empty exclusion skips every entry |
| Interpolation.WalkEntries | aix-cli/src/utils/interpolation.rs:81-103 | the walk of a directory keeps its listing: the same number of entries, each under its old name in its old place |
| Interpolation.WalkEntry | aix-cli/src/utils/interpolation.rs:86-101 | an entry walked, whether skipped, rewritten or descended into, keeps its name |
| Interpolation.WalkEntriesVisits | aix-cli/src/utils/interpolation.rs:86-101 | the files a directory's walk reports are its files below it, depth first in listing order, with the ones under an excluded name dropped, each prefixed by the directory's path |
| Interpolation.WalkEntryVisits | aix-cli/src/utils/interpolation.rs:86-101 | the files one entry's walk reports are that entry's files, with the ones under an excluded name dropped |
| Interpolation.FindWalked | aix-cli/src/utils/interpolation.rs:86-101 | looking a name up in the walked listing finds the walk of the entry that name found before |
| Interpolation.WalkEntriesContents | aix-cli/src/utils/interpolation.rs:86-101 | after the walk, the same paths name files as before; each holds its old content interpolated when no name on its path is excluded, and its old content otherwise |
| Interpolation.ReplaceTemplateVarsAll | aix-cli/src/utils/interpolation.rs:70-107 | the walk succeeds exactly when the root is a directory; otherwise it fails with `read_dir`'s error (`NotADir` when a regular file sits at or above the root, `NotFound` otherwise) and nothing changed |
| Interpolation.ReplaceTemplateVarsAllSpec | aix-cli/src/utils/interpolation.rs:81-102 | the returned list is the non-excluded files below the root, depth first in listing order; each holds the interpolation of its old content; every other file is untouched |
| Interpolation.ReplaceTemplateVarsAllVisited | aix-cli/src/utils/interpolation.rs:87-94 | a path is listed exactly when it names a file below the root and none of its names below the root is excluded |
| Interpolation.OneFileDirectory | aix-cli/src/utils/interpolation.rs:310-331 | a directory holding one file yields a one-element list naming that file, and the file holds its interpolated content |
| Fs.MkdirAll | rustx-cli/src/fs/mod.rs:58 | on success the path is a directory; a file on the path gives `AlreadyExists` when it is the target itself and `NotADir` when above it |
| Fs.MkdirAllSpec | rustx-cli/src/fs/mod.rs:58 | `create_dir_all` fails exactly when a file sits on the path; it changes no file, creates an empty directory when the path was missing, does nothing when the directory exists, and keeps the tree well formed |
| Fs.RecreateDir | rustx-cli/src/fs/mod.rs:19-33 | a failure leaves the file system unchanged |
| Fs.RecreateDirSpec | rustx-cli/src/fs/mod.rs:19-33 | `recreate_dir` succeeds exactly when no file sits on the path; the path is then an empty directory and no file outside it changed; a file at the path gives `NotADirectory(path)` |
| Fs.RecreateDirLookupAway | rustx-cli/src/fs/mod.rs:28-31 | nothing neither above nor below the recreated path changes |
| Fs.ReadDirError | rustx-cli/src/fs/mod.rs:61 | `read_dir` on a path that names no directory: `NotADir` when the path leads to a file, `NotFound` only when no regular file sits at or above it |
| Fs.CopyDirAll | rustx-cli/src/fs/mod.rs:49-77 | errors are I/O errors; the destination exists as a directory whenever it could be created, and a failure to create it is returned with nothing changed; a source that is no directory fails with `read_dir`'s error (`NotADir` when a regular file sits at or above it, `NotFound` otherwise) after the destination was created |
| Fs.CopyDirAllFiles | rustx-cli/src/fs/mod.rs:58-74 | after a successful copy, a file of the source is at the same relative path below the destination, any other file there is kept, and nothing outside the destination changed |
| Fs.CopyDirAllOutside | rustx-cli/src/fs/mod.rs:64-73 | whether or not the copy succeeds, no file outside the destination changes |
| Fs.KeepOnly | rustx-cli/src/fs/mod.rs:97-107 | a name is left in the listing exactly when it is in the keep list, naming what it named before |
| Fs.RemoveFilesExcept | rustx-cli/src/fs/mod.rs:92-111 | `remove_files_except` succeeds exactly when the path is a directory; otherwise it fails with `read_dir`'s error (`NotADir` when a regular file sits at or above the path, `NotFound` otherwise) and nothing changed |
| Fs.RemoveFilesExceptSpec | rustx-cli/src/fs/mod.rs:96-107 | a top-level name in the keep list keeps its whole subtree, any other top-level name is gone with everything below it, and nothing outside the directory changed |
| Config.Plan | aix-cli/src/config/mod.rs:71-100 | the sync runs eight steps in the program's order: create the data and checkout directories, clone, sparse init, sparse set of the repository's directory, recreate the store, clean the checkout keeping the given names, copy the repository's directory into the store |
| Config.SyncStoreAsWritten | aix-cli/src/config/mod.rs:66-103 | `sync_store` as written: without `git`, `MissingGitInstallation` and nothing done; with it, the completed steps are a prefix of the plan whose cleanup keeps only `templates`, and success means all of them completed |
| Config.SyncStore | aix-cli/src/config/mod.rs:66-103 | the same with the cleanup keeping the repository's configured directory, the one the copy reads |
| Config.Join | aix-cli/src/config/mod.rs:32-33 | joining a non-empty name appends one component; an empty name leaves the path as it is |
| Config.NewConfig | aix-cli/src/config/mod.rs:27-42 | the configuration fails with `MissingLocalDataDir` exactly when the data directory is unknown; otherwise `templates` and `.tmp` sit directly below `<data dir>/<app name>` |
| Config.LayoutDisjoint | aix-cli/src/config/mod.rs:14-15 | in a valid layout the template and checkout directories differ and no path below one is a path below the other |
| Config.LayoutNotNested | aix-cli/src/config/mod.rs:32-33 | no path below the template directory is above or below a path below the checkout directory |
| Config.RunSteps | aix-cli/src/config/mod.rs:72-100 | the completed steps are a prefix of the plan: all of it on success; on failure, the next step fails on the tree the completed ones left |
| Config.SyncWith | aix-cli/src/config/mod.rs:66-103 | without `git` the store fails with `MissingGitInstallation` and nothing happens; with it, the run succeeds exactly when every step of the plan completed |
| Config.SyncStoreWithoutGit | aix-cli/src/config/mod.rs:67-69 | with `git` missing, both variants of `sync_store` fail with `MissingGitInstallation` and touch nothing |
| Config.SyncUnrolled | aix-cli/src/config/mod.rs:72-100 | a successful sync passes through directory creation, clone and recreation, and its final tree is the copy applied to the state after the cleanup |
| Config.CheckoutInPlace | aix-cli/src/config/mod.rs:79-93 | after the clone and the recreation of the template directory, the checkout directory holds exactly the checkout |
| Config.BeforeCopyState | aix-cli/src/config/mod.rs:93-96 | before the copy, the template directory is empty and the checkout directory holds the checkout restricted to the kept names |
| Config.SyncStoreContents | aix-cli/src/config/mod.rs:93-100 | after the intended sync succeeds, every path below the template directory holds exactly what the repository's template directory holds at the same relative path |
| Config.SyncStoreAsWrittenNeedsTemplates | aix-cli/src/config/mod.rs:96-100 | the sync as written can succeed only when the repository's template directory is named `templates` |
| Config.SyncStoreAgrees | aix-cli/src/config/mod.rs:96 | when the repository's template directory is named `templates`, the sync as written and as intended coincide |
| Extras.CiName | rustx-cli/src/project/extras/ci.rs:23-29 | parsing a provider's printed name gives the provider back |
| Extras.ParseCi | rustx-cli/src/project/extras/ci.rs:31-39 | a rejected provider name is reported as `InvalidProjectCiProvider` carrying the text |
| Extras.ParseCiExact | rustx-cli/src/project/extras/ci.rs:31-39 | parsing succeeds exactly on printed names, and printing the parsed provider gives the text back |
| Extras.ParseCiCaseSensitive | rustx-cli/src/project/extras/ci.rs:34-36 | `GitHub` is not accepted for `github` |
| Extras.SetupCi | rustx-cli/src/project/extras/ci.rs:53-69 | `setup_ci` fails only with I/O errors |
| Extras.SetupCiSpec | rustx-cli/src/project/extras/ci.rs:53-69 | after `setup_ci`, the project's `.github` holds the files of `extras/ci/github/.github` over what it held, and nothing outside `.github` changed |
| Extras.SetupCiMissingTemplate | rustx-cli/src/project/extras/ci.rs:62-64 | a missing CI template fails after `.github` was created, with `NotADir` when a regular file sits on the template's path and `NotFound` otherwise |
| Extras.SetupDocker | rustx-cli/src/project/extras/docker.rs:23-28 | `setup_docker` fails only with I/O errors |
| Extras.SetupDockerSpec | rustx-cli/src/project/extras/docker.rs:23-28 | after `setup_docker`, the project's root holds the files of `extras/docker` over what it held, and nothing outside the root changed |
| Extras.SetupDockerMissingTemplate | rustx-cli/src/project/extras/docker.rs:24-26 | a missing Docker template fails after the root was created, with `NotADir` when a regular file sits on the template's path and `NotFound` otherwise |
| Builder.KindName | rustx-cli/src/project/builder.rs:117-124 | parsing a project type's printed name gives the type back |
| Builder.ParseProjectType | rustx-cli/src/project/builder.rs:126-135 | a rejected kind is reported as `InvalidProjectKind` carrying the text |
| Builder.ParseProjectTypeExact | rustx-cli/src/project/builder.rs:126-135 | parsing succeeds exactly on `standalone` and `workspace`, and printing the parsed type gives the text back |
| Builder.AddExtra | rustx-cli/src/project/builder.rs:196-198 | `add_extra` appends the extra at the end of the list, keeping the list before it, even when the extra was present; the other fields are untouched |
| Builder.Position | rustx-cli/src/project/builder.rs:202 | the position found is the first occurrence of the extra, and none is found exactly when it is absent |
| Builder.RemoveExtra | rustx-cli/src/project/builder.rs:201-207 | `remove_extra` reports presence; when present it drops exactly the first occurrence, keeping the order of the rest; otherwise nothing changes |
| Builder.RemoveUndoesAdd | rustx-cli/src/project/builder.rs:196-207 | removing an extra just added to a list without it restores the project and reports `true` |
| Builder.SetupExtraAsWritten | rustx-cli/src/project/builder.rs:47-64 | the setter as written: on a project without the extra, it is made present exactly when asked; on a project with it, it is removed whatever the flag (gone, when the list had no duplicates); other extras and fields are untouched; no duplicate is introduced |
| Builder.SetupExtraAsWrittenToggles | rustx-cli/src/project/builder.rs:48-53 | asking twice for an extra the project lacked ends without it |
| Builder.SetupExtra | rustx-cli/src/project/builder.rs:47-64 | the intended setter makes the extra present exactly when asked, touching nothing else |
| Builder.SetupExtraIdempotent | rustx-cli/src/project/builder.rs:47-64 | calling the intended setter twice with the same flag is the same as calling it once |
| Builder.SetupExtraAgrees | rustx-cli/src/project/builder.rs:47-64 | the two setters agree unless the extra is asked for while already present |
| Builder.Apply | rustx-cli/src/project/builder.rs:29-64 | the name, type and root setters set their field to the given value and change nothing else; the CI and Docker setters are the chosen setter for their extra; no setter introduces a duplicate extra |
| Builder.ApplyAllNoDuplicates | rustx-cli/src/project/builder.rs:29-64 | any chain of setters keeps the extras list free of duplicates |
| Builder.FromDefaultNoDuplicates | rustx-cli/src/project/builder.rs:138-144 | any chain of setters on a fresh builder yields an extras list without duplicates |
| Builder.ApplyAllExtras | rustx-cli/src/project/builder.rs:47-64 | with the intended setters, an extra is present after a chain exactly when the last setter for it asked for it |
| Builder.GetTemplateDir | rustx-cli/src/project/builder.rs:232-237 | a type's template directory is one name below the template store, and that name parses back to the type |
| Builder.BuildPlan | rustx-cli/src/project/builder.rs:77-96 | the plan has one step per action: the type's template copy first; the standalone copy into `<root>/<name>` exactly for a workspace; one Docker and one CI step exactly for the extras present |
| Builder.BuildPlanOrder | rustx-cli/src/project/builder.rs:77-96 | every template copy precedes every extra, and Docker precedes CI |
| Builder.BuildPlanInRoot | rustx-cli/src/project/builder.rs:80-87 | every template copy lands inside the project's root |
| Builder.RunBuild | rustx-cli/src/project/builder.rs:80-96 | a failing step fails with an I/O error |
| Builder.ExecBuildStep | rustx-cli/src/project/builder.rs:80-96 | a build step fails only with an I/O error, and a template copy whose destination can be created leaves it a directory |
| Builder.BuildWith | rustx-cli/src/project/builder.rs:68-99 | `build`: a file above the template directory makes `try_exists` fail with `NotADir` before anything is done; a clean miss without `git` fails with `MissingGitInstallation` and changes nothing; success returns the project unchanged |
| Builder.Build | rustx-cli/src/project/builder.rs:68-99 | the same for `build` with the intended `sync_store` |
| Builder.BuildAgrees | rustx-cli/src/project/builder.rs:71-75 | `build` as written and with the intended `sync_store` coincide when the template is present or the repository's directory is `templates` |
| Builder.BuildWithTemplate | rustx-cli/src/project/builder.rs:71-75 | with the template present, `build` does not sync and is exactly the planned steps |
| Builder.ExecBuildStepOutside | rustx-cli/src/project/builder.rs:80-96 | a build step whose copy lands inside the root changes no file outside it |
| Builder.RunBuildOutside | rustx-cli/src/project/builder.rs:80-96 | running steps whose copies land inside the root changes no file outside it |
| Builder.BuildWithTemplateStaysInRoot | rustx-cli/src/project/builder.rs:71-96 | with the template present, `build` changes no file outside the project's root |
| Builder.BuildSyncsOnCleanMiss | rustx-cli/src/project/builder.rs:72-80 | on a clean miss of the template directory, `build` is `sync_store` followed by the plan on the synchronised tree; a failed `sync_store` ends it with that error and its partial effects |
| Builder.StandalonePlanRun | rustx-cli/src/project/builder.rs:80-98 | for a standalone project without extras, the plan is the one copy of the standalone template into the root |
| Builder.BuildStandaloneFromRepository | rustx-cli/src/project/builder.rs:72-80 | a successful standalone build without extras on a clean miss, with `git` installed, leaves in the root the files of the repository's `<directory>/standalone` over what the synchronised tree held there |
| Builder.StandaloneFromStore | rustx-cli/src/project/builder.rs:80 | when the store holds the checkout's directory, copying the store's `standalone` into the root puts the checkout's `<directory>/standalone` files there |
| Builder.BuildStandaloneFiles | rustx-cli/src/project/builder.rs:80 | a successful standalone build without extras puts the files of `templates/standalone` over what the root held |
| Builder.BuildWorkspaceFiles | rustx-cli/src/project/builder.rs:80-88 | a successful workspace build without extras, its root apart from the store, leaves in `<root>/<name>` the files of `templates/standalone`, over those of `templates/workspace/<name>`, over what was there |
| Builder.CompileVars | rustx-cli/src/project/builder.rs:211-214 | `compile` binds exactly `crate_name` to the project's name and `rust_version` to `1.75` |
| Builder.Compile | rustx-cli/src/project/builder.rs:210-218 | `compile` succeeds exactly when the project's root is a directory |
| Builder.CompileSpec | rustx-cli/src/project/builder.rs:210-218 | `compile` lists every file below the root and only those, rewrites each with the project's variables, and changes nothing outside the root |
| Builder.CrateNameSubstituted | rustx-cli/src/project/builder.rs:211-216 | a `crate_name` placeholder in a file becomes the project's name |
| NewCommand.KindType | rustx-cli/src/bin/new/mod.rs:136-144 | the flags give a workspace exactly when only the workspace flag is set |
| NewCommand.OutDirPath | rustx-cli/src/bin/new/mod.rs:162-165 | the output directory is the root directory when given, else `<current dir>/<name>`, and a failing current directory is returned as the error |
| NewCommand.BuildOutDir | rustx-cli/src/bin/new/mod.rs:161-176 | on success the returned path is the output directory and is a directory; on failure nothing changed |
| NewCommand.BuildOutDirCases | rustx-cli/src/bin/new/mod.rs:167-175 | an existing directory is used as is; a file there gives `NotADirectory`; a missing one is created empty without changing any file, or fails with an I/O error |
| NewCommand.AddLines | rustx-cli/src/bin/new/mod.rs:149 | each file is listed as its own `ADD` line, in order |
| NewCommand.ReduceJoinShape | rustx-cli/src/bin/new/mod.rs:150 | the left fold is the first line, then each further line after `\n   ` |
| NewCommand.FormatFileList | rustx-cli/src/bin/new/mod.rs:147-150 | the list is absent exactly when no file was rewritten |
| NewCommand.FormatFileListShape | rustx-cli/src/bin/new/mod.rs:147-150 | a non-empty list reads as the first file's `ADD` line, then each further one after `\n   ` |
| NewCommand.Summary | rustx-cli/src/bin/new/mod.rs:152-158 | a summary is logged exactly when some file was rewritten |
| NewCommand.ShowPaths | aix-cli/src/utils/interpolation.rs:94 | each processed path is listed as its display string, in order |
| NewCommand.Configured | rustx-cli/src/bin/new/mod.rs:58-63 | the builder chain gives the requested name, type and root and no duplicate extra; with the intended setters, CI and Docker are present exactly when requested |
| NewCommand.ConfiguredProject | rustx-cli/src/bin/new/mod.rs:58-65 | the builder chain yields the requested name, type and root, and exactly the requested extras, each once; the setters as written give the same project |
| NewCommand.BuildAndCompile | rustx-cli/src/bin/new/mod.rs:58-68 | a successful run returns the built project, with a summary exactly when some file was rewritten, after a successful build that left the root a directory |
| NewCommand.NewProject | rustx-cli/src/bin/new/mod.rs:46-71 | a successful run's project is rooted at the output directory and is what the builder chain configures |
| NewCommand.NewProjectReport | rustx-cli/src/bin/new/mod.rs:55-68 | a successful run has the requested type and extras, and a summary exactly when some file was rewritten |

## Left out

- Asynchrony: the program runs on `tokio`.  The model is sequential; the program awaits each operation before the next.
- File contents are strings.  UTF-8 decoding and bytes are not modelled, and neither are permissions, symbolic links or special files.
- I/O errors other than the file system's shape are not modelled: permission failures, full disks, and `try_exists` or `read_dir` failing on an existing path.
- The `serde_json` conversion of the variables into a string map (aix-cli/src/utils/interpolation.rs:40-41) is left out; the model takes the map directly.
- `\w` and `\s` are restricted to ASCII letters, digits and `_` and to ASCII whitespace; the program's regex is Unicode-aware.
- `read_dir` order is not specified by the operating system.  The model takes the directory's listing order as the order of the walk and of the returned file list.
- Git runs as an external program.  Clone and sparse checkout are replaced by the tree they leave in the checkout directory, and their exit statuses are not modelled, as the program ignores them.  The effect of cloning into a non-empty checkout left by an earlier sync is not modelled.
- Config.Join: a name is always one path component.  `PathBuf::join` would split a name containing `/` and replace the base for an absolute name; the project name (rustx-cli/src/bin/new/mod.rs:164, rustx-cli/src/project/builder.rs:85) and the repository's directory are taken as single names.
- Builder.Build: synchronises the store with the intended `Config.SyncStore`, not the program's `sync_store`.  The program's `build` is `Builder.BuildWith` with the as-written semantics, and `Builder.BuildAgrees` shows the two coincide whenever the template is present or the repository's directory is named `templates`.
- NewCommand.BuildAndCompile: runs `build` with the intended synchronisation (`Builder.Build`), not the program's `sync_store`; `Builder.BuildAgrees` shows this is the program's behaviour whenever the template is present or the repository's directory is named `templates`.
- NewCommand.NewProject: the same, through `NewCommand.BuildAndCompile`.
- Config.SyncStoreContents: requires a non-empty repository directory name, because an empty name would make the copy source the checkout directory itself.
- Fs.CopyDirAllFiles: a copy whose destination lies inside its source (or the reverse) is not modelled faithfully.  The model reads the source as it was after the destination was created, while the program would see its own output.
- Fs.MkdirAll: a `create_dir_all` that fails part-way keeps none of its partial effects in the model.
- The current directory, the local data directory and the Git host are parameters.
- Paths are shown `/`-joined from the file-system root (`NewCommand.ShowPath`); the platform's path display is not modelled.
- The log output is returned as a string (`NewCommand.Summary`) instead of being written through the `log` facade.
- `Project::new`, the `Project` and `Config` getters, and `set_extras` are plain field access and carry no contract.
- The `Log` error variant and the error messages' display strings (rustx-cli/src/error.rs:9-34) are not modelled.
- The doc comment of `interpolate_content` (aix-cli/src/utils/interpolation.rs:145-146) promises unbound placeholders are left unchanged.  The model follows the code at line 161 instead.

## Findings

| source | as written | input that shows it | evidently intended | confidence | as-written member | corrected member |
|---|---|---|---|---|---|---|
| aix-cli/src/config/mod.rs:96 | the checkout cleanup keeps only the name `templates`, while the copy at line 99 reads the repository's configured template directory | a repository whose template directory is `tpl`: the cleanup deletes `.tmp/tpl` and the copy then fails with `NotFound` | keep the configured directory, the one the copy reads | medium, not executed | Config.SyncStoreAsWrittenNeedsTemplates | Config.SyncStoreContents |
| rustx-cli/src/project/builder.rs:47-64 | `setup_ci(true)` and `setup_docker(true)` remove the extra when it is already present, so the setters toggle | `setup_ci(true).setup_ci(true)` on a fresh builder leaves no CI extra | asking for an extra makes it present, whatever was there before | medium, not executed | Builder.SetupExtraAsWrittenToggles | Builder.SetupExtraIdempotent |

`Config.SyncStore` keeps the configured directory, and `Builder` syncs the store
through it.  `Builder.SetupExtra` is the intended setter, and the `new` command
is modelled with it.  `NewCommand.ConfiguredProject` shows that the command
cannot tell the two setters apart, because it calls each setter once on a fresh
builder.
