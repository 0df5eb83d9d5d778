# codeowners-enforcer, modelled in Dafny

`codeowners-enforcer` checks that every file of a project tree has an owner
in the project's CODEOWNERS manifest. It finds the manifest from the working
directory upward, turns the command-line search patterns and `-i` ignore
patterns into one override rule list, walks the tree under those rules
(honouring `.codeownersignore` files along with the walker's default
filters), looks every file up in the manifest and collects the files no
rule owns. The program then exits 0 when there are
none, and otherwise prints each of them relative to the working directory
and exits 1.

This project models that pipeline, `codeowners_enforcer` and the part of
`main` after it in `src/main.rs`, and proves its contracts:

- `wrappers.dfy` (`Wrappers`): Option and Result.
- `paths.dfy` (`Paths`): paths as component sequences and `strip_prefix`.
- `overrides.dfy` (`Overrides`): the override rule list (search patterns
  verbatim, then `"!" + p` per ignore pattern), the first rule the builder
  refuses, and the builder object itself as a class.
- `classification.dfy` (`Classification`): walk entries, the candidate
  files, the unowned filter, and the walk loop as a method.
- `enforcer.dfy` (`Enforcer`): the collaborators as oracles (`Env`), the
  result of the whole function (`Enforce`), and the function step by step
  as methods that also return the log of collaborator calls, so that
  fail-fast ordering can be stated.
- `report.dfy` (`Report`): exit status, printed lines, `--quiet`.

The external crates are given as oracles. `codeowners::locate` is a
function from directory to optional manifest path. `from_path` plus `of` is
a function from manifest path to an ownership index (path to optional owner
list). `OverrideBuilder::add` and `build` are predicates saying whether they
succeed. The walker is a function from its configuration to the finite
sequence of items it yields, either an error or a visited entry with its
path and (possibly unavailable) file type.

Only `None` from `of` counts as unowned (src/main.rs:71-74): a path whose
matching rule lists no owners counts as owned. The model's index returns
`Option<seq<Owner>>`, and only `None` lands in the list.

## Model

| member | source | states |
|---|---|---|
| `Paths.StripPrefix` | src/main.rs:147 | succeeds exactly when the working directory is a component prefix of the path, and then the working directory joined with the result is the path again |
| `Paths.StripJoined` | src/main.rs:147 | stripping a base from a path built on that base gives back the relative part |
| `Overrides.Negate` | src/main.rs:44-45 | an ignore rule is one longer than its pattern, starts with `!`, and the pattern follows it |
| `Overrides.NegatedAt` | src/main.rs:43-46 | the k-th negated rule is `"!"` followed by the k-th ignore pattern, and there is one rule per ignore pattern |
| `Overrides.OverrideRulesShape` | src/main.rs:39-46 | the rule list has length search + ignore, begins with the search patterns verbatim and in order, continues with `"!" + p` for each ignore pattern in order, and every rule after the search patterns starts with `!` |
| `Overrides.FirstRejectedIsFirst` | src/main.rs:39-46 | the first refused rule is found exactly when some rule is refused, and every rule before it was accepted |
| `Overrides.OverrideBuilder.constructor` | src/main.rs:37 | a new builder is anchored at the working directory and holds no rules |
| `Overrides.OverrideBuilder.Add` | src/main.rs:40 | `add` succeeds exactly when the glob is accepted, and then appends it; on failure the rules are unchanged |
| `Overrides.OverrideBuilder.Build` | src/main.rs:48 | `build` succeeds exactly when the collected rules compile, and the matcher holds exactly those rules at the builder's root |
| `Classification.CandidatesMembership` | src/main.rs:63-68 | a path is looked up exactly when some non-directory walk entry of known type carries it |
| `Classification.UnownedFilesMembership` | src/main.rs:69-74 | a path is collected exactly when it was looked up and the index returned `None` |
| `Classification.CandidatesAppend` | src/main.rs:58-68 | the looked-up paths of a concatenated walk are those of each part in turn |
| `Classification.UnownedFilesAppend` | src/main.rs:69-74 | the collected paths keep the order of the looked-up paths |
| `Classification.UnownedInWalkOrder` | src/main.rs:60-75 | the unowned list of a walk is the unowned list of its first part followed by that of the rest |
| `Classification.NonCandidateContributesNothing` | src/main.rs:58-66 | a walk error or a directory entry, wherever it stands, leaves the unowned list unchanged |
| `Classification.ClassificationTotalAndExclusive` | src/main.rs:63-74 | a path is in the unowned list exactly when a non-directory entry of the walk carries it and it has no owners; every looked-up file is owned or listed, never both, and no directory is listed |
| `Classification.FirstUntypedIsFirst` | src/main.rs:64 | the failing entry is found exactly when some visited entry has no file type, and it is the first such entry |
| `Classification.ClassifyWalk` | src/main.rs:58-75 | the loop fails exactly on the first entry without a file type, having looked up exactly the candidates before it; otherwise it returns the unowned paths in walk order and has looked up every candidate once, in walk order |
| `Enforcer.AddSearchPatterns` | src/main.rs:39-41 | the search patterns are added verbatim in order; on the first refused one the loop stops: that pattern is the last one tried, every pattern before it was accepted, and the builder holds exactly those accepted patterns |
| `Enforcer.AddIgnorePatterns` | src/main.rs:43-46 | the ignore patterns are added with a `!` prefix in order after the search patterns; on the first refused rule the loop stops: that rule is the last one tried, every rule before it was accepted, and the builder holds the search patterns followed by exactly those accepted rules |
| `Enforcer.AddIgnoreRejected` | src/main.rs:43-46 | a refused ignore rule whose predecessors were all accepted is the first refused rule of the whole list |
| `Enforcer.BuildRules` | src/main.rs:37-48 | returns the matcher over the full rule list or the error of the first refused rule or of the build; the rules handed to `add` are a prefix of the rule list, all of it when no rule is refused; on a refusal the refused rule is the last one added and was refused, and every rule added before it was accepted; `build` is called exactly when every rule was accepted; nothing is walked or looked up |
| `Enforcer.CodeownersEnforcer` | src/main.rs:22-81 | the first call is `locate`; without a manifest the run fails with ManifestNotFound and makes no other call; a result names the located manifest; the walk happens exactly when the manifest was found and all rules were added and built; no owner is looked up without a walk; a walk, when made, is configured as lines 51-56 configure it (rooted at the working directory with the matcher over the full override rule list, the `.codeownersignore` file name, no parent ignore files, no global git ignore); lookups follow the walk's candidates in order, all of them on success and, when an entry of unavailable type fails the run, exactly those before the first such entry |
| `Enforcer.EnforcedUnownedFiles` | src/main.rs:58-80 | the unowned list of a successful run holds exactly the paths that a non-directory walk entry carries and the manifest gives no owner |
| `Report.RelativizeAllUnder` | src/main.rs:142-149 | printing succeeds exactly when every path is under the working directory, and then line k joined onto the working directory is path k |
| `Report.RelativizeFirstOutside` | src/main.rs:142-149 | when path k is the first not under the working directory, the k paths before it are printed relative to it and printing fails on path k |
| `Report.ReportUnowned` | src/main.rs:130-162 | the printing part of `main`, step by step, yields exactly the outcome that `Report` specifies |
| `Report.Run` | src/main.rs:128-162 | `main` from the enforcer call on yields exactly the outcome that `RunOutcome` specifies |
| `Report.ExitZeroIffAllOwned` | src/main.rs:130-132 | the status is exit 0 exactly when no file is unowned, and then nothing is printed |
| `Report.ExitOneListsUnowned` | src/main.rs:142-162 | the model's status is `Exit(1)` exactly when some file is unowned and all are under the working directory (a path outside it gives the separate status `Failed(NotUnderCwd)`, which the process also reports with exit 1); then stdout has one line per unowned path in list order, each that path with the working directory removed |
| `Report.StripFailureEndsRun` | src/main.rs:147 | the first unowned path not under the working directory ends the run with that error, after the relative forms of the paths before it |
| `Report.QuietOnlyGatesBanners` | src/main.rs:134-160 | `--quiet` leaves stdout and the status unchanged and suppresses both banners |
| `Report.RunExitZeroIff` | src/main.rs:128-132 | a run exits 0 exactly when the enforcer succeeds with an empty unowned list |
| `Report.RunWithoutManifest` | src/main.rs:28-31 | without a manifest the run fails with ManifestNotFound and prints nothing |
| `Report.ScenarioClassified` | src/main.rs:58-75 | in a walk of `/p` meeting the root directory, `main.go` (owned) and `README.md`, every entry has a type and only `README.md` is unowned |
| `Report.ScenarioEnforce` | src/main.rs:22-81 | with the manifest in `/p`, no patterns and that walk, the enforcer returns the manifest path and exactly `README.md` as unowned |
| `Report.ReadmeScenario` | src/main.rs:128-162 | that run prints `README.md` relative to `/p` between the two banners and exits 1 |
| `Report.WalkUnderCwdNeverFailsToPrint` | src/main.rs:130-162 | when the walker yields only paths under the working directory, a successful enforcer run exits 0 or 1 (1 exactly when some file is unowned) and prints every unowned path relative to the working directory |

## Left out

- `install.js`, `lib/bin.js`, `lib/cli.js`, `lib/install.js`: downloading the binary and forwarding the command line to it; packaging plumbing with no logic of its own.
- The upward manifest search, manifest parsing and owner matching (`codeowners::locate`, `from_path`, `of`) are oracles; the model does not say which manifest is nearest nor how rules match. A manifest that cannot be read is not modelled.
- Glob syntax, override precedence, `.codeownersignore` handling, directory pruning and the walker's traversal order belong to the `ignore` crate; the walk is the entry sequence the oracle yields for the configuration `WalkOptionsFor` records.
- `WalkOptions` records only the settings src/main.rs:51-56 makes explicit. The defaults `WalkBuilder::new` keeps are not represented: hidden files are skipped, `.gitignore`, `.ignore` and `.git/info/exclude` are honoured, and symbolic links are not followed. The oracle is assumed to apply them.
- The walk is lazy and interleaved with the lookups; the call log records the walk as one call before all lookups.
- Command-line parsing with `clap` (src/main.rs:84-126), `env::current_dir`, and ANSI colouring are left out; the working directory, patterns and quiet flag are parameters.
- Printed lines are modelled as relative component sequences, not rendered strings; stderr lines are modelled as the three kinds `main` writes, not their text.
- `Report.Run`: a failure ends as `Failed(error)`. Rust reports an error returned from `main` with status 1 and a panic (missing manifest, unavailable file type) with status 101, and prints a message; the model does not distinguish panics from errors or fix those numbers.
- Stderr is modelled as the banners only. The `Error: …` message Rust writes for an error returned from `main`, and the panic message, are not modelled; they appear on failing runs whether or not `--quiet` is given.
- Paths are sequences of already-normalised components; `std::path` component normalisation (repeated separators, `.`) is not modelled.
