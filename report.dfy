/** The part of `main` after `codeowners_enforcer` returns (src/main.rs:
    128-162): a failed enforcer run ends the program with its error; an
    empty unowned list exits 0; otherwise the unowned paths are printed one
    per line relative to the working directory, between two banners on
    stderr that `--quiet` suppresses, and the exit status is 1. A path that
    is not under the working directory makes `strip_prefix` fail, which ends
    the program with that error after the lines printed so far.

    Process exit is returned as a Status value, and what the program writes
    is returned as the lines of each stream. */
module Report {
  import opened Wrappers
  import opened Paths
  import opened Overrides
  import opened Classification
  import opened Enforcer

  /** The lines `main` writes to stderr. */
  datatype StderrLine =
    | OopsBanner               // "Oops! Found files without CODEOWNERS!"
    | BlankLine
    | FixBanner(configPath: Path)  // "Fix: Please delete these files, ... in <config path>"

  /** How the program ends: `exit(code)`, or `main` returning an error. */
  datatype Status = Exit(code: int) | Failed(error: Error)

  /** Everything observable about a run: the stdout lines (each a relative
      path), the stderr lines and the final status. */
  datatype Outcome = Outcome(stdout: seq<Path>, stderr: seq<StderrLine>, status: Status)

  /** The relative paths printed so far, and the first path `strip_prefix`
      refused, if any. */
  datatype Relativized = Relativized(lines: seq<Path>, failedAt: Option<Path>)

  /** The printing loop (src/main.rs:142-149) over `paths`: each path with
      `cwd` stripped, stopping at the first path not under `cwd`. */
  function Relativize(cwd: Path, paths: seq<Path>): Relativized
  {
    if paths == [] then Relativized([], None)
    else
      var done := Relativize(cwd, paths[..|paths| - 1]);
      if done.failedAt.Some? then done
      else match StripPrefix(paths[|paths| - 1], cwd)
        case None => Relativized(done.lines, Some(paths[|paths| - 1]))
        case Some(rel) => Relativized(done.lines + [rel], None)
  }

  /** The banner printed before the list unless quiet (src/main.rs:134-140). */
  function OopsLines(quiet: bool): seq<StderrLine>
  {
    if quiet then [] else [OopsBanner, BlankLine]
  }

  /** The banner printed after the list unless quiet (src/main.rs:151-160). */
  function FixLines(quiet: bool, configPath: Path): seq<StderrLine>
  {
    if quiet then [] else [BlankLine, FixBanner(configPath)]
  }

  /** What `main` does with a successful enforcer result. */
  function Report(cwd: Path, quiet: bool, res: EnforcerResult): Outcome
  {
    if res.unownedFiles == [] then Outcome([], [], Exit(0))
    else
      var printed := Relativize(cwd, res.unownedFiles);
      match printed.failedAt
      case Some(p) => Outcome(printed.lines, OopsLines(quiet), Failed(NotUnderCwd(p)))
      case None => Outcome(printed.lines, OopsLines(quiet) + FixLines(quiet, res.configPath), Exit(1))
  }

  /** What a whole run does, from the working directory, the patterns, the
      quiet flag and the collaborators: an enforcer error ends the program
      before anything is printed. */
  function RunOutcome(cwd: Path, search: seq<string>, ignore: seq<string>, quiet: bool, env: Env): Outcome
  {
    match Enforce(cwd, search, ignore, env)
    case Err(e) => Outcome([], [], Failed(e))
    case Ok(res) => Report(cwd, quiet, res)
  }

  /** Lines 130-162, step by step: exit 0 on an empty list; otherwise the
      opening banner, one relative path per unowned file in list order, the
      closing banner, exit 1; a path not under `cwd` ends the run with
      NotUnderCwd after the lines printed before it. */
  method ReportUnowned(cwd: Path, quiet: bool, res: EnforcerResult) returns (o: Outcome)
    ensures o == Report(cwd, quiet, res)
  {
    var files := res.unownedFiles;
    if files == [] {
      return Outcome([], [], Exit(0));
    }
    var stderr := OopsLines(quiet);
    var stdout: seq<Path> := [];
    var i := 0;
    while i < |files|
      invariant 0 <= i <= |files|
      invariant Relativize(cwd, files[..i]) == Relativized(stdout, None)
    {
      assert files[..i + 1][..i] == files[..i];
      var rel := StripPrefix(files[i], cwd);
      if rel.None? {
        RelativizeStops(cwd, files, i + 1);
        return Outcome(stdout, stderr, Failed(NotUnderCwd(files[i])));
      }
      stdout := stdout + [rel.value];
      i := i + 1;
    }
    assert files[..i] == files;
    stderr := stderr + FixLines(quiet, res.configPath);
    o := Outcome(stdout, stderr, Exit(1));
  }

  /** `main` from the enforcer call on (src/main.rs:128-162). */
  method Run(cwd: Path, search: seq<string>, ignore: seq<string>, quiet: bool, env: Env)
    returns (o: Outcome)
    ensures o == RunOutcome(cwd, search, ignore, quiet, env)
  {
    var result, _ := CodeownersEnforcer(cwd, search, ignore, env);
    if result.Err? {
      return Outcome([], [], Failed(result.error));
    }
    o := ReportUnowned(cwd, quiet, result.value);
  }

  /** Once the printing loop has failed, later paths change nothing. */
  lemma {:induction false} RelativizeStops(cwd: Path, paths: seq<Path>, k: nat)
    requires k <= |paths| && Relativize(cwd, paths[..k]).failedAt.Some?
    ensures Relativize(cwd, paths) == Relativize(cwd, paths[..k])
  {
    if k < |paths| {
      var n := |paths| - 1;
      assert paths[..n][..k] == paths[..k];
      RelativizeStops(cwd, paths[..n], k);
    } else {
      assert paths[..k] == paths;
    }
  }

  /** The printing loop succeeds exactly when every path is under `cwd`, and
      then line k joined back onto `cwd` is path k: one line per path, in
      order. */
  lemma {:induction false} RelativizeAllUnder(cwd: Path, paths: seq<Path>)
    ensures Relativize(cwd, paths).failedAt.None? <==> forall k :: 0 <= k < |paths| ==> cwd <= paths[k]
    ensures Relativize(cwd, paths).failedAt.None? ==>
              |Relativize(cwd, paths).lines| == |paths|
              && forall k :: 0 <= k < |paths| ==> cwd + Relativize(cwd, paths).lines[k] == paths[k]
  {
    if paths != [] {
      var n := |paths| - 1;
      RelativizeAllUnder(cwd, paths[..n]);
      assert forall k :: 0 <= k < n ==> paths[..n][k] == paths[k];
    }
  }

  /** When path k is the first one not under `cwd`, the loop prints the k
      paths before it, relative to `cwd`, and fails on path k. */
  lemma {:induction false} RelativizeFirstOutside(cwd: Path, paths: seq<Path>, k: nat)
    requires k < |paths| && !(cwd <= paths[k])
    requires forall j :: 0 <= j < k ==> cwd <= paths[j]
    ensures Relativize(cwd, paths).failedAt == Some(paths[k])
    ensures |Relativize(cwd, paths).lines| == k
    ensures forall j :: 0 <= j < k ==> cwd + Relativize(cwd, paths).lines[j] == paths[j]
  {
    var init := paths[..k];
    assert paths[..k + 1][..k] == init;
    assert forall j :: 0 <= j < k ==> init[j] == paths[j];
    RelativizeAllUnder(cwd, init);
    RelativizeStops(cwd, paths, k + 1);
  }

  /** The exit status is 0 exactly when no file is unowned; then nothing is
      printed at all. */
  lemma ExitZeroIffAllOwned(cwd: Path, quiet: bool, res: EnforcerResult)
    ensures Report(cwd, quiet, res).status == Exit(0) <==> res.unownedFiles == []
    ensures res.unownedFiles == [] ==> Report(cwd, quiet, res) == Outcome([], [], Exit(0))
  {
  }

  /** The exit status is 1 exactly when some file is unowned and every
      unowned path is under `cwd`; then stdout has one line per unowned path,
      in list order, each the path with `cwd` removed. */
  lemma ExitOneListsUnowned(cwd: Path, quiet: bool, res: EnforcerResult)
    ensures var o := Report(cwd, quiet, res);
            var u := res.unownedFiles;
            o.status == Exit(1) <==> u != [] && forall k :: 0 <= k < |u| ==> cwd <= u[k]
    ensures var o := Report(cwd, quiet, res);
            var u := res.unownedFiles;
            o.status == Exit(1) ==>
              |o.stdout| == |u| && forall k :: 0 <= k < |u| ==> cwd + o.stdout[k] == u[k]
  {
    RelativizeAllUnder(cwd, res.unownedFiles);
  }

  /** A path not under `cwd` makes the run fail on the first such path,
      after printing the relative forms of the paths before it. */
  lemma StripFailureEndsRun(cwd: Path, quiet: bool, res: EnforcerResult, k: nat)
    requires k < |res.unownedFiles| && !(cwd <= res.unownedFiles[k])
    requires forall j :: 0 <= j < k ==> cwd <= res.unownedFiles[j]
    ensures Report(cwd, quiet, res).status == Failed(NotUnderCwd(res.unownedFiles[k]))
    ensures |Report(cwd, quiet, res).stdout| == k
    ensures forall j :: 0 <= j < k ==> cwd + Report(cwd, quiet, res).stdout[j] == res.unownedFiles[j]
  {
    RelativizeFirstOutside(cwd, res.unownedFiles, k);
  }

  /** `--quiet` changes only the banners: stdout and the status are the same
      either way, and a quiet run writes neither banner. The modelled stderr
      holds only the banners; the message Rust writes when `main` returns an
      error or panics is not part of it. */
  lemma QuietOnlyGatesBanners(cwd: Path, search: seq<string>, ignore: seq<string>, env: Env)
    ensures RunOutcome(cwd, search, ignore, true, env).stdout == RunOutcome(cwd, search, ignore, false, env).stdout
    ensures RunOutcome(cwd, search, ignore, true, env).status == RunOutcome(cwd, search, ignore, false, env).status
    ensures RunOutcome(cwd, search, ignore, true, env).stderr == []
  {
  }

  /** A run exits 0 exactly when the enforcer succeeds with no unowned file. */
  lemma RunExitZeroIff(cwd: Path, search: seq<string>, ignore: seq<string>, quiet: bool, env: Env)
    ensures RunOutcome(cwd, search, ignore, quiet, env).status == Exit(0) <==>
              Enforce(cwd, search, ignore, env).Ok? && Enforce(cwd, search, ignore, env).value.unownedFiles == []
  {
  }

  /** With no manifest the run fails with ManifestNotFound and prints nothing. */
  lemma RunWithoutManifest(cwd: Path, search: seq<string>, ignore: seq<string>, quiet: bool, env: Env)
    requires env.locate(cwd).None?
    ensures RunOutcome(cwd, search, ignore, quiet, env) == Outcome([], [], Failed(ManifestNotFound(cwd)))
  {
  }

  /** When the walker only yields paths under the working directory, printing
      never fails: the run exits 0 or 1 unless the enforcer itself failed,
      and on exit 1 stdout lists every unowned path relative to `cwd`. */
  lemma WalkUnderCwdNeverFailsToPrint(cwd: Path, search: seq<string>, ignore: seq<string>, quiet: bool, env: Env)
    requires forall i :: 0 <= i < |WalkOf(cwd, search, ignore, env)| && WalkOf(cwd, search, ignore, env)[i].Visited? ==>
               cwd <= WalkOf(cwd, search, ignore, env)[i].path
    requires Enforce(cwd, search, ignore, env).Ok?
    ensures var o := RunOutcome(cwd, search, ignore, quiet, env);
            var u := Enforce(cwd, search, ignore, env).value.unownedFiles;
            o.status == (if u == [] then Exit(0) else Exit(1))
            && |o.stdout| == |u| && forall k :: 0 <= k < |u| ==> cwd + o.stdout[k] == u[k]
  {
    var res := Enforce(cwd, search, ignore, env).value;
    forall k | 0 <= k < |res.unownedFiles| ensures cwd <= res.unownedFiles[k] {
      EnforcedUnownedFiles(cwd, search, ignore, env, res.unownedFiles[k]);
    }
    RelativizeAllUnder(cwd, res.unownedFiles);
  }

  /** The manifest of a worked run: it owns `/p/main.go` and nothing else. */
  function ScenarioOwners(p: Path): Option<seq<Owner>>
  {
    if p == ["/", "p", "main.go"] then Some(["@team"]) else None
  }

  /** The walk of a worked run: the root directory, `main.go` and `README.md`. */
  function ScenarioEntries(root: Path): seq<Entry>
  {
    [Visited(root, Some(Directory)),
     Visited(root + ["main.go"], Some(RegularFile)),
     Visited(root + ["README.md"], Some(RegularFile))]
  }

  /** The collaborators of a worked run: the manifest sits in the starting
      directory; every glob is accepted and the rules build. */
  function ScenarioEnv(): Env
  {
    Env((d: Path) => Some(d + ["CODEOWNERS"]), (m: Path) => ScenarioOwners,
        (g: string) => true, (rules: seq<string>) => true, (o: WalkOptions) => ScenarioEntries(o.root))
  }

  /** The walk of the worked run looks up `main.go` and `README.md`, and
      only `README.md` has no owner. */
  lemma ScenarioClassified()
    ensures FirstUntyped(ScenarioEntries(["/", "p"])).None?
    ensures UnownedFiles(Candidates(ScenarioEntries(["/", "p"])), ScenarioOwners) == [["/", "p", "README.md"]]
  {
    var entries := ScenarioEntries(["/", "p"]);
    var main, readme: Path := ["/", "p", "main.go"], ["/", "p", "README.md"];
    assert readme != main by { assert readme[2] != main[2]; }
    assert ["/", "p"] + ["main.go"] == main && ["/", "p"] + ["README.md"] == readme;
    assert entries[1].path == main && entries[2].path == readme;
    assert entries[..1][..0] == [] && entries[..2][..1] == entries[..1] && entries[..3][..2] == entries[..2];
    assert entries[..3] == entries;
    assert FirstUntyped(entries[..1]).None?;
    assert FirstUntyped(entries[..2]).None?;
    assert Candidates(entries[..1]) == [];
    assert Candidates(entries[..2]) == [main];
    assert Candidates(entries) == [main, readme];
    var files := [main, readme];
    assert files[..1][..0] == [] && files[..1] == [main];
    assert UnownedFiles(files[..1], ScenarioOwners) == [];
  }

  /** In the worked run from `/p`, the enforcer finds the manifest in `/p`
      and reports `README.md` as the only unowned file. */
  lemma ScenarioEnforce()
    ensures Enforce(["/", "p"], [], [], ScenarioEnv())
              == Ok(EnforcerResult(["/", "p", "CODEOWNERS"], [["/", "p", "README.md"]]))
  {
    ScenarioClassified();
    var cwd: Path := ["/", "p"];
    var env := ScenarioEnv();
    assert OverrideRules([], []) == [];
    assert BuiltOverrides(cwd, [], [], env) == Ok(Override(cwd, []));
    assert env.walk(WalkOptionsFor(cwd, Override(cwd, []))) == ScenarioEntries(cwd);
    assert cwd + ["CODEOWNERS"] == ["/", "p", "CODEOWNERS"];
    assert env.locate(cwd) == Some(["/", "p", "CODEOWNERS"]);
    assert env.parse(["/", "p", "CODEOWNERS"]) == ScenarioOwners;
  }

  /** The worked run from `/p`: only `README.md` is reported, relative to
      `/p`, between the two banners, and the run exits 1. */
  lemma ReadmeScenario()
    ensures RunOutcome(["/", "p"], [], [], false, ScenarioEnv())
              == Outcome([["README.md"]],
                         [OopsBanner, BlankLine, BlankLine, FixBanner(["/", "p", "CODEOWNERS"])],
                         Exit(1))
  {
    ScenarioEnforce();
    var cwd: Path := ["/", "p"];
    var unowned: seq<Path> := [cwd + ["README.md"]];
    assert unowned[..0] == [];
    assert Relativize(cwd, unowned) == Relativized([["README.md"]], None);
  }
}
