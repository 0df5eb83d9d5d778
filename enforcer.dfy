/** `codeowners_enforcer` (src/main.rs:16-81): locate the CODEOWNERS
    manifest, parse it, build the override rules from the search and ignore
    patterns, walk the tree and collect the files that have no owners.

    The collaborators the function calls (the `codeowners` crate's `locate`,
    `from_path` and `of`, and the `ignore` crate's override builder and
    walker) are not modelled; they are given as an Env of oracles. Each call
    the function makes on them is recorded in order in a call log, so that
    what happens before what can be stated. */
module Enforcer {
  import opened Wrappers
  import opened Paths
  import opened Overrides
  import opened Classification

  /** The ways a run can fail. */
  datatype Error =
    | ManifestNotFound(from: Path)      // `locate` found no manifest (the panic at line 30)
    | InvalidGlob(rule: string)         // `add` refused a rule
    | OverrideBuildFailed               // `build` failed
    | FileTypeUnavailable(path: Path)   // `file_type().unwrap()` failed
    | NotUnderCwd(path: Path)           // `strip_prefix` failed while printing

  /** The per-directory ignore file the walker honours (src/main.rs:52). */
  const CustomIgnoreFilename: string := ".codeownersignore"

  /** What the walker is configured with (src/main.rs:51-56). */
  datatype WalkOptions = WalkOptions(
    root: Path,
    overrides: Override,
    customIgnoreFilename: string,
    parents: bool,
    gitGlobal: bool)

  /** The walker configuration of the source: rooted at `cwd`, the given
      overrides, `.codeownersignore` files, no parent ignore files, no global
      git ignore. */
  function WalkOptionsFor(cwd: Path, overrides: Override): WalkOptions
  {
    WalkOptions(cwd, overrides, CustomIgnoreFilename, false, false)
  }

  /** The collaborators, as oracles. */
  datatype Env = Env(
    locate: Path -> Option<Path>,          // codeowners::locate
    parse: Path -> OwnershipIndex,         // codeowners::from_path, queried with `of`
    accepts: string -> bool,               // OverrideBuilder::add succeeds
    builds: seq<string> -> bool,           // OverrideBuilder::build succeeds
    walk: WalkOptions -> seq<Entry>)       // the walker's items, in order

  /** `EnforcerResult` (src/main.rs:16-20). */
  datatype EnforcerResult = EnforcerResult(configPath: Path, unownedFiles: seq<Path>)

  /** A call the enforcer makes on a collaborator. */
  datatype Call =
    | Locate(from: Path)
    | Parse(manifest: Path)
    | AddGlob(glob: string)
    | BuildOverrides
    | Walk(options: WalkOptions)
    | OwnersOf(path: Path)

  /** The entries the walker yields for this run's configuration. */
  function WalkOf(cwd: Path, search: seq<string>, ignore: seq<string>, env: Env): seq<Entry>
  {
    env.walk(WalkOptionsFor(cwd, Override(cwd, OverrideRules(search, ignore))))
  }

  /** Everything before the walk succeeds: a manifest is found, every rule
      is accepted and the rules build. */
  predicate PatternsReady(cwd: Path, search: seq<string>, ignore: seq<string>, env: Env)
  {
    env.locate(cwd).Some?
    && FirstRejected(OverrideRules(search, ignore), env.accepts).None?
    && env.builds(OverrideRules(search, ignore))
  }

  /** The matcher built from the search and ignore patterns, or the
      failure of the first refused rule or of the build. */
  function BuiltOverrides(cwd: Path, search: seq<string>, ignore: seq<string>, env: Env): Result<Override, Error>
  {
    var rules := OverrideRules(search, ignore);
    match FirstRejected(rules, env.accepts)
    case Some(rule) => Err(InvalidGlob(rule))
    case None => if env.builds(rules) then Ok(Override(cwd, rules)) else Err(OverrideBuildFailed)
  }

  /** The result of `codeowners_enforcer`. */
  function Enforce(cwd: Path, search: seq<string>, ignore: seq<string>, env: Env): Result<EnforcerResult, Error>
  {
    match env.locate(cwd)
    case None => Err(ManifestNotFound(cwd))
    case Some(configPath) =>
      match BuiltOverrides(cwd, search, ignore, env)
      case Err(e) => Err(e)
      case Ok(overrides) =>
        var entries := env.walk(WalkOptionsFor(cwd, overrides));
        match FirstUntyped(entries)
        case Some(p) => Err(FileTypeUnavailable(p))
        case None => Ok(EnforcerResult(configPath, UnownedFiles(Candidates(entries), env.parse(configPath))))
  }

  /** The log holds a walk. */
  predicate Walked(calls: seq<Call>)
  {
    calls != [] && (Walked(calls[..|calls| - 1]) || calls[|calls| - 1].Walk?)
  }

  /** The paths queried with `of`, in order. */
  function Queried(calls: seq<Call>): seq<Path>
  {
    if calls == [] then []
    else
      var c := calls[|calls| - 1];
      Queried(calls[..|calls| - 1]) + (if c.OwnersOf? then [c.path] else [])
  }

  /** The rules handed to `add`, in order. */
  function AddedGlobs(calls: seq<Call>): seq<string>
  {
    if calls == [] then []
    else
      var c := calls[|calls| - 1];
      AddedGlobs(calls[..|calls| - 1]) + (if c.AddGlob? then [c.glob] else [])
  }

  /** One `of` query per path, in order. */
  function OwnerQueries(paths: seq<Path>): seq<Call>
  {
    if paths == [] then []
    else OwnerQueries(paths[..|paths| - 1]) + [OwnersOf(paths[|paths| - 1])]
  }

  /** The views of a concatenated log are the concatenations of the views. */
  lemma {:induction false} CallsAppend(a: seq<Call>, b: seq<Call>)
    ensures Queried(a + b) == Queried(a) + Queried(b)
    ensures AddedGlobs(a + b) == AddedGlobs(a) + AddedGlobs(b)
    ensures Walked(a + b) <==> Walked(a) || Walked(b)
  {
    if b == [] {
      assert a + b == a;
    } else {
      var n := |b| - 1;
      CallsAppend(a, b[..n]);
      assert (a + b)[..|a + b| - 1] == a + b[..n];
    }
  }

  /** A log of `of` queries queries exactly the given paths, and holds no
      walk and no added rule. */
  lemma {:induction false} OwnerQueriesViews(paths: seq<Path>)
    ensures Queried(OwnerQueries(paths)) == paths
    ensures AddedGlobs(OwnerQueries(paths)) == []
    ensures !Walked(OwnerQueries(paths))
  {
    if paths != [] {
      var n := |paths| - 1;
      OwnerQueriesViews(paths[..n]);
      CallsAppend(OwnerQueries(paths[..n]), [OwnersOf(paths[n])]);
      assert [OwnersOf(paths[n])][..0] == [];
      assert paths[..n] + [paths[n]] == paths;
    }
  }

  /** The views of a log with one call appended. */
  lemma AppendCall(calls: seq<Call>, c: Call)
    ensures Queried(calls + [c]) == Queried(calls) + (if c.OwnersOf? then [c.path] else [])
    ensures AddedGlobs(calls + [c]) == AddedGlobs(calls) + (if c.AddGlob? then [c.glob] else [])
    ensures Walked(calls + [c]) <==> Walked(calls) || c.Walk?
  {
    assert (calls + [c])[..|calls|] == calls;
  }

  /** A rule refused in a prefix of the rule list is the first refused rule
      of the whole list. */
  lemma {:induction false} FirstRejectedPrefix(globs: seq<string>, k: nat, accepts: string -> bool)
    requires k <= |globs| && FirstRejected(globs[..k], accepts).Some?
    ensures FirstRejected(globs, accepts) == FirstRejected(globs[..k], accepts)
  {
    if k < |globs| {
      var n := |globs| - 1;
      assert globs[..n][..k] == globs[..k];
      FirstRejectedPrefix(globs[..n], k, accepts);
    } else {
      assert globs[..k] == globs;
    }
  }

  /** Lines 39-41: add every search pattern verbatim, in order, stopping at
      the first refused one. Returns the refused pattern, if any, and the
      patterns handed to `add`. */
  method AddSearchPatterns(builder: OverrideBuilder, search: seq<string>)
    returns (rejected: Option<string>, tried: seq<string>)
    requires builder.globs == []
    modifies builder
    ensures rejected == FirstRejected(search, builder.accepts)
    ensures rejected.None? ==> builder.globs == search && tried == search
    ensures tried <= search
    ensures rejected.Some? ==> tried != [] && tried[|tried| - 1] == rejected.value
    ensures rejected.Some? ==>
              !builder.accepts(rejected.value)
              && builder.globs == tried[..|tried| - 1]
              && forall k :: 0 <= k < |tried| - 1 ==> builder.accepts(tried[k])
  {
    tried := [];
    for i := 0 to |search|
      invariant builder.globs == search[..i] && tried == search[..i]
      invariant FirstRejected(search[..i], builder.accepts).None?
    {
      tried := tried + [search[i]];
      var ok := builder.Add(search[i]);
      assert search[..i + 1][..i] == search[..i];
      if !ok {
        FirstRejectedPrefix(search, i + 1, builder.accepts);
        FirstRejectedIsFirst(search[..i], builder.accepts);
        assert tried[..|tried| - 1] == search[..i];
        rejected := Some(search[i]);
        return;
      }
    }
    assert search[..|search|] == search;
    rejected := None;
  }

  /** Lines 43-46: add every ignore pattern with a "!" prefix, in order,
      after the search patterns already added, stopping at the first refused
      rule. Returns the refused rule, if any, and the rules handed to `add`. */
  method AddIgnorePatterns(builder: OverrideBuilder, search: seq<string>, ignore: seq<string>)
    returns (rejected: Option<string>, tried: seq<string>)
    requires builder.globs == search && FirstRejected(search, builder.accepts).None?
    modifies builder
    ensures rejected == FirstRejected(search + Negated(ignore), builder.accepts)
    ensures rejected.None? ==> builder.globs == search + Negated(ignore) && tried == Negated(ignore)
    ensures tried <= Negated(ignore)
    ensures rejected.Some? ==> tried != [] && tried[|tried| - 1] == rejected.value
    ensures rejected.Some? ==>
              !builder.accepts(rejected.value)
              && builder.globs == search + tried[..|tried| - 1]
              && forall k :: 0 <= k < |tried| - 1 ==> builder.accepts(tried[k])
  {
    tried := [];
    assert search == search + Negated(ignore[..0]);
    for j := 0 to |ignore|
      invariant builder.globs == search + tried && tried == Negated(ignore[..j])
      invariant FirstRejected(search + tried, builder.accepts).None?
    {
      var rule := Negate(ignore[j]);
      IgnoreStep(search, ignore, j);
      tried := tried + [rule];
      var ok := builder.Add(rule);
      if !ok {
        AddIgnoreRejected(search, ignore, j, builder.accepts);
        FirstRejectedIsFirst(search + tried[..|tried| - 1], builder.accepts);
        assert tried[..|tried| - 1] == Negated(ignore[..j]);
        assert forall k :: 0 <= k < |tried| - 1 ==> tried[k] == (search + tried[..|tried| - 1])[|search| + k];
        NegatedPrefix(ignore, j + 1);
        rejected := Some(rule);
        return;
      }
    }
    assert ignore[..|ignore|] == ignore;
    rejected := None;
  }

  /** One more ignore pattern adds its negated rule at the end. */
  lemma IgnoreStep(search: seq<string>, ignore: seq<string>, j: nat)
    requires j < |ignore|
    ensures Negated(ignore[..j + 1]) == Negated(ignore[..j]) + [Negate(ignore[j])]
    ensures search + Negated(ignore[..j + 1]) == (search + Negated(ignore[..j])) + [Negate(ignore[j])]
  {
    assert ignore[..j + 1][..j] == ignore[..j];
  }

  /** One `add` call per rule, in order. */
  function AddCalls(globs: seq<string>): seq<Call>
  {
    if globs == [] then []
    else AddCalls(globs[..|globs| - 1]) + [AddGlob(globs[|globs| - 1])]
  }

  /** A log of `add` calls adds exactly the given rules, and holds no build,
      no walk and no owner query. */
  lemma {:induction false} AddCallsViews(globs: seq<string>)
    ensures AddedGlobs(AddCalls(globs)) == globs
    ensures Queried(AddCalls(globs)) == []
    ensures !Walked(AddCalls(globs)) && BuildOverrides !in AddCalls(globs)
  {
    if globs != [] {
      var n := |globs| - 1;
      AddCallsViews(globs[..n]);
      AppendCall(AddCalls(globs[..n]), AddGlob(globs[n]));
      assert globs[..n] + [globs[n]] == globs;
    }
  }

  /** The negated rules of a prefix of the ignore patterns are a prefix of
      the negated rules. */
  lemma {:induction false} NegatedPrefix(ignore: seq<string>, j: nat)
    requires j <= |ignore|
    ensures Negated(ignore[..j]) <= Negated(ignore)
  {
    if j < |ignore| {
      var n := |ignore| - 1;
      assert ignore[..n][..j] == ignore[..j];
      NegatedPrefix(ignore[..n], j);
    } else {
      assert ignore[..j] == ignore;
    }
  }

  /** When the rule for ignore pattern j is the first refused one, it is the
      first refused rule of the whole list. */
  lemma AddIgnoreRejected(search: seq<string>, ignore: seq<string>, j: nat, accepts: string -> bool)
    requires j < |ignore|
    requires FirstRejected(search + Negated(ignore[..j]), accepts).None?
    requires !accepts(Negate(ignore[j]))
    ensures FirstRejected(search + Negated(ignore), accepts) == Some(Negate(ignore[j]))
  {
    var whole := search + Negated(ignore);
    var added := search + Negated(ignore[..j + 1]);
    assert ignore[..j + 1][..j] == ignore[..j];
    assert added[..|added| - 1] == search + Negated(ignore[..j]);
    NegatedPrefix(ignore, j + 1);
    assert added == whole[..|added|];
    FirstRejectedPrefix(whole, |added|, accepts);
  }

  /** When every search pattern is accepted and every ignore rule tried
      before the last one too, every rule added before the last one was
      accepted. */
  lemma AcceptedBeforeLast(search: seq<string>, tried: seq<string>, accepts: string -> bool)
    requires FirstRejected(search, accepts).None?
    requires tried != [] && forall k :: 0 <= k < |tried| - 1 ==> accepts(tried[k])
    ensures forall k :: 0 <= k < |search + tried| - 1 ==> accepts((search + tried)[k])
  {
    FirstRejectedIsFirst(search, accepts);
  }

  /** Lines 37-48: the search patterns verbatim, then the ignore patterns
      with a "!" prefix, then build. Returns the matcher (or the failure) and
      the log of builder calls: the rules added are a prefix of the override
      rule list, the refused rule is the last one added and every rule before
      it was accepted, all rules are added when none is refused, `build` is called
      exactly when every rule was accepted, and nothing is walked or
      queried. */
  method BuildRules(cwd: Path, search: seq<string>, ignore: seq<string>, env: Env)
    returns (r: Result<Override, Error>, calls: seq<Call>)
    ensures r == BuiltOverrides(cwd, search, ignore, env)
    ensures AddedGlobs(calls) <= OverrideRules(search, ignore)
    ensures r.Err? && r.error.InvalidGlob? ==>
              AddedGlobs(calls) != [] && AddedGlobs(calls)[|AddedGlobs(calls)| - 1] == r.error.rule
    ensures r.Err? && r.error.InvalidGlob? ==>
              !env.accepts(r.error.rule)
              && forall k :: 0 <= k < |AddedGlobs(calls)| - 1 ==> env.accepts(AddedGlobs(calls)[k])
    ensures FirstRejected(OverrideRules(search, ignore), env.accepts).None? ==>
              AddedGlobs(calls) == OverrideRules(search, ignore)
    ensures BuildOverrides in calls <==> FirstRejected(OverrideRules(search, ignore), env.accepts).None?
    ensures !Walked(calls) && Queried(calls) == []
  {
    var builder := new OverrideBuilder(cwd, env.accepts);
    var rejected, tried := AddSearchPatterns(builder, search);
    if rejected.Some? {
      assert search == OverrideRules(search, ignore)[..|search|];
      FirstRejectedPrefix(OverrideRules(search, ignore), |search|, env.accepts);
      AddCallsViews(tried);
      r, calls := Err(InvalidGlob(rejected.value)), AddCalls(tried);
      return;
    }
    var ignoreTried;
    rejected, ignoreTried := AddIgnorePatterns(builder, search, ignore);
    tried := search + ignoreTried;
    AddCallsViews(tried);
    calls := AddCalls(tried);
    if rejected.Some? {
      AcceptedBeforeLast(search, ignoreTried, env.accepts);
      r := Err(InvalidGlob(rejected.value));
      return;
    }
    AppendCall(calls, BuildOverrides);
    calls := calls + [BuildOverrides];
    var overrides := builder.Build(env.builds);
    if overrides.None? {
      r := Err(OverrideBuildFailed);
    } else {
      r := Ok(overrides.value);
    }
  }

  /** `codeowners_enforcer`, step by step as the source runs it. It returns
      the result and the log of collaborator calls, and promises: the first
      call is `locate`, and a missing manifest stops the run right there; the
      result names the located manifest; the rules added are a prefix of the
      override rule list; the walk happens exactly when the manifest was
      found and every rule was added and built; no owner is queried without a
      walk; the walk is configured as lines 51-56 configure it; owners are
      queried for the walk's candidates in walk order, all of them when the
      run succeeds and, when an entry of unavailable type fails the run,
      exactly those before that entry. */
  method CodeownersEnforcer(cwd: Path, search: seq<string>, ignore: seq<string>, env: Env)
    returns (r: Result<EnforcerResult, Error>, calls: seq<Call>)
    ensures r == Enforce(cwd, search, ignore, env)
    ensures 0 < |calls| && calls[0] == Locate(cwd)
    ensures env.locate(cwd).None? <==> calls == [Locate(cwd)]
    ensures env.locate(cwd).None? ==> r == Err(ManifestNotFound(cwd))
    ensures r.Ok? ==> env.locate(cwd) == Some(r.value.configPath)
    ensures AddedGlobs(calls) <= OverrideRules(search, ignore)
    ensures Walked(calls) <==> PatternsReady(cwd, search, ignore, env)
    ensures !Walked(calls) ==> Queried(calls) == []
    ensures Queried(calls) <= Candidates(WalkOf(cwd, search, ignore, env))
    ensures r.Ok? ==> Queried(calls) == Candidates(WalkOf(cwd, search, ignore, env))
    ensures r.Err? && r.error.FileTypeUnavailable? ==>
              var entries := WalkOf(cwd, search, ignore, env);
              exists i :: 0 <= i < |entries| && entries[i].Visited? && entries[i].fileType.None?
                && entries[i].path == r.error.path
                && FirstUntyped(entries[..i]).None? && Queried(calls) == Candidates(entries[..i])
    ensures Walked(calls) ==> Walk(WalkOptionsFor(cwd, Override(cwd, OverrideRules(search, ignore)))) in calls
  {
    AppendCall([], Locate(cwd));
    assert [] + [Locate(cwd)] == [Locate(cwd)];
    calls := [Locate(cwd)];
    var located := env.locate(cwd);
    if located.None? {
      r := Err(ManifestNotFound(cwd));
      return;
    }

    // Parse the manifest.
    var configPath := located.value;
    AppendCall(calls, Parse(configPath));
    calls := calls + [Parse(configPath)];
    var index := env.parse(configPath);

    // Merge the search and ignore patterns into one override set.
    var overrides, ruleCalls := BuildRules(cwd, search, ignore, env);
    CallsAppend(calls, ruleCalls);
    calls := calls + ruleCalls;
    if overrides.Err? {
      r := Err(overrides.error);
      return;
    }

    // Walk the tree and look every file up.
    var options := WalkOptionsFor(cwd, overrides.value);
    var entries := env.walk(options);
    AppendCall(calls, Walk(options));
    calls := calls + [Walk(options)];
    var unowned, queried := ClassifyWalk(entries, index);
    OwnerQueriesViews(queried);
    CallsAppend(calls, OwnerQueries(queried));
    assert Walk(options) in calls + OwnerQueries(queried);
    calls := calls + OwnerQueries(queried);
    match unowned
    case Err(p) =>
      r := Err(FileTypeUnavailable(p));
    case Ok(files) =>
      r := Ok(EnforcerResult(configPath, files));
  }

  /** The unowned list of a successful run is exactly the set of paths that
      some non-directory walk entry carries and the manifest gives no owner;
      directories and walk errors never appear. */
  lemma EnforcedUnownedFiles(cwd: Path, search: seq<string>, ignore: seq<string>, env: Env, p: Path)
    requires Enforce(cwd, search, ignore, env).Ok?
    ensures var res := Enforce(cwd, search, ignore, env).value;
            var entries := WalkOf(cwd, search, ignore, env);
            p in res.unownedFiles <==>
              (exists i :: 0 <= i < |entries| && IsCandidate(entries[i]) && entries[i].path == p)
              && env.parse(res.configPath)(p).None?
  {
    ClassificationTotalAndExclusive(WalkOf(cwd, search, ignore, env), env.parse(env.locate(cwd).value), p);
  }
}
