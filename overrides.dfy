/** The override rule list that `codeowners_enforcer` assembles from the
    search and ignore patterns (src/main.rs:37-48), and the builder object it
    assembles them in. Glob syntax and override precedence belong to the
    `ignore` crate and are abstracted: whether a glob is accepted, and
    whether a rule list compiles, are given as oracles. */
module Overrides {
  import opened Wrappers
  import opened Paths

  /** An ignore pattern becomes a whitelist-negated override rule. */
  function Negate(glob: string): (r: string)
    ensures |r| == |glob| + 1 && r[0] == '!' && r[1..] == glob
  {
    "!" + glob
  }

  /** The ignore patterns as rules, `"!" + p` for each pattern p in the given order. */
  function Negated(ignore: seq<string>): seq<string>
  {
    if ignore == [] then []
    else Negated(ignore[..|ignore| - 1]) + [Negate(ignore[|ignore| - 1])]
  }

  /** The rule list handed to the override builder: the search patterns
      verbatim, then the negated ignore patterns. */
  function OverrideRules(search: seq<string>, ignore: seq<string>): seq<string>
  {
    search + Negated(ignore)
  }

  lemma {:induction false} NegatedAt(ignore: seq<string>, k: nat)
    requires k < |ignore|
    ensures |Negated(ignore)| == |ignore|
    ensures Negated(ignore)[k] == "!" + ignore[k]
  {
    var n := |ignore| - 1;
    if k < n {
      NegatedAt(ignore[..n], k);
    } else if n > 0 {
      NegatedAt(ignore[..n], 0);
    }
  }

  /** The rule list is the search patterns in order, followed by `"!" + p`
      for each ignore pattern p in order; every rule after the search
      patterns is a negation. */
  lemma OverrideRulesShape(search: seq<string>, ignore: seq<string>)
    ensures |OverrideRules(search, ignore)| == |search| + |ignore|
    ensures OverrideRules(search, ignore)[..|search|] == search
    ensures forall k :: 0 <= k < |ignore| ==> OverrideRules(search, ignore)[|search| + k] == "!" + ignore[k]
    ensures forall j :: |search| <= j < |OverrideRules(search, ignore)| ==>
              0 < |OverrideRules(search, ignore)[j]| && OverrideRules(search, ignore)[j][0] == '!'
  {
    var rules := OverrideRules(search, ignore);
    if ignore == [] {
      assert rules == search;
    } else {
      NegatedAt(ignore, 0);
      forall k | 0 <= k < |ignore| ensures rules[|search| + k] == "!" + ignore[k] {
        NegatedAt(ignore, k);
      }
      forall j | |search| <= j < |rules| ensures 0 < |rules[j]| && rules[j][0] == '!' {
        NegatedAt(ignore, j - |search|);
      }
    }
  }

  /** The first glob, in order, that the builder refuses; None when every
      glob is accepted. The builder is fed the globs one by one and gives up
      at the first refusal. */
  function FirstRejected(globs: seq<string>, accepts: string -> bool): Option<string>
  {
    if globs == [] then None
    else match FirstRejected(globs[..|globs| - 1], accepts)
      case Some(g) => Some(g)
      case None => if accepts(globs[|globs| - 1]) then None else Some(globs[|globs| - 1])
  }

  /** FirstRejected finds a refused glob exactly when there is one, and the
      one it finds comes after only accepted globs. */
  lemma {:induction false} FirstRejectedIsFirst(globs: seq<string>, accepts: string -> bool)
    ensures FirstRejected(globs, accepts).None? <==> forall k :: 0 <= k < |globs| ==> accepts(globs[k])
    ensures FirstRejected(globs, accepts).Some? ==>
              exists k :: 0 <= k < |globs| && globs[k] == FirstRejected(globs, accepts).value
                && !accepts(globs[k]) && forall j :: 0 <= j < k ==> accepts(globs[j])
  {
    if globs != [] {
      var n := |globs| - 1;
      var init := globs[..n];
      FirstRejectedIsFirst(init, accepts);
      assert forall k :: 0 <= k < n ==> init[k] == globs[k];
      if FirstRejected(init, accepts).Some? {
        var k :| 0 <= k < n && init[k] == FirstRejected(init, accepts).value
          && !accepts(init[k]) && forall j :: 0 <= j < k ==> accepts(init[j]);
        assert globs[k] == FirstRejected(globs, accepts).value;
      } else if !accepts(globs[n]) {
        assert globs[n] == FirstRejected(globs, accepts).value;
      }
    }
  }

  /** A compiled override matcher: the rules and the root they are anchored to. */
  datatype Override = Override(root: Path, globs: seq<string>)

  /** `ignore::overrides::OverrideBuilder`, seen from the enforcer: it
      collects globs one at a time and is finally built into an Override. */
  class OverrideBuilder {
    const root: Path
    /** Whether `add` accepts a glob (glob syntax is the crate's business). */
    const accepts: string -> bool
    var globs: seq<string>

    /** `OverrideBuilder::new(&cwd)` (src/main.rs:37). */
    constructor (root: Path, accepts: string -> bool)
      ensures this.root == root && this.accepts == accepts && globs == []
    {
      this.root := root;
      this.accepts := accepts;
      globs := [];
    }

    /** `override_builder.add(glob)`: appends the glob when it is accepted,
        otherwise reports failure and keeps the rules as they were. */
    method Add(glob: string) returns (ok: bool)
      modifies this
      ensures ok == accepts(glob)
      ensures globs == if ok then old(globs) + [glob] else old(globs)
    {
      ok := accepts(glob);
      if ok {
        globs := globs + [glob];
      }
    }

    /** `override_builder.build()` (src/main.rs:48): the matcher over exactly
        the globs added so far, anchored at the root, unless compiling fails. */
    method Build(builds: seq<string> -> bool) returns (r: Option<Override>)
      ensures r.Some? <==> builds(globs)
      ensures r.Some? ==> r.value.root == root && r.value.globs == globs
    {
      if builds(globs) {
        r := Some(Override(root, globs));
      } else {
        r := None;
      }
    }
  }
}
