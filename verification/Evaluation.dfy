// Flag evaluation: off, then prerequisites, then individual targets, then rules, then the fallthrough.
module Evaluation {
  import opened Models
  import opened Bucketing
  import Seg = Segments

  datatype Reason = Off | PrerequisiteFailed | TargetMatch | RuleMatch | Fallthrough

  datatype Evaluated = Evaluated(flagKey: string, value: Value, variation: int, reason: Reason)

  /** The environment cache keeps every flag and segment under its own key. */
  ghost predicate WellKeyed(env: EvalEnv) {
    && (forall k :: k in env.flags ==> env.flags[k].key == k)
    && Seg.WellKeyed(env.segments)
  }

  /** The value of a variation, or null when the index is out of range. */
  function RawValue(variations: seq<Value>, idx: int): Value {
    if 0 <= idx < |variations| then variations[idx] else Null
  }

  function Result(ef: EvalFlag, idx: int, reason: Reason): Evaluated {
    Evaluated(ef.key, RawValue(ef.variations, idx), idx, reason)
  }

  function ResolveVOR(w: World, ef: EvalFlag, vor: VariationOrRollout, ctx: Context): int {
    if vor.variation.Some? then vor.variation.value
    else if vor.rollout.Some? then RolloutVariation(w, ef.key, ef.salt, vor.rollout.value, ctx)
    else 0
  }

  predicate TargetMatches(t: Target, ctx: Context) {
    KeyForKind(ctx, t.contextKind).Some? && KeyForKind(ctx, t.contextKind).value in t.values
  }

  function FirstTarget(targets: seq<Target>, ctx: Context): Option<int> {
    if targets == [] then None
    else if TargetMatches(targets[0], ctx) then Some(targets[0].variation)
    else FirstTarget(targets[1..], ctx)
  }

  function FirstRule(w: World, rules: seq<Rule>, ctx: Context, members: set<string>): Option<VariationOrRollout> {
    if rules == [] then None
    else if Seg.AllHold(w, rules[0].clauses, ctx, members) then Some(rules[0].serve)
    else FirstRule(w, rules[1..], ctx, members)
  }

  /** What an on-flag serves once its prerequisites are met. */
  function Serve(w: World, ef: EvalFlag, ctx: Context, segs: map<string, Segment>): Evaluated
    requires Seg.WellKeyed(segs)
  {
    match FirstTarget(ef.targets, ctx)
    case Some(variation) => Result(ef, variation, TargetMatch)
    case None =>
      match FirstRule(w, ef.rules, ctx, Seg.Members(w, ctx, segs, {}))
      case Some(vor) => Result(ef, ResolveVOR(w, ef, vor, ctx), RuleMatch)
      case None => Result(ef, ResolveVOR(w, ef, ef.fallthru, ctx), Fallthrough)
  }

  // ----- guarded evaluation -----

  /** The outcome for `ef` when the flags in `visited` are already being evaluated. */
  function Evaluate(w: World, ef: EvalFlag, ctx: Context, env: EvalEnv, visited: set<string>): Evaluated
    requires WellKeyed(env) && ef.key !in visited
    decreases |(env.flags.Keys + {ef.key}) - visited|, 1
  {
    if !ef.on then Result(ef, ef.offVariation, Off)
    else
      Seg.MarkingShrinks(env.flags.Keys, ef.key, visited);
      if forall p | p in ef.prerequisites :: Met(w, p, ctx, env, visited + {ef.key})
          then Serve(w, ef, ctx, env.segments)
      else Result(ef, ef.offVariation, PrerequisiteFailed)
  }

  /** A prerequisite is met by a stored, on flag outside the guard that serves the required variation. */
  predicate Met(w: World, p: Prerequisite, ctx: Context, env: EvalEnv, visited: set<string>)
    requires WellKeyed(env)
    decreases |env.flags.Keys - visited|, 2
  {
    && p.key !in visited
    && p.key in env.flags
    && env.flags[p.key].on
    && assert env.flags.Keys + {env.flags[p.key].key} == env.flags.Keys;
       var sub := Evaluate(w, env.flags[p.key], ctx, env, visited);
       sub.reason != PrerequisiteFailed && sub.variation == p.variation
  }

  // ----- the program -----

  /** Resolves a flag for a context. */
  method EvaluateFlag(w: World, ef: EvalFlag, ctx: Context, env: EvalEnv) returns (r: Evaluated)
    requires WellKeyed(env)
    ensures r == Evaluate(w, ef, ctx, env, {})
  {
    var visited := new Seg.Visited();
    r := EvaluateVisited(w, ef, ctx, env, visited);
  }

  method EvaluateVisited(w: World, ef: EvalFlag, ctx: Context, env: EvalEnv, visited: Seg.Visited)
    returns (r: Evaluated)
    requires WellKeyed(env) && ef.key !in visited.keys
    modifies visited
    ensures r == Evaluate(w, ef, ctx, env, old(visited.keys))
    ensures visited.keys == old(visited.keys)
    decreases |(env.flags.Keys + {ef.key}) - visited.keys|, 1
  {
    if !ef.on {
      return Result(ef, ef.offVariation, Off);
    }
    if |ef.prerequisites| > 0 {
      ghost var unmarked := visited.keys;
      visited.keys := visited.keys + {ef.key};
      Seg.MarkingShrinks(env.flags.Keys, ef.key, unmarked);
      var met := CheckPrerequisites(w, ef.prerequisites, ctx, env, visited);
      visited.keys := visited.keys - {ef.key};
      assert visited.keys == unmarked;
      if !met {
        return Result(ef, ef.offVariation, PrerequisiteFailed);
      }
    }
    r := ServeFlag(w, ef, ctx, env.segments);
  }

  /** The prerequisite loop of EvaluateVisited: stops at the first prerequisite that is not met. */
  method CheckPrerequisites(w: World, prereqs: seq<Prerequisite>, ctx: Context, env: EvalEnv, visited: Seg.Visited)
    returns (met: bool)
    requires WellKeyed(env)
    modifies visited
    ensures met == forall p | p in prereqs :: Met(w, p, ctx, env, old(visited.keys))
    ensures visited.keys == old(visited.keys)
    decreases |env.flags.Keys - visited.keys|, 2
  {
    for i := 0 to |prereqs|
      invariant visited.keys == old(visited.keys)
      invariant forall p :: p in prereqs[..i] ==> Met(w, p, ctx, env, old(visited.keys))
    {
      var p := prereqs[i];
      if p.key in visited.keys || p.key !in env.flags {
        assert p in prereqs && !Met(w, p, ctx, env, old(visited.keys));
        return false;
      }
      var prereq := env.flags[p.key];
      assert env.flags.Keys + {prereq.key} == env.flags.Keys;
      var sub := EvaluateVisited(w, prereq, ctx, env, visited);
      if !prereq.on || sub.reason == PrerequisiteFailed || sub.variation != p.variation {
        assert p in prereqs && !Met(w, p, ctx, env, old(visited.keys));
        return false;
      }
      assert prereqs[..i + 1] == prereqs[..i] + [p];
    }
    assert prereqs[..|prereqs|] == prereqs;
    return true;
  }

  /** Targets, then rules, then the fallthrough. */
  method ServeFlag(w: World, ef: EvalFlag, ctx: Context, segs: map<string, Segment>) returns (r: Evaluated)
    requires Seg.WellKeyed(segs)
    ensures r == Serve(w, ef, ctx, segs)
  {
    for i := 0 to |ef.targets|
      invariant FirstTarget(ef.targets, ctx) == FirstTarget(ef.targets[i..], ctx)
    {
      if TargetMatches(ef.targets[i], ctx) {
        return Result(ef, ef.targets[i].variation, TargetMatch);
      }
    }
    ghost var members := Seg.Members(w, ctx, segs, {});
    for i := 0 to |ef.rules|
      invariant FirstRule(w, ef.rules, ctx, members) == FirstRule(w, ef.rules[i..], ctx, members)
    {
      var visited := new Seg.Visited();
      var matched := Seg.MatchClauses(w, ef.rules[i].clauses, ctx, segs, visited);
      if matched {
        var variation := ResolveServed(w, ef, ef.rules[i].serve, ctx);
        return Result(ef, variation, RuleMatch);
      }
    }
    var variation := ResolveServed(w, ef, ef.fallthru, ctx);
    return Result(ef, variation, Fallthrough);
  }

  method ResolveServed(w: World, ef: EvalFlag, vor: VariationOrRollout, ctx: Context) returns (variation: int)
    ensures variation == ResolveVOR(w, ef, vor, ctx)
  {
    if vor.variation.Some? {
      return vor.variation.value;
    }
    if vor.rollout.Some? {
      variation := Bucket(w, ef.key, ef.salt, vor.rollout.value, ctx);
      return;
    }
    return 0;
  }

  // ----- the targeting order -----

  ghost predicate FirstTargetAt(targets: seq<Target>, ctx: Context, i: nat) {
    i < |targets| && TargetMatches(targets[i], ctx) && forall j :: 0 <= j < i ==> !TargetMatches(targets[j], ctx)
  }

  ghost predicate RuleMatches(w: World, rule: Rule, ctx: Context, segs: map<string, Segment>)
    requires Seg.WellKeyed(segs)
  {
    Seg.AllHold(w, rule.clauses, ctx, Seg.Members(w, ctx, segs, {}))
  }

  ghost predicate FirstRuleAt(w: World, rules: seq<Rule>, ctx: Context, segs: map<string, Segment>, i: nat)
    requires Seg.WellKeyed(segs)
  {
    i < |rules| && RuleMatches(w, rules[i], ctx, segs)
        && forall j :: 0 <= j < i ==> !RuleMatches(w, rules[j], ctx, segs)
  }

  lemma {:induction false} FirstTargetMeans(targets: seq<Target>, ctx: Context)
    ensures forall i: nat :: FirstTargetAt(targets, ctx, i) ==> FirstTarget(targets, ctx) == Some(targets[i].variation)
    ensures (forall i :: 0 <= i < |targets| ==> !TargetMatches(targets[i], ctx)) ==> FirstTarget(targets, ctx) == None
  {
    if targets != [] && !TargetMatches(targets[0], ctx) {
      FirstTargetMeans(targets[1..], ctx);
      forall i: nat | FirstTargetAt(targets, ctx, i) ensures FirstTarget(targets, ctx) == Some(targets[i].variation) {
        assert FirstTargetAt(targets[1..], ctx, i - 1);
      }
      assert forall i :: 0 <= i < |targets| - 1 ==> targets[1..][i] == targets[i + 1];
    }
  }

  lemma {:induction false} FirstRuleMeans(w: World, rules: seq<Rule>, ctx: Context, segs: map<string, Segment>)
    requires Seg.WellKeyed(segs)
    ensures var found := FirstRule(w, rules, ctx, Seg.Members(w, ctx, segs, {}));
            && (forall i: nat :: FirstRuleAt(w, rules, ctx, segs, i) ==> found == Some(rules[i].serve))
            && ((forall i :: 0 <= i < |rules| ==> !RuleMatches(w, rules[i], ctx, segs)) ==> found == None)
  {
    if rules != [] && !RuleMatches(w, rules[0], ctx, segs) {
      FirstRuleMeans(w, rules[1..], ctx, segs);
      forall i: nat | FirstRuleAt(w, rules, ctx, segs, i)
        ensures FirstRule(w, rules, ctx, Seg.Members(w, ctx, segs, {})) == Some(rules[i].serve)
      {
        assert FirstRuleAt(w, rules[1..], ctx, segs, i - 1);
      }
      assert forall i :: 0 <= i < |rules| - 1 ==> rules[1..][i] == rules[i + 1];
    }
  }

  /** Individual targets come before rules and rules before the fallthrough, and the first match of each kind wins. */
  lemma TargetingOrder(w: World, ef: EvalFlag, ctx: Context, segs: map<string, Segment>)
    requires Seg.WellKeyed(segs)
    ensures var r := Serve(w, ef, ctx, segs);
            && (forall i: nat :: FirstTargetAt(ef.targets, ctx, i) ==>
                 r == Result(ef, ef.targets[i].variation, TargetMatch))
            && ((forall i :: 0 <= i < |ef.targets| ==> !TargetMatches(ef.targets[i], ctx)) ==>
                  && (forall i: nat :: FirstRuleAt(w, ef.rules, ctx, segs, i) ==>
                        r == Result(ef, ResolveVOR(w, ef, ef.rules[i].serve, ctx), RuleMatch))
                  && ((forall i :: 0 <= i < |ef.rules| ==> !RuleMatches(w, ef.rules[i], ctx, segs)) ==>
                        r == Result(ef, ResolveVOR(w, ef, ef.fallthru, ctx), Fallthrough)))
  {
    FirstTargetMeans(ef.targets, ctx);
    FirstRuleMeans(w, ef.rules, ctx, segs);
  }
}
