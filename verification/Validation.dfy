// What is checked before a configuration is stored, and what evaluation may then rely on.
module Validation {
  import opened Models
  import Text
  import opened Int64
  import opened Bucketing
  import opened Evaluation

  datatype ServeError =
    | BothSet | VariationOutOfRange | NoVariations | RolloutVariationOutOfRange | NegativeWeight | WeightsDoNotSum
    | NothingSet

  datatype ConfigError =
    | OffVariationOutOfRange
    | PrerequisiteKeyMissing(i: nat)
    | InvalidFallthrough(error: ServeError)
    | TargetOutOfRange(i: nat)
    | RuleWithoutClauses(i: nat)
    | InvalidRule(i: nat, error: ServeError)

  predicate InRange(idx: int, n: nat) {
    0 <= idx < n
  }

  ghost predicate ValidRollout(ws: seq<WeightedVariation>, n: nat) {
    AcceptedWeights(ws) && forall i :: 0 <= i < |ws| ==> InRange(ws[i].variation, n)
  }

  /** Exactly one of variation and rollout is set, and it is well formed. */
  ghost predicate ValidServe(vor: VariationOrRollout, n: nat) {
    match (vor.variation, vor.rollout)
    case (Some(v), None) => InRange(v, n)
    case (None, Some(r)) => ValidRollout(r.variations, n)
    case _ => false
  }

  ghost predicate ValidRule(rule: Rule, n: nat) {
    rule.clauses != [] && ValidServe(rule.serve, n)
  }

  /** A configuration fit for a flag with `n` variations. A prerequisite's variation indexes another flag's
      variations, so it is not checked. */
  ghost predicate ValidConfig(cfg: Config, n: nat) {
    && InRange(cfg.offVariation, n)
    && (forall i :: 0 <= i < |cfg.prerequisites| ==> cfg.prerequisites[i].key != "")
    && ValidServe(cfg.fallthru, n)
    && (forall i :: 0 <= i < |cfg.targets| ==> InRange(cfg.targets[i].variation, n))
    && (forall i :: 0 <= i < |cfg.rules| ==> ValidRule(cfg.rules[i], n))
  }

  ghost predicate EntryFits(wv: WeightedVariation, n: nat) {
    InRange(wv.variation, n) && wv.weight >= 0
  }

  /** Entry `i` is the first that does not fit. */
  ghost predicate FirstMisfit(ws: seq<WeightedVariation>, n: nat, i: nat) {
    i < |ws| && !EntryFits(ws[i], n) && forall j :: 0 <= j < i ==> EntryFits(ws[j], n)
  }

  ghost predicate RolloutExplains(error: ServeError, ws: seq<WeightedVariation>, n: nat) {
    if error == NoVariations then ws == []
    else if error == WeightsDoNotSum then
      ws != [] && (forall i :: 0 <= i < |ws| ==> EntryFits(ws[i], n)) && Wrap64(Cumulative(ws, |ws|)) != FULL_WEIGHT
    else
      exists i: nat :: FirstMisfit(ws, n, i) && (error == RolloutVariationOutOfRange <==> !InRange(ws[i].variation, n))
  }

  /** The error named is the first one present, in checking order. */
  ghost predicate Explains(error: ServeError, vor: VariationOrRollout, n: nat) {
    if vor.variation.Some? && vor.rollout.Some? then error == BothSet
    else if vor.variation.Some? then error == VariationOutOfRange && !InRange(vor.variation.value, n)
    else if vor.rollout.Some? then
      && error in {NoVariations, RolloutVariationOutOfRange, NegativeWeight, WeightsDoNotSum}
      && RolloutExplains(error, vor.rollout.value.variations, n)
    else error == NothingSet
  }

  method ValidateVOR(vor: VariationOrRollout, n: nat) returns (error: Option<ServeError>)
    ensures error.None? <==> ValidServe(vor, n)
    ensures error.Some? ==> Explains(error.value, vor, n)
  {
    if vor.variation.Some? && vor.rollout.Some? {
      return Some(BothSet);
    }
    if vor.variation.Some? {
      return if InRange(vor.variation.value, n) then None else Some(VariationOutOfRange);
    }
    if vor.rollout.None? {
      return Some(NothingSet);
    }
    var ws := vor.rollout.value.variations;
    if |ws| == 0 {
      return Some(NoVariations);
    }
    var sum := 0;
    for i := 0 to |ws|
      invariant sum == Wrap64(Cumulative(ws, i))
      invariant forall j :: 0 <= j < i ==> EntryFits(ws[j], n)
    {
      assert !EntryFits(ws[i], n) ==> FirstMisfit(ws, n, i);
      if !InRange(ws[i].variation, n) {
        return Some(RolloutVariationOutOfRange);
      }
      if ws[i].weight < 0 {
        return Some(NegativeWeight);
      }
      WrapsOnce(Cumulative(ws, i), ws[i].weight);
      sum := Wrap64(sum + ws[i].weight);
    }
    return if sum != FULL_WEIGHT then Some(WeightsDoNotSum) else None;
  }

  /** What holds of a configuration once its fallthrough, and once its targets, have been checked. */
  ghost predicate PassesUpToFallthrough(cfg: Config, n: nat) {
    && InRange(cfg.offVariation, n)
    && (forall i :: 0 <= i < |cfg.prerequisites| ==> cfg.prerequisites[i].key != "")
    && ValidServe(cfg.fallthru, n)
  }

  ghost predicate PassesUpToTargets(cfg: Config, n: nat) {
    PassesUpToFallthrough(cfg, n) && forall i :: 0 <= i < |cfg.targets| ==> InRange(cfg.targets[i].variation, n)
  }

  /** The error is present and, in checking order, nothing before it is wrong. */
  ghost predicate FirstConfigError(error: ConfigError, cfg: Config, n: nat) {
    match error
    case OffVariationOutOfRange => !InRange(cfg.offVariation, n)
    case PrerequisiteKeyMissing(i) =>
      && InRange(cfg.offVariation, n)
      && i < |cfg.prerequisites| && cfg.prerequisites[i].key == ""
      && forall j :: 0 <= j < i ==> cfg.prerequisites[j].key != ""
    case InvalidFallthrough(e) =>
      && InRange(cfg.offVariation, n)
      && (forall j :: 0 <= j < |cfg.prerequisites| ==> cfg.prerequisites[j].key != "")
      && !ValidServe(cfg.fallthru, n) && Explains(e, cfg.fallthru, n)
    case TargetOutOfRange(i) =>
      && PassesUpToFallthrough(cfg, n)
      && i < |cfg.targets| && !InRange(cfg.targets[i].variation, n)
      && forall j :: 0 <= j < i ==> InRange(cfg.targets[j].variation, n)
    case RuleWithoutClauses(i) =>
      && PassesUpToTargets(cfg, n)
      && i < |cfg.rules| && cfg.rules[i].clauses == []
      && forall j :: 0 <= j < i ==> ValidRule(cfg.rules[j], n)
    case InvalidRule(i, e) =>
      && PassesUpToTargets(cfg, n)
      && i < |cfg.rules| && cfg.rules[i].clauses != []
      && !ValidServe(cfg.rules[i].serve, n) && Explains(e, cfg.rules[i].serve, n)
      && forall j :: 0 <= j < i ==> ValidRule(cfg.rules[j], n)
  }

  method ValidateConfig(cfg: Config, n: nat) returns (error: Option<ConfigError>)
    ensures error.None? <==> ValidConfig(cfg, n)
    ensures error.Some? ==> FirstConfigError(error.value, cfg, n)
  {
    if !InRange(cfg.offVariation, n) {
      return Some(OffVariationOutOfRange);
    }
    for i := 0 to |cfg.prerequisites|
      invariant forall j :: 0 <= j < i ==> cfg.prerequisites[j].key != ""
    {
      if cfg.prerequisites[i].key == "" {
        return Some(PrerequisiteKeyMissing(i));
      }
    }
    var problem := ValidateVOR(cfg.fallthru, n);
    if problem.Some? {
      return Some(InvalidFallthrough(problem.value));
    }
    for i := 0 to |cfg.targets|
      invariant forall j :: 0 <= j < i ==> InRange(cfg.targets[j].variation, n)
    {
      if !InRange(cfg.targets[i].variation, n) {
        return Some(TargetOutOfRange(i));
      }
    }
    for i := 0 to |cfg.rules|
      invariant forall j :: 0 <= j < i ==> ValidRule(cfg.rules[j], n)
    {
      if cfg.rules[i].clauses == [] {
        return Some(RuleWithoutClauses(i));
      }
      problem := ValidateVOR(cfg.rules[i].serve, n);
      if problem.Some? {
        return Some(InvalidRule(i, problem.value));
      }
    }
    return None;
  }

  // ----- validation makes evaluation total -----

  /** The targeting an evaluated flag carries. */
  function ConfigOf(ef: EvalFlag): Config {
    Config(ef.on, ef.offVariation, ef.prerequisites, ef.targets, ef.rules, ef.fallthru)
  }

  lemma {:induction false} FirstTargetInRange(targets: seq<Target>, ctx: Context, n: nat)
    requires forall i :: 0 <= i < |targets| ==> InRange(targets[i].variation, n)
    ensures FirstTarget(targets, ctx).Some? ==> InRange(FirstTarget(targets, ctx).value, n)
  {
    if targets != [] {
      FirstTargetInRange(targets[1..], ctx, n);
    }
  }

  lemma {:induction false} FirstRuleIsValid(w: World, rules: seq<Rule>, ctx: Context, members: set<string>, n: nat)
    requires forall i :: 0 <= i < |rules| ==> ValidRule(rules[i], n)
    ensures var r := FirstRule(w, rules, ctx, members); r.Some? ==> ValidServe(r.value, n)
  {
    if rules != [] {
      FirstRuleIsValid(w, rules[1..], ctx, members, n);
    }
  }

  /** A flag whose targeting was accepted for its variations always serves one of them, for every context,
      environment and guard. */
  lemma AcceptedConfigServesAVariation(w: World, ef: EvalFlag, ctx: Context, env: EvalEnv, visited: set<string>)
    requires WellKeyed(env) && ef.key !in visited
    requires ValidConfig(ConfigOf(ef), |ef.variations|)
    ensures var r := Evaluate(w, ef, ctx, env, visited);
            InRange(r.variation, |ef.variations|) && r.value == ef.variations[r.variation]
  {
    var n := |ef.variations|;
    FirstTargetInRange(ef.targets, ctx, n);
    FirstRuleIsValid(w, ef.rules, ctx, Seg.Members(w, ctx, env.segments, {}), n);
    var rule := FirstRule(w, ef.rules, ctx, Seg.Members(w, ctx, env.segments, {}));
    if rule.Some? {
    }
  }

  // ----- changing the variations alone -----

  ghost predicate SameTargeting(ef: EvalFlag, ef': EvalFlag) {
    ef' == ef.(variations := ef'.variations)
  }

  ghost predicate SameTargetingEnv(env: EvalEnv, env': EvalEnv) {
    && env'.segments == env.segments
    && env'.flags.Keys == env.flags.Keys
    && forall k :: k in env.flags ==> SameTargeting(env.flags[k], env'.flags[k])
  }

  /** The same index for the same reason. */
  ghost predicate SameIndex(r: Evaluated, r': Evaluated) {
    r'.variation == r.variation && r'.reason == r.reason
  }

  lemma MetAlike(w: World, p: Prerequisite, ctx: Context, env: EvalEnv, env': EvalEnv, visited: set<string>)
    requires WellKeyed(env) && WellKeyed(env') && SameTargetingEnv(env, env')
    requires p.key in env.flags && p.key !in visited ==>
               SameIndex(Evaluate(w, env.flags[p.key], ctx, env, visited),
                   Evaluate(w, env'.flags[p.key], ctx, env', visited))
    ensures Met(w, p, ctx, env, visited) == Met(w, p, ctx, env', visited)
  {
  }

  lemma EvaluatedAlike(
      w: World, ef: EvalFlag, ef': EvalFlag, ctx: Context, env: EvalEnv, env': EvalEnv, visited: set<string>)
    requires WellKeyed(env) && WellKeyed(env') && SameTargetingEnv(env, env') && SameTargeting(ef, ef') &&
               ef.key !in visited
    requires forall p :: p in ef.prerequisites ==>
               Met(w, p, ctx, env, visited + {ef.key}) == Met(w, p, ctx, env', visited + {ef.key})
    ensures var r := Evaluate(w, ef, ctx, env, visited);
            Evaluate(w, ef', ctx, env', visited) == Result(ef', r.variation, r.reason)
  {
  }

  /** Which index is served, and why, does not depend on what the variations are, here or at any prerequisite. */
  lemma {:induction false} ServedIndexIgnoresVariations(
      w: World, ef: EvalFlag, ef': EvalFlag, ctx: Context, env: EvalEnv, env': EvalEnv, visited: set<string>)
    requires WellKeyed(env) && WellKeyed(env') && ef.key !in visited
    requires SameTargeting(ef, ef') && SameTargetingEnv(env, env')
    ensures var r := Evaluate(w, ef, ctx, env, visited);
            Evaluate(w, ef', ctx, env', visited) == Result(ef', r.variation, r.reason)
    decreases |(env.flags.Keys + {ef.key}) - visited|
  {
    var marked := visited + {ef.key};
    forall p | p in ef.prerequisites ensures Met(w, p, ctx, env, marked) == Met(w, p, ctx, env', marked) {
      if p.key in env.flags && p.key !in marked {
        Seg.MarkingShrinks(env.flags.Keys, ef.key, visited);
        assert env.flags.Keys + {p.key} == env.flags.Keys;
        ServedIndexIgnoresVariations(w, env.flags[p.key], env'.flags[p.key], ctx, env, env', marked);
      }
      MetAlike(w, p, ctx, env, env', marked);
    }
    EvaluatedAlike(w, ef, ef', ctx, env, env', visited);
  }

  ghost function Shrunk(ef: EvalFlag, kept: nat): EvalFlag
    requires kept <= |ef.variations|
  {
    ef.(variations := ef.variations[..kept])
  }

  ghost function WithShrunk(env: EvalEnv, ef: EvalFlag, kept: nat): EvalEnv
    requires kept <= |ef.variations|
  {
    env.(flags := env.flags[ef.key := Shrunk(ef, kept)])
  }

  lemma ShrinkingKeepsTargeting(ef: EvalFlag, kept: nat, env: EvalEnv)
    requires WellKeyed(env) && ef.key in env.flags && env.flags[ef.key] == ef && kept <= |ef.variations|
    ensures WellKeyed(WithShrunk(env, ef, kept))
    ensures SameTargeting(ef, Shrunk(ef, kept)) && SameTargetingEnv(env, WithShrunk(env, ef, kept))
  {
  }

  lemma ResultSurvives(ef: EvalFlag, kept: nat, idx: int, reason: Reason)
    requires kept <= |ef.variations| && InRange(idx, |ef.variations|)
    ensures Result(Shrunk(ef, kept), idx, reason) == Result(ef, idx, reason) <==>
              idx < kept || ef.variations[idx] == Null
  {
  }

  /** Dropping variations from a flag's definition leaves its stored targeting as it was. The flag then serves the
      same index for the same reason, so it serves what it served exactly when that index survives the cut. */
  lemma ShrinkingServesAsBeforeExactly(w: World, ef: EvalFlag, kept: nat, ctx: Context, env: EvalEnv)
    requires WellKeyed(env) && ef.key in env.flags && env.flags[ef.key] == ef
    requires ValidConfig(ConfigOf(ef), |ef.variations|) && kept <= |ef.variations|
    ensures WellKeyed(WithShrunk(env, ef, kept))
    ensures var r, r' := Evaluate(w, ef, ctx, env, {}),
              Evaluate(w, Shrunk(ef, kept), ctx, WithShrunk(env, ef, kept), {});
            SameIndex(r, r') && (r' == r <==> r.variation < kept || r.value == Null)
  {
    var r, cut := Evaluate(w, ef, ctx, env, {}), Shrunk(ef, kept);
    ShrinkingKeepsTargeting(ef, kept, env);
    AcceptedConfigServesAVariation(w, ef, ctx, env, {});
    ServedIndexIgnoresVariations(w, ef, cut, ctx, env, WithShrunk(env, ef, kept), {});
    assert r == Result(ef, r.variation, r.reason);
    ResultSurvives(ef, kept, r.variation, r.reason);
  }

  /** ... and no other flag changes. */
  lemma ShrinkingLeavesOtherFlags(
      w: World, ef: EvalFlag, kept: nat, ctx: Context, env: EvalEnv, visited: set<string>, k: string)
    requires WellKeyed(env) && ef.key in env.flags && env.flags[ef.key] == ef && kept <= |ef.variations|
    requires k in env.flags && k != ef.key && k !in visited
    ensures WellKeyed(WithShrunk(env, ef, kept))
    ensures Evaluate(w, env.flags[k], ctx, WithShrunk(env, ef, kept), visited)
              == Evaluate(w, env.flags[k], ctx, env, visited)
  {
    ShrinkingKeepsTargeting(ef, kept, env);
    ServedIndexIgnoresVariations(w, env.flags[k], env.flags[k], ctx, env, WithShrunk(env, ef, kept), visited);
  }

  // ----- what saving a definition would have to check -----

  /** An index that is served alike before and after the cut. */
  ghost predicate Survives(ef: EvalFlag, idx: int, kept: nat) {
    idx < kept || RawValue(ef.variations, idx) == Null
  }

  /** If the stored targeting is still accepted for the variations kept, no evaluation changes: of any flag, in any
      world, for any context and under any guard. */
  lemma AcceptedShrinkingChangesNothing(
      w: World, ef: EvalFlag, kept: nat, ctx: Context, env: EvalEnv, visited: set<string>, k: string)
    requires WellKeyed(env) && ef.key in env.flags && env.flags[ef.key] == ef
    requires kept <= |ef.variations| && ValidConfig(ConfigOf(ef), kept)
    requires k in env.flags && k !in visited
    ensures var after := WithShrunk(env, ef, kept);
            WellKeyed(after) &&
                Evaluate(w, after.flags[k], ctx, after, visited) == Evaluate(w, env.flags[k], ctx, env, visited)
  {
    var after := WithShrunk(env, ef, kept);
    ShrinkingKeepsTargeting(ef, kept, env);
    ServedIndexIgnoresVariations(w, env.flags[k], after.flags[k], ctx, env, after, visited);
    if k == ef.key {
      AcceptedConfigServesAVariation(w, ef, ctx, env, visited);
      AcceptedConfigServesAVariation(w, Shrunk(ef, kept), ctx, after, visited);
    }
  }

  /** For an off-flag the converse holds as well: every evaluation is as before exactly when its off variation
      survives. */
  lemma ShrinkingOffFlagExactly(w: World, ef: EvalFlag, kept: nat, ctx: Context, env: EvalEnv)
    requires WellKeyed(env) && ef.key in env.flags && env.flags[ef.key] == ef && !ef.on
    requires ValidConfig(ConfigOf(ef), |ef.variations|) && kept <= |ef.variations|
    ensures Evaluate(w, Shrunk(ef, kept), ctx, WithShrunk(env, ef, kept), {}) == Evaluate(w, ef, ctx, env, {}) <==>
            Survives(ef, ef.offVariation, kept)
  {
    ShrinkingServesAsBeforeExactly(w, ef, kept, ctx, env);
  }

  /** Some key of target `i` is in no earlier target for its context kind. */
  ghost predicate Reachable(targets: seq<Target>, i: nat) {
    && i < |targets|
    && exists v :: v in targets[i].values && Unlisted(targets, i, v)
  }

  ghost predicate Unlisted(targets: seq<Target>, i: nat, v: string)
    requires i < |targets|
  {
    forall j :: 0 <= j < i && DefaultKind(targets[j].contextKind) == DefaultKind(targets[i].contextKind) ==>
        v !in targets[j].values
  }

  /** Targets only: no prerequisites, no rules, and a fixed variation for everyone else. */
  ghost predicate TargetsOnly(ef: EvalFlag) {
    ef.on && ef.prerequisites == [] && ef.rules == [] && ef.fallthru.variation.Some?
  }

  ghost predicate ServedAlike(w: World, ef: EvalFlag, kept: nat, ctx: Context, env: EvalEnv)
    requires WellKeyed(env) && kept <= |ef.variations|
  {
    Evaluate(w, Shrunk(ef, kept), ctx, WithShrunk(env, ef, kept), {}) == Evaluate(w, ef, ctx, env, {})
  }

  lemma ReachableTargetIsServed(targets: seq<Target>, i: nat) returns (ctx: Context)
    requires Reachable(targets, i)
    ensures FirstTarget(targets, ctx) == Some(targets[i].variation)
  {
    var v :| v in targets[i].values && Unlisted(targets, i, v);
    ctx := Context(map[DefaultKind(targets[i].contextKind) := SingleContext(v, map[])]);
    assert TargetMatches(targets[i], ctx);
    assert FirstTargetAt(targets, ctx, i);
    FirstTargetMeans(targets, ctx);
  }

  lemma {:induction false} ServedTargetIsReachable(targets: seq<Target>, ctx: Context, from: nat) returns (i: nat)
    requires from <= |targets| && forall j :: 0 <= j < from ==> !TargetMatches(targets[j], ctx)
    requires FirstTarget(targets[from..], ctx).Some?
    ensures Reachable(targets, i) && FirstTarget(targets[from..], ctx) == Some(targets[i].variation)
    decreases |targets| - from
  {
    if TargetMatches(targets[from], ctx) {
      i := from;
      assert Unlisted(targets, i, KeyForKind(ctx, targets[i].contextKind).value);
    } else {
      i := ServedTargetIsReachable(targets, ctx, from + 1);
    }
  }

  /** For a flag with targets only, every context is served as before exactly when the fallthrough variation and
      those of all reachable targets survive. */
  lemma ShrinkingTargetsExactly(w: World, ef: EvalFlag, kept: nat, env: EvalEnv)
    requires WellKeyed(env) && ef.key in env.flags && env.flags[ef.key] == ef && TargetsOnly(ef)
    requires ValidConfig(ConfigOf(ef), |ef.variations|) && kept <= |ef.variations|
    ensures (forall ctx :: ServedAlike(w, ef, kept, ctx, env)) <==>
            && Survives(ef, ef.fallthru.variation.value, kept)
            && forall i: nat :: Reachable(ef.targets, i) ==> Survives(ef, ef.targets[i].variation, kept)
  {
    if forall ctx :: ServedAlike(w, ef, kept, ctx, env) {
      NobodyIsTargeted(ef.targets);
      assert ServedAlike(w, ef, kept, Context(map[]), env);
      forall i: nat | Reachable(ef.targets, i) ensures Survives(ef, ef.targets[i].variation, kept) {
        var ctx := ReachableTargetIsServed(ef.targets, i);
        assert ServedAlike(w, ef, kept, ctx, env);
      }
    } else {
      var ctx :| !ServedAlike(w, ef, kept, ctx, env);
      if FirstTarget(ef.targets, ctx).Some? {
        assert ef.targets[0..] == ef.targets;
        var i := ServedTargetIsReachable(ef.targets, ctx, 0);
      }
    }
  }

  lemma NobodyIsTargeted(targets: seq<Target>)
    ensures FirstTarget(targets, Context(map[])) == None
  {
    FirstTargetMeans(targets, Context(map[]));
  }

  // ----- and with a rollout for everyone else -----

  lemma {:induction false} LongerThanAll(values: seq<string>, n: nat) returns (m: nat)
    ensures n <= m && forall v :: v in values ==> |v| < m
  {
    m := n;
    if values != [] {
      m := LongerThanAll(values[1..], if n <= |values[0]| then |values[0]| + 1 else n);
      forall v | v in values ensures |v| < m {
        assert v == values[0] || v in values[1..];
      }
    }
  }

  lemma {:induction false} LongerThanTargeted(targets: seq<Target>, n: nat) returns (m: nat)
    ensures n <= m && forall t, v :: t in targets && v in t.values ==> |v| < m
  {
    m := n;
    if targets != [] {
      m := LongerThanAll(targets[0].values, n);
      m := LongerThanTargeted(targets[1..], m);
      forall t, v | t in targets && v in t.values ensures |v| < m {
        assert t == targets[0] || t in targets[1..];
      }
    }
  }

  /** A value with `v` at the end of the path. */
  function Nested(path: seq<string>, v: Value): Value {
    if path == [] then v else Obj(map[path[0] := Nested(path[1..], v)])
  }

  lemma {:induction false} NestedIsFound(path: seq<string>, v: Value)
    ensures Descend(Nested(path, v), path) == Some(v)
  {
    if path != [] {
      NestedIsFound(path[1..], v);
    }
  }

  /** Every attribute reference has a value in some context, whatever its key. */
  lemma SomeoneIsHashed(rollout: Rollout, key: string) returns (ctx: Context)
    ensures BucketedText(rollout, ctx).Some? && forall kind :: kind in ctx.single ==> ctx.single[kind].key == key
  {
    var ref, attributes := rollout.bucketBy, map[rollout.bucketBy := Str("")];
    if Text.HasPrefix(ref, "/") {
      var path := PathOf(ref);
      attributes := map[path[0] := Nested(path[1..], Str(""))];
      assert Nested(path, Str("")) == Obj(attributes);
      NestedIsFound(path, Str(""));
    }
    ctx := Context(map[DefaultKind(rollout.contextKind) := SingleContext(key, attributes)]);
  }

  /** So every hash is some context's that no target names. */
  lemma HashIsReached(ef: EvalFlag, n: Hash60) returns (w: World, ctx: Context)
    requires ef.fallthru.rollout.Some?
    ensures FirstTarget(ef.targets, ctx) == None
    ensures RolloutPoint(w, ef.key, ef.salt, ef.fallthru.rollout.value, ctx) == Point(n)
  {
    var m := LongerThanTargeted(ef.targets, 0);
    ctx := SomeoneIsHashed(ef.fallthru.rollout.value, seq(m, _ => 'x'));
    w := World(_ => n, (_, _, _) => false);
    FirstTargetMeans(ef.targets, ctx);
    forall i | 0 <= i < |ef.targets| ensures !TargetMatches(ef.targets[i], ctx) {
      assert ef.targets[i] in ef.targets;
    }
  }

  /** On, with targets and a rollout for everyone else: no prerequisites and no rules. */
  ghost predicate TargetsAndRollout(ef: EvalFlag) {
    ef.on && ef.prerequisites == [] && ef.rules == [] && ef.fallthru.variation.None? && ef.fallthru.rollout.Some?
  }

  /** The entry begins on the line, and has weight or is the last. */
  ghost predicate CanBeServed(ws: seq<WeightedVariation>, i: nat) {
    i < |ws| && Edge(ws, i) <= 1.0 && (ws[i].weight > 0 || i == |ws| - 1)
  }

  lemma RolloutSurvives(w: World, ef: EvalFlag, kept: nat, ctx: Context, env: EvalEnv)
    requires WellKeyed(env) && ef.key in env.flags && env.flags[ef.key] == ef && TargetsAndRollout(ef)
    requires ValidConfig(ConfigOf(ef), |ef.variations|) && kept <= |ef.variations| && FirstTarget(ef.targets, ctx).None?
    ensures var ws := ef.fallthru.rollout.value.variations;
            var i := Pick(ws, RolloutPoint(w, ef.key, ef.salt, ef.fallthru.rollout.value, ctx));
            CanBeServed(ws, i) && (ServedAlike(w, ef, kept, ctx, env) <==> Survives(ef, ws[i].variation, kept))
  {
    ShrinkingServesAsBeforeExactly(w, ef, kept, ctx, env);
    var rollout := ef.fallthru.rollout.value;
    var n := SomeHash(w, ef.key, ef.salt, rollout, ctx);
    var i := Pick(rollout.variations, Point(n));
    ServedExactly(rollout.variations, i);
    assert n in HashesOf(rollout.variations, i);
  }

  /** A context without a hashable value is placed where the smallest hash is. */
  lemma SomeHash(w: World, key: string, salt: string, rollout: Rollout, ctx: Context) returns (n: Hash60)
    ensures RolloutPoint(w, key, salt, rollout, ctx) == Point(n)
  {
    n := match BucketedText(rollout, ctx)
      case None => 0
      case Some(text) => w.hash(RolloutPrefix(key, salt, rollout) + "." + text);
    PointIsScaled(0);
  }

  lemma ServedEntrySurvives(ef: EvalFlag, kept: nat, env: EvalEnv, i: nat)
    requires WellKeyed(env) && ef.key in env.flags && env.flags[ef.key] == ef && TargetsAndRollout(ef)
    requires ValidConfig(ConfigOf(ef), |ef.variations|) && kept <= |ef.variations|
    requires CanBeServed(ef.fallthru.rollout.value.variations, i) && forall w, ctx :: ServedAlike(w, ef, kept, ctx, env)
    ensures Survives(ef, ef.fallthru.rollout.value.variations[i].variation, kept)
  {
    var ws := ef.fallthru.rollout.value.variations;
    ServedExactly(ws, i);
    var n: Hash60 :| n in HashesOf(ws, i);
    var w, ctx := HashIsReached(ef, n);
    RolloutSurvives(w, ef, kept, ctx, env);
    assert ServedAlike(w, ef, kept, ctx, env);
  }

  lemma ServedTargetSurvives(w: World, ef: EvalFlag, kept: nat, env: EvalEnv, i: nat)
    requires WellKeyed(env) && ef.key in env.flags && env.flags[ef.key] == ef && TargetsAndRollout(ef)
    requires ValidConfig(ConfigOf(ef), |ef.variations|) && kept <= |ef.variations|
    requires Reachable(ef.targets, i) && forall ctx :: ServedAlike(w, ef, kept, ctx, env)
    ensures Survives(ef, ef.targets[i].variation, kept)
  {
    var ctx := ReachableTargetIsServed(ef.targets, i);
    assert ServedAlike(w, ef, kept, ctx, env);
  }

  lemma SurvivorsAreServedAlike(w: World, ef: EvalFlag, kept: nat, ctx: Context, env: EvalEnv)
    requires WellKeyed(env) && ef.key in env.flags && env.flags[ef.key] == ef && TargetsAndRollout(ef)
    requires ValidConfig(ConfigOf(ef), |ef.variations|) && kept <= |ef.variations|
    requires forall i: nat :: CanBeServed(ef.fallthru.rollout.value.variations, i) ==>
               Survives(ef, ef.fallthru.rollout.value.variations[i].variation, kept)
    requires forall i: nat :: Reachable(ef.targets, i) ==> Survives(ef, ef.targets[i].variation, kept)
    ensures ServedAlike(w, ef, kept, ctx, env)
  {
    if FirstTarget(ef.targets, ctx).Some? {
      assert ef.targets[0..] == ef.targets;
      var i := ServedTargetIsReachable(ef.targets, ctx, 0);
      ShrinkingServesAsBeforeExactly(w, ef, kept, ctx, env);
    } else {
      RolloutSurvives(w, ef, kept, ctx, env);
    }
  }

  /** For a flag with targets and a rollout for everyone else: every context is served as before, whatever the hashes
      are, exactly when the variations of all entries that can be served and of all reachable targets survive. */
  lemma ShrinkingRolloutExactly(ef: EvalFlag, kept: nat, env: EvalEnv)
    requires WellKeyed(env) && ef.key in env.flags && env.flags[ef.key] == ef && TargetsAndRollout(ef)
    requires ValidConfig(ConfigOf(ef), |ef.variations|) && kept <= |ef.variations|
    ensures (forall w, ctx :: ServedAlike(w, ef, kept, ctx, env)) <==>
            && (forall i: nat :: CanBeServed(ef.fallthru.rollout.value.variations, i) ==>
                  Survives(ef, ef.fallthru.rollout.value.variations[i].variation, kept))
            && forall i: nat :: Reachable(ef.targets, i) ==> Survives(ef, ef.targets[i].variation, kept)
  {
    if forall w, ctx :: ServedAlike(w, ef, kept, ctx, env) {
      forall i: nat | CanBeServed(ef.fallthru.rollout.value.variations, i)
        ensures Survives(ef, ef.fallthru.rollout.value.variations[i].variation, kept)
      {
        ServedEntrySurvives(ef, kept, env, i);
      }
      forall i: nat | Reachable(ef.targets, i) ensures Survives(ef, ef.targets[i].variation, kept) {
        ServedTargetSurvives(World(_ => 0, (_, _, _) => false), ef, kept, env, i);
      }
    } else {
      var w, ctx :| !ServedAlike(w, ef, kept, ctx, env);
      if (forall i: nat :: CanBeServed(ef.fallthru.rollout.value.variations, i) ==>
            Survives(ef, ef.fallthru.rollout.value.variations[i].variation, kept))
         && forall i: nat :: Reachable(ef.targets, i) ==> Survives(ef, ef.targets[i].variation, kept)
      {
        SurvivorsAreServedAlike(w, ef, kept, ctx, env);
      }
    }
  }

  /** An accepted flag that serves null after its last variation is dropped. */
  lemma ShrinkingServesNull(w: World, ctx: Context)
    ensures var ef := EvalFlag("f", "", true, [Bool(true), Bool(false)], false, 1, [], [], [],
              VariationOrRollout(Some(0), None));
            var env := EvalEnv(map["f" := ef], map[]);
            && WellKeyed(env) && ValidConfig(ConfigOf(ef), 2)
            && Evaluate(w, ef, ctx, env, {}).value == Bool(false)
            && Evaluate(w, Shrunk(ef, 1), ctx, WithShrunk(env, ef, 1), {}).value == Null
  {
  }
}
