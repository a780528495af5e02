// What saved instructions mean for the contexts that are then evaluated, and what each kind leaves alone.
module EditMeaning {
  import opened Models
  import opened Edits
  import opened FlagStore
  import opened Evaluation
  import opened TargetingMeaning
  import Seg = Segments
  import opened Lists

  /** A flag with the targeting of a configuration. */
  function With(flag: EvalFlag, cfg: Config): EvalFlag {
    Joined(flag.key, flag.salt, flag.clientSideAvailable, flag.variations, cfg)
  }

  /** A patch that ends in instruction `last`: `before` is what the others make of the stored configuration, and `after`
      the configuration then stored. `id` is the rule id drawn at the last. */
  datatype Patched = Patched(
    db: Tables, at: RowKey, list: seq<Instruction>, ids: seq<string>, last: Instruction, id: string,
    before: Config, after: Config)

  ghost predicate IsSaved(s: Patched) {
    && |s.ids| == |s.list|
    && var (tables, outcome) := Patch(s.db, s.at, s.list + [s.last], s.ids + [s.id]);
       && outcome.Saved? && s.at in tables.rows && tables.rows[s.at].config == s.after
       && s.at in s.db.rows && Fold(s.db.rows[s.at].config, s.list, s.ids) == Ok(s.before)
  }

  /** Every saved patch is one. */
  lemma SavedPatchIsOne(db: Tables, at: RowKey, list: seq<Instruction>, ids: seq<string>)
    requires |ids| == |list| && Patch(db, at, list, ids).1.Saved?
    ensures exists s :: IsSaved(s) && s.db == db && s.at == at && s.list + [s.last] == list && s.ids + [s.id] == ids
  {
    PatchIsAllOrNothing(db, at, list, ids);
    var n := |list| - 1;
    assert list == list[..n] + [list[n]] && ids == ids[..n] + [ids[n]];
    FoldOneMore(db.rows[at].config, list[..n], ids[..n], list[n], ids[n]);
    var before := Fold(db.rows[at].config, list[..n], ids[..n]).value;
    var s := Patched(db, at, list[..n], ids[..n], list[n], ids[n], before, Patch(db, at, list, ids).0.rows[at].config);
    assert IsSaved(s);
  }

  lemma FoldOneMore(cfg: Config, list: seq<Instruction>, ids: seq<string>, ins: Instruction, id: string)
    requires |ids| == |list| && Fold(cfg, list + [ins], ids + [id]).Ok?
    ensures Fold(cfg, list, ids).Ok?
    ensures Step(Fold(cfg, list, ids).value, ins, id) == Fold(cfg, list + [ins], ids + [id])
  {
    assert (list + [ins])[..|list|] == list && (ids + [id])[..|list|] == ids;
  }

  lemma LastStep(s: Patched)
    requires IsSaved(s)
    ensures Step(s.before, s.last, s.id) == Ok(s.after)
  {
    PatchIsAllOrNothing(s.db, s.at, s.list + [s.last], s.ids + [s.id]);
    FoldOneMore(s.db.rows[s.at].config, s.list, s.ids, s.last, s.id);
  }

  /** What the flag answers with the configuration stored, and with the one before the last instruction. */
  ghost function Now(s: Patched, w: World, flag: EvalFlag, ctx: Context, env: EvalEnv): Evaluated
    requires Evaluation.WellKeyed(env)
  {
    Evaluate(w, With(flag, s.after), ctx, env, {})
  }

  ghost function Was(s: Patched, w: World, flag: EvalFlag, ctx: Context, env: EvalEnv): Evaluated
    requires Evaluation.WellKeyed(env)
  {
    Evaluate(w, With(flag, s.before), ctx, env, {})
  }

  // ----- fields -----

  /** After turnFlagOff everyone gets the off variation as the flag is off, and after turnFlagOn nobody does. */
  lemma SwitchMeans(s: Patched, w: World, flag: EvalFlag, ctx: Context, env: EvalEnv)
    requires IsSaved(s) && Evaluation.WellKeyed(env)
    ensures var r := Now(s, w, flag, ctx, env);
            && (s.last.kind == TurnFlagOff ==> r.reason == Off && r.variation == s.before.offVariation)
            && (s.last.kind == TurnFlagOn ==> r.reason != Off)
  {
    LastStep(s);
    EvaluationMeans(w, With(flag, s.after), ctx, env, {});
  }

  /** After updateOffVariation an off-flag serves that variation, and so does one with a prerequisite not met. */
  lemma OffVariationMeans(s: Patched, w: World, flag: EvalFlag, ctx: Context, env: EvalEnv)
    requires IsSaved(s) && Evaluation.WellKeyed(env)
    requires s.last.kind == UpdateOffVariation
    ensures var r := Now(s, w, flag, ctx, env);
            r.reason in {Off, PrerequisiteFailed} ==> Some(r.variation) == s.last.variation
    ensures (!s.before.on ==> Now(s, w, flag, ctx, env).reason == Off)
  {
    LastStep(s);
    EvaluationMeans(w, With(flag, s.after), ctx, env, {});
  }

  /** After updateFallthroughVariation and updateFallthroughRollout, whoever no target names and no rule matches gets
      that variation, or the one that rollout places them at. */
  lemma FallthroughMeans(s: Patched, w: World, flag: EvalFlag, ctx: Context, env: EvalEnv)
    requires IsSaved(s) && Evaluation.WellKeyed(env)
    requires NobodyNamed(s.before.targets, ctx)
    requires NothingPasses(w, s.before.rules, ctx, Seg.Members(w, ctx, env.segments, {}))
    ensures var r := Now(s, w, flag, ctx, env);
            r.reason !in {Off, PrerequisiteFailed} ==>
              && (s.last.kind == UpdateFallthroughVariation ==>
                   r.reason == Fallthrough && Some(r.variation) == s.last.variation)
              && (s.last.kind == UpdateFallthroughRollout ==>
                    && r.reason == Fallthrough && s.last.rollout.Some?
                    && Places(w, flag.key, flag.salt, s.last.rollout.value, ctx, r.variation))
  {
    LastStep(s);
    EvaluationMeans(w, With(flag, s.after), ctx, env, {});
  }

  // ----- prerequisites -----

  /** A flag with one more prerequisite fails where that one is not met, and is otherwise as before. */
  lemma OneMorePrerequisite(w: World, flag: EvalFlag, cfg: Config, p: Prerequisite, ctx: Context, env: EvalEnv)
    requires Evaluation.WellKeyed(env)
    ensures Evaluate(w, With(flag, cfg.(prerequisites := cfg.prerequisites + [p])), ctx, env, {}) ==
            if cfg.on && !IsMet(w, p, ctx, env, {flag.key}) then Result(flag, cfg.offVariation, PrerequisiteFailed)
            else Evaluate(w, With(flag, cfg), ctx, env, {})
  {
    var more := cfg.(prerequisites := cfg.prerequisites + [p]);
    assert {} + {flag.key} == {flag.key};
    assert forall q :: q in more.prerequisites <==> q in cfg.prerequisites || q == p;
    assert Met(w, p, ctx, env, {flag.key}) <==> IsMet(w, p, ctx, env, {flag.key});
    assert (forall q :: q in more.prerequisites ==> Met(w, q, ctx, env, {flag.key})) <==>
           (forall q :: q in cfg.prerequisites ==> Met(w, q, ctx, env, {flag.key})) && Met(w, p, ctx, env, {flag.key});
    ServeIgnoresPrerequisites(w, flag, cfg, more, ctx, env.segments);
  }

  lemma ServeIgnoresPrerequisites(
      w: World, flag: EvalFlag, a: Config, b: Config, ctx: Context, segs: map<string, Segment>)
    requires Seg.WellKeyed(segs) && b == a.(prerequisites := b.prerequisites)
    ensures Serve(w, With(flag, a), ctx, segs) == Serve(w, With(flag, b), ctx, segs)
  {
    forall vor: VariationOrRollout
      ensures ResolveVOR(w, With(flag, a), vor, ctx) == ResolveVOR(w, With(flag, b), vor, ctx)
    {
    }
  }

  /** After addPrerequisite a flag that is on fails wherever that one is not met, and is as before where it is. */
  lemma AddedPrerequisiteMeans(s: Patched, w: World, flag: EvalFlag, ctx: Context, env: EvalEnv)
    requires IsSaved(s) && Evaluation.WellKeyed(env)
    requires s.last.kind == AddPrerequisite
    ensures s.last.variation.Some?
    ensures var r, was := Now(s, w, flag, ctx, env), Was(s, w, flag, ctx, env);
            r == if s.before.on && !IsMet(w, Prerequisite(s.last.key, s.last.variation.value), ctx, env, {flag.key})
                 then Result(flag, s.before.offVariation, PrerequisiteFailed)
                 else was
  {
    LastStep(s);
    OneMorePrerequisite(w, flag, s.before, Prerequisite(s.last.key, s.last.variation.value), ctx, env);
  }

  /** After removePrerequisite the flag depends on exactly the other prerequisites. */
  lemma RemovedPrerequisiteMeans(s: Patched, w: World, flag: EvalFlag, ctx: Context, env: EvalEnv)
    requires IsSaved(s) && Evaluation.WellKeyed(env)
    requires s.last.kind == RemovePrerequisite
    ensures Now(s, w, flag, ctx, env).reason == PrerequisiteFailed <==>
            s.before.on && exists p ::
                p in s.before.prerequisites && p.key != s.last.key && !IsMet(w, p, ctx, env, {flag.key})
  {
    LastStep(s);
    EvaluationMeans(w, With(flag, s.after), ctx, env, {});
    KeepMeans(s.before.prerequisites, HasOtherKey(s.last.key));
    assert {} + {flag.key} == {flag.key};
  }

  // ----- rules -----

  /** After addRule, contexts that used to fall through and that the new rule matches get its serve; everyone else is
      served as before. */
  lemma AddedRuleMeans(s: Patched, w: World, flag: EvalFlag, ctx: Context, env: EvalEnv)
    requires IsSaved(s) && Evaluation.WellKeyed(env)
    requires s.last.kind == AddRule
    ensures s.after.rules == s.before.rules
              + [Rule(s.id, s.last.clauses, VariationOrRollout(s.last.variation, s.last.rollout))]
    ensures var r, was := Now(s, w, flag, ctx, env), Was(s, w, flag, ctx, env);
            if was.reason == Fallthrough && AllPass(w, s.last.clauses, ctx, Seg.Members(w, ctx, env.segments, {})) then
              && r.reason == RuleMatch
              && IsServed(w, flag, VariationOrRollout(s.last.variation, s.last.rollout), ctx, r.variation)
            else r == was
  {
    LastStep(s);
    var members, rule := Seg.Members(w, ctx, env.segments, {}), s.after.rules[|s.before.rules|];
    FirstRuleOfAppended(w, s.before.rules, rule, ctx, members);
    AllPassExactly(w, s.last.clauses, ctx, members);
    SameButRules(w, flag, s.before, s.after, ctx, env);
    ResolvedIsServed(w, With(flag, s.after), rule.serve, ctx);
  }

  lemma {:induction false} FirstRuleOfAppended(
      w: World, rules: seq<Rule>, rule: Rule, ctx: Context, members: set<string>)
    ensures FirstRule(w, rules + [rule], ctx, members) ==
            if FirstRule(w, rules, ctx, members).Some? then FirstRule(w, rules, ctx, members)
            else if Seg.AllHold(w, rule.clauses, ctx, members) then Some(rule.serve) else None
  {
    if rules == [] {
      assert [] + [rule] == [rule];
    } else {
      assert (rules + [rule])[1..] == rules[1..] + [rule];
      FirstRuleOfAppended(w, rules[1..], rule, ctx, members);
    }
  }

  /** Two configurations that differ in their rules alone: the first rule that matches makes all the difference. */
  lemma SameButRules(w: World, flag: EvalFlag, a: Config, b: Config, ctx: Context, env: EvalEnv)
    requires Evaluation.WellKeyed(env) && b == a.(rules := b.rules)
    ensures var r, was := Evaluate(w, With(flag, b), ctx, env, {}), Evaluate(w, With(flag, a), ctx, env, {});
            var members := Seg.Members(w, ctx, env.segments, {});
            var rule, rule' := FirstRule(w, a.rules, ctx, members), FirstRule(w, b.rules, ctx, members);
            && (rule == rule' ==> r == was)
            && (was.reason == Fallthrough ==> rule.None?)
            && (was.reason in {RuleMatch, Fallthrough} ==>
                  r == match rule'
                       case Some(vor) => Result(flag, ResolveVOR(w, With(flag, b), vor, ctx), RuleMatch)
                       case None => Result(flag, ResolveVOR(w, With(flag, b), b.fallthru, ctx), Fallthrough))
            && (was.reason !in {RuleMatch, Fallthrough} ==> r == was)
  {
    var fa, fb := With(flag, a), With(flag, b);
    forall vor: VariationOrRollout ensures ResolveVOR(w, fa, vor, ctx) == ResolveVOR(w, fb, vor, ctx) {
    }
  }

  /** After updateRule the first rule with the id has the clauses and the serve given, and whoever no target names and
      whose first matching rule it is now gets that. */
  lemma UpdatedRuleMeans(s: Patched, w: World, flag: EvalFlag, ctx: Context, env: EvalEnv) returns (i: nat)
    requires IsSaved(s) && Evaluation.WellKeyed(env)
    requires s.last.kind == UpdateRule
    ensures FirstWithId(s.before.rules, s.last.ruleId, i)
    ensures var serve := VariationOrRollout(s.last.variation, s.last.rollout);
            && s.after.rules == s.before.rules[i := Rule(s.last.ruleId, s.last.clauses, serve)]
            && (Now(s, w, flag, ctx, env).reason == RuleMatch
                && FirstPassing(w, s.after.rules, ctx, Seg.Members(w, ctx, env.segments, {}), i) ==>
                  IsServed(w, flag, serve, ctx, Now(s, w, flag, ctx, env).variation))
  {
    LastStep(s);
    EvaluationMeans(w, With(flag, s.after), ctx, env, {});
    i := FirstIndex(s.before.rules, (r: Rule) => r.id == s.last.ruleId);
    ReplacesFirstWithId(
      s.before.rules, s.last.ruleId, s.last.clauses, VariationOrRollout(s.last.variation, s.last.rollout));
    assert i < |s.before.rules| ==> FirstWithId(s.before.rules, s.last.ruleId, i);
  }

  /** After removeRule no rule has the id, all others are there, and whoever no such rule had matched first is served as
      before. */
  lemma RemovedRuleMeans(s: Patched, w: World, flag: EvalFlag, ctx: Context, env: EvalEnv)
    requires IsSaved(s) && Evaluation.WellKeyed(env)
    requires s.last.kind == RemoveRule
    ensures forall r :: r in s.after.rules <==> r in s.before.rules && r.id != s.last.ruleId
    ensures (forall i: nat :: FirstPassing(w, s.before.rules, ctx, Seg.Members(w, ctx, env.segments, {}), i) ==>
               s.before.rules[i].id != s.last.ruleId) ==>
            Now(s, w, flag, ctx, env) == Was(s, w, flag, ctx, env)
  {
    LastStep(s);
    KeepMeans(s.before.rules, HasOtherId(s.last.ruleId));
    var members := Seg.Members(w, ctx, env.segments, {});
    if forall i: nat :: FirstPassing(w, s.before.rules, ctx, members, i) ==> s.before.rules[i].id != s.last.ruleId {
      FirstRuleKept(w, s.before.rules, s.last.ruleId, ctx, members);
      SameButRules(w, flag, s.before, s.after, ctx, env);
    }
  }

  lemma {:induction false} FirstRuleKept(w: World, rules: seq<Rule>, id: string, ctx: Context, members: set<string>)
    requires forall i: nat :: FirstPassing(w, rules, ctx, members, i) ==> rules[i].id != id
    ensures FirstRule(w, Keep(rules, HasOtherId(id)), ctx, members) == FirstRule(w, rules, ctx, members)
    decreases |rules|
  {
    if rules != [] {
      var n := |rules| - 1;
      var init, last := rules[..n], rules[n];
      assert rules == init + [last];
      forall i: nat | FirstPassing(w, init, ctx, members, i) ensures init[i].id != id {
        assert FirstPassing(w, rules, ctx, members, i);
      }
      FirstRuleKept(w, init, id, ctx, members);
      FirstRuleOfAppended(w, init, last, ctx, members);
      FirstRuleOfAppended(w, Keep(init, HasOtherId(id)), last, ctx, members);
      AllPassExactly(w, last.clauses, ctx, members);
      if FirstRule(w, init, ctx, members).None? {
        NoRuleMatches(w, init, ctx, members);
        assert AllPass(w, last.clauses, ctx, members) ==> FirstPassing(w, rules, ctx, members, n);
      }
    }
  }

  lemma {:induction false} NoRuleMatches(w: World, rules: seq<Rule>, ctx: Context, members: set<string>)
    requires FirstRule(w, rules, ctx, members).None?
    ensures NothingPasses(w, rules, ctx, members)
  {
    if rules != [] {
      AllPassExactly(w, rules[0].clauses, ctx, members);
      NoRuleMatches(w, rules[1..], ctx, members);
      forall i | 0 <= i < |rules| ensures !AllPass(w, rules[i].clauses, ctx, members) {
        if i > 0 {
          assert rules[i] == rules[1..][i - 1];
        }
      }
    }
  }

  /** After reorderRules the same rules stand in the order asked for. */
  lemma ReorderedRulesMean(s: Patched)
    requires IsSaved(s) && s.last.kind == ReorderRules
    ensures multiset(s.after.rules) == multiset(s.before.rules) && |s.after.rules| == |s.last.ruleIds|
    ensures forall i :: 0 <= i < |s.last.ruleIds| ==> s.after.rules[i].id == s.last.ruleIds[i]
  {
    LastStep(s);
    ReorderingKeepsRules(s.before.rules, s.last.ruleIds);
    assert forall i :: 0 <= i < |s.after.rules| ==> Ids(s.after.rules)[i] == s.after.rules[i].id;
  }

  // ----- individual targets -----

  /** The context has one of the keys given, in the kind given. */
  ghost predicate IsAddressed(ctx: Context, ins: Instruction) {
    Named(ctx, ins.contextKind, ins.values)
  }

  /** Every target that names the context is for this very pair of kind and variation. */
  ghost predicate NamedForPairOnly(targets: seq<Target>, ctx: Context, kind: string, variation: int) {
    forall t :: t in targets && Named(ctx, t.contextKind, t.values) ==>
        t.contextKind == kind && t.variation == variation
  }

  /** After addTargets whoever is addressed, and no other target names, gets the variation as individually targeted. */
  lemma AddedTargetsMean(s: Patched, w: World, flag: EvalFlag, ctx: Context, env: EvalEnv)
    requires IsSaved(s) && Evaluation.WellKeyed(env)
    requires s.last.kind == AddTargets && IsAddressed(ctx, s.last)
    ensures s.last.variation.Some?
    ensures NamedForPairOnly(s.before.targets, ctx, s.last.contextKind, s.last.variation.value) ==>
              var r := Now(s, w, flag, ctx, env);
              r.reason !in {Off, PrerequisiteFailed} ==>
                  r.reason == TargetMatch && Some(r.variation) == s.last.variation
  {
    LastStep(s);
    var kind, v := s.last.contextKind, s.last.variation.value;
    if NamedForPairOnly(s.before.targets, ctx, kind, v) {
      var key := ctx.single[DefaultKind(kind)].key;
      AddingTargets(s.before.targets, kind, v, s.last.values, kind, v);
      assert key in Targeted(s.after.targets, kind, v);
      forall t | t in s.after.targets && Named(ctx, t.contextKind, t.values) ensures t.variation == v {
        AddingTargets(s.before.targets, kind, v, s.last.values, t.contextKind, t.variation);
        NamedMeansTargeted(s.after.targets, ctx, t);
        if !(t.contextKind == kind && t.variation == v) {
          TargetedMeansNamed(s.before.targets, ctx, t.contextKind, t.variation);
        }
      }
      TargetedMeansNamed(s.after.targets, ctx, kind, v);
      EvaluationMeans(w, With(flag, s.after), ctx, env, {});
    }
  }

  /** After removeTargets nobody addressed is individually targeted, if only targets for the pair had named them. */
  lemma RemovedTargetsMean(s: Patched, w: World, flag: EvalFlag, ctx: Context, env: EvalEnv)
    requires IsSaved(s) && Evaluation.WellKeyed(env)
    requires s.last.kind == RemoveTargets && IsAddressed(ctx, s.last)
    ensures s.last.variation.Some?
    ensures NamedForPairOnly(s.before.targets, ctx, s.last.contextKind, s.last.variation.value) ==>
              Now(s, w, flag, ctx, env).reason != TargetMatch
  {
    LastStep(s);
    var kind, v, drop := s.last.contextKind, s.last.variation.value, set x | x in s.last.values;
    if NamedForPairOnly(s.before.targets, ctx, kind, v) {
      forall t | t in s.after.targets ensures !Named(ctx, t.contextKind, t.values) {
        if Named(ctx, t.contextKind, t.values) {
          RemovingTargets(s.before.targets, kind, v, drop, t.contextKind, t.variation);
          NamedMeansTargeted(s.after.targets, ctx, t);
          TargetedMeansNamed(s.before.targets, ctx, t.contextKind, t.variation);
        }
      }
      EvaluationMeans(w, With(flag, s.after), ctx, env, {});
    }
  }

  lemma NamedMeansTargeted(targets: seq<Target>, ctx: Context, t: Target)
    requires t in targets && Named(ctx, t.contextKind, t.values)
    ensures ctx.single[DefaultKind(t.contextKind)].key in Targeted(targets, t.contextKind, t.variation)
  {
    assert IsFor(t, t.contextKind, t.variation);
  }

  lemma TargetedMeansNamed(targets: seq<Target>, ctx: Context, kind: string, variation: int)
    requires DefaultKind(kind) in ctx.single
    requires ctx.single[DefaultKind(kind)].key in Targeted(targets, kind, variation)
    ensures exists i :: 0 <= i < |targets| && targets[i].contextKind == kind && targets[i].variation == variation
                        && Named(ctx, targets[i].contextKind, targets[i].values)
  {
    var key := ctx.single[DefaultKind(kind)].key;
    var t :| t in targets && IsFor(t, kind, variation) && key in t.values;
    var i :| 0 <= i < |targets| && targets[i] == t;
    assert Named(ctx, targets[i].contextKind, targets[i].values);
  }

  // ----- what each kind leaves alone, and what it asks for -----

  /** Each kind changes one field. */
  lemma OtherFieldsStay(s: Patched)
    requires IsSaved(s)
    ensures var b, a := s.before, s.after;
            match s.last.kind
            case TurnFlagOn | TurnFlagOff => a == b.(on := a.on)
            case UpdateOffVariation => a == b.(offVariation := a.offVariation)
            case UpdateFallthroughVariation | UpdateFallthroughRollout => a == b.(fallthru := a.fallthru)
            case AddTargets | RemoveTargets => a == b.(targets := a.targets)
            case AddRule | UpdateRule | RemoveRule | ReorderRules => a == b.(rules := a.rules)
            case AddPrerequisite | RemovePrerequisite => a == b.(prerequisites := a.prerequisites)
            case UnknownKind(_) => false
  {
    LastStep(s);
  }

  /** What an instruction needs to have, and finds missing. */
  ghost predicate Lacks(cfg: Config, ins: Instruction) {
    match ins.kind
    case TurnFlagOn | TurnFlagOff => false
    case UpdateOffVariation | UpdateFallthroughVariation | AddTargets | RemoveTargets => ins.variation == None
    case UpdateFallthroughRollout => ins.rollout == None
    case AddRule => ins.clauses == [] || (ins.variation == None && ins.rollout == None)
    case UpdateRule =>
      || ins.ruleId == "" || ins.clauses == [] || (ins.variation == None && ins.rollout == None)
      || forall r :: r in cfg.rules ==> r.id != ins.ruleId
    case RemoveRule => ins.ruleId == ""
    case ReorderRules =>
      || (exists r, r' :: 0 <= r < r' < |cfg.rules| && cfg.rules[r].id == cfg.rules[r'].id)
      || multiset(ins.ruleIds) != multiset(Ids(cfg.rules))
    case AddPrerequisite => ins.key == "" || ins.variation == None
    case RemovePrerequisite => ins.key == ""
    case UnknownKind(_) => true
  }

  /** When its turn comes, instruction `i` lacks nothing. */
  ghost predicate IsAccepted(cfg: Config, list: seq<Instruction>, ids: seq<string>, i: nat)
    requires |ids| == |list| && i < |list|
  {
    Fold(cfg, list[..i], ids[..i]).Ok? && !Lacks(Fold(cfg, list[..i], ids[..i]).value, list[i])
  }

  lemma EarlierIsAcceptedAlike(cfg: Config, list: seq<Instruction>, ids: seq<string>, n: nat, i: nat)
    requires |ids| == |list| && i < n <= |list|
    ensures IsAccepted(cfg, list[..n], ids[..n], i) <==> IsAccepted(cfg, list, ids, i)
  {
    assert list[..n][..i] == list[..i] && ids[..n][..i] == ids[..i] && list[..n][i] == list[i];
  }

  /** A list of instructions is accepted exactly if none of them lacks anything when its turn comes. */
  lemma {:induction false} AcceptedExactly(cfg: Config, list: seq<Instruction>, ids: seq<string>)
    requires |ids| == |list|
    ensures Fold(cfg, list, ids).Ok? <==> forall i :: 0 <= i < |list| ==> IsAccepted(cfg, list, ids, i)
  {
    if list != [] {
      var n := |list| - 1;
      AcceptedExactly(cfg, list[..n], ids[..n]);
      forall i | 0 <= i < n ensures IsAccepted(cfg, list[..n], ids[..n], i) <==> IsAccepted(cfg, list, ids, i) {
        EarlierIsAcceptedAlike(cfg, list, ids, n, i);
      }
      assert (forall i :: 0 <= i < n ==> IsAccepted(cfg, list[..n], ids[..n], i)) <==>
             forall i :: 0 <= i < n ==> IsAccepted(cfg, list, ids, i);
      assert Fold(cfg, list, ids).Ok? ==> Fold(cfg, list[..n], ids[..n]).Ok?;
      if Fold(cfg, list[..n], ids[..n]).Ok? {
        OneAcceptedExactly(Fold(cfg, list[..n], ids[..n]).value, list[n], ids[n]);
        assert Fold(cfg, list, ids).Ok? <==> IsAccepted(cfg, list, ids, n);
      } else {
        assert !forall i :: 0 <= i < n ==> IsAccepted(cfg, list, ids, i);
      }
    }
  }

  lemma OneAcceptedExactly(cfg: Config, ins: Instruction, id: string)
    ensures Step(cfg, ins, id).Ok? <==> !Lacks(cfg, ins)
  {
    if ins.kind == UpdateRule {
      ReplacesFirstWithId(cfg.rules, ins.ruleId, ins.clauses, VariationOrRollout(ins.variation, ins.rollout));
    } else if ins.kind == ReorderRules {
      assert |multiset(ins.ruleIds)| == |ins.ruleIds| && |multiset(Ids(cfg.rules))| == |cfg.rules|;
      assert Distinct(Ids(cfg.rules)) <==>
          forall r, r' :: 0 <= r < r' < |cfg.rules| ==> cfg.rules[r].id != cfg.rules[r'].id;
    }
  }

  /** Each error names what is lacking. */
  lemma ErrorsNameTheLack(cfg: Config, ins: Instruction, id: string)
    requires Step(cfg, ins, id).Err?
    ensures match Step(cfg, ins, id).error
            case VariationRequired => ins.variation == None
            case RolloutRequired => ins.rollout == None
            case ClausesRequired => ins.clauses == []
            case ServeRequired => ins.clauses != [] && ins.variation == None && ins.rollout == None
            case RuleIdRequired => ins.ruleId == ""
            case RuleIdUnknown => ins.ruleId != "" && forall r :: r in cfg.rules ==> r.id != ins.ruleId
            case ReorderIncomplete => |ins.ruleIds| != |cfg.rules|
            case ReorderIdUnknownOrRepeated => |ins.ruleIds| == |cfg.rules| && Lacks(cfg, ins)
            case KeyAndVariationRequired => ins.key == "" || ins.variation == None
            case KeyRequired => ins.key == ""
            case KindUnknown => ins.kind.UnknownKind?
            case NoInstructions | FailedAt(_, _) => false
  {
    OneAcceptedExactly(cfg, ins, id);
    ReplacesFirstWithId(cfg.rules, ins.ruleId, ins.clauses, VariationOrRollout(ins.variation, ins.rollout));
  }
}
