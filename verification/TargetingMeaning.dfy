// What evaluation means, said of contexts, stored values and hashed texts alone.
module TargetingMeaning {
  import opened Text
  import opened Int64
  import opened Models
  import opened Bucketing
  import opened Evaluation
  import Seg = Segments
  import L = Lists

  // ----- which clauses hold -----

  /** The context has a key of that kind, "user" when none is named, and it is listed. */
  ghost predicate Named(ctx: Context, kind: string, keys: seq<string>) {
    var k := if kind == "" then "user" else kind;
    k in ctx.single && ctx.single[k].key in keys
  }

  /** What an operator is asked about: each element of an array, or the value itself. */
  ghost predicate IsSubject(v: Value, x: Value) {
    if v.Arr? then x in v.elems else x == v
  }

  ghost predicate Passes(w: World, c: Clause, ctx: Context, members: set<string>) {
    if c.op == "segmentMatch" then (exists k :: k in members && Str(k) in c.values) <==> !c.negate
    else
      exists v :: ValueForRef(ctx, c.contextKind, c.attribute) == Some(v)
        && ((exists x, cv :: IsSubject(v, x) && cv in c.values && w.opMatch(c.op, x, cv)) <==> !c.negate)
  }

  ghost predicate AllPass(w: World, clauses: seq<Clause>, ctx: Context, members: set<string>) {
    clauses != [] && forall c :: c in clauses ==> Passes(w, c, ctx, members)
  }

  lemma ClausePasses(w: World, c: Clause, ctx: Context, members: set<string>)
    ensures Seg.ClauseHolds(w, c, ctx, members) <==> Passes(w, c, ctx, members)
  {
    if c.op == OP_SEGMENT_MATCH {
      assert (exists k :: k in members && Str(k) in c.values) <==>
             exists v :: v in c.values && v.Str? && v.s in members;
    }
  }

  lemma AllPassExactly(w: World, clauses: seq<Clause>, ctx: Context, members: set<string>)
    ensures Seg.AllHold(w, clauses, ctx, members) <==> AllPass(w, clauses, ctx, members)
  {
    forall c | c in clauses ensures Seg.ClauseHolds(w, c, ctx, members) <==> Passes(w, c, ctx, members) {
      ClausePasses(w, c, ctx, members);
    }
  }

  /** One clause on an attribute: on a value that is no array it holds if the operator relates it to a listed value, on
      an array if that is so of some element; negated, if not; and neither way where the attribute is missing. */
  lemma AttributeClauseMeans(w: World, c: Clause, ctx: Context, members: set<string>)
    requires c.op != "segmentMatch"
    ensures match ValueForRef(ctx, c.contextKind, c.attribute)
            case None => !Seg.AllHold(w, [c], ctx, members)
            case Some(Arr(elems)) =>
              Seg.AllHold(w, [c], ctx, members) <==>
                ((exists e, cv :: e in elems && cv in c.values && w.opMatch(c.op, e, cv)) <==> !c.negate)
            case Some(v) =>
              Seg.AllHold(w, [c], ctx, members) <==>
                ((exists cv :: cv in c.values && w.opMatch(c.op, v, cv)) <==> !c.negate)
  {
    assert Seg.AllHold(w, [c], ctx, members) <==> Seg.ClauseHolds(w, c, ctx, members) by {
      assert forall c' :: c' in [c] <==> c' == c;
    }
    ClausePasses(w, c, ctx, members);
    if ValueForRef(ctx, c.contextKind, c.attribute).Some? {
      var v := ValueForRef(ctx, c.contextKind, c.attribute).value;
      assert v.Arr? ==> forall x :: IsSubject(v, x) <==> x in v.elems;
      assert !v.Arr? ==> forall x :: IsSubject(v, x) <==> x == v;
    }
  }

  // ----- where a context is placed -----

  ghost predicate IsWhole(v: Value, n: int) {
    v == Num(n as real) && MIN_INT64 <= n <= MAX_INT64
  }

  /** A text, and a whole number of 64 bits, can be hashed as a text. */
  ghost predicate IsTextOf(v: Value, text: string) {
    v == Str(text) || exists n :: IsWhole(v, n) && text == Itoa(n)
  }

  /** The point of a context under a prefix: that of the hash of the prefix, a dot and its value as a text, and 0 if
      there is no value or none that can be hashed. */
  ghost predicate LandsOn(w: World, prefix: string, bucketBy: string, kind: string, ctx: Context, point: real) {
    var found := ValueForRef(ctx, kind, if bucketBy == "" then "key" else bucketBy);
    || (exists text :: found.Some? && IsTextOf(found.value, text) && point == Point(w.hash(prefix + "." + text)))
    || (point == 0.0 && forall text :: found.Some? ==> !IsTextOf(found.value, text))
  }

  /** The first entry whose upper edge lies above the point, or the last. */
  ghost predicate Owns(ws: seq<WeightedVariation>, point: real, i: nat) {
    && i < |ws| && (point < Edge(ws, i + 1) || i == |ws| - 1)
    && forall j :: 0 < j <= i ==> Edge(ws, j) <= point
  }

  /** What a rollout of a flag hashes in front of the context's value. */
  ghost predicate IsPrefix(key: string, salt: string, rollout: Rollout, prefix: string) {
    match rollout.seed
    case Some(seed) => prefix == Itoa(seed)
    case None => prefix == key + "." + salt
  }

  ghost predicate Places(w: World, key: string, salt: string, rollout: Rollout, ctx: Context, variation: int) {
    if rollout.variations == [] then variation == 0
    else
      exists prefix, point, i: nat ::
        && IsPrefix(key, salt, rollout, prefix)
        && LandsOn(w, prefix, rollout.bucketBy, rollout.contextKind, ctx, point)
        && Owns(rollout.variations, point, i)
        && variation == rollout.variations[i].variation
  }

  /** A value has the text that is computed, and no other. */
  lemma TextIsUnique(v: Value, text: string)
    ensures IsTextOf(v, text) <==> BucketableString(v) == Some(text)
  {
    if v.Num? {
      assert forall n :: IsWhole(v, n) ==> n == v.r.Floor;
      assert v.r.Floor as real == v.r && MIN_INT64 <= v.r.Floor <= MAX_INT64 ==> IsWhole(v, v.r.Floor);
    }
  }

  lemma PointMeans(w: World, prefix: string, bucketBy: string, kind: string, ctx: Context, point: real)
    ensures LandsOn(w, prefix, bucketBy, kind, ctx, point) <==> point == ComputeBucket(w, prefix, bucketBy, kind, ctx)
  {
    var found := ValueForRef(ctx, kind, if bucketBy == "" then "key" else bucketBy);
    if found.Some? {
      forall text ensures IsTextOf(found.value, text) <==> BucketableString(found.value) == Some(text) {
        TextIsUnique(found.value, text);
      }
      if text :| BucketableString(found.value) == Some(text) {
        assert IsTextOf(found.value, text);
      }
    }
  }

  /** The rollout serves the one entry that the hash of the one right text leads to. */
  lemma RolloutMeans(w: World, key: string, salt: string, rollout: Rollout, ctx: Context, variation: int)
    ensures variation == RolloutVariation(w, key, salt, rollout, ctx) <==> Places(w, key, salt, rollout, ctx, variation)
  {
    var ws := rollout.variations;
    if ws != [] {
      var prefix := RolloutPrefix(key, salt, rollout);
      var point := RolloutPoint(w, key, salt, rollout, ctx);
      PointMeans(w, prefix, rollout.bucketBy, rollout.contextKind, ctx, point);
      PickOwns(ws, point);
      assert IsPrefix(key, salt, rollout, prefix);
      forall p | LandsOn(w, prefix, rollout.bucketBy, rollout.contextKind, ctx, p) ensures p == point {
        PointMeans(w, prefix, rollout.bucketBy, rollout.contextKind, ctx, p);
      }
    }
  }

  lemma PickOwns(ws: seq<WeightedVariation>, point: real)
    requires ws != []
    ensures forall i: nat :: Owns(ws, point, i) <==> i == Pick(ws, point)
  {
    var p := Pick(ws, point);
    forall j | 0 < j <= p ensures Edge(ws, j) <= point {
      assert !BelowUpperEdge(ws, j - 1, point);
    }
    assert BelowUpperEdge(ws, p, point) || p == |ws| - 1;
  }

  /** With a seed the flag's key and salt play no part. */
  lemma SeededRolloutIgnoresFlag(
      w: World, key: string, salt: string, key': string, salt': string, rollout: Rollout, ctx: Context)
    requires rollout.seed.Some?
    ensures RolloutVariation(w, key, salt, rollout, ctx) == RolloutVariation(w, key', salt', rollout, ctx)
  {
    var v := RolloutVariation(w, key, salt, rollout, ctx);
    RolloutMeans(w, key, salt, rollout, ctx, v);
    RolloutMeans(w, key', salt', rollout, ctx, v);
  }

  /** The text hashed for a context with a textual value. */
  ghost function HashedText(key: string, salt: string, rollout: Rollout, text: string): string {
    if rollout.seed.Some? then Itoa(rollout.seed.value) + "." + text else key + "." + salt + "." + text
  }

  /** A context with a textual value is served the owner of the point of that one hash. */
  lemma HashedTextDecides(w: World, key: string, salt: string, rollout: Rollout, ctx: Context, text: string, i: nat)
    requires ValueForRef(ctx, rollout.contextKind, if rollout.bucketBy == "" then "key" else rollout.bucketBy)
               == Some(Str(text))
    requires Owns(rollout.variations, Point(w.hash(HashedText(key, salt, rollout, text))), i)
    ensures RolloutVariation(w, key, salt, rollout, ctx) == rollout.variations[i].variation
  {
    RolloutMeans(w, key, salt, rollout, ctx, rollout.variations[i].variation);
    var prefix := if rollout.seed.Some? then Itoa(rollout.seed.value) else key + "." + salt;
    assert HashedText(key, salt, rollout, text) == prefix + "." + text;
    assert IsPrefix(key, salt, rollout, prefix);
    assert LandsOn(
      w, prefix, rollout.bucketBy, rollout.contextKind, ctx, Point(w.hash(HashedText(key, salt, rollout, text))));
  }

  /** Worlds that agree on the hash of that text serve alike. */
  lemma OtherHashesDoNotMatter(
      w: World, w': World, key: string, salt: string, rollout: Rollout, ctx: Context, text: string)
    requires ValueForRef(ctx, rollout.contextKind, if rollout.bucketBy == "" then "key" else rollout.bucketBy)
               == Some(Str(text))
    requires w.hash(HashedText(key, salt, rollout, text)) == w'.hash(HashedText(key, salt, rollout, text))
    ensures RolloutVariation(w, key, salt, rollout, ctx) == RolloutVariation(w', key, salt, rollout, ctx)
  {
    var ws, point := rollout.variations, Point(w.hash(HashedText(key, salt, rollout, text)));
    if ws != [] {
      PickOwns(ws, point);
      HashedTextDecides(w, key, salt, rollout, ctx, text, Pick(ws, point));
      HashedTextDecides(w', key, salt, rollout, ctx, text, Pick(ws, point));
    }
  }

  // ----- which contexts a segment has -----

  ghost predicate NamedBy(ctx: Context, userKeys: seq<string>, targets: seq<SegmentTarget>) {
    Named(ctx, "user", userKeys) || exists t :: t in targets && Named(ctx, t.contextKind, t.values)
  }

  /** A rule without a weight admits everyone, one with a weight those whose point lies below it. */
  ghost predicate AdmitsByWeight(w: World, seg: Segment, rule: SegmentRule, ctx: Context) {
    rule.weight.Some? ==>
      exists point ::
        && LandsOn(w, seg.key + "." + seg.salt, rule.bucketBy, rule.rolloutContextKind, ctx, point)
        && point < Fraction(rule.weight.value)
  }

  lemma AdmitsExactly(w: World, seg: Segment, rule: SegmentRule, ctx: Context)
    ensures Seg.Admits(w, seg, rule, ctx) <==> AdmitsByWeight(w, seg, rule, ctx)
  {
    if rule.weight.Some? {
      var prefix := seg.key + "." + seg.salt;
      var p := ComputeBucket(w, prefix, rule.bucketBy, rule.rolloutContextKind, ctx);
      forall q ensures LandsOn(w, prefix, rule.bucketBy, rule.rolloutContextKind, ctx, q) <==> q == p {
        PointMeans(w, prefix, rule.bucketBy, rule.rolloutContextKind, ctx, q);
      }
      assert LandsOn(w, seg.key + "." + seg.salt, rule.bucketBy, rule.rolloutContextKind, ctx, p);
      assert Seg.Admits(w, seg, rule, ctx) <==> p < Fraction(rule.weight.value);
    }
  }

  /** A segment has a context that it does not exclude, and that it includes or the first rule whose clauses all pass
      admits by its weight. */
  lemma SegmentMeans(w: World, seg: Segment, ctx: Context, members: set<string>)
    ensures Seg.Decide(w, seg, ctx, members) <==>
            && !NamedBy(ctx, seg.excluded, seg.excludedContexts)
            && (NamedBy(ctx, seg.included, seg.includedContexts)
                || exists i :: 0 <= i < |seg.rules| && AllPass(w, seg.rules[i].clauses, ctx, members)
                     && (forall j :: 0 <= j < i ==> !AllPass(w, seg.rules[j].clauses, ctx, members))
                     && AdmitsByWeight(w, seg, seg.rules[i], ctx))
  {
    Seg.SegmentDecidesInOrder(w, seg, ctx, members);
    forall i | 0 <= i < |seg.rules|
      ensures Seg.AllHold(w, seg.rules[i].clauses, ctx, members) <==> AllPass(w, seg.rules[i].clauses, ctx, members)
      ensures Seg.Admits(w, seg, seg.rules[i], ctx) <==> AdmitsByWeight(w, seg, seg.rules[i], ctx)
    {
      AllPassExactly(w, seg.rules[i].clauses, ctx, members);
      AdmitsExactly(w, seg, seg.rules[i], ctx);
    }
    if exists i :: 0 <= i < |seg.rules| && AllPass(w, seg.rules[i].clauses, ctx, members)
                   && (forall j :: 0 <= j < i ==> !AllPass(w, seg.rules[j].clauses, ctx, members))
                   && AdmitsByWeight(w, seg, seg.rules[i], ctx)
    {
      var i :| 0 <= i < |seg.rules| && AllPass(w, seg.rules[i].clauses, ctx, members)
               && (forall j :: 0 <= j < i ==> !AllPass(w, seg.rules[j].clauses, ctx, members))
               && AdmitsByWeight(w, seg, seg.rules[i], ctx);
      assert Seg.FirstHolding(w, seg.rules, ctx, members, i);
    }
  }

  // ----- what a flag serves -----

  ghost predicate IsServed(w: World, ef: EvalFlag, vor: VariationOrRollout, ctx: Context, variation: int) {
    match (vor.variation, vor.rollout)
    case (Some(v), _) => variation == v
    case (None, Some(rollout)) => Places(w, ef.key, ef.salt, rollout, ctx, variation)
    case (None, None) => variation == 0
  }

  ghost predicate FirstNaming(targets: seq<Target>, ctx: Context, i: nat) {
    && i < |targets| && Named(ctx, targets[i].contextKind, targets[i].values)
    && forall j :: 0 <= j < i ==> !Named(ctx, targets[j].contextKind, targets[j].values)
  }

  ghost predicate FirstPassing(w: World, rules: seq<Rule>, ctx: Context, members: set<string>, i: nat) {
    && i < |rules| && AllPass(w, rules[i].clauses, ctx, members)
    && forall j :: 0 <= j < i ==> !AllPass(w, rules[j].clauses, ctx, members)
  }

  ghost predicate NobodyNamed(targets: seq<Target>, ctx: Context) {
    forall i :: 0 <= i < |targets| ==> !Named(ctx, targets[i].contextKind, targets[i].values)
  }

  ghost predicate NothingPasses(w: World, rules: seq<Rule>, ctx: Context, members: set<string>) {
    forall i :: 0 <= i < |rules| ==> !AllPass(w, rules[i].clauses, ctx, members)
  }

  /** The first target that names the context, else the serve of the first rule whose clauses all pass, else the
      fallthrough. */
  ghost predicate Serves(w: World, ef: EvalFlag, ctx: Context, members: set<string>, variation: int, reason: Reason) {
    || (exists i: nat ::
          FirstNaming(ef.targets, ctx, i) && variation == ef.targets[i].variation && reason == TargetMatch)
    || (&& NobodyNamed(ef.targets, ctx)
        && exists i: nat :: FirstPassing(w, ef.rules, ctx, members, i) && reason == RuleMatch
                            && IsServed(w, ef, ef.rules[i].serve, ctx, variation))
    || (&& NobodyNamed(ef.targets, ctx) && NothingPasses(w, ef.rules, ctx, members) && reason == Fallthrough
        && IsServed(w, ef, ef.fallthru, ctx, variation))
  }

  lemma ResolvedIsServed(w: World, ef: EvalFlag, vor: VariationOrRollout, ctx: Context)
    ensures IsServed(w, ef, vor, ctx, ResolveVOR(w, ef, vor, ctx))
  {
    if vor.variation.None? && vor.rollout.Some? {
      RolloutMeans(w, ef.key, ef.salt, vor.rollout.value, ctx, ResolveVOR(w, ef, vor, ctx));
    }
  }

  lemma NamingIsMatching(targets: seq<Target>, ctx: Context, i: nat)
    ensures FirstNaming(targets, ctx, i) <==> FirstTargetAt(targets, ctx, i)
    ensures NobodyNamed(targets, ctx) <==> forall j :: 0 <= j < |targets| ==> !TargetMatches(targets[j], ctx)
  {
    forall j | 0 <= j < |targets|
      ensures TargetMatches(targets[j], ctx) <==> Named(ctx, targets[j].contextKind, targets[j].values)
    {
    }
  }

  lemma PassingIsMatching(w: World, rules: seq<Rule>, ctx: Context, segs: map<string, Segment>, i: nat)
    requires Seg.WellKeyed(segs)
    ensures FirstPassing(w, rules, ctx, Seg.Members(w, ctx, segs, {}), i) <==> FirstRuleAt(w, rules, ctx, segs, i)
    ensures NothingPasses(w, rules, ctx, Seg.Members(w, ctx, segs, {})) <==>
            forall j :: 0 <= j < |rules| ==> !RuleMatches(w, rules[j], ctx, segs)
  {
    var members := Seg.Members(w, ctx, segs, {});
    forall j | 0 <= j < |rules|
      ensures RuleMatches(w, rules[j], ctx, segs) <==> AllPass(w, rules[j].clauses, ctx, members)
    {
      AllPassExactly(w, rules[j].clauses, ctx, members);
    }
  }

  lemma ServeMeans(w: World, ef: EvalFlag, ctx: Context, segs: map<string, Segment>)
    requires Seg.WellKeyed(segs)
    ensures var r := Serve(w, ef, ctx, segs);
            Serves(w, ef, ctx, Seg.Members(w, ctx, segs, {}), r.variation, r.reason)
  {
    TargetingOrder(w, ef, ctx, segs);
    NobodyOrFirst(ef.targets, ctx);
    NothingOrFirst(w, ef.rules, ctx, Seg.Members(w, ctx, segs, {}));
    forall i: nat ensures FirstNaming(ef.targets, ctx, i) <==> FirstTargetAt(ef.targets, ctx, i) {
      NamingIsMatching(ef.targets, ctx, i);
    }
    forall i: nat
      ensures FirstPassing(w, ef.rules, ctx, Seg.Members(w, ctx, segs, {}), i) <==>
                FirstRuleAt(w, ef.rules, ctx, segs, i)
    {
      PassingIsMatching(w, ef.rules, ctx, segs, i);
    }
    NamingIsMatching(ef.targets, ctx, 0);
    PassingIsMatching(w, ef.rules, ctx, segs, 0);
    forall vor: VariationOrRollout ensures IsServed(w, ef, vor, ctx, ResolveVOR(w, ef, vor, ctx)) {
      ResolvedIsServed(w, ef, vor, ctx);
    }
  }

  lemma NobodyOrFirst(targets: seq<Target>, ctx: Context)
    ensures NobodyNamed(targets, ctx) <==> forall i: nat :: !FirstNaming(targets, ctx, i)
  {
    var i := L.FirstIndex(targets, (t: Target) => Named(ctx, t.contextKind, t.values));
    assert i < |targets| ==> FirstNaming(targets, ctx, i);
  }

  lemma NothingOrFirst(w: World, rules: seq<Rule>, ctx: Context, members: set<string>)
    ensures NothingPasses(w, rules, ctx, members) <==> forall i: nat :: !FirstPassing(w, rules, ctx, members, i)
  {
    var i := L.FirstIndex(rules, (r: Rule) => AllPass(w, r.clauses, ctx, members));
    assert i < |rules| ==> FirstPassing(w, rules, ctx, members, i);
  }

  /** The prerequisite is stored, on, not being evaluated already, and passes with the required variation. */
  ghost predicate IsMet(w: World, p: Prerequisite, ctx: Context, env: EvalEnv, visited: set<string>)
    requires WellKeyed(env)
  {
    && p.key in env.flags && p.key !in visited && env.flags[p.key].on
    && var sub := Evaluate(w, env.flags[p.key], ctx, env, visited);
       sub.variation == p.variation && sub.reason != PrerequisiteFailed
  }

  /** What evaluation answers: the off variation of an off-flag, and of one with a prerequisite that is not met; else
      what the targeting serves; always with the value stored for that variation, if there is one. */
  lemma EvaluationMeans(w: World, ef: EvalFlag, ctx: Context, env: EvalEnv, visited: set<string>)
    requires WellKeyed(env) && ef.key !in visited
    ensures var r := Evaluate(w, ef, ctx, env, visited);
            && r.flagKey == ef.key
            && r.value == (if 0 <= r.variation < |ef.variations| then ef.variations[r.variation] else Null)
            && (r.reason == Off <==> !ef.on)
            && (r.reason == PrerequisiteFailed <==>
                ef.on && exists p :: p in ef.prerequisites && !IsMet(w, p, ctx, env, visited + {ef.key}))
            && (r.reason in {Off, PrerequisiteFailed} ==> r.variation == ef.offVariation)
            && (r.reason !in {Off, PrerequisiteFailed} ==>
                  Serves(w, ef, ctx, Seg.Members(w, ctx, env.segments, {}), r.variation, r.reason))
  {
    forall p | p in ef.prerequisites
      ensures Met(w, p, ctx, env, visited + {ef.key}) <==> IsMet(w, p, ctx, env, visited + {ef.key})
    {
    }
    ServeMeans(w, ef, ctx, env.segments);
  }
}
