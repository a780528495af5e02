// What prerequisites mean without the cycle guard: an on-flag passes exactly when finitely many
// steps derive that every flag it depends on, at any depth, is on and serves the required variation.
module Prerequisites {
  import opened Models
  import opened Evaluation
  import Seg = Segments

  /** A finite derivation: one sub-derivation for each prerequisite key. */
  datatype Derivation = Derivation(subs: map<string, Derivation>)

  /** The stored flag meets `p` by itself: it exists, is on and serves the variation. */
  ghost predicate Offers(w: World, p: Prerequisite, ctx: Context, env: EvalEnv)
    requires WellKeyed(env)
  {
    && p.key in env.flags
    && env.flags[p.key].on
    && Serve(w, env.flags[p.key], ctx, env.segments).variation == p.variation
  }

  /** `d` derives that `ef` passes: no guard, no visited set. */
  ghost predicate Derives(w: World, d: Derivation, ef: EvalFlag, ctx: Context, env: EvalEnv)
    requires WellKeyed(env)
    decreases d
  {
    && ef.on
    && forall p :: p in ef.prerequisites ==>
         Offers(w, p, ctx, env) && p.key in d.subs && Derives(w, d.subs[p.key], env.flags[p.key], ctx, env)
  }

  /** No flag below `ef` in the derivation has its key in `keys`. */
  ghost predicate Avoids(d: Derivation, ef: EvalFlag, env: EvalEnv, keys: set<string>)
    decreases d
  {
    forall p :: p in ef.prerequisites && p.key in d.subs && p.key in env.flags ==>
      p.key !in keys && Avoids(d.subs[p.key], env.flags[p.key], env, keys)
  }

  /** The evaluated flag is the stored one, when its key is stored at all. */
  ghost predicate Rooted(ef: EvalFlag, env: EvalEnv) {
    ef.key in env.flags ==> env.flags[ef.key] == ef
  }

  ghost predicate Passes(r: Evaluated) {
    r.reason != Off && r.reason != PrerequisiteFailed
  }

  // ----- soundness: a pass has a derivation -----

  ghost function SomeDerivation(w: World, ef: EvalFlag, ctx: Context, env: EvalEnv): Derivation
    requires WellKeyed(env) && exists d :: Derives(w, d, ef, ctx, env)
    ensures Derives(w, SomeDerivation(w, ef, ctx, env), ef, ctx, env)
  {
    var d :| Derives(w, d, ef, ctx, env);
    d
  }

  /** The prerequisite's flag offers its variation and has a derivation. */
  ghost predicate OffersDerivably(w: World, p: Prerequisite, ctx: Context, env: EvalEnv)
    requires WellKeyed(env)
  {
    Offers(w, p, ctx, env) && exists d :: Derives(w, d, env.flags[p.key], ctx, env)
  }

  /** Derivations for all prerequisites make one for the flag. */
  lemma DerivationsCombine(w: World, ef: EvalFlag, ctx: Context, env: EvalEnv)
    requires WellKeyed(env) && ef.on
    requires forall p :: p in ef.prerequisites ==> OffersDerivably(w, p, ctx, env)
    ensures exists d :: Derives(w, d, ef, ctx, env)
  {
    var keys := set p | p in ef.prerequisites :: p.key;
    forall k | k in keys
      ensures k in env.flags && exists d :: Derives(w, d, env.flags[k], ctx, env)
    {
      var p :| p in ef.prerequisites && p.key == k;
      assert OffersDerivably(w, p, ctx, env);
    }
    assert forall p :: p in ef.prerequisites ==> OffersDerivably(w, p, ctx, env);
    var d := Derivation(map k | k in keys :: SomeDerivation(w, env.flags[k], ctx, env));
    assert Derives(w, d, ef, ctx, env);
  }

  lemma {:induction false} PassHasDerivation(w: World, ef: EvalFlag, ctx: Context, env: EvalEnv, visited: set<string>)
    requires WellKeyed(env) && ef.key !in visited
    requires Passes(Evaluate(w, ef, ctx, env, visited))
    ensures exists d :: Derives(w, d, ef, ctx, env)
    decreases |(env.flags.Keys + {ef.key}) - visited|
  {
    forall p | p in ef.prerequisites
      ensures OffersDerivably(w, p, ctx, env)
    {
      assert Met(w, p, ctx, env, visited + {ef.key});
      Seg.MarkingShrinks(env.flags.Keys, ef.key, visited);
      assert env.flags.Keys + {p.key} == env.flags.Keys;
      PassHasDerivation(w, env.flags[p.key], ctx, env, visited + {ef.key});
    }
    DerivationsCombine(w, ef, ctx, env);
  }

  // ----- a derivation never meets the flag it is for -----

  lemma {:induction false} AvoidanceIsShared(
      w: World, d: Derivation, d': Derivation, ef: EvalFlag, ctx: Context, env: EvalEnv, keys: set<string>)
    requires WellKeyed(env)
    requires Derives(w, d, ef, ctx, env) && Derives(w, d', ef, ctx, env)
    requires Avoids(d, ef, env, keys)
    ensures Avoids(d', ef, env, keys)
    decreases d
  {
    forall p | p in ef.prerequisites
      ensures p.key !in keys && Avoids(d'.subs[p.key], env.flags[p.key], env, keys)
    {
      AvoidanceIsShared(w, d.subs[p.key], d'.subs[p.key], env.flags[p.key], ctx, env, keys);
    }
  }

  /** If a derivation meets key `k`, a strictly smaller one derives the flag stored there. */
  lemma {:induction false} MeetingGivesSmaller(
      w: World, d: Derivation, ef: EvalFlag, ctx: Context, env: EvalEnv, k: string)
    returns (smaller: Derivation)
    requires WellKeyed(env) && Derives(w, d, ef, ctx, env) && !Avoids(d, ef, env, {k})
    ensures smaller < d
    ensures k in env.flags && Derives(w, smaller, env.flags[k], ctx, env)
    decreases d
  {
    var p :| p in ef.prerequisites && p.key in d.subs && p.key in env.flags &&
             !(p.key !in {k} && Avoids(d.subs[p.key], env.flags[p.key], env, {k}));
    smaller := d.subs[p.key];
    if p.key != k {
      smaller := MeetingGivesSmaller(w, smaller, env.flags[p.key], ctx, env, k);
    }
  }

  lemma {:induction false} DerivationAvoidsItself(w: World, d: Derivation, ef: EvalFlag, ctx: Context, env: EvalEnv)
    requires WellKeyed(env) && Rooted(ef, env) && Derives(w, d, ef, ctx, env)
    ensures Avoids(d, ef, env, {ef.key})
    decreases d
  {
    if !Avoids(d, ef, env, {ef.key}) {
      var smaller := MeetingGivesSmaller(w, d, ef, ctx, env, ef.key);
      DerivationAvoidsItself(w, smaller, ef, ctx, env);
      AvoidanceIsShared(w, smaller, d, ef, ctx, env, {ef.key});
    }
  }

  lemma {:induction false} AvoidsUnion(d: Derivation, ef: EvalFlag, env: EvalEnv, a: set<string>, b: set<string>)
    requires Avoids(d, ef, env, a) && Avoids(d, ef, env, b)
    ensures Avoids(d, ef, env, a + b)
    decreases d
  {
    forall p | p in ef.prerequisites && p.key in d.subs && p.key in env.flags
      ensures p.key !in a + b && Avoids(d.subs[p.key], env.flags[p.key], env, a + b)
    {
      AvoidsUnion(d.subs[p.key], env.flags[p.key], env, a, b);
    }
  }

  // ----- completeness: a derivation that keeps clear of the guard is a pass -----

  lemma {:induction false} DerivationPasses(
      w: World, d: Derivation, ef: EvalFlag, ctx: Context, env: EvalEnv, visited: set<string>)
    requires WellKeyed(env) && Rooted(ef, env) && ef.key !in visited
    requires Derives(w, d, ef, ctx, env) && Avoids(d, ef, env, visited)
    ensures Evaluate(w, ef, ctx, env, visited) == Serve(w, ef, ctx, env.segments)
    decreases d
  {
    DerivationAvoidsItself(w, d, ef, ctx, env);
    forall p | p in ef.prerequisites ensures Met(w, p, ctx, env, visited + {ef.key}) {
      var sub, prereq := d.subs[p.key], env.flags[p.key];
      AvoidsUnion(sub, prereq, env, visited, {ef.key});
      DerivationPasses(w, sub, prereq, ctx, env, visited + {ef.key});
    }
  }

  lemma {:induction false} NothingToAvoid(d: Derivation, ef: EvalFlag, env: EvalEnv)
    ensures Avoids(d, ef, env, {})
    decreases d
  {
    forall p | p in ef.prerequisites && p.key in d.subs && p.key in env.flags
      ensures Avoids(d.subs[p.key], env.flags[p.key], env, {})
    {
      NothingToAvoid(d.subs[p.key], env.flags[p.key], env);
    }
  }

  // ----- the main results -----

  /** Evaluation with the guard is the guard-free meaning: an on-flag serves its own targeting exactly when a
      finite derivation exists, and its off variation otherwise. */
  lemma EvaluationMeansDerivation(w: World, ef: EvalFlag, ctx: Context, env: EvalEnv)
    requires WellKeyed(env) && Rooted(ef, env)
    ensures var r := Evaluate(w, ef, ctx, env, {});
            && (Passes(r) <==> exists d :: Derives(w, d, ef, ctx, env))
            && r == if Passes(r) then Serve(w, ef, ctx, env.segments)
                    else Result(ef, ef.offVariation, if ef.on then PrerequisiteFailed else Off)
  {
    if Passes(Evaluate(w, ef, ctx, env, {})) {
      PassHasDerivation(w, ef, ctx, env, {});
    }
    if exists d :: Derives(w, d, ef, ctx, env) {
      var d := SomeDerivation(w, ef, ctx, env);
      NothingToAvoid(d, ef, env);
      DerivationPasses(w, d, ef, ctx, env, {});
    }
  }

  /** `path` follows prerequisite edges through stored flags, starting with a prerequisite of `ef`. */
  ghost predicate PrerequisitePath(ef: EvalFlag, path: seq<string>, env: EvalEnv)
    decreases |path|
  {
    path != [] ==>
      && (exists p :: p in ef.prerequisites && p.key == path[0])
      && path[0] in env.flags
      && PrerequisitePath(env.flags[path[0]], path[1..], env)
  }

  lemma {:induction false} PathIsAvoided(
      w: World, d: Derivation, ef: EvalFlag, path: seq<string>, ctx: Context, env: EvalEnv, k: string)
    requires WellKeyed(env) && Derives(w, d, ef, ctx, env) && Avoids(d, ef, env, {k})
    requires PrerequisitePath(ef, path, env)
    ensures k !in path
    decreases path
  {
    if path != [] {
      PathIsAvoided(w, d.subs[path[0]], env.flags[path[0]], path[1..], ctx, env, k);
      assert path == [path[0]] + path[1..];
    }
  }

  lemma {:induction false} DerivablePathHasNoRepeat(
      w: World, d: Derivation, ef: EvalFlag, path: seq<string>, ctx: Context, env: EvalEnv)
    requires WellKeyed(env) && Derives(w, d, ef, ctx, env)
    requires PrerequisitePath(ef, path, env)
    ensures forall i, j :: 0 <= i < j < |path| ==> path[i] != path[j]
    decreases path
  {
    if path != [] {
      var sub, prereq := d.subs[path[0]], env.flags[path[0]];
      DerivationAvoidsItself(w, sub, prereq, ctx, env);
      PathIsAvoided(w, sub, prereq, path[1..], ctx, env, path[0]);
      DerivablePathHasNoRepeat(w, sub, prereq, path[1..], ctx, env);
      forall i, j | 0 <= i < j < |path| ensures path[i] != path[j] {
        assert path[j] == path[1..][j - 1];
        if i > 0 {
          assert path[i] == path[1..][i - 1];
        }
      }
    }
  }

  /** Any on-flag from which prerequisites lead into a cycle fails, however deep the cycle lies. */
  lemma ReachingACycleFails(w: World, ef: EvalFlag, path: seq<string>, i: nat, j: nat, ctx: Context, env: EvalEnv)
    requires WellKeyed(env) && Rooted(ef, env) && ef.on
    requires PrerequisitePath(ef, path, env) && i < j < |path| && path[i] == path[j]
    ensures Evaluate(w, ef, ctx, env, {}) == Result(ef, ef.offVariation, PrerequisiteFailed)
  {
    EvaluationMeansDerivation(w, ef, ctx, env);
    if exists d :: Derives(w, d, ef, ctx, env) {
      DerivablePathHasNoRepeat(w, SomeDerivation(w, ef, ctx, env), ef, path, ctx, env);
    }
  }

  /** The same flag up to the order of its prerequisites. */
  ghost predicate Reordered(ef: EvalFlag, ef': EvalFlag) {
    && ef' == ef.(prerequisites := ef'.prerequisites)
    && multiset(ef'.prerequisites) == multiset(ef.prerequisites)
  }

  lemma ReorderedKeeps(w: World, ef: EvalFlag, ef': EvalFlag, ctx: Context, segs: map<string, Segment>)
    requires Seg.WellKeyed(segs) && Reordered(ef, ef')
    ensures forall p :: p in ef.prerequisites <==> p in ef'.prerequisites
    ensures Serve(w, ef, ctx, segs) == Serve(w, ef', ctx, segs)
  {
    assert forall p :: p in ef.prerequisites <==> p in multiset(ef.prerequisites);
    assert forall p :: p in ef'.prerequisites <==> p in multiset(ef'.prerequisites);
  }

  ghost predicate ReorderedEnv(env: EvalEnv, env': EvalEnv) {
    && env'.segments == env.segments
    && env'.flags.Keys == env.flags.Keys
    && forall k :: k in env.flags ==> Reordered(env.flags[k], env'.flags[k])
  }

  lemma MetAlike(w: World, p: Prerequisite, ctx: Context, env: EvalEnv, env': EvalEnv, visited: set<string>)
    requires WellKeyed(env) && WellKeyed(env') && ReorderedEnv(env, env')
    requires p.key in env.flags && p.key !in visited ==>
               Evaluate(w, env.flags[p.key], ctx, env, visited) == Evaluate(w, env'.flags[p.key], ctx, env', visited)
    ensures Met(w, p, ctx, env, visited) == Met(w, p, ctx, env', visited)
  {
    if p.key in env.flags {
      assert Reordered(env.flags[p.key], env'.flags[p.key]);
    }
  }

  lemma {:induction false} PrerequisiteOrderIrrelevant(
      w: World, ef: EvalFlag, ef': EvalFlag, ctx: Context, env: EvalEnv, env': EvalEnv, visited: set<string>)
    requires WellKeyed(env) && WellKeyed(env') && ef.key !in visited
    requires Reordered(ef, ef') && ReorderedEnv(env, env')
    ensures Evaluate(w, ef, ctx, env, visited) == Evaluate(w, ef', ctx, env', visited)
    decreases |(env.flags.Keys + {ef.key}) - visited|
  {
    var marked := visited + {ef.key};
    forall p | p in ef.prerequisites ensures Met(w, p, ctx, env, marked) == Met(w, p, ctx, env', marked) {
      if p.key in env.flags && p.key !in marked {
        Seg.MarkingShrinks(env.flags.Keys, ef.key, visited);
        assert env.flags.Keys + {p.key} == env.flags.Keys;
        PrerequisiteOrderIrrelevant(w, env.flags[p.key], env'.flags[p.key], ctx, env, env', marked);
      }
      MetAlike(w, p, ctx, env, env', marked);
    }
    EvaluatedAlike(w, ef, ef', ctx, env, env', visited);
  }

  lemma EvaluatedAlike(
      w: World, ef: EvalFlag, ef': EvalFlag, ctx: Context, env: EvalEnv, env': EvalEnv, visited: set<string>)
    requires WellKeyed(env) && WellKeyed(env') && ef.key !in visited
    requires Reordered(ef, ef') && ReorderedEnv(env, env')
    requires forall p :: p in ef.prerequisites ==>
               Met(w, p, ctx, env, visited + {ef.key}) == Met(w, p, ctx, env', visited + {ef.key})
    ensures Evaluate(w, ef, ctx, env, visited) == Evaluate(w, ef', ctx, env', visited)
  {
    ReorderedKeeps(w, ef, ef', ctx, env.segments);
  }
}
