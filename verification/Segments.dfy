// Segment membership, with segments nested through segmentMatch clauses over a possibly cyclic graph.
module Segments {
  import opened Models
  import L = Lists
  import opened Bucketing

  /** How the cache stores segments: every one under its own key. */
  ghost predicate WellKeyed(segs: map<string, Segment>) {
    forall k :: k in segs ==> segs[k].key == k
  }

  // ----- what one segment decides, given the set of segments the context is in -----

  predicate MatchesOperator(w: World, op: string, v: Value, wanted: seq<Value>) {
    exists cv | cv in wanted :: w.opMatch(op, v, cv)
  }

  predicate AttributeMatches(w: World, op: string, v: Value, wanted: seq<Value>) {
    match v
    case Arr(elems) => exists e | e in elems :: MatchesOperator(w, op, e, wanted)
    case _ => MatchesOperator(w, op, v, wanted)
  }

  predicate ClauseHolds(w: World, c: Clause, ctx: Context, members: set<string>) {
    if c.op == OP_SEGMENT_MATCH then
      (exists v | v in c.values :: v.Str? && v.s in members) != c.negate
    else
      match ValueForRef(ctx, c.contextKind, c.attribute)
      case None => false
      case Some(v) => AttributeMatches(w, c.op, v, c.values) != c.negate
  }

  /** All clauses hold; an empty list matches nothing. */
  predicate AllHold(w: World, clauses: seq<Clause>, ctx: Context, members: set<string>) {
    clauses != [] && forall c | c in clauses :: ClauseHolds(w, c, ctx, members)
  }

  predicate Lists(userKeys: seq<string>, targets: seq<SegmentTarget>, ctx: Context) {
    || (KeyForKind(ctx, "user").Some? && KeyForKind(ctx, "user").value in userKeys)
    || exists t | t in targets ::
         KeyForKind(ctx, t.contextKind).Some? && KeyForKind(ctx, t.contextKind).value in t.values
  }

  predicate Admits(w: World, seg: Segment, rule: SegmentRule, ctx: Context) {
    match rule.weight
    case None => true
    case Some(weight) =>
      ComputeBucket(w, seg.key + "." + seg.salt, rule.bucketBy, rule.rolloutContextKind, ctx) < Fraction(weight)
  }

  /** The first rule whose clauses hold decides. */
  predicate RulesAdmit(w: World, seg: Segment, rules: seq<SegmentRule>, ctx: Context, members: set<string>) {
    if rules == [] then false
    else if AllHold(w, rules[0].clauses, ctx, members) then Admits(w, seg, rules[0], ctx)
    else RulesAdmit(w, seg, rules[1..], ctx, members)
  }

  /** Excluded, then included, then the rules. */
  predicate Decide(w: World, seg: Segment, ctx: Context, members: set<string>) {
    if Lists(seg.excluded, seg.excludedContexts, ctx) then false
    else if Lists(seg.included, seg.includedContexts, ctx) then true
    else RulesAdmit(w, seg, seg.rules, ctx, members)
  }

  ghost predicate FirstHolding(w: World, rules: seq<SegmentRule>, ctx: Context, members: set<string>, i: nat) {
    && i < |rules| && AllHold(w, rules[i].clauses, ctx, members)
    && forall j :: 0 <= j < i ==> !AllHold(w, rules[j].clauses, ctx, members)
  }

  lemma {:induction false} FirstHoldingRuleAdmits(
      w: World, seg: Segment, rules: seq<SegmentRule>, ctx: Context, members: set<string>)
    ensures forall i: nat :: FirstHolding(w, rules, ctx, members, i) ==>
              (RulesAdmit(w, seg, rules, ctx, members) <==> Admits(w, seg, rules[i], ctx))
    ensures (forall i :: 0 <= i < |rules| ==> !AllHold(w, rules[i].clauses, ctx, members)) ==>
              !RulesAdmit(w, seg, rules, ctx, members)
  {
    if rules != [] && !AllHold(w, rules[0].clauses, ctx, members) {
      FirstHoldingRuleAdmits(w, seg, rules[1..], ctx, members);
      forall i: nat | FirstHolding(w, rules, ctx, members, i)
        ensures RulesAdmit(w, seg, rules, ctx, members) <==> Admits(w, seg, rules[i], ctx)
      {
        assert FirstHolding(w, rules[1..], ctx, members, i - 1);
      }
      assert forall i :: 0 <= i < |rules| - 1 ==> rules[1..][i] == rules[i + 1];
    }
  }

  /** The order in which a segment decides: excluded always loses, included comes next, and then only the first
      rule that holds counts, its weight deciding even when a later rule would admit. */
  lemma SegmentDecidesInOrder(w: World, seg: Segment, ctx: Context, members: set<string>)
    ensures Lists(seg.excluded, seg.excludedContexts, ctx) ==> !Decide(w, seg, ctx, members)
    ensures !Lists(seg.excluded, seg.excludedContexts, ctx) && Lists(seg.included, seg.includedContexts, ctx) ==>
              Decide(w, seg, ctx, members)
    ensures !Lists(seg.excluded, seg.excludedContexts, ctx) && !Lists(seg.included, seg.includedContexts, ctx) ==>
              (Decide(w, seg, ctx, members) <==>
               exists i: nat :: FirstHolding(w, seg.rules, ctx, members, i) && Admits(w, seg, seg.rules[i], ctx))
  {
    FirstHoldingRuleAdmits(w, seg, seg.rules, ctx, members);
    if exists i :: 0 <= i < |seg.rules| && AllHold(w, seg.rules[i].clauses, ctx, members) {
      var first := L.FirstIndex(seg.rules, (r: SegmentRule) => AllHold(w, r.clauses, ctx, members));
      assert FirstHolding(w, seg.rules, ctx, members, first);
    }
  }

  // ----- guarded membership -----

  /** Marking a key leaves fewer keys to visit. */
  lemma MarkingShrinks(keys: set<string>, k: string, visited: set<string>)
    requires k !in visited
    ensures |keys - (visited + {k})| < |(keys + {k}) - visited|
  {
    assert keys - (visited + {k}) == ((keys + {k}) - visited) - {k};
  }

  /** Whether the context is in `seg`, when the segments in `visited` are already being decided. */
  predicate InSegment(w: World, seg: Segment, ctx: Context, segs: map<string, Segment>, visited: set<string>)
    requires WellKeyed(segs)
    decreases |(segs.Keys + {seg.key}) - visited|, 0
  {
    if seg.key in visited then false
    else
      MarkingShrinks(segs.Keys, seg.key, visited);
      Decide(w, seg, ctx, Members(w, ctx, segs, visited + {seg.key}))
  }

  /** The stored segments that count the context as a member under the guard. */
  function Members(w: World, ctx: Context, segs: map<string, Segment>, visited: set<string>): set<string>
    requires WellKeyed(segs)
    decreases |segs.Keys - visited|, 2
  {
    set k | k in segs.Keys && InStored(w, k, ctx, segs, visited)
  }

  predicate InStored(w: World, k: string, ctx: Context, segs: map<string, Segment>, visited: set<string>)
    requires WellKeyed(segs) && k in segs
    decreases |segs.Keys - visited|, 1
  {
    assert segs.Keys + {segs[k].key} == segs.Keys;
    InSegment(w, segs[k], ctx, segs, visited)
  }

  lemma MembershipMeans(w: World, k: string, ctx: Context, segs: map<string, Segment>, visited: set<string>)
    requires WellKeyed(segs)
    ensures k in Members(w, ctx, segs, visited) <==> k in segs && InSegment(w, segs[k], ctx, segs, visited)
  {
    if k in segs {
      assert k in Members(w, ctx, segs, visited) <==> InStored(w, k, ctx, segs, visited);
    }
  }

  // ----- the program: one mutable set of marks, undone on every exit -----

  /** The keys being decided, shared by the whole recursion. */
  class Visited {
    var keys: set<string>

    constructor ()
      ensures keys == {}
    {
      keys := {};
    }
  }

  method ContextInSegment(w: World, seg: Segment, ctx: Context, segs: map<string, Segment>, visited: Visited)
    returns (member: bool)
    requires WellKeyed(segs)
    modifies visited
    ensures member == InSegment(w, seg, ctx, segs, old(visited.keys))
    ensures visited.keys == old(visited.keys)
    decreases |(segs.Keys + {seg.key}) - visited.keys|, 0
  {
    if seg.key in visited.keys {
      return false;
    }
    ghost var unmarked := visited.keys;
    visited.keys := visited.keys + {seg.key};
    MarkingShrinks(segs.Keys, seg.key, unmarked);
    if Lists(seg.excluded, seg.excludedContexts, ctx) {
      member := false;
    } else if Lists(seg.included, seg.includedContexts, ctx) {
      member := true;
    } else {
      member := MatchRules(w, seg, ctx, segs, visited);
    }
    visited.keys := visited.keys - {seg.key};
    assert visited.keys == unmarked;
  }

  /** The rule loop of ContextInSegment: the first rule whose clauses match decides. */
  method MatchRules(w: World, seg: Segment, ctx: Context, segs: map<string, Segment>, visited: Visited)
    returns (member: bool)
    requires WellKeyed(segs)
    modifies visited
    ensures member == RulesAdmit(w, seg, seg.rules, ctx, Members(w, ctx, segs, old(visited.keys)))
    ensures visited.keys == old(visited.keys)
    decreases |segs.Keys - visited.keys|, 4
  {
    ghost var members := Members(w, ctx, segs, visited.keys);
    for i := 0 to |seg.rules|
      invariant visited.keys == old(visited.keys)
      invariant RulesAdmit(w, seg, seg.rules, ctx, members) == RulesAdmit(w, seg, seg.rules[i..], ctx, members)
    {
      var matched := MatchClauses(w, seg.rules[i].clauses, ctx, segs, visited);
      if matched {
        return Admits(w, seg, seg.rules[i], ctx);
      }
    }
    return false;
  }

  /** All clauses must match; stops at the first that does not. */
  method MatchClauses(w: World, clauses: seq<Clause>, ctx: Context, segs: map<string, Segment>, visited: Visited)
    returns (matched: bool)
    requires WellKeyed(segs)
    modifies visited
    ensures matched == AllHold(w, clauses, ctx, Members(w, ctx, segs, old(visited.keys)))
    ensures visited.keys == old(visited.keys)
    decreases |segs.Keys - visited.keys|, 3
  {
    ghost var members := Members(w, ctx, segs, visited.keys);
    for i := 0 to |clauses|
      invariant visited.keys == old(visited.keys)
      invariant forall j :: 0 <= j < i ==> ClauseHolds(w, clauses[j], ctx, members)
    {
      var holds := MatchClause(w, clauses[i], ctx, segs, visited);
      if !holds {
        return false;
      }
    }
    return |clauses| > 0;
  }

  method MatchClause(w: World, c: Clause, ctx: Context, segs: map<string, Segment>, visited: Visited)
    returns (holds: bool)
    requires WellKeyed(segs)
    modifies visited
    ensures holds == ClauseHolds(w, c, ctx, Members(w, ctx, segs, old(visited.keys)))
    ensures visited.keys == old(visited.keys)
    decreases |segs.Keys - visited.keys|, 2
  {
    var matched := false;
    if c.op == OP_SEGMENT_MATCH {
      ghost var members := Members(w, ctx, segs, visited.keys);
      for i := 0 to |c.values|
        invariant visited.keys == old(visited.keys)
        invariant !matched
        invariant forall v :: v in c.values[..i] ==> !(v.Str? && v.s in members)
      {
        if c.values[i].Str? && c.values[i].s in segs {
          var key := c.values[i].s;
          assert segs.Keys + {segs[key].key} == segs.Keys;
          matched := ContextInSegment(w, segs[key], ctx, segs, visited);
          MembershipMeans(w, key, ctx, segs, old(visited.keys));
          if matched {
            assert c.values[i] in c.values;
            break;
          }
        }
      }
      return matched != c.negate;
    }
    var attribute := ValueForRef(ctx, c.contextKind, c.attribute);
    if attribute.None? {
      return false;
    }
    var val := attribute.value;
    if val.Arr? {
      for i := 0 to |val.elems|
        invariant !matched
        invariant forall j :: 0 <= j < i ==> !MatchesOperator(w, c.op, val.elems[j], c.values)
      {
        if MatchesOperator(w, c.op, val.elems[i], c.values) {
          matched := true;
          break;
        }
      }
    } else {
      matched := MatchesOperator(w, c.op, val, c.values);
    }
    return matched != c.negate;
  }

  // ----- what the guard may and may not change -----

  /** The order of a rule's clauses never matters, on any graph and under any guard. */
  lemma ClauseOrderIrrelevant(w: World, clauses: seq<Clause>, clauses': seq<Clause>, ctx: Context, members: set<string>)
    requires multiset(clauses) == multiset(clauses')
    ensures AllHold(w, clauses, ctx, members) == AllHold(w, clauses', ctx, members)
  {
    assert forall c :: c in clauses <==> c in multiset(clauses);
    assert forall c :: c in clauses' <==> c in multiset(clauses');
    assert |clauses| == |multiset(clauses)| == |multiset(clauses')| == |clauses'|;
  }

  /** What is stored under a key already being decided is never looked at. */
  lemma {:induction false} MarkedSegmentsAreInvisible(
      w: World, ctx: Context, segs: map<string, Segment>, segs': map<string, Segment>, visited: set<string>)
    requires WellKeyed(segs) && WellKeyed(segs')
    requires segs - visited == segs' - visited
    ensures Members(w, ctx, segs, visited) == Members(w, ctx, segs', visited)
    decreases |segs.Keys - visited|
  {
    assert (segs - visited).Keys == segs.Keys - visited;
    assert (segs' - visited).Keys == segs'.Keys - visited;
    forall k | k in segs.Keys - visited
      ensures segs[k] == segs'[k]
      ensures Members(w, ctx, segs, visited + {k}) == Members(w, ctx, segs', visited + {k})
    {
      assert segs[k] == (segs - visited)[k] == (segs' - visited)[k] == segs'[k];
      assert segs.Keys - (visited + {k}) == (segs.Keys - visited) - {k};
      assert segs - (visited + {k}) == (segs - visited) - {k} == (segs' - visited) - {k} == segs' - (visited + {k});
      MarkedSegmentsAreInvisible(w, ctx, segs, segs', visited + {k});
    }
    forall k ensures k in Members(w, ctx, segs, visited) <==> k in Members(w, ctx, segs', visited) {
      MembershipMeans(w, k, ctx, segs, visited);
      MembershipMeans(w, k, ctx, segs', visited);
      if k !in visited {
        assert k in segs <==> k in segs.Keys - visited;
        assert k in segs' <==> k in segs'.Keys - visited;
      }
    }
  }

  lemma {:induction false} HeavierRuleAdmitsMore(
      w: World, seg: Segment, seg': Segment, i: nat, from: nat, weight: int, ctx: Context, members: set<string>)
    requires from <= |seg.rules| && i < |seg.rules| && seg.rules[i].weight.Some? && seg.rules[i].weight.value <= weight
    requires seg' == seg.(rules := seg.rules[i := seg.rules[i].(weight := Some(weight))])
    requires RulesAdmit(w, seg, seg.rules[from..], ctx, members)
    ensures RulesAdmit(w, seg', seg'.rules[from..], ctx, members)
    decreases |seg.rules| - from
  {
    var rule, rule' := seg.rules[from], seg'.rules[from];
    if AllHold(w, rule.clauses, ctx, members) {
      if rule.weight.Some? {
        PartsGrow(rule.weight.value, rule'.weight.value);
      }
    } else {
      HeavierRuleAdmitsMore(w, seg, seg', i, from + 1, weight, ctx, members);
    }
  }

  /** Ramping up a segment: storing it with a heavier rule never removes a member from it, whatever the graph. */
  lemma RaisingWeightKeepsMembers(
      w: World, k: string, i: nat, weight: int, ctx: Context, segs: map<string, Segment>, visited: set<string>)
    requires WellKeyed(segs) && k in segs && i < |segs[k].rules|
    requires segs[k].rules[i].weight.Some? && segs[k].rules[i].weight.value <= weight
    requires InSegment(w, segs[k], ctx, segs, visited)
    ensures var seg' := segs[k].(rules := segs[k].rules[i := segs[k].rules[i].(weight := Some(weight))]);
            InSegment(w, seg', ctx, segs[k := seg'], visited)
  {
    var seg := segs[k];
    var seg' := seg.(rules := seg.rules[i := seg.rules[i].(weight := Some(weight))]);
    var marked := visited + {k};
    assert segs - marked == segs[k := seg'] - marked;
    MarkedSegmentsAreInvisible(w, ctx, segs, segs[k := seg'], marked);
    if !Lists(seg.included, seg.includedContexts, ctx) {
      assert seg.rules[0..] == seg.rules && seg'.rules[0..] == seg'.rules;
      HeavierRuleAdmitsMore(w, seg, seg', i, 0, weight, ctx, Members(w, ctx, segs, marked));
    }
  }
}
