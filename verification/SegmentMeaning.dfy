// What segment membership means without the cycle guard, on every graph in which no cycle passes through a
// reference that can cost a segment members; and why such references must stay off cycles.
module SegmentMeaning {
  import opened Models
  import opened Bucketing
  import opened Segments

  // ----- the graph of references -----

  ghost predicate ClauseNames(c: Clause, k: string) {
    c.op == OP_SEGMENT_MATCH && Str(k) in c.values
  }

  /** Segment `seg` names segment `k` in one of its rules. */
  ghost predicate RefersTo(seg: Segment, k: string) {
    exists r, c :: r in seg.rules && c in r.clauses && ClauseNames(c, k)
  }

  /** A reference through which a new member may cost `seg` a member: a negated one in a rule that admits the
      context, which may stop to hold; or a plain one in a rule that does not admit it, which may come to hold and
      keep the rules behind it from deciding. */
  ghost predicate Risky(w: World, ctx: Context, seg: Segment, k: string) {
    exists i, c :: 0 <= i < |seg.rules| && c in seg.rules[i].clauses && ClauseNames(c, k) && RiskyAt(w, ctx, seg, i, c)
  }

  ghost predicate RiskyAt(w: World, ctx: Context, seg: Segment, i: nat, c: Clause)
    requires i < |seg.rules|
  {
    if Admits(w, seg, seg.rules[i], ctx) then c.negate else !c.negate && i + 1 < |seg.rules|
  }

  /** References never lead to a higher rank, and risky ones lead to a lower rank. */
  ghost predicate Stratified(w: World, ctx: Context, segs: map<string, Segment>, rank: map<string, nat>) {
    && segs.Keys <= rank.Keys
    && (forall k, j :: k in segs && j in segs && RefersTo(segs[k], j) ==> rank[j] <= rank[k])
    && (forall k, j :: k in segs && j in segs && Risky(w, ctx, segs[k], j) ==> rank[j] < rank[k])
  }

  // ----- paths, and ranks from them -----

  /** `path` follows references through stored segments. */
  ghost predicate IsPath(segs: map<string, Segment>, path: seq<string>) {
    && (forall i :: 0 <= i < |path| ==> path[i] in segs)
    && forall i :: 0 <= i < |path| - 1 ==> RefersTo(segs[path[i]], path[i + 1])
  }

  ghost predicate Leads(segs: map<string, Segment>, path: seq<string>, k: string, j: string) {
    path != [] && path[0] == k && path[|path| - 1] == j && IsPath(segs, path)
  }

  /** References lead from `k` to `j` in any number of steps. */
  ghost predicate Reaches(segs: map<string, Segment>, k: string, j: string) {
    exists path :: Leads(segs, path, k, j)
  }

  /** No risky reference lies on a cycle. */
  ghost predicate RiskOffCycles(w: World, ctx: Context, segs: map<string, Segment>) {
    forall k, j :: k in segs && j in segs && Risky(w, ctx, segs[k], j) ==> !Reaches(segs, j, k)
  }

  lemma ReachOneMore(segs: map<string, Segment>, k: string, j: string, i: string)
    requires k in segs && j in segs && RefersTo(segs[k], j) && Reaches(segs, j, i)
    ensures Reaches(segs, k, i)
  {
    var path :| Leads(segs, path, j, i);
    assert Leads(segs, [k] + path, k, i);
  }

  ghost function ReachedFrom(segs: map<string, Segment>, k: string): set<string> {
    set j | j in segs.Keys && Reaches(segs, k, j)
  }

  lemma ReachShrinks(segs: map<string, Segment>, k: string, j: string)
    requires k in segs && j in segs && RefersTo(segs[k], j)
    ensures |ReachedFrom(segs, j)| <= |ReachedFrom(segs, k)|
    ensures !Reaches(segs, j, k) ==> |ReachedFrom(segs, j)| < |ReachedFrom(segs, k)|
  {
    forall i | i in ReachedFrom(segs, j) ensures i in ReachedFrom(segs, k) {
      ReachOneMore(segs, k, j, i);
    }
    assert Leads(segs, [k], k, k);
    SubsetSize(ReachedFrom(segs, j), ReachedFrom(segs, k));
    if !Reaches(segs, j, k) {
      SubsetSize(ReachedFrom(segs, j), ReachedFrom(segs, k) - {k});
    }
  }

  lemma SubsetSize(a: set<string>, b: set<string>)
    requires a <= b
    ensures |a| <= |b|
  {
    assert b == a + (b - a);
  }

  lemma {:induction false} RankFalls(
      w: World, ctx: Context, segs: map<string, Segment>, rank: map<string, nat>, path: seq<string>)
    requires Stratified(w, ctx, segs, rank) && IsPath(segs, path) && path != []
    ensures rank[path[|path| - 1]] <= rank[path[0]]
  {
    if |path| > 1 {
      assert IsPath(segs, path[1..]);
      RankFalls(w, ctx, segs, rank, path[1..]);
    }
  }

  /** Ranks exist exactly when no risky reference lies on a cycle. */
  lemma StratifiedExactly(w: World, ctx: Context, segs: map<string, Segment>)
    ensures (exists rank :: Stratified(w, ctx, segs, rank)) <==> RiskOffCycles(w, ctx, segs)
  {
    if RiskOffCycles(w, ctx, segs) {
      var rank := map k | k in segs :: |ReachedFrom(segs, k)|;
      forall k, j | k in segs && j in segs && RefersTo(segs[k], j) ensures rank[j] <= rank[k] {
        ReachShrinks(segs, k, j);
      }
      forall k, j | k in segs && j in segs && Risky(w, ctx, segs[k], j) ensures rank[j] < rank[k] {
        ReachShrinks(segs, k, j);
      }
      assert Stratified(w, ctx, segs, rank);
    }
    if rank :| Stratified(w, ctx, segs, rank) {
      forall k, j | k in segs && j in segs && Risky(w, ctx, segs[k], j) ensures !Reaches(segs, j, k) {
        if path :| Leads(segs, path, j, k) {
          RankFalls(w, ctx, segs, rank, path);
        }
      }
    }
  }

  // ----- what a decision depends on -----

  /** More members keep a clause of the kind an admitting rule may have, and lose one of the other kind. */
  lemma ClauseIsMonotone(w: World, seg: Segment, i: nat, c: Clause, ctx: Context, m: set<string>, m': set<string>)
    requires i < |seg.rules| && c in seg.rules[i].clauses
    requires forall k :: RefersTo(seg, k) && k in m ==> k in m'
    requires forall k :: Risky(w, ctx, seg, k) ==> (k in m <==> k in m')
    ensures Admits(w, seg, seg.rules[i], ctx) && ClauseHolds(w, c, ctx, m) ==> ClauseHolds(w, c, ctx, m')
    ensures !Admits(w, seg, seg.rules[i], ctx) && i + 1 < |seg.rules| && ClauseHolds(w, c, ctx, m') ==>
              ClauseHolds(w, c, ctx, m)
  {
    if c.op == OP_SEGMENT_MATCH {
      forall v | v in c.values && v.Str?
        ensures v.s in m ==> v.s in m'
        ensures RiskyAt(w, ctx, seg, i, c) ==> (v.s in m <==> v.s in m')
      {
        assert ClauseNames(c, v.s);
        assert RefersTo(seg, v.s);
        assert RiskyAt(w, ctx, seg, i, c) ==> Risky(w, ctx, seg, v.s);
      }
    }
  }

  lemma {:induction false} RulesAreMonotone(
      w: World, seg: Segment, i: nat, ctx: Context, m: set<string>, m': set<string>)
    requires i <= |seg.rules|
    requires forall k :: RefersTo(seg, k) && k in m ==> k in m'
    requires forall k :: Risky(w, ctx, seg, k) ==> (k in m <==> k in m')
    ensures RulesAdmit(w, seg, seg.rules[i..], ctx, m) ==> RulesAdmit(w, seg, seg.rules[i..], ctx, m')
    decreases |seg.rules| - i
  {
    if i < |seg.rules| {
      forall c | c in seg.rules[i].clauses
        ensures Admits(w, seg, seg.rules[i], ctx) && ClauseHolds(w, c, ctx, m) ==> ClauseHolds(w, c, ctx, m')
        ensures !Admits(w, seg, seg.rules[i], ctx) && i + 1 < |seg.rules| && ClauseHolds(w, c, ctx, m') ==>
                  ClauseHolds(w, c, ctx, m)
      {
        ClauseIsMonotone(w, seg, i, c, ctx, m, m');
      }
      RulesAreMonotone(w, seg, i + 1, ctx, m, m');
    }
  }

  /** More members decide for the context whenever fewer do, as long as risky references are answered alike. */
  lemma DecideIsMonotone(w: World, seg: Segment, ctx: Context, m: set<string>, m': set<string>)
    requires forall k :: RefersTo(seg, k) && k in m ==> k in m'
    requires forall k :: Risky(w, ctx, seg, k) ==> (k in m <==> k in m')
    ensures Decide(w, seg, ctx, m) ==> Decide(w, seg, ctx, m')
  {
    RulesAreMonotone(w, seg, 0, ctx, m, m');
    assert seg.rules[0..] == seg.rules;
  }

  // ----- what the marks change -----

  /** Marks on segments of higher rank change nothing. */
  lemma {:induction false} HigherMarksAreIrrelevant(
      w: World, k: string, ctx: Context, segs: map<string, Segment>, rank: map<string, nat>, visited: set<string>,
      visited': set<string>)
    requires WellKeyed(segs) && Stratified(w, ctx, segs, rank) && k in segs
    requires forall v :: v in segs && rank[v] <= rank[k] ==> (v in visited <==> v in visited')
    ensures InSegment(w, segs[k], ctx, segs, visited) == InSegment(w, segs[k], ctx, segs, visited')
    decreases |segs.Keys - visited|
  {
    if k !in visited {
      MarkingShrinksStored(segs, k, visited);
      var m, m' := Members(w, ctx, segs, visited + {k}), Members(w, ctx, segs, visited' + {k});
      forall j | RefersTo(segs[k], j) ensures j in m <==> j in m' {
        MembershipMeans(w, j, ctx, segs, visited + {k});
        MembershipMeans(w, j, ctx, segs, visited' + {k});
        if j in segs {
          HigherMarksAreIrrelevant(w, j, ctx, segs, rank, visited + {k}, visited' + {k});
        }
      }
      BothWays(w, segs[k], ctx, m, m');
    }
  }

  lemma MarkingShrinksStored(segs: map<string, Segment>, k: string, visited: set<string>)
    requires k in segs && k !in visited
    ensures |segs.Keys - (visited + {k})| < |segs.Keys - visited|
  {
    MarkingShrinks(segs.Keys, k, visited);
    assert segs.Keys + {k} == segs.Keys;
  }

  lemma BothWays(w: World, seg: Segment, ctx: Context, m: set<string>, m': set<string>)
    requires forall k :: RefersTo(seg, k) ==> (k in m <==> k in m')
    ensures Decide(w, seg, ctx, m) == Decide(w, seg, ctx, m')
  {
    forall k | Risky(w, ctx, seg, k) ensures k in m <==> k in m' {
    }
    DecideIsMonotone(w, seg, ctx, m, m');
    DecideIsMonotone(w, seg, ctx, m', m);
  }

  /** The marks added from `visited` to `more` are on segments of rank `n` or higher. */
  ghost predicate MarksAdded(
      segs: map<string, Segment>, rank: map<string, nat>, visited: set<string>, more: set<string>, n: nat)
    requires segs.Keys <= rank.Keys
  {
    visited <= more && forall v :: v in more - visited && v in segs ==> rank[v] >= n
  }

  /** What segment `k` sees of membership under fewer and under more marks: the same below its rank, and at
      its rank no more than before. */
  ghost predicate SeesNoMore(
      segs: map<string, Segment>, rank: map<string, nat>, k: string, m: set<string>, more: set<string>)
    requires segs.Keys <= rank.Keys && k in segs
  {
    && m <= segs.Keys && more <= segs.Keys
    && (forall j :: j in segs && rank[j] < rank[k] ==> (j in m <==> j in more))
    && forall j :: j in segs && rank[j] == rank[k] && RefersTo(segs[k], j) && j in more ==> j in m
  }

  lemma SeeingNoMoreDecidesNoMore(
      w: World, k: string, ctx: Context, segs: map<string, Segment>, rank: map<string, nat>, m: set<string>,
      more: set<string>)
    requires Stratified(w, ctx, segs, rank) && k in segs && SeesNoMore(segs, rank, k, m, more)
    ensures Decide(w, segs[k], ctx, more) ==> Decide(w, segs[k], ctx, m)
  {
    forall j | RefersTo(segs[k], j) && j in more ensures j in m {
      assert rank[j] <= rank[k];
    }
    forall j | Risky(w, ctx, segs[k], j) ensures j in m <==> j in more {
      if j in segs {
        assert rank[j] < rank[k];
      }
    }
    DecideIsMonotone(w, segs[k], ctx, more, m);
  }

  lemma LowerIsUnmarked(
      w: World, j: string, ctx: Context, segs: map<string, Segment>, rank: map<string, nat>, visited: set<string>,
      more: set<string>, n: nat)
    requires WellKeyed(segs) && Stratified(w, ctx, segs, rank) && j in segs && rank[j] < n
    requires MarksAdded(segs, rank, visited, more, n)
    ensures j in Members(w, ctx, segs, visited) <==> j in Members(w, ctx, segs, more)
  {
    HigherMarksAreIrrelevant(w, j, ctx, segs, rank, visited, more);
    MembershipMeans(w, j, ctx, segs, visited);
    MembershipMeans(w, j, ctx, segs, more);
  }

  /** Marks at one's own rank can only cost membership, never bring it. */
  lemma {:induction false} MarksOnlyCost(
      w: World, k: string, ctx: Context, segs: map<string, Segment>, rank: map<string, nat>, visited: set<string>,
      more: set<string>)
    requires WellKeyed(segs) && Stratified(w, ctx, segs, rank) && k in segs &&
               MarksAdded(segs, rank, visited, more, rank[k])
    ensures InSegment(w, segs[k], ctx, segs, more) ==> InSegment(w, segs[k], ctx, segs, visited)
    decreases |segs.Keys - visited|
  {
    if k !in more {
      MarkingShrinksStored(segs, k, visited);
      var m, m' := Members(w, ctx, segs, visited + {k}), Members(w, ctx, segs, more + {k});
      assert MarksAdded(segs, rank, visited + {k}, more + {k}, rank[k]);
      forall j | j in segs && rank[j] <= rank[k]
        ensures rank[j] < rank[k] ==> (j in m <==> j in m')
        ensures rank[j] == rank[k] && j in m' ==> j in m
      {
        if rank[j] < rank[k] {
          LowerIsUnmarked(w, j, ctx, segs, rank, visited + {k}, more + {k}, rank[k]);
        } else {
          MarksOnlyCost(w, j, ctx, segs, rank, visited + {k}, more + {k});
          MembershipMeans(w, j, ctx, segs, visited + {k});
          MembershipMeans(w, j, ctx, segs, more + {k});
        }
      }
      SeeingNoMoreDecidesNoMore(w, k, ctx, segs, rank, m, m');
    }
  }

  /** Marking a segment that does not have the context costs no other segment of its rank a member. */
  lemma {:induction false} MarkingANonMemberIsFree(
      w: World, k: string, j: string, ctx: Context, segs: map<string, Segment>, rank: map<string, nat>,
      visited: set<string>)
    requires WellKeyed(segs) && Stratified(w, ctx, segs, rank) && k in segs && j in segs && rank[k] == rank[j]
    requires !InSegment(w, segs[k], ctx, segs, visited) && InSegment(w, segs[j], ctx, segs, visited)
    ensures InSegment(w, segs[j], ctx, segs, visited + {k})
    decreases |segs.Keys - visited|
  {
    MarkingShrinksStored(segs, j, visited);
    var inner, marked := visited + {j}, visited + {k} + {j};
    var m, m' := Members(w, ctx, segs, inner), Members(w, ctx, segs, marked);
    assert marked == inner + {k};
    MarksOnlyCost(w, k, ctx, segs, rank, visited, inner);
    forall i | i in segs && rank[i] <= rank[j]
      ensures rank[i] < rank[j] ==> (i in m' <==> i in m)
      ensures rank[i] == rank[j] && i in m ==> i in m'
    {
      if rank[i] < rank[j] {
        LowerIsUnmarked(w, i, ctx, segs, rank, inner, marked, rank[j]);
      } else {
        MembershipMeans(w, i, ctx, segs, inner);
        MembershipMeans(w, i, ctx, segs, marked);
        if i in m {
          MarkingANonMemberIsFree(w, k, i, ctx, segs, rank, inner);
        }
      }
    }
    SeeingNoMoreDecidesNoMore(w, j, ctx, segs, rank, m', m);
  }

  // ----- the guarded answers are the meaning -----

  /** The documented meaning, with no guard: a stored segment has the context exactly when it decides so
      from the memberships themselves. */
  ghost predicate Consistent(w: World, ctx: Context, segs: map<string, Segment>, members: set<string>) {
    && members <= segs.Keys
    && forall k :: k in segs ==> (k in members <==> Decide(w, segs[k], ctx, members))
  }

  /** The marks under which a segment is decided do not change its decision: neither for a member, since marks only
      cost, nor for a non-member, since marking one is free. */
  lemma UnmarkedDecidesAlike(w: World, k: string, ctx: Context, segs: map<string, Segment>, rank: map<string, nat>)
    requires WellKeyed(segs) && Stratified(w, ctx, segs, rank) && k in segs
    ensures k in Members(w, ctx, segs, {}) <==> Decide(w, segs[k], ctx, Members(w, ctx, segs, {}))
  {
    var m, inner := Members(w, ctx, segs, {}), Members(w, ctx, segs, {} + {k});
    MembershipMeans(w, k, ctx, segs, {});
    forall j | j in segs && rank[j] <= rank[k]
      ensures rank[j] < rank[k] ==> (j in m <==> j in inner)
      ensures rank[j] == rank[k] && j in inner ==> j in m
      ensures rank[j] == rank[k] && j in m && k !in m ==> j in inner
    {
      if rank[j] < rank[k] {
        LowerIsUnmarked(w, j, ctx, segs, rank, {}, {} + {k}, rank[k]);
      } else {
        MembershipMeans(w, j, ctx, segs, {});
        MembershipMeans(w, j, ctx, segs, {} + {k});
        MarksOnlyCost(w, j, ctx, segs, rank, {}, {} + {k});
        if j in m && k !in m {
          MarkingANonMemberIsFree(w, k, j, ctx, segs, rank, {});
        }
      }
    }
    if k in m {
      SeeingNoMoreDecidesNoMore(w, k, ctx, segs, rank, m, inner);
    } else {
      SeeingNoMoreDecidesNoMore(w, k, ctx, segs, rank, inner, m);
    }
  }

  lemma RankedMembershipIsConsistent(w: World, ctx: Context, segs: map<string, Segment>, rank: map<string, nat>)
    requires WellKeyed(segs) && Stratified(w, ctx, segs, rank)
    ensures Consistent(w, ctx, segs, Members(w, ctx, segs, {}))
  {
    forall k | k in segs
      ensures k in Members(w, ctx, segs, {}) <==> Decide(w, segs[k], ctx, Members(w, ctx, segs, {}))
    {
      UnmarkedDecidesAlike(w, k, ctx, segs, rank);
    }
  }

  /** On every graph with no risky reference on a cycle, the guarded answers satisfy the documented meaning. */
  lemma GuardedMembershipIsConsistent(w: World, ctx: Context, segs: map<string, Segment>)
    requires WellKeyed(segs) && RiskOffCycles(w, ctx, segs)
    ensures Consistent(w, ctx, segs, Members(w, ctx, segs, {}))
  {
    StratifiedExactly(w, ctx, segs);
    var rank :| Stratified(w, ctx, segs, rank);
    RankedMembershipIsConsistent(w, ctx, segs, rank);
  }

  /** What can be told from the stored segments alone: only negated references, and those in a rule with a weight that
      other rules follow, are risky for some context. */
  ghost predicate MayBeRisky(seg: Segment, k: string) {
    exists i, c :: 0 <= i < |seg.rules| && c in seg.rules[i].clauses && ClauseNames(c, k)
                   && (c.negate || (seg.rules[i].weight.Some? && i + 1 < |seg.rules|))
  }

  /** So segments whose cycles avoid those have the documented meaning for every context. */
  lemma SafeForEveryContext(w: World, ctx: Context, segs: map<string, Segment>)
    requires WellKeyed(segs) && forall k, j :: k in segs && j in segs && MayBeRisky(segs[k], j) ==> !Reaches(segs, j, k)
    ensures RiskOffCycles(w, ctx, segs) && Consistent(w, ctx, segs, Members(w, ctx, segs, {}))
  {
    forall k, j | k in segs && j in segs && Risky(w, ctx, segs[k], j) ensures !Reaches(segs, j, k) {
      assert MayBeRisky(segs[k], j);
    }
    GuardedMembershipIsConsistent(w, ctx, segs);
  }

  // ----- and the least such meaning, rank by rank -----

  ghost predicate AgreeBelow(
      segs: map<string, Segment>, rank: map<string, nat>, m: set<string>, m': set<string>, n: nat)
    requires segs.Keys <= rank.Keys
  {
    forall k :: k in segs && rank[k] < n ==> (k in m <==> k in m')
  }

  /** Any consistent membership that agrees below rank `n` has at least the guarded members of that rank. */
  lemma {:induction false} MembersAreForced(
      w: World, k: string, ctx: Context, segs: map<string, Segment>, rank: map<string, nat>, visited: set<string>,
      other: set<string>)
    requires WellKeyed(segs) && Stratified(w, ctx, segs, rank) && k in segs && Consistent(w, ctx, segs, other)
    requires MarksAdded(segs, rank, {}, visited, rank[k])
    requires AgreeBelow(segs, rank, Members(w, ctx, segs, {}), other, rank[k])
    requires InSegment(w, segs[k], ctx, segs, visited)
    ensures k in other
    decreases |segs.Keys - visited|
  {
    MarkingShrinksStored(segs, k, visited);
    var inner := Members(w, ctx, segs, visited + {k});
    forall j | j in segs && rank[j] <= rank[k]
      ensures rank[j] < rank[k] ==> (j in other <==> j in inner)
      ensures rank[j] == rank[k] && j in inner ==> j in other
    {
      if rank[j] < rank[k] {
        LowerIsUnmarked(w, j, ctx, segs, rank, {}, visited + {k}, rank[k]);
      } else {
        MembershipMeans(w, j, ctx, segs, visited + {k});
        if j in inner {
          MembersAreForced(w, j, ctx, segs, rank, visited + {k}, other);
        }
      }
    }
    SeeingNoMoreDecidesNoMore(w, k, ctx, segs, rank, other, inner);
  }

  /** Consistent, and at each rank no larger than any consistent membership that agrees below it. */
  ghost predicate LeastByRank(
      w: World, ctx: Context, segs: map<string, Segment>, rank: map<string, nat>, m: set<string>)
    requires segs.Keys <= rank.Keys
  {
    && Consistent(w, ctx, segs, m)
    && forall other, k :: Consistent(w, ctx, segs, other) && k in m && AgreeBelow(segs, rank, m, other, rank[k]) ==>
         k in other
  }

  lemma {:induction false} LeastIsUnique(
      w: World, ctx: Context, segs: map<string, Segment>, rank: map<string, nat>, m: set<string>, m': set<string>,
      k: string)
    requires segs.Keys <= rank.Keys && k in segs
    requires LeastByRank(w, ctx, segs, rank, m) && LeastByRank(w, ctx, segs, rank, m')
    ensures k in m <==> k in m'
    decreases rank[k]
  {
    forall j | j in segs && rank[j] < rank[k] ensures j in m <==> j in m' {
      LeastIsUnique(w, ctx, segs, rank, m, m', j);
    }
    assert AgreeBelow(segs, rank, m, m', rank[k]) && AgreeBelow(segs, rank, m', m, rank[k]);
  }

  /** On every graph with no risky reference on a cycle, the guard computes the one least meaning: a membership is
      consistent and least rank by rank exactly when it is the guarded one. */
  lemma GuardedMembershipIsTheMeaning(
      w: World, ctx: Context, segs: map<string, Segment>, rank: map<string, nat>, members: set<string>)
    requires WellKeyed(segs) && Stratified(w, ctx, segs, rank)
    ensures LeastByRank(w, ctx, segs, rank, members) <==> members == Members(w, ctx, segs, {})
  {
    var guarded := Members(w, ctx, segs, {});
    RankedMembershipIsConsistent(w, ctx, segs, rank);
    forall other, k | Consistent(w, ctx, segs, other) && k in guarded && AgreeBelow(segs, rank, guarded, other, rank[k])
      ensures k in other
    {
      MembershipMeans(w, k, ctx, segs, {});
      MembersAreForced(w, k, ctx, segs, rank, {}, other);
    }
    if LeastByRank(w, ctx, segs, rank, members) {
      forall k | k in segs ensures k in members <==> k in guarded {
        LeastIsUnique(w, ctx, segs, rank, members, guarded, k);
      }
    }
  }

  /** With no risky reference at all, on every graph, the guarded answers are the least consistent membership. */
  lemma PositiveMembershipIsLeast(w: World, ctx: Context, segs: map<string, Segment>, other: set<string>)
    requires WellKeyed(segs) && forall k, j :: k in segs && j in segs ==> !Risky(w, ctx, segs[k], j)
    ensures Consistent(w, ctx, segs, Members(w, ctx, segs, {}))
    ensures Consistent(w, ctx, segs, other) ==> Members(w, ctx, segs, {}) <= other
  {
    var rank: map<string, nat> := map k | k in segs :: 0;
    GuardedMembershipIsTheMeaning(w, ctx, segs, rank, Members(w, ctx, segs, {}));
    if Consistent(w, ctx, segs, other) {
      forall k | k in Members(w, ctx, segs, {}) ensures k in other {
        assert AgreeBelow(segs, rank, Members(w, ctx, segs, {}), other, rank[k]);
      }
    }
  }

  /** With no cycle at all, the guarded answers are the only consistent membership. */
  lemma AcyclicMembershipIsUnique(w: World, ctx: Context, segs: map<string, Segment>, members: set<string>)
    requires WellKeyed(segs) && forall k, j :: k in segs && j in segs && RefersTo(segs[k], j) ==> !Reaches(segs, j, k)
    ensures Consistent(w, ctx, segs, members) <==> members == Members(w, ctx, segs, {})
  {
    forall k, j | k in segs && j in segs && Risky(w, ctx, segs[k], j) ensures !Reaches(segs, j, k) {
    }
    GuardedMembershipIsConsistent(w, ctx, segs);
    if Consistent(w, ctx, segs, members) {
      forall k | k in segs ensures k in members <==> k in Members(w, ctx, segs, {}) {
        ConsistentMembershipsAgree(w, k, ctx, segs, members, Members(w, ctx, segs, {}));
      }
    }
  }

  lemma {:induction false} ConsistentMembershipsAgree(
      w: World, k: string, ctx: Context, segs: map<string, Segment>, m: set<string>, m': set<string>)
    requires forall k, j :: k in segs && j in segs && RefersTo(segs[k], j) ==> !Reaches(segs, j, k)
    requires k in segs && Consistent(w, ctx, segs, m) && Consistent(w, ctx, segs, m')
    ensures k in m <==> k in m'
    decreases |ReachedFrom(segs, k)|
  {
    forall j | RefersTo(segs[k], j) ensures j in m <==> j in m' {
      if j in segs {
        ReachShrinks(segs, k, j);
        ConsistentMembershipsAgree(w, j, ctx, segs, m, m');
      }
    }
    BothWays(w, segs[k], ctx, m, m');
  }

  // ----- both risks are real -----

  /** A clause on one segment. */
  function OnSegment(key: string, negate: bool): Clause {
    Clause("", "", OP_SEGMENT_MATCH, [Str(key)], negate)
  }

  function WithRules(key: string, rules: seq<SegmentRule>): Segment {
    Segment(key, "", [], [], [], [], rules)
  }

  function IfMember(key: string, negate: bool, weight: Option<int>): SegmentRule {
    SegmentRule([OnSegment(key, negate)], weight, "", "")
  }

  lemma IfMemberHolds(w: World, key: string, negate: bool, weight: Option<int>, ctx: Context, members: set<string>)
    ensures AllHold(w, IfMember(key, negate, weight).clauses, ctx, members) <==> (key in members) != negate
  {
    var c := OnSegment(key, negate);
    assert forall v :: v in c.values <==> v == Str(key);
    assert ClauseHolds(w, c, ctx, members) <==> (key in members) != negate;
    assert forall c' :: c' in [c] <==> c' == c;
  }

  /** A segment with one rule: in, or not in, segment `other`. */
  lemma OneRuleDecides(w: World, key: string, other: string, negate: bool, ctx: Context, members: set<string>)
    ensures Decide(w, WithRules(key, [IfMember(other, negate, None)]), ctx, members) <==> (other in members) != negate
  {
    var seg := WithRules(key, [IfMember(other, negate, None)]);
    IfMemberHolds(w, other, negate, None, ctx, members);
    assert !RulesAdmit(w, seg, seg.rules[1..], ctx, members);
  }

  // Negation: two segments, each the other's complement.

  function NotIn(key: string, other: string): Segment {
    WithRules(key, [IfMember(other, true, None)])
  }

  lemma ComplementRejects(w: World, k: string, other: string, ctx: Context, segs: map<string, Segment>)
    requires WellKeyed(segs) && k != other && segs == map[k := NotIn(k, other), other := NotIn(other, k)]
    ensures k !in Members(w, ctx, segs, {})
  {
    MembershipMeans(w, k, ctx, segs, {});
    MembershipMeans(w, other, ctx, segs, {} + {k});
    MembershipMeans(w, k, ctx, segs, {} + {k} + {other});
    OneRuleDecides(w, k, other, true, ctx, Members(w, ctx, segs, {} + {k}));
    OneRuleDecides(w, other, k, true, ctx, Members(w, ctx, segs, {} + {k} + {other}));
  }

  /** Negation must stay off cycles: two segments defined as each other's complement both reject every context,
      although one of them should have it. */
  lemma ComplementaryCycleRejectsEveryone(w: World, ctx: Context)
    ensures var segs := map["a" := NotIn("a", "b"), "b" := NotIn("b", "a")];
            && WellKeyed(segs)
            && Consistent(w, ctx, segs, {"a"}) && Consistent(w, ctx, segs, {"b"})
            && Members(w, ctx, segs, {}) == {}
            && !Consistent(w, ctx, segs, Members(w, ctx, segs, {}))
  {
    var segs := map["a" := NotIn("a", "b"), "b" := NotIn("b", "a")];
    OneRuleDecides(w, "a", "b", true, ctx, {"a"});
    OneRuleDecides(w, "b", "a", true, ctx, {"a"});
    OneRuleDecides(w, "a", "b", true, ctx, {"b"});
    OneRuleDecides(w, "b", "a", true, ctx, {"b"});
    OneRuleDecides(w, "a", "b", true, ctx, {});
    ComplementRejects(w, "a", "b", ctx, segs);
    ComplementRejects(w, "b", "a", ctx, segs);
    assert Members(w, ctx, segs, {}) <= segs.Keys == {"a", "b"};
  }

  // Weight: a rule that holds for members of b and admits nobody comes before one that admits members of c,
  // and b has the members of a.

  function BlockedByB(): Segment {
    WithRules("a", [IfMember("b", false, Some(0)), IfMember("c", false, None)])
  }

  function FollowsA(): Segment {
    WithRules("b", [IfMember("a", false, None)])
  }

  function ListsUser(user: string): Segment {
    Segment("c", "", [user], [], [], [], [])
  }

  function User(user: string): Context {
    Context(map["user" := SingleContext(user, map[])])
  }

  lemma ADecides(w: World, ctx: Context, members: set<string>)
    ensures Decide(w, BlockedByB(), ctx, members) <==> "b" !in members && "c" in members
  {
    var seg := BlockedByB();
    IfMemberHolds(w, "b", false, Some(0), ctx, members);
    IfMemberHolds(w, "c", false, None, ctx, members);
    WeightlessAdmitsNobody(w, seg, seg.rules[0], ctx);
    assert RulesAdmit(w, seg, seg.rules[1..], ctx, members) <==> "c" in members;
  }

  lemma WeightlessAdmitsNobody(w: World, seg: Segment, rule: SegmentRule, ctx: Context)
    requires rule.weight == Some(0)
    ensures !Admits(w, seg, rule, ctx)
  {
    PartsGrow(0, 0);
    forall n: Hash60 ensures Point(n) >= 0.0 {
      PointsGrow(n, n);
    }
  }

  /** So must rules that hold without admitting while others follow, with no negation anywhere: this graph accepts
      the user everywhere, and no membership at all satisfies it. */
  lemma WeightedCycleHasNoMeaning(w: World, user: string)
    ensures var segs := map["a" := BlockedByB(), "b" := FollowsA(), "c" := ListsUser(user)];
            && WellKeyed(segs)
            && Members(w, User(user), segs, {}) == {"a", "b", "c"}
            && forall members :: !Consistent(w, User(user), segs, members)
  {
    var segs, ctx := map["a" := BlockedByB(), "b" := FollowsA(), "c" := ListsUser(user)], User(user);
    forall visited | "c" !in visited ensures "c" in Members(w, ctx, segs, visited) {
      MembershipMeans(w, "c", ctx, segs, visited);
    }
    ADecides(w, ctx, Members(w, ctx, segs, {} + {"a"}));
    ADecides(w, ctx, Members(w, ctx, segs, {} + {"b"} + {"a"}));
    OneRuleDecides(w, "b", "a", false, ctx, Members(w, ctx, segs, {} + {"b"}));
    OneRuleDecides(w, "b", "a", false, ctx, Members(w, ctx, segs, {} + {"a"} + {"b"}));
    MembershipMeans(w, "a", ctx, segs, {});
    MembershipMeans(w, "b", ctx, segs, {});
    MembershipMeans(w, "b", ctx, segs, {} + {"a"});
    MembershipMeans(w, "a", ctx, segs, {} + {"b"});
    MembershipMeans(w, "a", ctx, segs, {} + {"a"} + {"b"});
    MembershipMeans(w, "b", ctx, segs, {} + {"b"} + {"a"});
    assert Members(w, ctx, segs, {}) <= segs.Keys == {"a", "b", "c"};
    forall members ensures !Consistent(w, ctx, segs, members) {
      ADecides(w, ctx, members);
      OneRuleDecides(w, "b", "a", false, ctx, members);
    }
  }
}
