// Segments that refer to one another in a ring: what the cycle guard answers on it, and whether any membership
// satisfies the documented meaning there.
module SegmentCycles {
  import opened Models
  import opened Segments
  import opened SegmentMeaning

  /** A segment of the ring, and whether it negates its reference to the next. */
  datatype Link = Link(key: string, negate: bool)

  ghost predicate IsReference(c: Clause, next: string, negate: bool) {
    c.op == OP_SEGMENT_MATCH && c.values == [Str(next)] && c.negate == negate
  }

  /** The segment lists the context neither way, and its one rule admits it for being, or not being, in `next`. */
  ghost predicate Relays(w: World, ctx: Context, seg: Segment, next: string, negate: bool) {
    && !Lists(seg.excluded, seg.excludedContexts, ctx) && !Lists(seg.included, seg.includedContexts, ctx)
    && |seg.rules| == 1 && Admits(w, seg, seg.rules[0], ctx)
    && |seg.rules[0].clauses| == 1 && IsReference(seg.rules[0].clauses[0], next, negate)
  }

  lemma RelayDecides(w: World, ctx: Context, seg: Segment, next: string, negate: bool, members: set<string>)
    requires Relays(w, ctx, seg, next, negate)
    ensures Decide(w, seg, ctx, members) <==> (next in members) != negate
  {
    var c := seg.rules[0].clauses[0];
    assert forall v :: v in c.values <==> v == Str(next);
    assert ClauseHolds(w, c, ctx, members) <==> (next in members) != negate;
    assert forall c' :: c' in seg.rules[0].clauses <==> c' == c;
    assert !RulesAdmit(w, seg, seg.rules[1..], ctx, members);
  }

  /** The key that link `i` refers to: the next one round the ring. */
  ghost function NextKey(ring: seq<Link>, i: nat): string
    requires i < |ring|
  {
    if i + 1 < |ring| then ring[i + 1].key else ring[0].key
  }

  ghost predicate DistinctKeys(ring: seq<Link>) {
    forall i, j :: 0 <= i < j < |ring| ==> ring[i].key != ring[j].key
  }

  /** Among the stored segments, those of the ring each relay the next. */
  ghost predicate IsRing(w: World, ctx: Context, segs: map<string, Segment>, ring: seq<Link>) {
    && ring != [] && DistinctKeys(ring)
    && forall i :: 0 <= i < |ring| ==>
         ring[i].key in segs && Relays(w, ctx, segs[ring[i].key], NextKey(ring, i), ring[i].negate)
  }

  ghost function KeysOf(ring: seq<Link>): set<string> {
    set l | l in ring :: l.key
  }

  /** Whether an odd number of the links is negated. */
  ghost predicate OddlyNegated(ring: seq<Link>) {
    ring != [] && ring[0].negate != OddlyNegated(ring[1..])
  }

  lemma {:induction false} ParityAdds(a: seq<Link>, b: seq<Link>)
    ensures OddlyNegated(a + b) <==> OddlyNegated(a) != OddlyNegated(b)
  {
    if a == [] {
      assert a + b == b;
    } else {
      assert (a + b)[1..] == a[1..] + b;
      ParityAdds(a[1..], b);
    }
  }

  // ----- what the guard answers -----

  lemma LinkAnswers(w: World, ctx: Context, segs: map<string, Segment>, ring: seq<Link>, j: nat, visited: set<string>)
    requires WellKeyed(segs) && IsRing(w, ctx, segs, ring) && j < |ring| && ring[j].key !in visited
    ensures ring[j].key in Members(w, ctx, segs, visited) <==>
            (NextKey(ring, j) in Members(w, ctx, segs, visited + {ring[j].key})) != ring[j].negate
  {
    var l := ring[j];
    MembershipMeans(w, l.key, ctx, segs, visited);
    RelayDecides(w, ctx, segs[l.key], NextKey(ring, j), l.negate, Members(w, ctx, segs, visited + {l.key}));
  }

  lemma MarkedLinks(ring: seq<Link>, j: nat)
    requires DistinctKeys(ring) && j < |ring|
    ensures ring[j].key !in KeysOf(ring[..j]) && KeysOf(ring[..j + 1]) == KeysOf(ring[..j]) + {ring[j].key}
    ensures ring[0].key in KeysOf(ring[..j + 1])
  {
    assert ring[..j + 1] == ring[..j] + [ring[j]];
    assert ring[0] in ring[..j + 1];
  }

  lemma ParityOfRest(ring: seq<Link>, j: nat)
    requires j < |ring|
    ensures OddlyNegated(ring[j..]) <==> ring[j].negate != OddlyNegated(ring[j + 1..])
  {
    assert ring[j..][1..] == ring[j + 1..];
  }

  /** With the links before `j` marked, the answer at `j` is the parity of what is left of the ring: the marked start
      has no members. */
  lemma {:induction false} AnswerAlong(w: World, ctx: Context, segs: map<string, Segment>, ring: seq<Link>, j: nat)
    requires WellKeyed(segs) && IsRing(w, ctx, segs, ring) && j < |ring|
    ensures ring[j].key in Members(w, ctx, segs, KeysOf(ring[..j])) <==> OddlyNegated(ring[j..])
    decreases |ring| - j
  {
    MarkedLinks(ring, j);
    LinkAnswers(w, ctx, segs, ring, j, KeysOf(ring[..j]));
    ParityOfRest(ring, j);
    if j + 1 < |ring| {
      AnswerAlong(w, ctx, segs, ring, j + 1);
    } else {
      MembershipMeans(w, ring[0].key, ctx, segs, KeysOf(ring[..j + 1]));
    }
  }

  /** The ring as seen from link `i`. */
  ghost function From(ring: seq<Link>, i: nat): seq<Link>
    requires i < |ring|
  {
    ring[i..] + ring[..i]
  }

  lemma TurnedAt(ring: seq<Link>, i: nat, j: nat) returns (at: nat)
    requires i < |ring| && j < |ring|
    ensures at < |ring| && From(ring, i)[j] == ring[at] && NextKey(From(ring, i), j) == NextKey(ring, at)
  {
    at := if i + j < |ring| then i + j else i + j - |ring|;
  }

  lemma TurnedLink(w: World, ctx: Context, segs: map<string, Segment>, ring: seq<Link>, i: nat, j: nat)
    requires IsRing(w, ctx, segs, ring) && i < |ring| && j < |ring|
    ensures var turned := From(ring, i);
            turned[j].key in segs && Relays(w, ctx, segs[turned[j].key], NextKey(turned, j), turned[j].negate)
  {
    var at := TurnedAt(ring, i, j);
  }

  lemma TurnedKeys(ring: seq<Link>, i: nat)
    requires DistinctKeys(ring) && i < |ring|
    ensures DistinctKeys(From(ring, i))
  {
  }

  lemma TurnedParity(ring: seq<Link>, i: nat)
    requires i < |ring|
    ensures OddlyNegated(From(ring, i)) <==> OddlyNegated(ring)
  {
    ParityAdds(ring[i..], ring[..i]);
    ParityAdds(ring[..i], ring[i..]);
    assert ring[..i] + ring[i..] == ring;
  }

  lemma TurnedRing(w: World, ctx: Context, segs: map<string, Segment>, ring: seq<Link>, i: nat)
    requires IsRing(w, ctx, segs, ring) && i < |ring|
    ensures IsRing(w, ctx, segs, From(ring, i))
  {
    TurnedKeys(ring, i);
    forall j | 0 <= j < |ring|
      ensures var l := From(ring, i)[j];
              l.key in segs && Relays(w, ctx, segs[l.key], NextKey(From(ring, i), j), l.negate)
    {
      TurnedLink(w, ctx, segs, ring, i, j);
    }
  }

  /** The guard gives all segments of the ring the same answer: the context is in them if and only if an odd number of
      them negates its reference. What else is stored does not matter. */
  lemma RingAnswers(w: World, ctx: Context, segs: map<string, Segment>, ring: seq<Link>)
    requires WellKeyed(segs) && IsRing(w, ctx, segs, ring)
    ensures forall i :: 0 <= i < |ring| ==> (ring[i].key in Members(w, ctx, segs, {}) <==> OddlyNegated(ring))
  {
    forall i | 0 <= i < |ring| ensures ring[i].key in Members(w, ctx, segs, {}) <==> OddlyNegated(ring) {
      var turned := From(ring, i);
      TurnedRing(w, ctx, segs, ring, i);
      TurnedParity(ring, i);
      AnswerAlong(w, ctx, segs, turned, 0);
      assert KeysOf(turned[..0]) == {} && turned[0..] == turned && turned[0] == ring[i];
    }
  }

  // ----- which memberships satisfy the meaning -----

  /** The membership answers every link of the ring as the definition asks. */
  ghost predicate Satisfies(ring: seq<Link>, members: set<string>) {
    forall i :: 0 <= i < |ring| ==> (ring[i].key in members <==> (NextKey(ring, i) in members) != ring[i].negate)
  }

  lemma ConsistentSatisfies(w: World, ctx: Context, segs: map<string, Segment>, ring: seq<Link>, members: set<string>)
    requires IsRing(w, ctx, segs, ring)
    ensures Consistent(w, ctx, segs, members) ==> Satisfies(ring, members)
    ensures segs.Keys == KeysOf(ring) && members <= segs.Keys ==>
              (Consistent(w, ctx, segs, members) <==> Satisfies(ring, members))
  {
    forall i | 0 <= i < |ring|
      ensures Decide(w, segs[ring[i].key], ctx, members) <==> (NextKey(ring, i) in members) != ring[i].negate
    {
      RelayDecides(w, ctx, segs[ring[i].key], NextKey(ring, i), ring[i].negate, members);
    }
    if segs.Keys == KeysOf(ring) && members <= segs.Keys && Satisfies(ring, members) {
      forall k | k in segs ensures k in members <==> Decide(w, segs[k], ctx, members) {
        var i :| 0 <= i < |ring| && ring[i].key == k;
      }
    }
  }

  /** The first segment has the context, or not, and each link passes that on. */
  lemma {:induction false} SatisfiedAlong(ring: seq<Link>, members: set<string>, j: nat)
    requires ring != [] && j < |ring| && Satisfies(ring, members)
    ensures ring[j].key in members <==> (ring[0].key in members) != OddlyNegated(ring[j..])
    decreases |ring| - j
  {
    ParityOfRest(ring, j);
    if j + 1 < |ring| {
      SatisfiedAlong(ring, members, j + 1);
    }
  }

  /** The membership of a ring in which the first segment has the context, or has not. */
  ghost function Around(ring: seq<Link>, first: bool): set<string> {
    set j | 0 <= j < |ring| && first != OddlyNegated(ring[j..]) :: ring[j].key
  }

  lemma AroundMeans(ring: seq<Link>, first: bool, j: nat)
    requires DistinctKeys(ring) && j < |ring|
    ensures ring[j].key in Around(ring, first) <==> first != OddlyNegated(ring[j..])
  {
    if ring[j].key in Around(ring, first) {
      var i :| 0 <= i < |ring| && first != OddlyNegated(ring[i..]) && ring[i].key == ring[j].key;
      assert i == j;
    }
  }

  lemma AroundSatisfies(ring: seq<Link>, first: bool)
    requires ring != [] && DistinctKeys(ring) && !OddlyNegated(ring)
    ensures Satisfies(ring, Around(ring, first)) && Around(ring, first) <= KeysOf(ring)
    ensures ring[0].key in Around(ring, first) <==> first
  {
    assert ring[0..] == ring;
    AroundMeans(ring, first, 0);
    var members := Around(ring, first);
    forall i | 0 <= i < |ring|
      ensures ring[i].key in members <==> (NextKey(ring, i) in members) != ring[i].negate
    {
      AroundMeans(ring, first, i);
      ParityOfRest(ring, i);
      if i + 1 < |ring| {
        AroundMeans(ring, first, i + 1);
      }
    }
  }

  lemma SatisfyingIsAround(ring: seq<Link>, members: set<string>)
    requires ring != [] && DistinctKeys(ring) && Satisfies(ring, members) && members <= KeysOf(ring)
    ensures members == Around(ring, ring[0].key in members)
  {
    var first := ring[0].key in members;
    forall k | k in members ensures k in Around(ring, first) {
      var j :| 0 <= j < |ring| && ring[j].key == k;
      SatisfiedAlong(ring, members, j);
    }
    forall k | k in Around(ring, first) ensures k in members {
      var j :| 0 <= j < |ring| && first != OddlyNegated(ring[j..]) && ring[j].key == k;
      SatisfiedAlong(ring, members, j);
    }
  }

  /** With an odd number of negated references nothing satisfies the meaning, whatever else is stored. */
  lemma OddRingHasNoMeaning(w: World, ctx: Context, segs: map<string, Segment>, ring: seq<Link>, members: set<string>)
    requires IsRing(w, ctx, segs, ring) && OddlyNegated(ring)
    ensures !Consistent(w, ctx, segs, members)
  {
    ConsistentSatisfies(w, ctx, segs, ring, members);
    if Satisfies(ring, members) {
      SatisfiedAlong(ring, members, 0);
      assert ring[0..] == ring;
    }
  }

  lemma {:induction false} NegatedSomewhere(ring: seq<Link>)
    requires OddlyNegated(ring)
    ensures exists l :: l in ring && l.negate
  {
    assert ring[0] in ring;
    if !ring[0].negate {
      NegatedSomewhere(ring[1..]);
      var l :| l in ring[1..] && l.negate;
      assert l in ring;
    }
  }

  /** A ring by itself: some membership satisfies the meaning if and only if an even number of references is negated,
      and then exactly two do; the one the guard computes does if and only if none is negated. */
  lemma RingExactly(w: World, ctx: Context, segs: map<string, Segment>, ring: seq<Link>)
    requires WellKeyed(segs) && IsRing(w, ctx, segs, ring) && segs.Keys == KeysOf(ring)
    ensures (exists members :: Consistent(w, ctx, segs, members)) <==> !OddlyNegated(ring)
    ensures !OddlyNegated(ring) ==>
              && Around(ring, true) != Around(ring, false)
              && forall members :: Consistent(w, ctx, segs, members) <==>
                   members in {Around(ring, true), Around(ring, false)}
    ensures Consistent(w, ctx, segs, Members(w, ctx, segs, {})) <==> forall l :: l in ring ==> !l.negate
  {
    if OddlyNegated(ring) {
      forall members ensures !Consistent(w, ctx, segs, members) {
        OddRingHasNoMeaning(w, ctx, segs, ring, members);
      }
      NegatedSomewhere(ring);
    } else {
      EvenRingHasTwo(w, ctx, segs, ring);
      assert Consistent(w, ctx, segs, Around(ring, true));
      RingAnswers(w, ctx, segs, ring);
      ConsistentSatisfies(w, ctx, segs, ring, Members(w, ctx, segs, {}));
      NobodyAround(ring, Members(w, ctx, segs, {}));
    }
  }

  lemma EvenRingHasTwo(w: World, ctx: Context, segs: map<string, Segment>, ring: seq<Link>)
    requires IsRing(w, ctx, segs, ring) && segs.Keys == KeysOf(ring) && !OddlyNegated(ring)
    ensures Around(ring, true) != Around(ring, false)
    ensures forall members ::
              Consistent(w, ctx, segs, members) <==> members in {Around(ring, true), Around(ring, false)}
  {
    AroundSatisfies(ring, true);
    AroundSatisfies(ring, false);
    forall members
      ensures Consistent(w, ctx, segs, members) <==> members in {Around(ring, true), Around(ring, false)}
    {
      ConsistentSatisfies(w, ctx, segs, ring, members);
      if Consistent(w, ctx, segs, members) {
        SatisfyingIsAround(ring, members);
      }
    }
  }

  /** Having the context nowhere satisfies a ring exactly if nothing in it is negated. */
  lemma NobodyAround(ring: seq<Link>, members: set<string>)
    requires ring != [] && forall i :: 0 <= i < |ring| ==> ring[i].key !in members
    ensures Satisfies(ring, members) <==> forall l :: l in ring ==> !l.negate
  {
    forall i | 0 <= i < |ring| ensures NextKey(ring, i) !in members && ring[i] in ring {
    }
  }
}
