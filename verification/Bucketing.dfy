// Percentage rollouts: a stable hash places a context on a line that the weights cut into buckets. Points and
// edges are computed in floating point, as the program does.
module Bucketing {
  import opened Models
  import opened Text
  import opened Float64
  import opened Int64

  const FULL_WEIGHT := 100000

  /** Only strings and whole numbers can be hashed. */
  function BucketableString(v: Value): Option<string> {
    match v
    case Str(s) => Some(s)
    case Num(r) =>
      var n := r.Floor;
      if n as real == r && MIN_INT64 <= n <= MAX_INT64 then Some(Itoa(n)) else None
    case _ => None
  }

  /** Two to the sixtieth: how many hashes there are, and what the largest of them is stored as (ScaleRoundsUp). */
  const HASHES: int := LONG_SCALE + 1

  /** A hash as a point of the line. */
  function Point(n: Hash60): real {
    Round(Round(n as real) / HASHES as real)
  }

  /** A weight as a part of the line. */
  function Fraction(weight: int): real {
    Round(Round(weight as real) / FULL_WEIGHT as real)
  }

  /** A context's point; a missing or unhashable value lands on 0. */
  function ComputeBucket(w: World, prefix: string, bucketBy: string, kind: string, ctx: Context): real {
    match ValueForRef(ctx, kind, if bucketBy == "" then "key" else bucketBy)
    case None => 0.0
    case Some(v) =>
      match BucketableString(v)
      case None => 0.0
      case Some(text) => Point(w.hash(prefix + "." + text))
  }

  /** The total weight of the first `i` entries. */
  function Cumulative(ws: seq<WeightedVariation>, i: nat): int
    requires i <= |ws|
  {
    if i == 0 then 0 else Cumulative(ws, i - 1) + ws[i - 1].weight
  }

  /** Where entry `i` begins: the sum of the parts before it, rounded at every addition. */
  function Edge(ws: seq<WeightedVariation>, i: nat): real
    requires i <= |ws|
  {
    if i == 0 then 0.0 else Round(Edge(ws, i - 1) + Fraction(ws[i - 1].weight))
  }

  /** Whether the point lies below the upper edge of entry `i`. */
  predicate BelowUpperEdge(ws: seq<WeightedVariation>, i: nat, point: real)
    requires i < |ws|
  {
    point < Edge(ws, i + 1)
  }

  /** The first entry at or after `from` whose upper edge lies above the point, or the last entry. */
  function PickFrom(ws: seq<WeightedVariation>, point: real, from: nat): (i: nat)
    requires from < |ws|
    ensures from <= i < |ws|
    ensures forall j: nat :: from <= j < i ==> !BelowUpperEdge(ws, j, point)
    ensures BelowUpperEdge(ws, i, point) || i == |ws| - 1
    decreases |ws| - from
  {
    if BelowUpperEdge(ws, from, point) || from == |ws| - 1 then from else PickFrom(ws, point, from + 1)
  }

  function Pick(ws: seq<WeightedVariation>, point: real): (i: nat)
    requires ws != []
    ensures i < |ws|
  {
    PickFrom(ws, point, 0)
  }

  function RolloutPrefix(key: string, salt: string, rollout: Rollout): string {
    match rollout.seed
    case Some(seed) => Itoa(seed)
    case None => key + "." + salt
  }

  function RolloutPoint(w: World, key: string, salt: string, rollout: Rollout, ctx: Context): real {
    ComputeBucket(w, RolloutPrefix(key, salt, rollout), rollout.bucketBy, rollout.contextKind, ctx)
  }

  function RolloutVariation(w: World, key: string, salt: string, rollout: Rollout, ctx: Context): int {
    if rollout.variations == [] then 0
    else rollout.variations[Pick(rollout.variations, RolloutPoint(w, key, salt, rollout, ctx))].variation
  }

  /** Picks a variation by accumulating weights until they pass the point. */
  method Bucket(w: World, key: string, salt: string, rollout: Rollout, ctx: Context) returns (variation: int)
    ensures variation == RolloutVariation(w, key, salt, rollout, ctx)
  {
    var ws := rollout.variations;
    if |ws| == 0 {
      return 0;
    }
    var point := ComputeBucket(w, RolloutPrefix(key, salt, rollout), rollout.bucketBy, rollout.contextKind, ctx);
    var sum := 0.0;
    for i := 0 to |ws|
      invariant sum == Edge(ws, i)
      invariant i == |ws| ==> Pick(ws, point) == |ws| - 1
      invariant i < |ws| ==> Pick(ws, point) == PickFrom(ws, point, i)
    {
      sum := Round(sum + Fraction(ws[i].weight));
      if point < sum {
        return ws[i].variation;
      }
    }
    return ws[|ws| - 1].variation;
  }

  ghost predicate NonNegative(ws: seq<WeightedVariation>) {
    forall i :: 0 <= i < |ws| ==> ws[i].weight >= 0
  }

  /** The weights a validated rollout has: their sum is right as far as 64 bits show. */
  ghost predicate AcceptedWeights(ws: seq<WeightedVariation>) {
    ws != [] && NonNegative(ws) && Wrap64(Cumulative(ws, |ws|)) == FULL_WEIGHT
  }

  /** The weights a rollout should have. */
  ghost predicate FullWeights(ws: seq<WeightedVariation>) {
    ws != [] && NonNegative(ws) && Cumulative(ws, |ws|) == FULL_WEIGHT
  }

  /** Entry `i` owns the points from its lower edge up to, not including, its upper edge. */
  ghost predicate Owns(ws: seq<WeightedVariation>, i: nat, point: real)
    requires i < |ws|
  {
    Edge(ws, i) <= point && BelowUpperEdge(ws, i, point)
  }

  // ----- what acceptance says of the sum -----

  lemma AcceptedTotal(ws: seq<WeightedVariation>)
    requires AcceptedWeights(ws)
    ensures Cumulative(ws, |ws|) >= FULL_WEIGHT
  {
    WeightedAtMostTotal(ws, 0, |ws|);
  }

  ghost predicate StaysIn64Bits(ws: seq<WeightedVariation>) {
    forall i: nat :: i <= |ws| ==> Cumulative(ws, i) <= MAX_INT64
  }

  ghost predicate NeverComputedNegative(ws: seq<WeightedVariation>) {
    forall i: nat :: i <= |ws| ==> Wrap64(Cumulative(ws, i)) >= 0
  }

  /** The weights of an accepted rollout add up exactly when no partial sum leaves the 64-bit range, which shows as no
      computed partial sum being negative. */
  lemma AcceptedSumIsFullExactly(ws: seq<WeightedVariation>)
    requires AcceptedWeights(ws) && forall i :: 0 <= i < |ws| ==> ws[i].weight <= MAX_INT64
    ensures FullWeights(ws) <==> StaysIn64Bits(ws)
    ensures FullWeights(ws) <==> NeverComputedNegative(ws)
  {
    forall i: nat | i <= |ws| ensures 0 <= Cumulative(ws, i) <= Cumulative(ws, |ws|) {
      WeightedAtMostTotal(ws, i, |ws|);
      WeightedAtMostTotal(ws, 0, i);
    }
    if NeverComputedNegative(ws) {
      NoNegativeSumNoOverflow(ws, |ws|);
    }
  }

  lemma {:induction false} NoNegativeSumNoOverflow(ws: seq<WeightedVariation>, i: nat)
    requires NonNegative(ws) && i <= |ws| && forall j :: 0 <= j < |ws| ==> ws[j].weight <= MAX_INT64
    requires NeverComputedNegative(ws)
    ensures 0 <= Cumulative(ws, i) <= MAX_INT64
  {
    if i > 0 {
      NoNegativeSumNoOverflow(ws, i - 1);
      assert Wrap64(Cumulative(ws, i)) >= 0;
    }
  }

  // ----- points -----

  /** The program's denominator is not the largest hash but one more: it has no 53-bit significand. */
  lemma ScaleRoundsUp()
    ensures Round(LONG_SCALE as real) == HASHES as real
  {
    HashRounding(LONG_SCALE);
  }

  /** In the upper half of the hashes, rounding goes to multiples of 128. */
  lemma HashRounding(n: Hash60)
    requires n >= HASHES / 2
    ensures Round(n as real) == 128.0 * Nearest(n as real / 128.0) as real
  {
    Scale7(n as real / 128.0);
  }

  /** The division is exact. */
  lemma PointIsScaled(n: Hash60)
    ensures Point(n) == Round(n as real) / HASHES as real
  {
    StoredIsFixed(n as real);
    SixtyHalvings(Round(n as real));
    assert HASHES as real == 1152921504606846976.0;
  }

  lemma PointsGrow(n: Hash60, m: Hash60)
    requires n <= m
    ensures 0.0 <= Point(n) <= Point(m) <= 1.0
  {
    PointIsScaled(n);
    PointIsScaled(m);
    RoundingGrows(0.0, n as real);
    RoundingGrows(n as real, m as real);
    RoundingGrows(m as real, LONG_SCALE as real);
    ScaleRoundsUp();
  }

  /** The bucket is said to lie below 1. It does, except for the 64 largest hashes. */
  lemma BucketIsOneExactly(n: Hash60)
    ensures Point(n) <= 1.0
    ensures Point(n) == 1.0 <==> n >= HASHES - 64
  {
    PointsGrow(n, n);
    PointIsScaled(n);
    if n >= HASHES / 2 {
      HashRounding(n);
    } else {
      RoundingGrows(n as real, (HASHES / 2) as real);
      HashRounding(HASHES / 2);
    }
  }

  // ----- edges -----

  lemma PartsGrow(a: int, b: int)
    requires a <= b
    ensures Fraction(a) <= Fraction(b)
    ensures Fraction(0) == 0.0
  {
    RoundingGrows(a as real, b as real);
    RoundingGrows(Round(a as real) / FULL_WEIGHT as real, Round(b as real) / FULL_WEIGHT as real);
  }

  lemma {:induction false} EdgeIsStored(ws: seq<WeightedVariation>, i: nat)
    requires i <= |ws|
    ensures Round(Edge(ws, i)) == Edge(ws, i)
  {
    if i > 0 {
      StoredIsFixed(Edge(ws, i - 1) + Fraction(ws[i - 1].weight));
    }
  }

  /** An entry without weight leaves the edge where it is, to the last bit; any other never moves it back. */
  lemma EdgeStep(ws: seq<WeightedVariation>, i: nat)
    requires i < |ws| && ws[i].weight >= 0
    ensures Edge(ws, i) <= Edge(ws, i + 1)
    ensures ws[i].weight == 0 ==> Edge(ws, i + 1) == Edge(ws, i)
  {
    EdgeIsStored(ws, i);
    PartsGrow(0, ws[i].weight);
    RoundingGrows(Edge(ws, i), Edge(ws, i) + Fraction(ws[i].weight));
  }

  lemma {:induction false} EdgesGrow(ws: seq<WeightedVariation>, i: nat, j: nat)
    requires i <= j <= |ws|
    requires NonNegative(ws)
    ensures 0.0 <= Edge(ws, i) <= Edge(ws, j)
    decreases j
  {
    if i < j {
      EdgesGrow(ws, i, j - 1);
      EdgeStep(ws, j - 1);
    } else if i > 0 {
      EdgesGrow(ws, i - 1, i - 1);
      EdgeStep(ws, i - 1);
    }
  }

  // ----- buckets partition the line -----

  /** Below the last edge the picked entry is the one owner of the point, and it has weight. */
  lemma PickIsTheOwner(ws: seq<WeightedVariation>, point: real)
    requires ws != [] && NonNegative(ws) && 0.0 <= point < Edge(ws, |ws|)
    ensures forall i: nat :: i < |ws| ==> (i == Pick(ws, point) <==> Owns(ws, i, point))
    ensures ws[Pick(ws, point)].weight > 0
  {
    var p := Pick(ws, point);
    assert BelowUpperEdge(ws, |ws| - 1, point);
    assert Owns(ws, p, point) by {
      if p > 0 {
        assert !BelowUpperEdge(ws, p - 1, point);
      }
    }
    EdgeStep(ws, p);
    forall i: nat | i < |ws| && i != p ensures !Owns(ws, i, point) {
      if i < p {
        EdgesGrow(ws, i + 1, p);
      } else {
        EdgesGrow(ws, p + 1, i);
      }
    }
  }

  /** The last-entry fallback is reached exactly from the last edge on, so an entry of weight 0 is served exactly
      when the point lies there and the last entry has weight 0. */
  lemma ZeroWeightServedExactly(ws: seq<WeightedVariation>, point: real)
    requires ws != [] && NonNegative(ws) && 0.0 <= point
    ensures (forall i: nat :: i < |ws| ==> !BelowUpperEdge(ws, i, point)) <==> Edge(ws, |ws|) <= point
    ensures ws[Pick(ws, point)].weight == 0 <==> Edge(ws, |ws|) <= point && ws[|ws| - 1].weight == 0
  {
    if point < Edge(ws, |ws|) {
      PickIsTheOwner(ws, point);
      assert BelowUpperEdge(ws, |ws| - 1, point);
    } else {
      forall i: nat | i < |ws| ensures !BelowUpperEdge(ws, i, point) {
        EdgesGrow(ws, i + 1, |ws|);
      }
    }
  }

  // ----- how far rounding can carry an edge -----

  /** The entries with weight among the first `i`. */
  function Weighted(ws: seq<WeightedVariation>, i: nat): nat
    requires i <= |ws|
  {
    if i == 0 then 0 else Weighted(ws, i - 1) + if ws[i - 1].weight > 0 then 1 else 0
  }

  lemma {:induction false} WeightedAtMostTotal(ws: seq<WeightedVariation>, i: nat, j: nat)
    requires i <= j <= |ws|
    requires NonNegative(ws)
    ensures Weighted(ws, i) <= Weighted(ws, j) && Cumulative(ws, i) <= Cumulative(ws, j)
    ensures Weighted(ws, j) <= Cumulative(ws, j)
    decreases j
  {
    if i < j {
      WeightedAtMostTotal(ws, i, j - 1);
    } else if i > 0 {
      WeightedAtMostTotal(ws, i - 1, i - 1);
    }
  }

  /** Three units in the last place for each weighted entry. */
  ghost function Slack(n: nat): real {
    3.0 * n as real / FULL as real
  }

  ghost function Exact(weight: int): real {
    weight as real / FULL_WEIGHT as real
  }

  lemma PartIsNear(weight: nat)
    requires weight <= FULL_WEIGHT + 1
    ensures Exact(weight) - 1.5 / FULL as real <= Fraction(weight) <= Exact(weight) + 1.5 / FULL as real
  {
    WholeIsFixed(weight);
    RoundingError(Exact(weight));
  }

  /** The place of a total weight, up to the slack of `n` additions. */
  ghost predicate IsNear(place: real, total: int, n: nat) {
    Exact(total) - Slack(n) <= place <= Exact(total) + Slack(n)
  }

  lemma NearPlusNear(edge: real, total: nat, n: nat, weight: nat)
    requires 0.0 <= edge && n <= total && total + weight <= FULL_WEIGHT + 1 && 0.0 <= Fraction(weight)
    requires IsNear(edge, total, n)
    ensures IsNear(Round(edge + Fraction(weight)), total + weight, n + 1)
  {
    PartIsNear(weight);
    RoundingError(edge + Fraction(weight));
  }

  /** Up to the end of the line, every edge lies where the weights put it, up to the slack. */
  lemma {:induction false} EdgeIsNear(ws: seq<WeightedVariation>, i: nat)
    requires NonNegative(ws) && i <= |ws| && Cumulative(ws, i) <= FULL_WEIGHT + 1
    ensures IsNear(Edge(ws, i), Cumulative(ws, i), Weighted(ws, i))
  {
    if i > 0 {
      WeightedAtMostTotal(ws, i - 1, i);
      EdgeIsNear(ws, i - 1);
      NextEdgeIsNear(ws, i - 1);
    }
  }

  lemma NextEdgeIsNear(ws: seq<WeightedVariation>, i: nat)
    requires NonNegative(ws) && i < |ws| && Cumulative(ws, i + 1) <= FULL_WEIGHT + 1
    requires IsNear(Edge(ws, i), Cumulative(ws, i), Weighted(ws, i))
    ensures IsNear(Edge(ws, i + 1), Cumulative(ws, i + 1), Weighted(ws, i + 1))
  {
    EdgesGrow(ws, i, i);
    WeightedAtMostTotal(ws, 0, i);
    EdgeStep(ws, i);
    if ws[i].weight > 0 {
      PartsGrow(0, ws[i].weight);
      NearPlusNear(Edge(ws, i), Cumulative(ws, i), Weighted(ws, i), ws[i].weight);
    }
  }

  /** An edge whose weights pass the end of the line lies beyond it. */
  lemma {:induction false} EdgeIsBeyond(ws: seq<WeightedVariation>, i: nat)
    requires NonNegative(ws) && i <= |ws| && Cumulative(ws, i) > FULL_WEIGHT
    ensures Edge(ws, i) > 1.0
  {
    WeightedAtMostTotal(ws, 0, i - 1);
    EdgeStep(ws, i - 1);
    if Cumulative(ws, i - 1) > FULL_WEIGHT {
      EdgeIsBeyond(ws, i - 1);
    } else {
      EdgeIsNear(ws, i - 1);
      EdgesGrow(ws, i - 1, i - 1);
      JumpsBeyond(Edge(ws, i - 1), Cumulative(ws, i - 1), Weighted(ws, i - 1), ws[i - 1].weight);
    }
  }

  lemma JumpsBeyond(edge: real, total: nat, n: nat, weight: nat)
    requires 0.0 <= edge && n <= total <= FULL_WEIGHT < total + weight && IsNear(edge, total, n)
    ensures Round(edge + Fraction(weight)) > 1.0
  {
    var enough := FULL_WEIGHT + 1 - total;
    PartsGrow(enough, weight);
    PartsGrow(0, enough);
    NearPlusNear(edge, total, n, enough);
    RoundingGrows(edge + Fraction(enough), edge + Fraction(weight));
  }

  // ----- shares of the hash space -----

  /** How many hashes lie below a place on the line; they are the smallest ones. */
  lemma HashesBelow(place: real) returns (k: nat)
    ensures k <= HASHES && forall n: Hash60 :: n < k <==> Point(n) < place
  {
    k := HashesBelowFrom(place, HASHES);
  }

  lemma {:induction false} HashesBelowFrom(place: real, m: nat) returns (k: nat)
    requires m <= HASHES
    ensures k <= m && forall n: Hash60 :: n < m ==> (n < k <==> Point(n) < place)
    decreases m
  {
    k := m;
    if m > 0 {
      if Point(m - 1) < place {
        forall n: Hash60 | n < m ensures Point(n) < place {
          PointsGrow(n, m - 1);
        }
      } else {
        k := HashesBelowFrom(place, m - 1);
      }
    }
  }

  lemma PointIsNear(n: Hash60)
    ensures n as real - 128.0 <= Point(n) * HASHES as real <= n as real + 128.0
  {
    PointIsScaled(n);
    RoundingError(n as real);
  }

  /** That many as the place is far along the line, up to the rounding of hashes. */
  lemma HashesBelowIsNear(place: real, k: nat)
    requires k <= HASHES && forall n: Hash60 :: n < k <==> Point(n) < place
    requires 0.0 <= place
    ensures k as real <= place * HASHES as real + 129.0
    ensures k < HASHES ==> k as real >= place * HASHES as real - 128.0
  {
    if k > 0 {
      PointIsNear(k - 1);
    }
    if k < HASHES {
      PointIsNear(k);
    }
  }

  /** The hashes that send a context to entry `i`. */
  ghost function HashesOf(ws: seq<WeightedVariation>, i: nat): set<nat>
    requires ws != []
  {
    set n: nat | n <= LONG_SCALE && Pick(ws, Point(n)) == i
  }

  ghost predicate AtLeast(n: nat, lo: nat) {
    lo <= n
  }

  ghost function Interval(lo: nat, hi: nat): set<nat> {
    set n: nat | n < hi && AtLeast(n, lo)
  }

  lemma {:induction false} IntervalSize(lo: nat, hi: nat)
    requires lo <= hi
    ensures |Interval(lo, hi)| == hi - lo
    decreases hi
  {
    if lo < hi {
      IntervalSize(lo, hi - 1);
      assert Interval(lo, hi) == Interval(lo, hi - 1) + {hi - 1};
    } else {
      assert Interval(lo, hi) == {};
    }
  }

  /** The first hash beyond the lower edge of entry `i`; all hashes lie below the end of the last entry. */
  ghost predicate IsBorder(ws: seq<WeightedVariation>, i: nat, k: nat)
    requires i <= |ws|
  {
    if i == |ws| then k == HASHES else k <= HASHES && forall n: Hash60 :: n < k <==> Point(n) < Edge(ws, i)
  }

  ghost predicate NearInHashes(k: nat, total: int, n: nat) {
    && Exact(total) * HASHES as real - (129 + 384 * n) as real <= k as real
    && k as real <= Exact(total) * HASHES as real + (129 + 384 * n) as real
  }

  /** A total weight, or the whole line when it passes the end. */
  function Clip(total: int): int {
    if total > FULL_WEIGHT then FULL_WEIGHT else total
  }

  lemma NearPlace(place: real, total: int, n: nat, k: nat)
    requires IsNear(place, total, n) && total <= FULL_WEIGHT && k <= HASHES
    requires k as real <= place * HASHES as real + 129.0
    requires k < HASHES ==> k as real >= place * HASHES as real - 128.0
    ensures NearInHashes(k, total, n)
  {
  }

  lemma BorderIsNear(ws: seq<WeightedVariation>, i: nat, k: nat)
    requires NonNegative(ws) && i <= |ws| && IsBorder(ws, i, k) && (i == |ws| ==> AcceptedWeights(ws))
    ensures NearInHashes(k, Clip(Cumulative(ws, i)), Weighted(ws, i))
  {
    if i == |ws| {
      AcceptedTotal(ws);
    } else if Cumulative(ws, i) > FULL_WEIGHT {
      EdgeIsBeyond(ws, i);
      PointsGrow(LONG_SCALE, LONG_SCALE);
    } else {
      EdgeIsNear(ws, i);
      EdgesGrow(ws, 0, i);
      HashesBelowIsNear(Edge(ws, i), k);
      NearPlace(Edge(ws, i), Cumulative(ws, i), Weighted(ws, i), k);
    }
  }

  lemma BordersGrow(ws: seq<WeightedVariation>, i: nat, lo: nat, hi: nat)
    requires ws != [] && NonNegative(ws) && i < |ws| && IsBorder(ws, i, lo) && IsBorder(ws, i + 1, hi)
    ensures lo <= hi
  {
    if lo > 0 && i + 1 < |ws| {
      EdgesGrow(ws, i, i + 1);
      assert Point(lo - 1) < Edge(ws, i);
    }
  }

  lemma HashesOfAreBetween(ws: seq<WeightedVariation>, i: nat, lo: nat, hi: nat)
    requires ws != [] && NonNegative(ws) && i < |ws| && IsBorder(ws, i, lo) && IsBorder(ws, i + 1, hi)
    ensures lo <= hi && |HashesOf(ws, i)| == hi - lo
  {
    forall n: Hash60 ensures Pick(ws, Point(n)) == i <==> lo <= n < hi {
      PointsGrow(n, n);
      PickMeans(ws, i, Point(n));
    }
    BordersGrow(ws, i, lo, hi);
    assert HashesOf(ws, i) == Interval(lo, hi);
    IntervalSize(lo, hi);
  }

  lemma PickMeans(ws: seq<WeightedVariation>, i: nat, point: real)
    requires ws != [] && NonNegative(ws) && i < |ws| && 0.0 <= point
    ensures Pick(ws, point) == i <==> Edge(ws, i) <= point && (i == |ws| - 1 || BelowUpperEdge(ws, i, point))
  {
    if point < Edge(ws, |ws|) {
      PickIsTheOwner(ws, point);
      assert BelowUpperEdge(ws, |ws| - 1, point);
      assert i == Pick(ws, point) <==> Owns(ws, i, point);
    } else {
      ZeroWeightServedExactly(ws, point);
      EdgesGrow(ws, i, |ws|);
      assert !BelowUpperEdge(ws, Pick(ws, point), point);
      assert !BelowUpperEdge(ws, i, point);
    }
  }

  lemma Border(ws: seq<WeightedVariation>, i: nat) returns (k: nat)
    requires i <= |ws|
    ensures IsBorder(ws, i, k)
  {
    if i == |ws| {
      k := HASHES;
    } else {
      k := HashesBelow(Edge(ws, i));
    }
  }

  /** Each entry of an accepted rollout receives the share of the 2^60 hashes that its weight covers before the end of
      the line, to within 768 hashes for each weighted entry; that is its weight when the weights add up. */
  lemma ShareIsProportional(ws: seq<WeightedVariation>, i: nat)
    requires AcceptedWeights(ws) && i < |ws|
    ensures var covered := Clip(Cumulative(ws, i + 1)) - Clip(Cumulative(ws, i));
            var share, slack := Exact(covered) * HASHES as real, (258 + 768 * Weighted(ws, |ws|)) as real;
            && share - slack <= |HashesOf(ws, i)| as real <= share + slack
            && (FullWeights(ws) ==> covered == ws[i].weight)
  {
    var lo := Border(ws, i);
    var hi := Border(ws, i + 1);
    BorderIsNear(ws, i, lo);
    BorderIsNear(ws, i + 1, hi);
    HashesOfAreBetween(ws, i, lo, hi);
    WeightedAtMostTotal(ws, i, |ws|);
    WeightedAtMostTotal(ws, i + 1, |ws|);
    ShareOfBorders(lo, hi, Clip(Cumulative(ws, i)), Clip(Cumulative(ws, i + 1)), Weighted(ws, i), Weighted(ws, i + 1),
        Weighted(ws, |ws|));
  }

  /** Some hash is served entry `i` exactly when the entry begins on the line and has weight or is the last. */
  lemma ServedExactly(ws: seq<WeightedVariation>, i: nat)
    requires NonNegative(ws) && i < |ws|
    ensures HashesOf(ws, i) != {} <==> Edge(ws, i) <= 1.0 && (ws[i].weight > 0 || i == |ws| - 1)
  {
    forall n: Hash60 | Pick(ws, Point(n)) == i ensures Edge(ws, i) <= 1.0 && (ws[i].weight > 0 || i == |ws| - 1) {
      PointsGrow(n, n);
      PickMeans(ws, i, Point(n));
      EdgeStep(ws, i);
    }
    if Edge(ws, i) <= 1.0 && (i == |ws| - 1 || (ws[i].weight > 0 && Cumulative(ws, i) >= FULL_WEIGHT)) {
      BucketIsOneExactly(LONG_SCALE);
      if i < |ws| - 1 {
        EdgeIsBeyond(ws, i + 1);
      }
      PickMeans(ws, i, Point(LONG_SCALE));
      assert LONG_SCALE in HashesOf(ws, i);
    } else if Edge(ws, i) <= 1.0 && ws[i].weight > 0 {
      WeightServesSomeone(ws, i);
    }
  }

  lemma WeightServesSomeone(ws: seq<WeightedVariation>, i: nat)
    requires NonNegative(ws) && i < |ws| - 1 && ws[i].weight > 0 && Cumulative(ws, i) < FULL_WEIGHT
    ensures HashesOf(ws, i) != {}
  {
    var lo := Border(ws, i);
    var hi := Border(ws, i + 1);
    BorderIsNear(ws, i, lo);
    BorderIsNear(ws, i + 1, hi);
    HashesOfAreBetween(ws, i, lo, hi);
    WeightedAtMostTotal(ws, 0, i);
    var from, to, most := Cumulative(ws, i), Clip(Cumulative(ws, i + 1)), Weighted(ws, i + 1);
    ShareOfBorders(lo, hi, from, to, Weighted(ws, i), most, most);
    UnitServesSomeone(to - from, most);
  }

  lemma UnitServesSomeone(covered: int, most: nat)
    requires covered > 0 && most <= FULL_WEIGHT + 1
    ensures Exact(covered) * HASHES as real - (258 + 768 * most) as real > 0.0
  {
    assert Exact(covered) >= Exact(1);
  }

  lemma ShareOfBorders(lo: nat, hi: nat, from: int, to: int, n: nat, n': nat, most: nat)
    requires NearInHashes(lo, from, n) && NearInHashes(hi, to, n') && n <= most && n' <= most
    ensures Exact(to - from) * HASHES as real - (258 + 768 * most) as real <= hi as real - lo as real
    ensures hi as real - lo as real <= Exact(to - from) * HASHES as real + (258 + 768 * most) as real
  {
  }

  // ----- ramping up -----

  /** No point moves to a later entry exactly when no edge before the last moves back. */
  lemma NeverMovesLaterExactly(ws: seq<WeightedVariation>, ws': seq<WeightedVariation>)
    requires ws != [] && NonNegative(ws) && NonNegative(ws') && |ws| == |ws'|
    ensures (forall point :: 0.0 <= point ==> Pick(ws', point) <= Pick(ws, point)) <==>
            (forall i: nat :: i < |ws| ==> Edge(ws, i) <= Edge(ws', i))
  {
    if forall i: nat :: i < |ws| ==> Edge(ws, i) <= Edge(ws', i) {
      forall point | 0.0 <= point ensures Pick(ws', point) <= Pick(ws, point) {
        MovesLaterExactly(ws, ws', point);
      }
    }
    if i: nat :| i < |ws| && Edge(ws, i) > Edge(ws', i) {
      EdgesGrow(ws', 0, i);
      var point := Edge(ws', i);
      assert BelowUpperEdge(ws, i - 1, point);
      assert Pick(ws, point) < i;
      forall j: nat | j < i ensures !BelowUpperEdge(ws', j, point) {
        EdgesGrow(ws', j + 1, i);
      }
    }
  }

  /** One point moves to a later entry exactly when its entry is not the last and now ends at or before the point. */
  lemma MovesLaterExactly(ws: seq<WeightedVariation>, ws': seq<WeightedVariation>, point: real)
    requires ws != [] && NonNegative(ws') && |ws| == |ws'|
    ensures var i := Pick(ws, point) + 1;
            && (i < |ws| ==> point < Edge(ws, i))
            && (Pick(ws', point) > Pick(ws, point) <==> i < |ws| && Edge(ws', i) <= point)
  {
    var p := Pick(ws, point);
    assert p < |ws| - 1 ==> BelowUpperEdge(ws, p, point);
    if p < |ws| - 1 && Edge(ws', p + 1) <= point {
      forall j: nat | j <= p ensures !BelowUpperEdge(ws', j, point) {
        EdgesGrow(ws', j + 1, p + 1);
      }
      assert Pick(ws', point) > p;
    } else if p < |ws| - 1 {
      assert BelowUpperEdge(ws', p, point);
    }
  }

  /** Ramping up: when no entry begins earlier than it did, a context moves to a later entry exactly when its own entry
      ends at the same total weight as before and, by rounding alone, at or before the context's point; the rounded
      ends then differ by no more than the slack of their additions. */
  lemma RampUpMovesLaterExactly(ws: seq<WeightedVariation>, ws': seq<WeightedVariation>, point: real)
    requires AcceptedWeights(ws) && AcceptedWeights(ws') && |ws| == |ws'| && 0.0 <= point <= 1.0
    requires forall i: nat :: i < |ws| ==> Cumulative(ws, i) <= Cumulative(ws', i)
    ensures var i := Pick(ws, point) + 1;
            Pick(ws', point) > Pick(ws, point) <==>
              && i < |ws|
              && Cumulative(ws, i) == Cumulative(ws', i) <= FULL_WEIGHT
              && Edge(ws', i) <= point < Edge(ws, i) <= Edge(ws', i) + Slack(Weighted(ws, i)) + Slack(Weighted(ws', i))
  {
    var i := Pick(ws, point) + 1;
    MovesLaterExactly(ws, ws', point);
    if i < |ws| && Edge(ws', i) <= point {
      if Cumulative(ws', i) > FULL_WEIGHT {
        EdgeIsBeyond(ws', i);
      } else {
        EdgeIsNear(ws, i);
        EdgeIsNear(ws', i);
        WeightedAtMostTotal(ws, 0, i);
        WeightedAtMostTotal(ws', 0, i);
        UnitOutweighs(Cumulative(ws, i), Cumulative(ws', i), Weighted(ws, i), Weighted(ws', i), Edge(ws, i),
            Edge(ws', i));
      }
    }
  }

  /** One unit of weight outweighs every rounding. */
  lemma UnitOutweighs(total: nat, total': nat, n: nat, n': nat, edge: real, edge': real)
    requires n <= total <= total' <= FULL_WEIGHT && n' <= total'
    requires IsNear(edge, total, n) && IsNear(edge', total', n') && edge' < edge
    ensures total == total' && edge <= edge' + Slack(n) + Slack(n')
  {
  }

  lemma {:induction false} SameWeightsSameEdge(ws: seq<WeightedVariation>, ws': seq<WeightedVariation>, i: nat)
    requires i <= |ws| && i <= |ws'| && forall j :: 0 <= j < i ==> ws[j].weight == ws'[j].weight
    ensures Edge(ws, i) == Edge(ws', i)
  {
    if i > 0 {
      SameWeightsSameEdge(ws, ws', i - 1);
    }
  }

  /** So no context ever does when every entry begins where it did, with the same weights before it, or at least one
      unit later. */
  lemma RampUpNeverMovesLater(ws: seq<WeightedVariation>, ws': seq<WeightedVariation>, point: real)
    requires AcceptedWeights(ws) && AcceptedWeights(ws') && |ws| == |ws'| && 0.0 <= point <= 1.0
    requires forall i: nat :: i < |ws| ==>
               Cumulative(ws, i) < Cumulative(ws', i)
               || (Cumulative(ws, i) == Cumulative(ws', i) && forall j :: 0 <= j < i ==> ws[j].weight == ws'[j].weight)
    ensures Pick(ws', point) <= Pick(ws, point)
  {
    RampUpMovesLaterExactly(ws, ws', point);
    var i := Pick(ws, point) + 1;
    if i < |ws| && Cumulative(ws, i) == Cumulative(ws', i) {
      SameWeightsSameEdge(ws, ws', i);
    }
  }

  /** Raising the first weight of a two-way split at the second's expense keeps everyone who had the first variation. */
  lemma TwoWayRampUpKeepsMembers(
      w: World, key: string, salt: string, rollout: Rollout, ctx: Context, a: int, b: int, p: int, q: int)
    requires a != b && p <= q
    requires rollout.variations == [WeightedVariation(a, p), WeightedVariation(b, FULL_WEIGHT - p)]
    ensures var ramped := rollout.(variations := [WeightedVariation(a, q), WeightedVariation(b, FULL_WEIGHT - q)]);
            RolloutVariation(w, key, salt, rollout, ctx) == a ==> RolloutVariation(w, key, salt, ramped, ctx) == a
  {
    var ws := rollout.variations;
    var ws' := [WeightedVariation(a, q), WeightedVariation(b, FULL_WEIGHT - q)];
    PartsGrow(p, q);
    assert Edge(ws, 0) == Edge(ws', 0) == 0.0;
    assert Edge(ws, 1) == Round(0.0 + Fraction(p)) && Edge(ws', 1) == Round(0.0 + Fraction(q));
    RoundingGrows(Fraction(p), Fraction(q));
    var n := RolloutPoint(w, key, salt, rollout, ctx);
    if Pick(ws, n) == 0 {
      assert BelowUpperEdge(ws, 0, n);
      assert BelowUpperEdge(ws', 0, n);
    }
  }

  /** The value a rollout hashes, if the context has one that can be hashed. */
  function BucketedText(rollout: Rollout, ctx: Context): Option<string> {
    match ValueForRef(ctx, rollout.contextKind, if rollout.bucketBy == "" then "key" else rollout.bucketBy)
    case None => None
    case Some(v) => BucketableString(v)
  }

  /** A context without a hashable value is served the first entry that has any weight; the hash plays no part. */
  lemma UnhashableGetsFirstBucket(w: World, key: string, salt: string, rollout: Rollout, ctx: Context, i: nat)
    requires NonNegative(rollout.variations) && BucketedText(rollout, ctx).None?
    requires i < |rollout.variations| && rollout.variations[i].weight > 0
    requires forall j :: 0 <= j < i ==> rollout.variations[j].weight == 0
    ensures RolloutVariation(w, key, salt, rollout, ctx) == rollout.variations[i].variation
  {
    var ws := rollout.variations;
    assert RolloutPoint(w, key, salt, rollout, ctx) == 0.0;
    ZeroPrefixAddsNothing(ws, i);
    PartsGrow(1, ws[i].weight);
    PartIsNear(1);
    RoundingError(Fraction(ws[i].weight));
    EdgesGrow(ws, i + 1, |ws|);
    PickIsTheOwner(ws, 0.0);
    assert Owns(ws, i, 0.0);
  }

  lemma {:induction false} ZeroPrefixAddsNothing(ws: seq<WeightedVariation>, i: nat)
    requires i <= |ws| && forall j :: 0 <= j < i ==> ws[j].weight == 0
    ensures Edge(ws, i) == 0.0 && Cumulative(ws, i) == 0
  {
    if i > 0 {
      ZeroPrefixAddsNothing(ws, i - 1);
      EdgeStep(ws, i - 1);
    }
  }

  // ----- rollouts that reach the fallback -----

  /** An accepted rollout that serves an entry of weight 0: to the 64 largest hashes, and to no other. */
  lemma WeightlessEntryIsServed(n: Hash60)
    ensures var ws := [WeightedVariation(0, FULL_WEIGHT), WeightedVariation(1, 0)];
            FullWeights(ws) && AcceptedWeights(ws) && (Pick(ws, Point(n)) == 1 <==> n >= HASHES - 64)
  {
    var ws := [WeightedVariation(0, FULL_WEIGHT), WeightedVariation(1, 0)];
    assert Cumulative(ws, 0) == 0 && Cumulative(ws, 1) == FULL_WEIGHT && Cumulative(ws, 2) == FULL_WEIGHT;
    WholeIsFixed(FULL_WEIGHT);
    WholeIsFixed(1);
    PartsGrow(0, 0);
    assert Edge(ws, 0) == 0.0 && Edge(ws, 1) == Round(0.0 + Fraction(FULL_WEIGHT)) == 1.0;
    EdgeStep(ws, 1);
    BucketIsOneExactly(n);
    PointsGrow(n, n);
    PickMeans(ws, 1, Point(n));
  }

  /** A tenth of the line, and the line itself, in units of 2^-56. */
  const TENTH: int := 7205759403792794
  const LINE: int := 0x100_0000_0000_0000

  lemma InUnits(s: int)
    ensures Round(s as real / LINE as real) == Round(s as real) / LINE as real
  {
    Scale56(s as real / LINE as real);
  }

  /** Ten entries of a tenth each; no matter what follows. */
  ghost predicate StartsWithTenTenths(ws: seq<WeightedVariation>) {
    |ws| >= 10 && forall i :: 0 <= i < 10 ==> ws[i].weight == 10000
  }

  lemma TenthIsRounded()
    ensures Round(0.1) == TENTH as real / LINE as real
  {
    Scale56(0.1);
  }

  lemma QuartersRound(x: real)
    ensures Round(x) == 4.0 * Round(x / 4.0)
  {
    RoundingScales(x / 4.0);
    RoundingScales(x / 2.0);
  }

  lemma NextEdge(ws: seq<WeightedVariation>, i: nat, s: int)
    requires StartsWithTenTenths(ws) && i < 10 && Edge(ws, i) == s as real / LINE as real
    ensures Edge(ws, i + 1) == 4.0 * Round((s + TENTH) as real / 4.0) / LINE as real
  {
    WholeIsFixed(10000);
    TenthIsRounded();
    InUnits(s + TENTH);
    QuartersRound((s + TENTH) as real);
  }

  lemma FiveTenths(ws: seq<WeightedVariation>)
    requires StartsWithTenTenths(ws)
    ensures Edge(ws, 5) == 36028797018963968 as real / LINE as real
  {
    NextEdge(ws, 0, 0);
    NextEdge(ws, 1, TENTH);
    NextEdge(ws, 2, 14411518807585588);
    NextEdge(ws, 3, 21617278211378384);
    NextEdge(ws, 4, 28823037615171176);
  }

  lemma EightTenths(ws: seq<WeightedVariation>)
    requires StartsWithTenTenths(ws)
    ensures Edge(ws, 8) == 57646075230342344 as real / LINE as real
  {
    FiveTenths(ws);
    NextEdge(ws, 5, 36028797018963968);
    NextEdge(ws, 6, 43234556422756760);
    NextEdge(ws, 7, 50440315826549552);
  }

  /** Ten tenths, added up with rounding, fall short of 1. */
  lemma TenTenthsFallShort(ws: seq<WeightedVariation>)
    requires StartsWithTenTenths(ws)
    ensures Edge(ws, 10) == 1.0 - 1.0 / FULL as real
  {
    EightTenths(ws);
    NextEdge(ws, 8, 57646075230342344);
    NextEdge(ws, 9, 64851834634135136);
  }

  // ----- a sum that wraps around, and a ramp-up that rounds back -----

  function Entries(weights: seq<int>): seq<WeightedVariation> {
    seq(|weights|, i requires 0 <= i < |weights| => WeightedVariation(i, weights[i]))
  }

  lemma ThreeTotals(ws: seq<WeightedVariation>)
    requires |ws| == 3
    ensures Cumulative(ws, 1) == ws[0].weight && Cumulative(ws, 2) == ws[0].weight + ws[1].weight
    ensures Cumulative(ws, 3) == ws[0].weight + ws[1].weight + ws[2].weight
  {
    assert Cumulative(ws, 0) == 0;
  }

  /** Three weights of 64 bits whose sum wraps around to the right one: the rollout is accepted, and everyone is served
      its first entry. */
  lemma WrappedSumIsAccepted(n: Hash60)
    ensures var ws := Entries([MAX_INT64, MAX_INT64, 100002]);
            AcceptedWeights(ws) && !FullWeights(ws) && Pick(ws, Point(n)) == 0
  {
    var ws := Entries([MAX_INT64, MAX_INT64, 100002]);
    ThreeTotals(ws);
    EdgeIsBeyond(ws, 1);
    PointsGrow(n, n);
    assert BelowUpperEdge(ws, 0, Point(n));
  }

  lemma EdgeAfterTwo(ws: seq<WeightedVariation>)
    requires |ws| == 3
    ensures Edge(ws, 2) == Round(Round(Fraction(ws[0].weight)) + Fraction(ws[1].weight))
  {
    assert Edge(ws, 0) == 0.0;
  }

  /** Where the second entry ends after a tenth and two tenths ... */
  lemma TenthAndTwoTenths()
    ensures Edge(Entries([10000, 20000, 70000]), 2) == 21617278211378384 as real / LINE as real
  {
    WholeIsFixed(10000);
    WholeIsFixed(20000);
    TenthIsRounded();
    RoundingScales(0.1);
    StoredIsFixed(0.1);
    EdgeAfterTwo(Entries([10000, 20000, 70000]));
    InUnits(21617278211378382);
    QuartersRound(21617278211378382.0);
  }

  /** ... and after twice fifteen hundredths. */
  lemma TwiceFifteenHundredths()
    ensures Edge(Entries([15000, 15000, 70000]), 2) == 21617278211378380 as real / LINE as real
  {
    WholeIsFixed(15000);
    RoundingScales(0.15);
    StoredIsFixed(0.15);
    EdgeAfterTwo(Entries([15000, 15000, 70000]));
    RoundingScales(Round(0.15));
    ThreeTenthsAreRounded();
  }

  lemma ThreeTenthsAreRounded()
    ensures Round(0.3) == 21617278211378380 as real / LINE as real
  {
    Scale56(0.3);
    QuartersRound(21617278211378380.8);
  }

  /** Raising the first entry at its neighbour's expense moves this context from the second entry to the third: both
      splits end at three tenths, and one is rounded up where the other is rounded down. */
  lemma RampUpMovesSomeoneLater()
    ensures var ws, ws' := Entries([10000, 20000, 70000]), Entries([15000, 15000, 70000]);
            var n: Hash60 := 345876451382054080;
            && FullWeights(ws) && FullWeights(ws')
            && (forall i: nat :: i < 3 ==> Cumulative(ws, i) <= Cumulative(ws', i))
            && Pick(ws, Point(n)) == 1 && Pick(ws', Point(n)) == 2
  {
    var ws, ws' := Entries([10000, 20000, 70000]), Entries([15000, 15000, 70000]);
    var n: Hash60 := 345876451382054080;
    ThreeTotals(ws);
    ThreeTotals(ws');
    TenthAndTwoTenths();
    TwiceFifteenHundredths();
    PointIsAtTheEdge();
    EdgeIsNear(ws, 1);
    PickMeans(ws, 1, Point(n));
    PickMeans(ws', 2, Point(n));
  }

  lemma PointIsAtTheEdge()
    ensures Point(345876451382054080) == 21617278211378380 as real / LINE as real
  {
    PointIsScaled(345876451382054080);
    Scale4(21617278211378380.0);
    QuartersRound(21617278211378380.0);
  }
}
