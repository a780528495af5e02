// What validation reports, said as the first place at which something is wrong.
module ValidationMeaning {
  import L = Lists
  import opened Int64
  import opened Models
  import opened Bucketing
  import opened Validation

  // ----- a variation or a rollout -----

  /** Something is wrong with a serve at a place: with its shape at place 0, with the variation of entry i at 2 i + 1
      and its weight at 2 i + 2, and with the sum of the weights behind the last entry. */
  ghost predicate IsWrong(vor: VariationOrRollout, n: nat, place: nat, e: ServeError) {
    match (vor.variation, vor.rollout)
    case (Some(_), Some(_)) => place == 0 && e == BothSet
    case (None, None) => place == 0 && e == NothingSet
    case (Some(v), None) => place == 0 && e == VariationOutOfRange && (v < 0 || v >= n)
    case (None, Some(rollout)) => EntryIsWrong(rollout.variations, n, place, e)
  }

  ghost predicate EntryIsWrong(ws: seq<WeightedVariation>, n: nat, place: nat, e: ServeError) {
    || (place == 0 && |ws| == 0 && e == NoVariations)
    || (exists i :: 0 <= i < |ws| && place == 2 * i + 1 && e == RolloutVariationOutOfRange
          && (ws[i].variation < 0 || ws[i].variation >= n))
    || (exists i :: 0 <= i < |ws| && place == 2 * i + 2 && e == NegativeWeight && ws[i].weight < 0)
    || (place == 2 * |ws| + 1 && |ws| > 0 && e == WeightsDoNotSum && Wrap64(Cumulative(ws, |ws|)) != 100000)
  }

  ghost predicate IsFirstWrong(vor: VariationOrRollout, n: nat, place: nat, e: ServeError) {
    IsWrong(vor, n, place, e) && forall p, e' :: 0 <= p < place ==> !IsWrong(vor, n, p, e')
  }

  /** A serve is accepted if nothing is wrong with it, and the error names what is wrong at the first place. */
  lemma ServeErrorIsTheFirst(vor: VariationOrRollout, n: nat, e: ServeError)
    ensures ValidServe(vor, n) <==> forall place, e' :: !IsWrong(vor, n, place, e')
    ensures Explains(e, vor, n) <==> exists place :: IsFirstWrong(vor, n, place, e)
  {
    match (vor.variation, vor.rollout)
    case (None, Some(rollout)) =>
      RolloutIsValidExactly(vor, n);
      RolloutErrorIsTheFirst(vor, n, e);
    case (Some(_), Some(_)) => assert IsFirstWrong(vor, n, 0, BothSet);
    case (None, None) => assert IsFirstWrong(vor, n, 0, NothingSet);
    case (Some(v), None) => assert IsFirstWrong(vor, n, 0, VariationOutOfRange) <==> v < 0 || v >= n;
  }

  lemma RolloutIsValidExactly(vor: VariationOrRollout, n: nat)
    requires vor.variation.None? && vor.rollout.Some?
    ensures ValidServe(vor, n) <==> forall place, e :: !IsWrong(vor, n, place, e)
  {
    var ws := vor.rollout.value.variations;
    if !ValidServe(vor, n) {
      if ws == [] {
        assert IsWrong(vor, n, 0, NoVariations);
      } else if i :| 0 <= i < |ws| && (ws[i].variation < 0 || ws[i].variation >= n) {
        assert IsWrong(vor, n, 2 * i + 1, RolloutVariationOutOfRange);
      } else if i :| 0 <= i < |ws| && ws[i].weight < 0 {
        assert IsWrong(vor, n, 2 * i + 2, NegativeWeight);
      } else {
        assert IsWrong(vor, n, 2 * |ws| + 1, WeightsDoNotSum);
      }
    }
  }

  /** Where an entry that does not fit shows. */
  function PlaceOf(ws: seq<WeightedVariation>, n: nat, i: nat): nat
    requires i < |ws|
  {
    if 0 <= ws[i].variation < n then 2 * i + 2 else 2 * i + 1
  }

  lemma FittingEntriesAreNotWrong(ws: seq<WeightedVariation>, n: nat, place: nat, e: ServeError)
    requires EntryIsWrong(ws, n, place, e) && 0 < place <= 2 * |ws|
    ensures !EntryFits(ws[(place - 1) / 2], n) && place >= PlaceOf(ws, n, (place - 1) / 2)
    ensures place == PlaceOf(ws, n, (place - 1) / 2) ==>
              e == if place % 2 == 1 then RolloutVariationOutOfRange else NegativeWeight
  {
  }

  lemma MisfitIsFirstWrong(ws: seq<WeightedVariation>, n: nat, i: nat)
    requires FirstMisfit(ws, n, i)
    ensures forall e :: EntryIsWrong(ws, n, PlaceOf(ws, n, i), e) <==>
              e == if 0 <= ws[i].variation < n then NegativeWeight else RolloutVariationOutOfRange
    ensures forall p, e :: 0 <= p < PlaceOf(ws, n, i) ==> !EntryIsWrong(ws, n, p, e)
  {
    forall p: nat, e | p < PlaceOf(ws, n, i) ensures !EntryIsWrong(ws, n, p, e) {
      if EntryIsWrong(ws, n, p, e) {
        FittingEntriesAreNotWrong(ws, n, p, e);
      }
    }
  }

  lemma RolloutErrorIsTheFirst(vor: VariationOrRollout, n: nat, e: ServeError)
    requires vor.variation.None? && vor.rollout.Some?
    ensures Explains(e, vor, n) <==> exists place :: IsFirstWrong(vor, n, place, e)
  {
    var ws := vor.rollout.value.variations;
    forall p: nat, e' ensures IsWrong(vor, n, p, e') <==> EntryIsWrong(ws, n, p, e') {
    }
    var i := FirstMisfitOrNone(ws, n);
    if i < |ws| {
      MisfitIsFirstWrong(ws, n, i);
      assert forall j: nat :: FirstMisfit(ws, n, j) ==> j == i;
      assert IsFirstWrong(vor, n, PlaceOf(ws, n, i), e) <==> EntryIsWrong(ws, n, PlaceOf(ws, n, i), e);
      var first := if 0 <= ws[i].variation < n then NegativeWeight else RolloutVariationOutOfRange;
      assert IsWrong(vor, n, PlaceOf(ws, n, i), first);
    } else {
      assert forall p: nat, e' :: EntryIsWrong(ws, n, p, e') ==> p == 0 || p == 2 * |ws| + 1 by {
        forall p: nat, e' | EntryIsWrong(ws, n, p, e') ensures p == 0 || p == 2 * |ws| + 1 {
          if 0 < p <= 2 * |ws| {
            FittingEntriesAreNotWrong(ws, n, p, e');
          }
        }
      }
      assert Explains(e, vor, n) ==> IsFirstWrong(vor, n, if ws == [] then 0 else 2 * |ws| + 1, e);
    }
  }

  lemma FirstMisfitOrNone(ws: seq<WeightedVariation>, n: nat) returns (i: nat)
    ensures i < |ws| ==> FirstMisfit(ws, n, i)
    ensures i >= |ws| ==> forall j :: 0 <= j < |ws| ==> EntryFits(ws[j], n)
  {
    i := L.FirstIndex(ws, (wv: WeightedVariation) => !EntryFits(wv, n));
  }

  // ----- a configuration -----

  /** Something is wrong with a configuration: with its off variation at stage 0, a prerequisite at 1, the fallthrough
      at 2, a target at 3 and a rule at 4. */
  ghost predicate ConfigIsWrong(cfg: Config, n: nat, stage: nat, i: nat, e: ConfigError) {
    || (stage == 0 && i == 0 && e == OffVariationOutOfRange && (cfg.offVariation < 0 || cfg.offVariation >= n))
    || (stage == 1 && i < |cfg.prerequisites| && e == PrerequisiteKeyMissing(i) && cfg.prerequisites[i].key == "")
    || (stage == 2 && i == 0 && e.InvalidFallthrough? && exists place :: IsFirstWrong(cfg.fallthru, n, place, e.error))
    || (stage == 3 && i < |cfg.targets| && e == TargetOutOfRange(i)
        && (cfg.targets[i].variation < 0 || cfg.targets[i].variation >= n))
    || (stage == 4 && i < |cfg.rules| && RuleIsWrong(cfg.rules[i], n, i, e))
  }

  /** A rule has no clauses, or has some and something is wrong with its serve. */
  ghost predicate RuleIsWrong(rule: Rule, n: nat, i: nat, e: ConfigError) {
    if rule.clauses == [] then e == RuleWithoutClauses(i)
    else e.InvalidRule? && e.i == i && exists place :: IsFirstWrong(rule.serve, n, place, e.error)
  }

  ghost predicate NothingWrongBefore(cfg: Config, n: nat, stage: nat, i: nat) {
    forall s: nat, j: nat, e :: s < stage || (s == stage && j < i) ==> !ConfigIsWrong(cfg, n, s, j, e)
  }

  ghost predicate ConfigIsFirstWrong(cfg: Config, n: nat, stage: nat, i: nat, e: ConfigError) {
    ConfigIsWrong(cfg, n, stage, i, e) && NothingWrongBefore(cfg, n, stage, i)
  }

  /** What is not wrong at each stage. */
  lemma StageIsFine(cfg: Config, n: nat)
    ensures (forall i, e :: !ConfigIsWrong(cfg, n, 0, i, e)) <==> InRange(cfg.offVariation, n)
    ensures forall i: nat :: i < |cfg.prerequisites| ==>
              ((forall e :: !ConfigIsWrong(cfg, n, 1, i, e)) <==> cfg.prerequisites[i].key != "")
    ensures (forall i, e :: !ConfigIsWrong(cfg, n, 2, i, e)) <==> ValidServe(cfg.fallthru, n)
    ensures forall i: nat :: i < |cfg.targets| ==>
              ((forall e :: !ConfigIsWrong(cfg, n, 3, i, e)) <==> InRange(cfg.targets[i].variation, n))
    ensures forall i: nat :: i < |cfg.rules| ==>
              ((forall e :: !ConfigIsWrong(cfg, n, 4, i, e)) <==> ValidRule(cfg.rules[i], n))
  {
    assert !InRange(cfg.offVariation, n) ==> ConfigIsWrong(cfg, n, 0, 0, OffVariationOutOfRange);
    forall i: nat | i < |cfg.prerequisites|
      ensures (forall e :: !ConfigIsWrong(cfg, n, 1, i, e)) <==> cfg.prerequisites[i].key != ""
    {
      assert cfg.prerequisites[i].key == "" ==> ConfigIsWrong(cfg, n, 1, i, PrerequisiteKeyMissing(i));
    }
    ServeIsFine(cfg.fallthru, n);
    if place: nat, e :| IsFirstWrong(cfg.fallthru, n, place, e) {
      assert ConfigIsWrong(cfg, n, 2, 0, InvalidFallthrough(e));
    }
    forall i: nat | i < |cfg.targets|
      ensures (forall e :: !ConfigIsWrong(cfg, n, 3, i, e)) <==> InRange(cfg.targets[i].variation, n)
    {
      assert !InRange(cfg.targets[i].variation, n) ==> ConfigIsWrong(cfg, n, 3, i, TargetOutOfRange(i));
    }
    forall i: nat | i < |cfg.rules|
      ensures (forall e :: !ConfigIsWrong(cfg, n, 4, i, e)) <==> ValidRule(cfg.rules[i], n)
    {
      RuleIsFine(cfg, n, i);
    }
  }

  lemma RuleIsFine(cfg: Config, n: nat, i: nat)
    requires i < |cfg.rules|
    ensures (forall e :: !ConfigIsWrong(cfg, n, 4, i, e)) <==> ValidRule(cfg.rules[i], n)
  {
    var rule := cfg.rules[i];
    ServeIsFine(rule.serve, n);
    if rule.clauses == [] {
      assert ConfigIsWrong(cfg, n, 4, i, RuleWithoutClauses(i));
    } else if place: nat, e :| IsFirstWrong(rule.serve, n, place, e) {
      assert ConfigIsWrong(cfg, n, 4, i, InvalidRule(i, e));
    }
  }

  /** A serve that is not valid has a first thing wrong. */
  lemma ServeIsFine(vor: VariationOrRollout, n: nat)
    ensures ValidServe(vor, n) <==> forall place, e :: !IsFirstWrong(vor, n, place, e)
  {
    forall e ensures Explains(e, vor, n) <==> exists place :: IsFirstWrong(vor, n, place, e) {
      ServeErrorIsTheFirst(vor, n, e);
    }
    ServeErrorIsTheFirst(vor, n, BothSet);
    if place: nat, e :| IsWrong(vor, n, place, e) {
      var p, e' := FirstPlace(vor, n, place, e);
    }
  }

  lemma {:induction false} FirstPlace(vor: VariationOrRollout, n: nat, place: nat, e: ServeError)
    returns (first: nat, e': ServeError)
    requires IsWrong(vor, n, place, e)
    ensures IsFirstWrong(vor, n, first, e')
    decreases place
  {
    if p: nat, e'' :| p < place && IsWrong(vor, n, p, e'') {
      first, e' := FirstPlace(vor, n, p, e'');
    } else {
      first, e' := place, e;
    }
  }

  /** A configuration is accepted if nothing is wrong with it. */
  lemma AcceptedIfNothingIsWrong(cfg: Config, n: nat)
    ensures ValidConfig(cfg, n) <==> forall stage, i, e :: !ConfigIsWrong(cfg, n, stage, i, e)
  {
    StageIsFine(cfg, n);
  }

  /** The error names what is wrong first: by stage, and within it by place in the list. */
  lemma ConfigErrorIsTheFirst(cfg: Config, n: nat, e: ConfigError)
    ensures FirstConfigError(e, cfg, n) <==> exists stage, i :: ConfigIsFirstWrong(cfg, n, stage, i, e)
  {
    StageIsFine(cfg, n);
    forall e' ensures Explains(e', cfg.fallthru, n) <==> exists place :: IsFirstWrong(cfg.fallthru, n, place, e') {
      ServeErrorIsTheFirst(cfg.fallthru, n, e');
    }
    match e
    case OffVariationOutOfRange => assert FirstConfigError(e, cfg, n) <==> ConfigIsFirstWrong(cfg, n, 0, 0, e);
    case PrerequisiteKeyMissing(i) => assert FirstConfigError(e, cfg, n) <==> ConfigIsFirstWrong(cfg, n, 1, i, e);
    case InvalidFallthrough(_) => assert FirstConfigError(e, cfg, n) <==> ConfigIsFirstWrong(cfg, n, 2, 0, e);
    case TargetOutOfRange(i) => assert FirstConfigError(e, cfg, n) <==> ConfigIsFirstWrong(cfg, n, 3, i, e);
    case RuleWithoutClauses(i) => assert FirstConfigError(e, cfg, n) <==> ConfigIsFirstWrong(cfg, n, 4, i, e);
    case InvalidRule(i, e') =>
      if i < |cfg.rules| {
        ServeErrorIsTheFirst(cfg.rules[i].serve, n, e');
      }
      assert FirstConfigError(e, cfg, n) <==> ConfigIsFirstWrong(cfg, n, 4, i, e);
  }
}
