// The meaning of semantic instructions: pure edits of a configuration, and their laws.
module Edits {
  import opened Models
  import opened Lists

  datatype Kind =
    | TurnFlagOn | TurnFlagOff | UpdateOffVariation | UpdateFallthroughVariation | UpdateFallthroughRollout
    | AddTargets | RemoveTargets | AddRule | UpdateRule | RemoveRule | ReorderRules
    | AddPrerequisite | RemovePrerequisite | UnknownKind(name: string)

  datatype Instruction = Instruction(
    kind: Kind, variation: Option<int>, values: seq<string>, contextKind: string, clauses: seq<Clause>,
    rollout: Option<Rollout>, ruleId: string, ruleIds: seq<string>, key: string)

  datatype EditError =
    | VariationRequired | RolloutRequired | ClausesRequired | ServeRequired | RuleIdRequired | RuleIdUnknown
    | ReorderIncomplete | ReorderIdUnknownOrRepeated | KeyAndVariationRequired | KeyRequired | KindUnknown
    | NoInstructions | FailedAt(index: nat, cause: EditError)

  datatype Edited<+T> = Ok(value: T) | Err(error: EditError)

  // ----- lists -----

  /** The elements that satisfy `p`, in order. */
  function Keep<T>(s: seq<T>, p: T -> bool): (r: seq<T>)
    ensures |r| <= |s|
  {
    if s == [] then []
    else
      var rest, last := Keep(s[..|s| - 1], p), s[|s| - 1];
      if p(last) then rest + [last] else rest
  }

  function HasOtherId(id: string): Rule -> bool {
    (r: Rule) => r.id != id
  }

  function HasOtherKey(key: string): Prerequisite -> bool {
    (p: Prerequisite) => p.key != key
  }

  function IsNoneOf(drop: set<string>): string -> bool {
    (v: string) => v !in drop
  }

  /** First occurrences, in order. */
  function Dedup(s: seq<string>): (r: seq<string>)
    ensures |r| <= |s|
    ensures forall v :: v in r <==> v in s
    ensures forall i, j :: 0 <= i < j < |r| ==> r[i] != r[j]
  {
    if s == [] then []
    else
      var init, last := s[..|s| - 1], s[|s| - 1];
      assert s == init + [last];
      if last in init then Dedup(init) else Dedup(init) + [last]
  }

  function Ids(rules: seq<Rule>): (ids: seq<string>)
    ensures |ids| == |rules|
    ensures forall i :: 0 <= i < |ids| ==> ids[i] == rules[i].id
  {
    seq(|rules|, i requires 0 <= i < |rules| => rules[i].id)
  }

  // ----- individual targets -----

  predicate IsFor(t: Target, kind: string, variation: int) {
    t.contextKind == kind && t.variation == variation
  }

  /** Adds values to the first target for the pair, or appends a new target. */
  function WithTargets(ts: seq<Target>, kind: string, variation: int, values: seq<string>): seq<Target> {
    if ts == [] then [Target(kind, values, variation)]
    else if IsFor(ts[0], kind, variation) then [ts[0].(values := Dedup(ts[0].values + values))] + ts[1..]
    else [ts[0]] + WithTargets(ts[1..], kind, variation, values)
  }

  /** What remains of a target: nothing when a target for the pair loses its last value. */
  function Pruned(t: Target, kind: string, variation: int, drop: set<string>): seq<Target> {
    if IsFor(t, kind, variation) then
      var kept := Keep(t.values, IsNoneOf(drop));
      if kept == [] then [] else [t.(values := kept)]
    else [t]
  }

  function WithoutTargets(ts: seq<Target>, kind: string, variation: int, drop: set<string>): (r: seq<Target>)
    ensures |r| <= |ts|
  {
    if ts == [] then []
    else WithoutTargets(ts[..|ts| - 1], kind, variation, drop) + Pruned(ts[|ts| - 1], kind, variation, drop)
  }

  // ----- rules -----

  /** The first rule with the id, rewritten in its place; `None` when there is none. */
  function WithRule(rules: seq<Rule>, id: string, clauses: seq<Clause>, serve: VariationOrRollout): Option<seq<Rule>> {
    if rules == [] then None
    else if rules[0].id == id then Some([Rule(id, clauses, serve)] + rules[1..])
    else
      match WithRule(rules[1..], id, clauses, serve)
      case None => None
      case Some(rest) => Some([rules[0]] + rest)
  }

  function RuleWithId(rules: seq<Rule>, id: string): (r: Rule)
    requires exists i :: 0 <= i < |rules| && rules[i].id == id
    ensures r in rules && r.id == id
  {
    if rules[0].id == id then rules[0] else RuleWithId(rules[1..], id)
  }

  /** `ids` lists every stored rule id exactly once. */
  ghost predicate IsReordering(rules: seq<Rule>, ids: seq<string>) {
    Distinct(Ids(rules)) && multiset(ids) == multiset(Ids(rules))
  }

  /** The rules in the order of `ids`. */
  ghost function Reordered(rules: seq<Rule>, ids: seq<string>): seq<Rule>
    requires IsReordering(rules, ids)
  {
    seq(|ids|, i requires 0 <= i < |ids| =>
      assert ids[i] in multiset(ids);
      assert ids[i] in Ids(rules);
      RuleWithId(rules, ids[i]))
  }

  // ----- one instruction, and a list of them -----

  /** The edit one instruction makes; `freshId` names the rule it may create. */
  ghost function Step(cfg: Config, ins: Instruction, freshId: string): Edited<Config> {
    match ins.kind
    case TurnFlagOn => Ok(cfg.(on := true))
    case TurnFlagOff => Ok(cfg.(on := false))
    case UpdateOffVariation =>
      if ins.variation.None? then Err(VariationRequired) else Ok(cfg.(offVariation := ins.variation.value))
    case UpdateFallthroughVariation =>
      if ins.variation.None? then Err(VariationRequired)
      else Ok(cfg.(fallthru := VariationOrRollout(ins.variation, None)))
    case UpdateFallthroughRollout =>
      if ins.rollout.None? then Err(RolloutRequired)
      else Ok(cfg.(fallthru := VariationOrRollout(None, ins.rollout)))
    case AddTargets =>
      if ins.variation.None? then Err(VariationRequired)
      else Ok(cfg.(targets := WithTargets(cfg.targets, ins.contextKind, ins.variation.value, ins.values)))
    case RemoveTargets =>
      if ins.variation.None? then Err(VariationRequired)
      else Ok(cfg.(targets := WithoutTargets(cfg.targets, ins.contextKind, ins.variation.value,
          set v | v in ins.values)))
    case AddRule =>
      if ins.clauses == [] then Err(ClausesRequired)
      else if ins.variation.None? && ins.rollout.None? then Err(ServeRequired)
      else Ok(cfg.(rules := cfg.rules + [Rule(freshId, ins.clauses, VariationOrRollout(ins.variation, ins.rollout))]))
    case UpdateRule =>
      if ins.ruleId == "" then Err(RuleIdRequired)
      else if ins.clauses == [] then Err(ClausesRequired)
      else if ins.variation.None? && ins.rollout.None? then Err(ServeRequired)
      else
        (match WithRule(cfg.rules, ins.ruleId, ins.clauses, VariationOrRollout(ins.variation, ins.rollout))
         case None => Err(RuleIdUnknown)
         case Some(rules) => Ok(cfg.(rules := rules)))
    case RemoveRule =>
      if ins.ruleId == "" then Err(RuleIdRequired)
      else Ok(cfg.(rules := Keep(cfg.rules, HasOtherId(ins.ruleId))))
    case ReorderRules =>
      if |ins.ruleIds| != |cfg.rules| then Err(ReorderIncomplete)
      else if IsReordering(cfg.rules, ins.ruleIds) then Ok(cfg.(rules := Reordered(cfg.rules, ins.ruleIds)))
      else Err(ReorderIdUnknownOrRepeated)
    case AddPrerequisite =>
      if ins.key == "" || ins.variation.None? then Err(KeyAndVariationRequired)
      else Ok(cfg.(prerequisites := cfg.prerequisites + [Prerequisite(ins.key, ins.variation.value)]))
    case RemovePrerequisite =>
      if ins.key == "" then Err(KeyRequired)
      else Ok(cfg.(prerequisites := Keep(cfg.prerequisites, HasOtherKey(ins.key))))
    case UnknownKind(_) => Err(KindUnknown)
  }

  /** All instructions in order; the first failure names its index. `ids[i]` is the id drawn at instruction `i`. */
  ghost function Fold(cfg: Config, list: seq<Instruction>, ids: seq<string>): Edited<Config>
    requires |ids| == |list|
  {
    if list == [] then Ok(cfg)
    else
      var last := |list| - 1;
      match Fold(cfg, list[..last], ids[..last])
      case Err(e) => Err(e)
      case Ok(mid) =>
        match Step(mid, list[last], ids[last])
        case Err(e) => Err(FailedAt(last, e))
        case Ok(next) => Ok(next)
  }

  /** A whole edit; the empty list is refused. */
  ghost function Edit(cfg: Config, list: seq<Instruction>, ids: seq<string>): Edited<Config>
    requires |ids| == |list|
  {
    if list == [] then Err(NoInstructions) else Fold(cfg, list, ids)
  }

  // ----- laws of the list edits -----

  lemma {:induction false} KeepMeans<T>(s: seq<T>, p: T -> bool)
    ensures forall x :: x in Keep(s, p) <==> x in s && p(x)
  {
    if s != [] {
      KeepMeans(s[..|s| - 1], p);
      assert s == s[..|s| - 1] + [s[|s| - 1]];
    }
  }

  lemma {:induction false} KeepAll<T>(s: seq<T>, p: T -> bool)
    requires forall x :: x in s ==> p(x)
    ensures Keep(s, p) == s
  {
    if s != [] {
      KeepAll(s[..|s| - 1], p);
      assert s == s[..|s| - 1] + [s[|s| - 1]];
    }
  }

  lemma {:induction false} KeepNone<T>(s: seq<T>, p: T -> bool)
    requires forall x :: x in s ==> !p(x)
    ensures Keep(s, p) == []
  {
    if s != [] {
      KeepNone(s[..|s| - 1], p);
      assert s == s[..|s| - 1] + [s[|s| - 1]];
    }
  }

  lemma {:induction false} KeepSplits<T>(a: seq<T>, b: seq<T>, p: T -> bool)
    ensures Keep(a + b, p) == Keep(a, p) + Keep(b, p)
  {
    if b == [] {
      assert a + b == a;
    } else {
      var init := b[..|b| - 1];
      assert (a + b)[..|a + b| - 1] == a + init;
      KeepSplits(a, init, p);
    }
  }

  /** Compacting within the same storage: what the first `|s|` cells hold afterwards. */
  ghost function Compacted<T>(s: seq<T>, p: T -> bool): seq<T> {
    Keep(s, p) + s[|Keep(s, p)|..]
  }

  /** A holder of the uncompacted list, sharing the storage, still sees its own list exactly when
      everything removed lay behind everything kept. */
  lemma SharedListSurvivesCompaction<T>(s: seq<T>, p: T -> bool)
    ensures Compacted(s, p) == s <==> forall i, j :: 0 <= i < j < |s| && p(s[j]) ==> p(s[i])
  {
    if forall i, j :: 0 <= i < j < |s| && p(s[j]) ==> p(s[i]) {
      PrefixKept(s, p);
    } else {
      var i := FirstIndex(s, (x: T) => !p(x));
      RemovedCellIsTaken(s, p, i);
    }
  }

  /** Where the first removed element stood, a later one comes to stand. */
  lemma RemovedCellIsTaken<T>(s: seq<T>, p: T -> bool, i: nat)
    requires i < |s| && !p(s[i]) && forall k :: 0 <= k < i ==> p(s[k])
    requires exists j :: i < j < |s| && p(s[j])
    ensures Compacted(s, p) != s
  {
    var j :| i < j < |s| && p(s[j]);
    assert s == s[..i] + s[i..];
    KeepSplits(s[..i], s[i..], p);
    KeepAll(s[..i], p);
    KeepMeans(s[i..], p);
    assert s[i..][j - i] in Keep(s[i..], p);
    var kept := Keep(s[i..], p);
    assert kept[0] in kept;
    assert Compacted(s, p)[i] == kept[0];
  }

  lemma {:induction false} PrefixKept<T>(s: seq<T>, p: T -> bool)
    requires forall i, j :: 0 <= i < j < |s| && p(s[j]) ==> p(s[i])
    ensures Keep(s, p) <= s
  {
    if s != [] {
      PrefixKept(s[..|s| - 1], p);
      if p(s[|s| - 1]) {
        KeepAll(s, p);
      }
    }
  }

  // ----- rules: reordering, replacing -----

  lemma {:induction false} DistinctRulesAreFound(rules: seq<Rule>, i: nat)
    requires Distinct(Ids(rules)) && i < |rules|
    ensures RuleWithId(rules, rules[i].id) == rules[i]
  {
    if i > 0 {
      assert Ids(rules)[0] != Ids(rules)[i];
      assert Ids(rules)[1..] == Ids(rules[1..]);
      DistinctRulesAreFound(rules[1..], i - 1);
    }
  }

  lemma {:induction false} MembersDistinctSize<T(!new)>(s: seq<T>)
    requires Distinct(s)
    ensures forall x :: multiset(s)[x] <= 1
  {
    if s != [] {
      var init, last := s[..|s| - 1], s[|s| - 1];
      MembersDistinctSize(init);
      assert s == init + [last];
      assert last !in init;
    }
  }

  lemma OccursOnceIsDistinct<T(!new)>(s: seq<T>)
    requires forall x :: multiset(s)[x] <= 1
    ensures Distinct(s)
  {
    forall i, j | 0 <= i < j < |s| ensures s[i] != s[j] {
      var before, after := s[..j], s[j + 1..];
      assert s == before + [s[j]] + after;
      assert multiset(s) == multiset(before) + multiset{s[j]} + multiset(after);
      assert before[i] == s[i] && before[i] in before;
      assert multiset(before)[s[i]] >= 1;
      assert multiset(s)[s[j]] <= 1;
    }
  }

  /** Pigeonhole: as many distinct elements as places fill every place once. */
  lemma DistinctInclusion<T(!new)>(a: seq<T>, b: seq<T>)
    requires Distinct(a) && |a| == |b| && forall x :: x in a ==> x in b
    ensures multiset(a) == multiset(b) && Distinct(b)
  {
    MembersDistinctSize(a);
    forall x ensures multiset(a)[x] <= multiset(b)[x] {
      if x in multiset(a) {
        assert x in a && x in b && x in multiset(b);
      }
    }
    var rest := multiset(b) - multiset(a);
    assert multiset(b) == multiset(a) + rest;
    assert rest == multiset{};
    OccursOnceIsDistinct(b);
  }

  /** Reordering keeps every rule, exactly once, and puts the ids in the requested order. */
  lemma ReorderingKeepsRules(rules: seq<Rule>, ids: seq<string>)
    requires IsReordering(rules, ids)
    ensures Ids(Reordered(rules, ids)) == ids
    ensures multiset(Reordered(rules, ids)) == multiset(rules)
  {
    var r := Reordered(rules, ids);
    assert |ids| == |multiset(ids)| == |multiset(Ids(rules))| == |rules|;
    MembersDistinctSize(Ids(rules));
    assert Ids(r) == ids;
    forall i, j | 0 <= i < j < |rules| ensures rules[i] != rules[j] {
      assert Ids(rules)[i] != Ids(rules)[j];
    }
    forall x | x in rules ensures x in r {
      var i :| 0 <= i < |rules| && rules[i] == x;
      assert Ids(rules)[i] in multiset(Ids(rules));
      assert x.id in multiset(ids);
      var k :| 0 <= k < |ids| && ids[k] == x.id;
      DistinctRulesAreFound(rules, i);
      assert r[k] == x;
    }
    DistinctInclusion(rules, r);
  }

  ghost predicate FirstWithId(rules: seq<Rule>, id: string, i: nat) {
    i < |rules| && rules[i].id == id && forall j :: 0 <= j < i ==> rules[j].id != id
  }

  /** Replacing a rule rewrites exactly the first one with the id, in its place. */
  lemma {:induction false} ReplacesFirstWithId(
      rules: seq<Rule>, id: string, clauses: seq<Clause>, serve: VariationOrRollout)
    ensures WithRule(rules, id, clauses, serve).None? <==> forall j :: 0 <= j < |rules| ==> rules[j].id != id
    ensures forall i: nat :: FirstWithId(rules, id, i) ==>
              WithRule(rules, id, clauses, serve) == Some(rules[i := Rule(id, clauses, serve)])
  {
    if rules != [] && rules[0].id != id {
      ReplacesFirstWithId(rules[1..], id, clauses, serve);
      assert rules == [rules[0]] + rules[1..];
      forall i: nat | FirstWithId(rules, id, i)
        ensures WithRule(rules, id, clauses, serve) == Some(rules[i := Rule(id, clauses, serve)])
      {
        assert FirstWithId(rules[1..], id, i - 1) by {
          forall j | 0 <= j < i - 1 ensures rules[1..][j].id != id {
            assert rules[1..][j] == rules[j + 1];
          }
        }
        assert [rules[0]] + rules[1..][i - 1 := Rule(id, clauses, serve)] == rules[i := Rule(id, clauses, serve)];
      }
    } else if rules != [] {
      assert [Rule(id, clauses, serve)] + rules[1..] == rules[0 := Rule(id, clauses, serve)];
    }
  }

  /** Replacing a rule leaves all ids where they were. */
  lemma {:induction false} ReplacingKeepsIds(
      rules: seq<Rule>, id: string, clauses: seq<Clause>, serve: VariationOrRollout)
    ensures var r := WithRule(rules, id, clauses, serve); r.Some? ==> Ids(r.value) == Ids(rules)
  {
    if rules != [] && rules[0].id != id {
      ReplacingKeepsIds(rules[1..], id, clauses, serve);
    }
  }

  // ----- targets: what is targeted -----

  /** The keys individually targeted at a pair. */
  ghost function Targeted(ts: seq<Target>, kind: string, variation: int): set<string> {
    set t, v | t in ts && IsFor(t, kind, variation) && v in t.values :: v
  }

  lemma TargetedSplits(a: seq<Target>, b: seq<Target>, kind: string, variation: int)
    ensures Targeted(a + b, kind, variation) == Targeted(a, kind, variation) + Targeted(b, kind, variation)
  {
    assert forall t :: t in a + b <==> t in a || t in b;
  }

  lemma TargetedBySingle(t: Target, kind: string, variation: int)
    ensures Targeted([t], kind, variation) == if IsFor(t, kind, variation) then set v | v in t.values else {}
  {
    assert t in [t];
  }

  /** Adding targets adds exactly the values, for exactly that pair. */
  lemma {:induction false} AddingTargets(
      ts: seq<Target>, kind: string, variation: int, values: seq<string>, kind': string, variation': int)
    ensures Targeted(WithTargets(ts, kind, variation, values), kind', variation') ==
            Targeted(ts, kind', variation')
              + if kind' == kind && variation' == variation then set v | v in values else {}
  {
    if ts == [] {
      TargetedBySingle(Target(kind, values, variation), kind', variation');
    } else {
      var first := if IsFor(ts[0], kind, variation) then ts[0].(values := Dedup(ts[0].values + values)) else ts[0];
      assert ts == [ts[0]] + ts[1..];
      TargetedSplits([ts[0]], ts[1..], kind', variation');
      TargetedBySingle(ts[0], kind', variation');
      TargetedBySingle(first, kind', variation');
      if IsFor(ts[0], kind, variation) {
        TargetedSplits([first], ts[1..], kind', variation');
      } else {
        AddingTargets(ts[1..], kind, variation, values, kind', variation');
        TargetedSplits([ts[0]], WithTargets(ts[1..], kind, variation, values), kind', variation');
      }
    }
  }

  /** Removing targets removes exactly the values, for exactly that pair. */
  lemma {:induction false} RemovingTargets(
      ts: seq<Target>, kind: string, variation: int, drop: set<string>, kind': string, variation': int)
    ensures Targeted(WithoutTargets(ts, kind, variation, drop), kind', variation') ==
            Targeted(ts, kind', variation') - if kind' == kind && variation' == variation then drop else {}
  {
    if ts != [] {
      var init, last := ts[..|ts| - 1], ts[|ts| - 1];
      assert ts == init + [last];
      RemovingTargets(init, kind, variation, drop, kind', variation');
      TargetedSplits(init, [last], kind', variation');
      TargetedBySingle(last, kind', variation');
      KeepMeans(last.values, IsNoneOf(drop));
      var left := Pruned(last, kind, variation, drop);
      if left != [] {
        assert left == [left[0]];
        TargetedBySingle(left[0], kind', variation');
      }
      TargetedSplits(WithoutTargets(init, kind, variation, drop), left, kind', variation');
    }
  }

  /** The singleton left by pruning one target. */
  lemma WithoutTargetsOfOne(t: Target, kind: string, variation: int, drop: set<string>)
    ensures WithoutTargets([t], kind, variation, drop) == Pruned(t, kind, variation, drop)
  {
    assert [t][..0] == [];
    assert WithoutTargets([t], kind, variation, drop) == [] + Pruned(t, kind, variation, drop);
  }

  lemma RemovingUndoesMerging(
      before: seq<Target>, t: Target, after: seq<Target>, kind: string, variation: int, values: seq<string>)
    requires IsFor(t, kind, variation) && t.values != [] && Distinct(t.values)
    requires forall u :: u in before + after ==> !IsFor(u, kind, variation)
    requires forall v :: v in t.values ==> v !in values
    ensures WithoutTargets(WithTargets(before + [t] + after, kind, variation, values), kind, variation,
              set v | v in values) ==
            before + [t] + after
  {
    var drop, t' := (set v | v in values), t.(values := Dedup(t.values + values));
    assert (forall u :: u in before ==> u in before + after) && (forall u :: u in after ==> u in before + after);
    WithTargetsAt(before, t, after, kind, variation, values);
    WithoutTargetsSplits(before + [t'], after, kind, variation, drop);
    WithoutTargetsSplits(before, [t'], kind, variation, drop);
    UntouchedTargets(before, kind, variation, drop);
    UntouchedTargets(after, kind, variation, drop);
    WithoutTargetsOfOne(t', kind, variation, drop);
    AddedThenDropped(t.values, values, drop);
  }

  lemma RemovingUndoesAppending(ts: seq<Target>, kind: string, variation: int, values: seq<string>)
    requires forall u :: u in ts ==> !IsFor(u, kind, variation)
    ensures WithoutTargets(WithTargets(ts, kind, variation, values), kind, variation, set v | v in values) == ts
  {
    var drop, added := (set v | v in values), Target(kind, values, variation);
    WithTargetsAppends(ts, kind, variation, values);
    WithoutTargetsSplits(ts, [added], kind, variation, drop);
    UntouchedTargets(ts, kind, variation, drop);
    WithoutTargetsOfOne(added, kind, variation, drop);
    KeepNone(values, IsNoneOf(drop));
  }

  /** Removing what was just added undoes the addition: no target changes, in content or in order. */
  lemma RemovingUndoesAdding(ts: seq<Target>, kind: string, variation: int, values: seq<string>)
    requires forall i, j :: 0 <= i < j < |ts| ==> !SamePair(ts[i], ts[j])
    requires forall t :: t in ts && IsFor(t, kind, variation) ==> t.values != [] && Distinct(t.values)
    requires Targeted(ts, kind, variation) !! set v | v in values
    ensures WithoutTargets(WithTargets(ts, kind, variation, values), kind, variation, set v | v in values) == ts
  {
    if exists i :: 0 <= i < |ts| && IsFor(ts[i], kind, variation) {
      var i :| 0 <= i < |ts| && IsFor(ts[i], kind, variation);
      var before, t, after := ts[..i], ts[i], ts[i + 1..];
      assert ts == before + [t] + after;
      forall u | u in before + after ensures !IsFor(u, kind, variation) {
        var j :| 0 <= j < |ts| && j != i && ts[j] == u;
        assert !SamePair(ts[if j < i then j else i], ts[if j < i then i else j]);
      }
      forall v | v in t.values ensures v !in values {
        assert t in ts && v in Targeted(ts, kind, variation);
      }
      RemovingUndoesMerging(before, t, after, kind, variation, values);
    } else {
      RemovingUndoesAppending(ts, kind, variation, values);
    }
  }

  lemma {:induction false} WithTargetsAt(
      before: seq<Target>, t: Target, after: seq<Target>, kind: string, variation: int, values: seq<string>)
    requires IsFor(t, kind, variation) && forall u :: u in before ==> !IsFor(u, kind, variation)
    ensures WithTargets(before + [t] + after, kind, variation, values) ==
            before + [t.(values := Dedup(t.values + values))] + after
  {
    var ts := before + [t] + after;
    if before == [] {
      assert ts[1..] == after;
    } else {
      assert before[0] in before && ts[0] == before[0] && ts[1..] == before[1..] + [t] + after;
      WithTargetsAt(before[1..], t, after, kind, variation, values);
    }
  }

  lemma MergingTargets(ts: seq<Target>, i: nat, kind: string, variation: int, values: seq<string>)
    requires i < |ts| && IsFor(ts[i], kind, variation)
    requires forall j :: 0 <= j < i ==> !IsFor(ts[j], kind, variation)
    ensures WithTargets(ts, kind, variation, values) == ts[i := ts[i].(values := Dedup(ts[i].values + values))]
  {
    assert ts == ts[..i] + [ts[i]] + ts[i + 1..];
    WithTargetsAt(ts[..i], ts[i], ts[i + 1..], kind, variation, values);
  }

  lemma {:induction false} WithTargetsAppends(ts: seq<Target>, kind: string, variation: int, values: seq<string>)
    requires forall u :: u in ts ==> !IsFor(u, kind, variation)
    ensures WithTargets(ts, kind, variation, values) == ts + [Target(kind, values, variation)]
  {
    if ts != [] {
      assert ts[0] in ts;
      WithTargetsAppends(ts[1..], kind, variation, values);
    }
  }

  lemma {:induction false} WithoutTargetsSplits(
      a: seq<Target>, b: seq<Target>, kind: string, variation: int, drop: set<string>)
    ensures WithoutTargets(a + b, kind, variation, drop) ==
            WithoutTargets(a, kind, variation, drop) + WithoutTargets(b, kind, variation, drop)
  {
    if b == [] {
      assert a + b == a;
    } else {
      assert (a + b)[..|a + b| - 1] == a + b[..|b| - 1];
      WithoutTargetsSplits(a, b[..|b| - 1], kind, variation, drop);
    }
  }

  lemma {:induction false} UntouchedTargets(ts: seq<Target>, kind: string, variation: int, drop: set<string>)
    requires forall u :: u in ts ==> !IsFor(u, kind, variation)
    ensures WithoutTargets(ts, kind, variation, drop) == ts
  {
    if ts != [] {
      assert ts == ts[..|ts| - 1] + [ts[|ts| - 1]];
      UntouchedTargets(ts[..|ts| - 1], kind, variation, drop);
    }
  }

  lemma {:induction false} AddedThenDropped(a: seq<string>, b: seq<string>, drop: set<string>)
    requires Distinct(a) && (forall v :: v in a ==> v !in drop) && forall v :: v in b ==> v in drop
    ensures Keep(Dedup(a + b), IsNoneOf(drop)) == a
  {
    if b == [] {
      assert a + b == a;
      DedupOfDistinct(a);
      KeepAll(a, IsNoneOf(drop));
    } else {
      var init, last := b[..|b| - 1], b[|b| - 1];
      assert b == init + [last];
      AddedThenDropped(a, init, drop);
      assert a + b == a + init + [last];
      KeepSnoc(Dedup(a + init), last, IsNoneOf(drop));
    }
  }

  lemma KeepSnoc<T>(s: seq<T>, last: T, p: T -> bool)
    ensures Keep(s + [last], p) == Keep(s, p) + if p(last) then [last] else []
  {
    assert (s + [last])[..|s|] == s;
  }

  lemma {:induction false} DedupOfDistinct(a: seq<string>)
    requires Distinct(a)
    ensures Dedup(a) == a
  {
    if a != [] {
      assert a == a[..|a| - 1] + [a[|a| - 1]];
      DedupOfDistinct(a[..|a| - 1]);
    }
  }

  // ----- what every edit keeps -----

  /** Rules have distinct ids, and each context kind has at most one target per variation. */
  ghost predicate WellFormed(cfg: Config) {
    && Distinct(Ids(cfg.rules))
    && forall i, j :: 0 <= i < j < |cfg.targets| ==> !SamePair(cfg.targets[i], cfg.targets[j])
  }

  ghost predicate SamePair(t: Target, u: Target) {
    t.contextKind == u.contextKind && t.variation == u.variation
  }

  ghost function Pairs(ts: seq<Target>): seq<(string, int)> {
    seq(|ts|, i requires 0 <= i < |ts| => (ts[i].contextKind, ts[i].variation))
  }

  lemma {:induction false} AddingKeepsPairs(ts: seq<Target>, kind: string, variation: int, values: seq<string>)
    ensures var ps := Pairs(ts);
            Pairs(WithTargets(ts, kind, variation, values))
              == if (kind, variation) in ps then ps else ps + [(kind, variation)]
  {
    if ts != [] {
      assert Pairs(ts) == [(ts[0].contextKind, ts[0].variation)] + Pairs(ts[1..]);
      if IsFor(ts[0], kind, variation) {
        assert Pairs(ts)[0] in Pairs(ts);
      } else {
        AddingKeepsPairs(ts[1..], kind, variation, values);
        assert Pairs(WithTargets(ts, kind, variation, values)) ==
          [(ts[0].contextKind, ts[0].variation)] + Pairs(WithTargets(ts[1..], kind, variation, values));
      }
    }
  }

  lemma {:induction false} RemovingKeepsPairsDistinct(ts: seq<Target>, kind: string, variation: int, drop: set<string>)
    requires Distinct(Pairs(ts))
    ensures Distinct(Pairs(WithoutTargets(ts, kind, variation, drop)))
    ensures forall p :: p in Pairs(WithoutTargets(ts, kind, variation, drop)) ==> p in Pairs(ts)
  {
    if ts != [] {
      var init, last := ts[..|ts| - 1], ts[|ts| - 1];
      var p := (last.contextKind, last.variation);
      assert Pairs(ts) == Pairs(init) + [p];
      assert Distinct(Pairs(init)) && p !in Pairs(init) by {
        assert forall i :: 0 <= i < |init| ==> Pairs(init)[i] == Pairs(ts)[i] != Pairs(ts)[|init|];
      }
      RemovingKeepsPairsDistinct(init, kind, variation, drop);
      var rest, left := WithoutTargets(init, kind, variation, drop), Pruned(last, kind, variation, drop);
      if left == [] {
        assert rest + left == rest;
      } else {
        assert Pairs(rest + left) == Pairs(rest) + [p];
      }
    }
  }

  lemma {:induction false} KeepingRulesKeepsIdsDistinct(rules: seq<Rule>, p: Rule -> bool)
    requires Distinct(Ids(rules))
    ensures Distinct(Ids(Keep(rules, p)))
    ensures forall id :: id in Ids(Keep(rules, p)) ==> id in Ids(rules)
  {
    if rules != [] {
      var init, last := rules[..|rules| - 1], rules[|rules| - 1];
      assert Ids(rules) == Ids(init) + [last.id];
      assert Distinct(Ids(init)) && last.id !in Ids(init) by {
        assert forall i :: 0 <= i < |init| ==> Ids(init)[i] == Ids(rules)[i] != Ids(rules)[|init|];
      }
      KeepingRulesKeepsIdsDistinct(init, p);
      if p(last) {
        assert Ids(Keep(init, p) + [last]) == Ids(Keep(init, p)) + [last.id];
      }
    }
  }

  lemma PairsAndTargets(ts: seq<Target>)
    ensures Distinct(Pairs(ts)) <==> forall i, j :: 0 <= i < j < |ts| ==> !SamePair(ts[i], ts[j])
  {
    if Distinct(Pairs(ts)) {
      forall i, j | 0 <= i < j < |ts| ensures !SamePair(ts[i], ts[j]) {
        assert Pairs(ts)[i] != Pairs(ts)[j];
      }
    }
  }

  /** One instruction keeps a configuration well formed, and brings in no rule id but the fresh one. */
  lemma StepKeepsWellFormed(cfg: Config, ins: Instruction, freshId: string)
    requires WellFormed(cfg) && freshId !in Ids(cfg.rules)
    requires Step(cfg, ins, freshId).Ok?
    ensures WellFormed(Step(cfg, ins, freshId).value)
    ensures forall id :: id in Ids(Step(cfg, ins, freshId).value.rules) ==> id in Ids(cfg.rules) || id == freshId
  {
    var next := Step(cfg, ins, freshId).value;
    PairsAndTargets(cfg.targets);
    PairsAndTargets(next.targets);
    match ins.kind
    case AddTargets => AddingKeepsPairs(cfg.targets, ins.contextKind, ins.variation.value, ins.values);
    case RemoveTargets =>
      RemovingKeepsPairsDistinct(cfg.targets, ins.contextKind, ins.variation.value, set v | v in ins.values);
    case AddRule => assert Ids(next.rules) == Ids(cfg.rules) + [freshId];
    case UpdateRule =>
      ReplacingKeepsIds(cfg.rules, ins.ruleId, ins.clauses, VariationOrRollout(ins.variation, ins.rollout));
    case RemoveRule => KeepingRulesKeepsIdsDistinct(cfg.rules, HasOtherId(ins.ruleId));
    case ReorderRules =>
      ReorderingKeepsRules(cfg.rules, ins.ruleIds);
      var ids := Ids(cfg.rules);
      DistinctInclusionOf(ids, ins.ruleIds);
      forall id | id in Ids(next.rules) ensures id in ids {
        assert id in multiset(ins.ruleIds);
      }
    case _ =>
  }

  lemma DistinctInclusionOf<T(!new)>(a: seq<T>, b: seq<T>)
    requires Distinct(a) && multiset(a) == multiset(b)
    ensures Distinct(b)
  {
    assert |a| == |multiset(a)| == |multiset(b)| == |b|;
    forall x | x in a ensures x in b {
      assert x in multiset(a);
    }
    DistinctInclusion(a, b);
  }

  /** Any successful list of instructions keeps a configuration well formed, when the ids drawn are new and distinct. */
  lemma {:induction false} FoldKeepsWellFormed(cfg: Config, list: seq<Instruction>, ids: seq<string>)
    requires |ids| == |list| && WellFormed(cfg)
    requires Distinct(ids) && forall id :: id in ids ==> id !in Ids(cfg.rules)
    requires Fold(cfg, list, ids).Ok?
    ensures WellFormed(Fold(cfg, list, ids).value)
    ensures forall id :: id in Ids(Fold(cfg, list, ids).value.rules) ==> id in Ids(cfg.rules) || id in ids
  {
    if list != [] {
      var last := |list| - 1;
      assert ids == ids[..last] + [ids[last]];
      FoldKeepsWellFormed(cfg, list[..last], ids[..last]);
      var mid := Fold(cfg, list[..last], ids[..last]).value;
      assert ids[last] in ids && ids[last] !in ids[..last];
      StepKeepsWellFormed(mid, list[last], ids[last]);
    }
  }

  /** Editing in two goes is editing in one: the second list starts from the result of the first. */
  lemma {:induction false} EditingComposes(
      cfg: Config, a: seq<Instruction>, b: seq<Instruction>, idsA: seq<string>, idsB: seq<string>)
    requires |idsA| == |a| && |idsB| == |b|
    ensures var whole, first := Fold(cfg, a + b, idsA + idsB), Fold(cfg, a, idsA);
            && (first.Err? ==> whole == first)
            && (first.Ok? && Fold(first.value, b, idsB).Ok? ==> whole == Fold(first.value, b, idsB))
            && (whole.Ok? ==> first.Ok? && Fold(first.value, b, idsB).Ok?)
  {
    if b == [] {
      assert a + b == a && idsA + idsB == idsA;
    } else {
      var n := |b| - 1;
      assert (a + b)[..|a + b| - 1] == a + b[..n];
      assert (idsA + idsB)[..|a + b| - 1] == idsA + idsB[..n];
      EditingComposes(cfg, a, b[..n], idsA, idsB[..n]);
    }
  }
}
