// The instruction editor as it runs: a configuration whose lists live in storage that copies share,
// edited in place. Every method computes the pure edit of the Edits module.
module Instructions {
  import opened Models
  import opened Lists
  import opened Edits
  import opened Sharing

  /** Collects the values not in `drop`. */
  method KeepValues(values: seq<string>, drop: set<string>) returns (kept: seq<string>)
    ensures kept == Keep(values, IsNoneOf(drop))
  {
    kept := [];
    for i := 0 to |values|
      invariant kept == Keep(values[..i], IsNoneOf(drop))
    {
      KeepSnoc(values[..i], values[i], IsNoneOf(drop));
      assert values[..i + 1] == values[..i] + [values[i]];
      if values[i] !in drop {
        kept := kept + [values[i]];
      }
    }
    assert values[..|values|] == values;
  }

  lemma DedupSnoc(s: seq<string>, i: nat)
    requires i < |s|
    ensures Dedup(s[..i + 1]) == Dedup(s[..i]) + if s[i] in s[..i] then [] else [s[i]]
    ensures forall v :: v in s[..i + 1] <==> v in s[..i] || v == s[i]
  {
    assert s[..i + 1] == s[..i] + [s[i]];
    assert s[..i + 1][..i] == s[..i];
  }

  /** The union of two lists, first occurrences only, in order. */
  method UnionStrings(a: seq<string>, b: seq<string>) returns (out: seq<string>)
    ensures out == Dedup(a + b)
  {
    var all, seen: set<string> := a + b, {};
    out := [];
    for i := 0 to |all|
      invariant out == Dedup(all[..i])
      invariant forall v :: v in seen <==> v in all[..i]
    {
      DedupSnoc(all, i);
      if all[i] !in seen {
        seen := seen + {all[i]};
        out := out + [all[i]];
      }
    }
    assert all[..|all|] == all;
  }

  /** Drops the rules with an id by compacting the storage in place. */
  method CompactRules(rules: array<Rule>, n: nat, id: string) returns (k: nat)
    requires n <= rules.Length
    modifies rules
    ensures k <= n && rules[..k] == Keep(old(rules[..n]), HasOtherId(id))
    ensures rules[..n] == Compacted(old(rules[..n]), HasOtherId(id))
    ensures rules[k..] == old(rules[k..])
  {
    ghost var was := rules[..];
    ghost var p := HasOtherId(id);
    k := 0;
    for i := 0 to n
      invariant k <= i
      invariant rules[..k] == Keep(was[..i], p)
      invariant forall j :: k <= j < rules.Length ==> rules[j] == was[j]
    {
      var r := rules[i];
      KeepSnoc(was[..i], was[i], p);
      assert was[..i + 1] == was[..i] + [was[i]];
      if r.id != id {
        rules[k] := r;
        k := k + 1;
      }
    }
    assert was[..n] == old(rules[..n]);
  }

  /** Drops the prerequisites on a flag by compacting the storage in place. */
  method CompactPrerequisites(prereqs: array<Prerequisite>, n: nat, key: string) returns (k: nat)
    requires n <= prereqs.Length
    modifies prereqs
    ensures k <= n && prereqs[..k] == Keep(old(prereqs[..n]), HasOtherKey(key))
    ensures prereqs[..n] == Compacted(old(prereqs[..n]), HasOtherKey(key))
    ensures prereqs[k..] == old(prereqs[k..])
  {
    ghost var was := prereqs[..];
    ghost var p := HasOtherKey(key);
    k := 0;
    for i := 0 to n
      invariant k <= i
      invariant prereqs[..k] == Keep(was[..i], p)
      invariant forall j :: k <= j < prereqs.Length ==> prereqs[j] == was[j]
    {
      var q := prereqs[i];
      KeepSnoc(was[..i], was[i], p);
      assert was[..i + 1] == was[..i] + [was[i]];
      if q.key != key {
        prereqs[k] := q;
        k := k + 1;
      }
    }
    assert was[..n] == old(prereqs[..n]);
  }

  /** A target without the dropped values, or nothing when it is left empty. */
  method PruneTarget(t: Target, kind: string, variation: int, drop: set<string>) returns (left: Option<Target>)
    ensures Pruned(t, kind, variation, drop) == if left.Some? then [left.value] else []
  {
    if t.contextKind == kind && t.variation == variation {
      var vals := KeepValues(t.values, drop);
      return if |vals| == 0 then None else Some(t.(values := vals));
    }
    return Some(t);
  }

  /** Removes values from the targets of a pair, compacting in place and dropping a target left empty. */
  method CompactTargets(targets: array<Target>, n: nat, kind: string, variation: int, drop: set<string>)
    returns (k: nat)
    requires n <= targets.Length
    modifies targets
    ensures k <= n && targets[..k] == WithoutTargets(old(targets[..n]), kind, variation, drop)
    ensures targets[k..] == old(targets[k..])
  {
    ghost var was := targets[..];
    k := 0;
    for i := 0 to n
      invariant k <= i
      invariant targets[..k] == WithoutTargets(was[..i], kind, variation, drop)
      invariant forall j :: k <= j < targets.Length ==> targets[j] == was[j]
    {
      WithoutTargetsSnoc(was, i, kind, variation, drop);
      var left := PruneTarget(targets[i], kind, variation, drop);
      if left.Some? {
        targets[k] := left.value;
        k := k + 1;
      }
    }
    assert was[..n] == old(targets[..n]);
  }

  lemma WithoutTargetsSnoc(ts: seq<Target>, i: nat, kind: string, variation: int, drop: set<string>)
    requires i < |ts|
    ensures WithoutTargets(ts[..i + 1], kind, variation, drop) ==
            WithoutTargets(ts[..i], kind, variation, drop) + Pruned(ts[i], kind, variation, drop)
  {
    assert ts[..i + 1][..i] == ts[..i];
  }

  /** Rules by id; a later rule replaces an earlier one with the same id. */
  method IndexRules(rules: seq<Rule>) returns (byID: map<string, Rule>)
    ensures forall id :: id in byID <==> id in Ids(rules)
    ensures forall id :: id in byID ==> byID[id] in rules && byID[id].id == id
  {
    byID := map[];
    for i := 0 to |rules|
      invariant forall id :: id in byID <==> id in Ids(rules[..i])
      invariant forall id :: id in byID ==> byID[id] in rules[..i] && byID[id].id == id
    {
      assert rules[..i + 1] == rules[..i] + [rules[i]];
      assert Ids(rules[..i + 1]) == Ids(rules[..i]) + [rules[i].id];
      byID := byID[rules[i].id := rules[i]];
    }
    assert rules[..|rules|] == rules;
  }

  /** After drawing the rules for the first ids: the index holds the rules of the ids not yet used. */
  ghost predicate Drawn(rules: seq<Rule>, used: seq<string>, byID: map<string, Rule>, next: seq<Rule>) {
    && |next| == |used| && Distinct(used)
    && (forall j :: 0 <= j < |next| ==> next[j] in rules && next[j].id == used[j])
    && (forall id :: id in used ==> id in Ids(rules))
    && (forall id :: id in byID <==> id in Ids(rules) && id !in used)
    && (forall id :: id in byID ==> byID[id] in rules && byID[id].id == id)
  }

  lemma DrawOne(rules: seq<Rule>, used: seq<string>, byID: map<string, Rule>, next: seq<Rule>, id: string)
    requires Drawn(rules, used, byID, next) && id in byID
    ensures Drawn(rules, used + [id], byID - {id}, next + [byID[id]])
  {
  }

  /** Draws the rules in the order of `ids`, consuming the index so that no id can be used twice. */
  method DrawInOrder(rules: seq<Rule>, ids: seq<string>) returns (next: seq<Rule>, ok: bool)
    requires |ids| == |rules|
    ensures ok <==> IsReordering(rules, ids)
    ensures ok ==> next == Reordered(rules, ids)
  {
    var byID := IndexRules(rules);
    next := [];
    for i := 0 to |ids|
      invariant Drawn(rules, ids[..i], byID, next)
    {
      var id := ids[i];
      if id !in byID {
        if IsReordering(rules, ids) {
          ReorderingUsesEachIdOnce(rules, ids, i);
        }
        return next, false;
      }
      DrawOne(rules, ids[..i], byID, next, id);
      assert ids[..i + 1] == ids[..i] + [id];
      next := next + [byID[id]];
      byID := byID - {id};
    }
    assert ids[..|ids|] == ids;
    DrawnIsReordered(rules, ids, next);
    ok := true;
  }

  lemma DrawnIsReordered(rules: seq<Rule>, ids: seq<string>, next: seq<Rule>)
    requires |ids| == |rules| == |next| && Distinct(ids)
    requires forall id :: id in ids ==> id in Ids(rules)
    requires forall j :: 0 <= j < |next| ==> next[j] in rules && next[j].id == ids[j]
    ensures IsReordering(rules, ids) && next == Reordered(rules, ids)
  {
    DistinctInclusion(ids, Ids(rules));
    forall j | 0 <= j < |ids| ensures next[j] == Reordered(rules, ids)[j] {
      var m :| 0 <= m < |rules| && rules[m] == next[j];
      DistinctRulesAreFound(rules, m);
    }
  }

  lemma ReorderingUsesEachIdOnce(rules: seq<Rule>, ids: seq<string>, i: nat)
    requires i < |ids| && IsReordering(rules, ids)
    ensures ids[i] in Ids(rules) && ids[i] !in ids[..i]
  {
    DistinctInclusionOf(Ids(rules), ids);
    assert ids[i] in multiset(ids);
  }

  /** A configuration in memory. A list is the first cells of its storage; the rest is spare capacity. */
  class FlagConfig {
    var on: bool
    var offVariation: int
    var fallthru: VariationOrRollout
    var prereqs: array<Prerequisite>
    var nPrereqs: nat
    var targets: array<Target>
    var nTargets: nat
    var rules: array<Rule>
    var nRules: nat

    ghost predicate Valid()
      reads this
    {
      nPrereqs <= prereqs.Length && nTargets <= targets.Length && nRules <= rules.Length
    }

    ghost function Model(): Config
      reads this, prereqs, targets, rules
      requires Valid()
    {
      Config(on, offVariation, prereqs[..nPrereqs], targets[..nTargets], rules[..nRules], fallthru)
    }

    /** A configuration read from the store, in storage of its own. */
    constructor Decode(c: Config)
      ensures Valid() && Model() == c
      ensures fresh(prereqs) && fresh(targets) && fresh(rules)
    {
      on, offVariation, fallthru := c.on, c.offVariation, c.fallthru;
      prereqs := new Prerequisite[|c.prerequisites|](i requires 0 <= i < |c.prerequisites| => c.prerequisites[i]);
      targets := new Target[|c.targets|](i requires 0 <= i < |c.targets| => c.targets[i]);
      rules := new Rule[|c.rules|](i requires 0 <= i < |c.rules| => c.rules[i]);
      nPrereqs, nTargets, nRules := |c.prerequisites|, |c.targets|, |c.rules|;
    }

    /** The value written to the store. */
    function Encode(): (c: Config)
      reads this, prereqs, targets, rules
      requires Valid()
      ensures c == Model()
    {
      Config(on, offVariation, prereqs[..nPrereqs], targets[..nTargets], rules[..nRules], fallthru)
    }

    /** A copy passed by value: the same storage, seen through fields of its own. */
    constructor Share(other: FlagConfig)
      requires other.Valid()
      ensures Valid() && Model() == other.Model()
      ensures prereqs == other.prereqs && targets == other.targets && rules == other.rules
    {
      on, offVariation, fallthru := other.on, other.offVariation, other.fallthru;
      prereqs, targets, rules := other.prereqs, other.targets, other.rules;
      nPrereqs, nTargets, nRules := other.nPrereqs, other.nTargets, other.nRules;
    }

    method AppendRule(r: Rule)
      requires Valid()
      modifies this`rules, this`nRules, rules
      ensures Valid() && (rules == old(rules) || fresh(rules))
      ensures Write(Held(old(rules[..]), true), rules[..nRules], false) == Held(old(rules)[..], rules == old(rules))
      ensures Model() == old(Model()).(rules := old(rules[..nRules]) + [r])
    {
      if nRules == rules.Length {
        var was := rules[..];
        rules := new Rule[2 * nRules + 1](i => if 0 <= i < |was| then was[i] else r);
      }
      rules[nRules] := r;
      nRules := nRules + 1;
    }

    method AppendPrerequisite(p: Prerequisite)
      requires Valid()
      modifies this`prereqs, this`nPrereqs, prereqs
      ensures Valid() && (prereqs == old(prereqs) || fresh(prereqs))
      ensures Write(Held(old(prereqs[..]), true), prereqs[..nPrereqs], false)
                == Held(old(prereqs)[..], prereqs == old(prereqs))
      ensures Model() == old(Model()).(prerequisites := old(prereqs[..nPrereqs]) + [p])
    {
      if nPrereqs == prereqs.Length {
        var was := prereqs[..];
        prereqs := new Prerequisite[2 * nPrereqs + 1](i => if 0 <= i < |was| then was[i] else p);
      }
      prereqs[nPrereqs] := p;
      nPrereqs := nPrereqs + 1;
    }

    method AppendTarget(t: Target)
      requires Valid()
      modifies this`targets, this`nTargets, targets
      ensures Valid() && (targets == old(targets) || fresh(targets))
      ensures Write(Held(old(targets[..]), true), targets[..nTargets], false)
                == Held(old(targets)[..], targets == old(targets))
      ensures Model() == old(Model()).(targets := old(targets[..nTargets]) + [t])
    {
      if nTargets == targets.Length {
        var was := targets[..];
        targets := new Target[2 * nTargets + 1](i => if 0 <= i < |was| then was[i] else t);
      }
      targets[nTargets] := t;
      nTargets := nTargets + 1;
    }

    method AddTargets(kind: string, variation: int, values: seq<string>)
      requires Valid()
      modifies this`targets, this`nTargets, targets
      ensures Valid() && (targets == old(targets) || fresh(targets))
      ensures Write(Held(old(targets[..]), true), targets[..nTargets], false)
                == Held(old(targets)[..], targets == old(targets))
      ensures Model() == old(Model()).(targets := WithTargets(old(targets[..nTargets]), kind, variation, values))
    {
      ghost var was := targets[..nTargets];
      for i := 0 to nTargets
        invariant targets == old(targets) && nTargets == old(nTargets) && targets[..nTargets] == was
        invariant forall j :: 0 <= j < i ==> !IsFor(targets[j], kind, variation)
      {
        if targets[i].contextKind == kind && targets[i].variation == variation {
          MergingTargets(was, i, kind, variation, values);
          var merged := UnionStrings(targets[i].values, values);
          targets[i] := targets[i].(values := merged);
          assert targets[..nTargets] == was[i := was[i].(values := merged)];
          return;
        }
      }
      WithTargetsAppends(was, kind, variation, values);
      AppendTarget(Target(kind, values, variation));
    }

    /** Rewrites a rule in place, keeping its id and position. */
    method UpdateRule(id: string, clauses: seq<Clause>, serve: VariationOrRollout) returns (found: bool)
      requires Valid()
      modifies rules
      ensures Write(Held(old(rules[..]), true), rules[..nRules], false) == Held(rules[..], true)
      ensures var was := old(rules[..nRules]);
              match WithRule(was, id, clauses, serve)
              case None => !found && Model() == old(Model())
              case Some(next) => found && Model() == old(Model()).(rules := next)
    {
      ghost var was := rules[..nRules];
      ReplacesFirstWithId(was, id, clauses, serve);
      for i := 0 to nRules
        invariant rules[..nRules] == was
        invariant forall j :: 0 <= j < i ==> was[j].id != id
      {
        if rules[i].id == id {
          assert FirstWithId(was, id, i);
          rules[i] := rules[i].(clauses := clauses, serve := serve);
          assert rules[..nRules] == was[i := Rule(id, clauses, serve)];
          return true;
        }
      }
      return false;
    }

    method RemoveTargets(kind: string, variation: int, values: seq<string>)
      requires Valid()
      modifies this`nTargets, targets
      ensures Valid()
      ensures Write(Held(old(targets[..]), true), targets[..nTargets], false) == Held(targets[..], true)
      ensures Model() == old(Model()).(targets := WithoutTargets(old(targets[..nTargets]), kind, variation,
                set v | v in values))
    {
      nTargets := CompactTargets(targets, nTargets, kind, variation, set v | v in values);
    }

    method RemoveRule(id: string)
      requires Valid()
      modifies this`nRules, rules
      ensures Valid()
      ensures Write(Held(old(rules[..]), true), rules[..nRules], false) == Held(rules[..], true)
      ensures Model() == old(Model()).(rules := Keep(old(rules[..nRules]), HasOtherId(id)))
    {
      nRules := CompactRules(rules, nRules, id);
    }

    method RemovePrerequisite(key: string)
      requires Valid()
      modifies this`nPrereqs, prereqs
      ensures Valid()
      ensures Write(Held(old(prereqs[..]), true), prereqs[..nPrereqs], false) == Held(prereqs[..], true)
      ensures Model() == old(Model()).(prerequisites := Keep(old(prereqs[..nPrereqs]), HasOtherKey(key)))
    {
      nPrereqs := CompactPrerequisites(prereqs, nPrereqs, key);
    }

    /** Puts the rules in the order of `ids`, in new storage, or changes nothing. */
    method ReorderRules(ids: seq<string>) returns (error: Option<EditError>)
      requires Valid()
      modifies this`rules, this`nRules
      ensures Valid() && (rules == old(rules) || fresh(rules))
      ensures Write(Held(old(rules[..]), true), rules[..nRules], error.None?)
                == Held(old(rules)[..], rules == old(rules))
      ensures var was := old(rules[..nRules]);
              if |ids| != |was| then error == Some(ReorderIncomplete) && Model() == old(Model())
              else if IsReordering(was, ids)
                  then error == None && Model() == old(Model()).(rules := Reordered(was, ids))
              else error == Some(ReorderIdUnknownOrRepeated) && Model() == old(Model())
    {
      if |ids| != nRules {
        return Some(ReorderIncomplete);
      }
      var next, ok := DrawInOrder(rules[..nRules], ids);
      if !ok {
        return Some(ReorderIdUnknownOrRepeated);
      }
      rules := new Rule[|next|](i requires 0 <= i < |next| => next[i]);
      nRules := |next|;
      assert rules[..nRules] == next;
      return None;
    }

    /** The instructions on individual targets. */
    method ApplyToTargets(ins: Instruction) returns (error: Option<EditError>)
      requires Valid() && (ins.kind.AddTargets? || ins.kind.RemoveTargets?)
      modifies this`targets, this`nTargets, targets
      ensures Valid() && (targets == old(targets) || fresh(targets))
      ensures Did(old(Model()), ins, "", error, Model())
      ensures Write(Held(old(targets[..]), true), targets[..nTargets], false)
                == Held(old(targets)[..], targets == old(targets))
    {
      if ins.variation.None? {
        WriteSame(targets[..], nTargets);
        return Some(VariationRequired);
      }
      error := None;
      if ins.kind.AddTargets? {
        AddTargets(ins.contextKind, ins.variation.value, ins.values);
      } else {
        RemoveTargets(ins.contextKind, ins.variation.value, ins.values);
      }
    }

    /** The instructions on rules. */
    method ApplyToRules(ins: Instruction, freshId: string) returns (error: Option<EditError>)
      requires Valid() && (ins.kind.AddRule? || ins.kind.UpdateRule? || ins.kind.RemoveRule? || ins.kind.ReorderRules?)
      modifies this`rules, this`nRules, rules
      ensures Valid() && (rules == old(rules) || fresh(rules))
      ensures Did(old(Model()), ins, freshId, error, Model())
      ensures Write(Held(old(rules[..]), true), rules[..nRules], ins.kind.ReorderRules? && error.None?) ==
              Held(old(rules)[..], rules == old(rules))
    {
      WriteSame(rules[..], nRules);
      error := None;
      match ins.kind
      case AddRule =>
        if |ins.clauses| == 0 { return Some(ClausesRequired); }
        if ins.variation.None? && ins.rollout.None? { return Some(ServeRequired); }
        AppendRule(Rule(freshId, ins.clauses, VariationOrRollout(ins.variation, ins.rollout)));
      case UpdateRule =>
        if ins.ruleId == "" { return Some(RuleIdRequired); }
        if |ins.clauses| == 0 { return Some(ClausesRequired); }
        if ins.variation.None? && ins.rollout.None? { return Some(ServeRequired); }
        var found := UpdateRule(ins.ruleId, ins.clauses, VariationOrRollout(ins.variation, ins.rollout));
        if !found { return Some(RuleIdUnknown); }
      case RemoveRule =>
        if ins.ruleId == "" { return Some(RuleIdRequired); }
        RemoveRule(ins.ruleId);
      case ReorderRules =>
        error := ReorderRules(ins.ruleIds);
    }

    /** The instructions on prerequisites. */
    method ApplyToPrerequisites(ins: Instruction) returns (error: Option<EditError>)
      requires Valid() && (ins.kind.AddPrerequisite? || ins.kind.RemovePrerequisite?)
      modifies this`prereqs, this`nPrereqs, prereqs
      ensures Valid() && (prereqs == old(prereqs) || fresh(prereqs))
      ensures Did(old(Model()), ins, "", error, Model())
      ensures Write(Held(old(prereqs[..]), true), prereqs[..nPrereqs], false)
                == Held(old(prereqs)[..], prereqs == old(prereqs))
    {
      WriteSame(prereqs[..], nPrereqs);
      error := None;
      match ins.kind
      case AddPrerequisite =>
        if ins.key == "" || ins.variation.None? { return Some(KeyAndVariationRequired); }
        AppendPrerequisite(Prerequisite(ins.key, ins.variation.value));
      case RemovePrerequisite =>
        if ins.key == "" { return Some(KeyRequired); }
        RemovePrerequisite(ins.key);
    }

    /** Applies one instruction, or reports why it cannot be applied and changes nothing. */
    method ApplyInstruction(ins: Instruction, freshId: string) returns (error: Option<EditError>)
      requires Valid()
      modifies this, prereqs, targets, rules
      ensures Valid()
      ensures prereqs == old(prereqs) || fresh(prereqs)
      ensures targets == old(targets) || fresh(targets)
      ensures rules == old(rules) || fresh(rules)
      ensures Did(old(Model()), ins, freshId, error, Model())
      ensures Write(Held(old(prereqs[..]), true), prereqs[..nPrereqs], false)
                == Held(old(prereqs)[..], prereqs == old(prereqs))
      ensures Write(Held(old(targets[..]), true), targets[..nTargets], false)
                == Held(old(targets)[..], targets == old(targets))
      ensures Write(Held(old(rules[..]), true), rules[..nRules], ins.kind.ReorderRules? && error.None?) ==
              Held(old(rules)[..], rules == old(rules))
    {
      WriteSame(prereqs[..], nPrereqs);
      WriteSame(targets[..], nTargets);
      WriteSame(rules[..], nRules);
      match ins.kind
      case AddTargets => error := ApplyToTargets(ins);
      case RemoveTargets => error := ApplyToTargets(ins);
      case AddRule => error := ApplyToRules(ins, freshId);
      case UpdateRule => error := ApplyToRules(ins, freshId);
      case RemoveRule => error := ApplyToRules(ins, freshId);
      case ReorderRules => error := ApplyToRules(ins, freshId);
      case AddPrerequisite => error := ApplyToPrerequisites(ins);
      case RemovePrerequisite => error := ApplyToPrerequisites(ins);
      case _ => error := ApplyToFields(ins);
    }

    /** The instructions on single fields, and the kinds there is no instruction for. */
    method ApplyToFields(ins: Instruction) returns (error: Option<EditError>)
      requires Valid() && OnFields(ins)
      modifies this`on, this`offVariation, this`fallthru
      ensures Did(old(Model()), ins, "", error, Model())
    {
      error := None;
      match ins.kind
      case TurnFlagOn => on := true;
      case TurnFlagOff => on := false;
      case UpdateOffVariation =>
        if ins.variation.None? { return Some(VariationRequired); }
        offVariation := ins.variation.value;
      case UpdateFallthroughVariation =>
        if ins.variation.None? { return Some(VariationRequired); }
        fallthru := VariationOrRollout(ins.variation, None);
      case UpdateFallthroughRollout =>
        if ins.rollout.None? { return Some(RolloutRequired); }
        fallthru := VariationOrRollout(None, ins.rollout);
      case UnknownKind(_) => return Some(KindUnknown);
    }
  }

  predicate OnFields(ins: Instruction) {
    || ins.kind.TurnFlagOn? || ins.kind.TurnFlagOff? || ins.kind.UpdateOffVariation?
    || ins.kind.UpdateFallthroughVariation? || ins.kind.UpdateFallthroughRollout? || ins.kind.UnknownKind?
  }

  /** The instruction has had the effect the pure edit gives it, or has failed as that does and changed nothing. */
  ghost predicate Did(was: Config, ins: Instruction, freshId: string, error: Option<EditError>, now: Config) {
    match Step(was, ins, freshId)
    case Ok(next) => error == None && now == next
    case Err(e) => error == Some(e) && now == was
  }

  /** Applies a list of instructions to a copy of `cfg`. The copy shares storage with `cfg`; the last clause says
      what `cfg` itself holds afterwards. */
  method ApplyInstructions(cfg: FlagConfig, list: seq<Instruction>, ids: seq<string>)
    returns (next: FlagConfig, error: Option<EditError>)
    requires cfg.Valid() && |ids| == |list|
    modifies cfg.prereqs, cfg.targets, cfg.rules
    ensures fresh(next) && next.Valid()
    ensures match Edit(old(cfg.Model()), list, ids)
            case Ok(result) => error == None && next.Model() == result
            case Err(e) => error == Some(e)
    ensures cfg.Model() == SeenAfter(AllShared(old(cfg.prereqs[..]), old(cfg.targets[..]), old(cfg.rules[..])),
              old(cfg.Model()), list, ids)
  {
    next := new FlagConfig.Share(cfg);
    ghost var start := cfg.Model();
    ghost var held := AllShared(cfg.prereqs[..], cfg.targets[..], cfg.rules[..]);
    if |list| == 0 {
      return next, Some(NoInstructions);
    }
    for i := 0 to |list|
      invariant fresh(next) && next.Valid()
      invariant next.prereqs == old(cfg.prereqs) || fresh(next.prereqs)
      invariant next.targets == old(cfg.targets) || fresh(next.targets)
      invariant next.rules == old(cfg.rules) || fresh(next.rules)
      invariant Fold(start, list[..i], ids[..i]) == Ok(next.Model())
      invariant AfterEdits(held, start, list[..i], ids[..i]) == HeldBy(cfg, next)
    {
      OneMore(held, start, list, ids, i);
      var problem := ApplyShared(cfg, next, list[i], ids[i]);
      if problem.Some? {
        FailureIsFinal(start, list, ids, i + 1);
        FailureTouchesNoMore(held, start, list, ids, i + 1);
        return next, Some(FailedAt(i, problem.value));
      }
    }
    assert list[..|list|] == list && ids[..|list|] == ids;
    error := None;
  }

  /** One instruction applied to a copy, and what it does to the storage of the original. */
  method ApplyShared(cfg: FlagConfig, copy: FlagConfig, ins: Instruction, freshId: string)
    returns (error: Option<EditError>)
    requires copy.Valid() && cfg != copy
    modifies copy, copy.prereqs, copy.targets, copy.rules
    ensures copy.Valid()
    ensures copy.prereqs == old(copy.prereqs) || fresh(copy.prereqs)
    ensures copy.targets == old(copy.targets) || fresh(copy.targets)
    ensures copy.rules == old(copy.rules) || fresh(copy.rules)
    ensures match Step(old(copy.Model()), ins, freshId)
            case Ok(next) =>
              error == None && copy.Model() == next &&
                  HeldBy(cfg, copy) == WriteAll(old(HeldBy(cfg, copy)), next, ins.kind.ReorderRules?)
            case Err(e) => error == Some(e) && HeldBy(cfg, copy) == old(HeldBy(cfg, copy))
  {
    WriteSame(copy.prereqs[..], copy.nPrereqs);
    WriteSame(copy.targets[..], copy.nTargets);
    WriteSame(copy.rules[..], copy.nRules);
    error := copy.ApplyInstruction(ins, freshId);
  }

  lemma OneMore(m: Memory, cfg: Config, list: seq<Instruction>, ids: seq<string>, i: nat)
    requires |ids| == |list| && i < |list| && Fold(cfg, list[..i], ids[..i]).Ok?
    ensures var held, current := AfterEdits(m, cfg, list[..i], ids[..i]), Fold(cfg, list[..i], ids[..i]).value;
            match Step(current, list[i], ids[i])
            case Err(e) =>
              && Fold(cfg, list[..i + 1], ids[..i + 1]) == Err(FailedAt(i, e))
              && AfterEdits(m, cfg, list[..i + 1], ids[..i + 1]) == held
            case Ok(next) =>
              && Fold(cfg, list[..i + 1], ids[..i + 1]) == Ok(next)
              && AfterEdits(m, cfg, list[..i + 1], ids[..i + 1]) == WriteAll(held, next, list[i].kind.ReorderRules?)
  {
    assert list[..i + 1][..i] == list[..i] && ids[..i + 1][..i] == ids[..i];
  }

  /** The caller's storage as it is now. */
  ghost function HeldBy(cfg: FlagConfig, copy: FlagConfig): Memory
    reads cfg, copy, cfg.prereqs, cfg.targets, cfg.rules
  {
    Memory(Held(cfg.prereqs[..], copy.prereqs == cfg.prereqs), Held(cfg.targets[..], copy.targets == cfg.targets),
           Held(cfg.rules[..], copy.rules == cfg.rules))
  }

  /** One instruction applied to a copy of a stored configuration, seen from the configuration that was copied. */
  method EditCopy(c: Config, ins: Instruction, freshId: string) returns (seen: Config)
    ensures seen == c <==> Step(c, ins, freshId).Err? || Spares(c, ins)
  {
    var cfg := new FlagConfig.Decode(c);
    ghost var m := AllShared(cfg.prereqs[..], cfg.targets[..], cfg.rules[..]);
    var next, error := ApplyInstructions(cfg, [ins], [freshId]);
    OneInstructionSparesExactly(m, c, ins, freshId);
    seen := cfg.Encode();
  }

  lemma {:induction false} FailureTouchesNoMore(
      m: Memory, cfg: Config, list: seq<Instruction>, ids: seq<string>, i: nat)
    requires |ids| == |list| && i <= |list| && Fold(cfg, list[..i], ids[..i]).Err?
    ensures AfterEdits(m, cfg, list, ids) == AfterEdits(m, cfg, list[..i], ids[..i])
    decreases |list|
  {
    if i == |list| {
      assert list[..i] == list && ids[..i] == ids;
    } else {
      var last := |list| - 1;
      assert list[..last][..i] == list[..i] && ids[..last][..i] == ids[..i];
      FailureIsFinal(cfg, list[..last], ids[..last], i);
      FailureTouchesNoMore(m, cfg, list[..last], ids[..last], i);
    }
  }

  /** Once an instruction fails, the list as a whole fails in the same way. */
  lemma {:induction false} FailureIsFinal(cfg: Config, list: seq<Instruction>, ids: seq<string>, i: nat)
    requires |ids| == |list| && i <= |list| && Fold(cfg, list[..i], ids[..i]).Err?
    ensures Fold(cfg, list, ids) == Fold(cfg, list[..i], ids[..i])
    decreases |list|
  {
    if i == |list| {
      assert list[..i] == list && ids[..i] == ids;
    } else {
      var last := |list| - 1;
      assert list[..last][..i] == list[..i] && ids[..last][..i] == ids[..i];
      FailureIsFinal(cfg, list[..last], ids[..last], i);
    }
  }
}
