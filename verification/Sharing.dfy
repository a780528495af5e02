// What a caller sees of its own configuration while a copy of it is edited. A configuration passed by value
// shares the storage of its lists, and an edit that fits into the storage is made there.
module Sharing {
  import opened Models
  import opened Lists
  import opened Edits

  /** The storage of one of the caller's lists, spare cells included, and whether the copy still uses it. */
  datatype Held<T> = Held(cells: seq<T>, shared: bool)

  datatype Memory = Memory(prereqs: Held<Prerequisite>, targets: Held<Target>, rules: Held<Rule>)

  ghost function AllShared(prereqs: seq<Prerequisite>, targets: seq<Target>, rules: seq<Rule>): Memory {
    Memory(Held(prereqs, true), Held(targets, true), Held(rules, true))
  }

  /** The copy's list becomes `next`: in place if it fits, elsewhere if it does not fit or is built anew. */
  ghost function Write<T>(h: Held<T>, next: seq<T>, anew: bool): (r: Held<T>)
    ensures |r.cells| == |h.cells|
  {
    if !h.shared || anew || |next| > |h.cells| then h.(shared := false) else Held(next + h.cells[|next|..], true)
  }

  ghost function WriteAll(m: Memory, next: Config, reordered: bool): Memory {
    Memory(Write(m.prereqs, next.prerequisites, false), Write(m.targets, next.targets, false),
        Write(m.rules, next.rules, reordered))
  }

  /** The caller's storage after the copy has gone through the list, as far as it gets. */
  ghost function AfterEdits(m: Memory, cfg: Config, list: seq<Instruction>, ids: seq<string>): Memory
    requires |ids| == |list|
  {
    if list == [] then m
    else
      var last := |list| - 1;
      var mid := AfterEdits(m, cfg, list[..last], ids[..last]);
      match Fold(cfg, list[..last], ids[..last])
      case Err(_) => mid
      case Ok(current) =>
        match Step(current, list[last], ids[last])
        case Err(_) => mid
        case Ok(next) => WriteAll(mid, next, list[last].kind.ReorderRules?)
  }

  ghost predicate HasRoom(m: Memory, cfg: Config) {
    |cfg.prerequisites| <= |m.prereqs.cells| && |cfg.targets| <= |m.targets.cells| && |cfg.rules| <= |m.rules.cells|
  }

  lemma {:induction false} RoomStays(m: Memory, cfg: Config, list: seq<Instruction>, ids: seq<string>)
    requires |ids| == |list| && HasRoom(m, cfg)
    ensures HasRoom(AfterEdits(m, cfg, list, ids), cfg)
  {
    if list != [] {
      RoomStays(m, cfg, list[..|list| - 1], ids[..|list| - 1]);
    }
  }

  /** The caller's configuration: its own fields, and its lists as the storage now holds them. */
  ghost function Seen(m: Memory, cfg: Config): Config
    requires HasRoom(m, cfg)
  {
    cfg.(prerequisites := m.prereqs.cells[..|cfg.prerequisites|],
         targets := m.targets.cells[..|cfg.targets|],
         rules := m.rules.cells[..|cfg.rules|])
  }

  /** What the caller sees of its configuration after an edit of a copy. */
  ghost function SeenAfter(m: Memory, cfg: Config, list: seq<Instruction>, ids: seq<string>): Config
    requires |ids| == |list| && HasRoom(m, cfg)
  {
    RoomStays(m, cfg, list, ids);
    Seen(AfterEdits(m, cfg, list, ids), cfg)
  }

  /** A copy has just been made: it uses all the caller's storage. */
  ghost predicate JustShared(m: Memory, cfg: Config) {
    && HasRoom(m, cfg) && Seen(m, cfg) == cfg
    && m.prereqs.shared && m.targets.shared && m.rules.shared
  }

  // ----- one instruction: exactly when the caller is spared -----

  /** The first `|s|` cells after the copy's list has become `next`. */
  ghost function Overlaid<T>(s: seq<T>, next: seq<T>): seq<T> {
    if |next| <= |s| then next + s[|next|..] else next[..|s|]
  }

  lemma WriteSame<T>(cells: seq<T>, n: nat)
    requires n <= |cells|
    ensures Write(Held(cells, true), cells[..n], false) == Held(cells, true)
  {
    assert cells[..n] + cells[n..] == cells;
  }

  ghost predicate FirstFor(ts: seq<Target>, kind: string, variation: int, i: nat) {
    i < |ts| && IsFor(ts[i], kind, variation) && forall j :: 0 <= j < i ==> !IsFor(ts[j], kind, variation)
  }

  /** The first target for the pair, if there is one, is its own union with the values: they are all in it, and
      nothing in it is repeated. */
  ghost predicate MergeIsVoid(ts: seq<Target>, kind: string, variation: int, values: seq<string>) {
    forall i: nat :: FirstFor(ts, kind, variation, i) ==> Dedup(ts[i].values + values) == ts[i].values
  }

  /** From the first target that loses a value on, every target is lost entirely. */
  ghost predicate PruneCutsTheEnd(ts: seq<Target>, kind: string, variation: int, drop: set<string>) {
    forall i, j :: 0 <= i <= j < |ts| && Pruned(ts[i], kind, variation, drop) != [ts[i]] ==>
        Pruned(ts[j], kind, variation, drop) == []
  }

  /** Everything removed stands behind everything kept. */
  ghost predicate RemovalCutsTheEnd<T>(s: seq<T>, keep: T -> bool) {
    forall i, j :: 0 <= i < j < |s| && keep(s[j]) ==> keep(s[i])
  }

  /** Whether the instruction, applied to a fresh copy, leaves the caller's configuration as it was. */
  ghost predicate Spares(cfg: Config, ins: Instruction) {
    match ins.kind
    case AddTargets =>
      ins.variation.Some? ==> MergeIsVoid(cfg.targets, ins.contextKind, ins.variation.value, ins.values)
    case RemoveTargets =>
      ins.variation.Some? ==> PruneCutsTheEnd(cfg.targets, ins.contextKind, ins.variation.value,
          set v | v in ins.values)
    case UpdateRule =>
      forall i: nat :: FirstWithId(cfg.rules, ins.ruleId, i) ==>
        cfg.rules[i] == Rule(ins.ruleId, ins.clauses, VariationOrRollout(ins.variation, ins.rollout))
    case RemoveRule => RemovalCutsTheEnd(cfg.rules, HasOtherId(ins.ruleId))
    case RemovePrerequisite => RemovalCutsTheEnd(cfg.prerequisites, HasOtherKey(ins.key))
    case _ => true
  }

  lemma AddingSparesExactly(ts: seq<Target>, kind: string, variation: int, values: seq<string>)
    ensures Overlaid(ts, WithTargets(ts, kind, variation, values)) == ts <==> MergeIsVoid(ts, kind, variation, values)
  {
    var i := FirstIndex(ts, (t: Target) => IsFor(t, kind, variation));
    if i == |ts| {
      WithTargetsAppends(ts, kind, variation, values);
    } else {
      MergingTargets(ts, i, kind, variation, values);
      assert forall k: nat :: FirstFor(ts, kind, variation, k) ==> k == i;
    }
  }

  /** A target left by pruning would be left alone by pruning again. */
  lemma {:induction false} LeftIsUntouched(ts: seq<Target>, kind: string, variation: int, drop: set<string>)
    ensures forall u :: u in WithoutTargets(ts, kind, variation, drop) ==> Pruned(u, kind, variation, drop) == [u]
  {
    if ts != [] {
      LeftIsUntouched(ts[..|ts| - 1], kind, variation, drop);
      var t := ts[|ts| - 1];
      KeepMeans(t.values, IsNoneOf(drop));
      KeepAll(Keep(t.values, IsNoneOf(drop)), IsNoneOf(drop));
    }
  }

  ghost predicate LosesAll(ts: seq<Target>, kind: string, variation: int, drop: set<string>) {
    forall j :: 0 <= j < |ts| ==> Pruned(ts[j], kind, variation, drop) == []
  }

  lemma {:induction false} AllLost(ts: seq<Target>, kind: string, variation: int, drop: set<string>)
    requires LosesAll(ts, kind, variation, drop)
    ensures WithoutTargets(ts, kind, variation, drop) == []
  {
    if ts != [] {
      AllLost(ts[..|ts| - 1], kind, variation, drop);
    }
  }

  lemma {:induction false} NoneLost(ts: seq<Target>, kind: string, variation: int, drop: set<string>)
    requires forall j :: 0 <= j < |ts| ==> Pruned(ts[j], kind, variation, drop) == [ts[j]]
    ensures WithoutTargets(ts, kind, variation, drop) == ts
  {
    if ts != [] {
      NoneLost(ts[..|ts| - 1], kind, variation, drop);
      assert ts == ts[..|ts| - 1] + [ts[|ts| - 1]];
    }
  }

  lemma {:induction false} SomethingLeft(ts: seq<Target>, kind: string, variation: int, drop: set<string>, j: nat)
    requires j < |ts| && Pruned(ts[j], kind, variation, drop) != []
    ensures WithoutTargets(ts, kind, variation, drop) != []
  {
    if j < |ts| - 1 {
      SomethingLeft(ts[..|ts| - 1], kind, variation, drop, j);
    }
  }

  /** The first `i` targets are untouched. */
  lemma PruningAfter(ts: seq<Target>, i: nat, kind: string, variation: int, drop: set<string>)
    requires i < |ts| && forall j :: 0 <= j < i ==> Pruned(ts[j], kind, variation, drop) == [ts[j]]
    ensures WithoutTargets(ts, kind, variation, drop) ==
            ts[..i] + (Pruned(ts[i], kind, variation, drop) + WithoutTargets(ts[i + 1..], kind, variation, drop))
  {
    assert ts == ts[..i] + ([ts[i]] + ts[i + 1..]);
    WithoutTargetsSplits(ts[..i], [ts[i]] + ts[i + 1..], kind, variation, drop);
    WithoutTargetsSplits([ts[i]], ts[i + 1..], kind, variation, drop);
    NoneLost(ts[..i], kind, variation, drop);
    WithoutTargetsOfOne(ts[i], kind, variation, drop);
  }

  /** Where target `i` loses a value, another target comes to stand. */
  lemma LossShows(t: Target, more: seq<Target>, kind: string, variation: int, drop: set<string>)
    requires Pruned(t, kind, variation, drop) != [t]
    ensures var rest := Pruned(t, kind, variation, drop) + WithoutTargets(more, kind, variation, drop);
            rest != [] ==> rest[0] != t
  {
    var left, later := Pruned(t, kind, variation, drop), WithoutTargets(more, kind, variation, drop);
    LeftIsUntouched(more, kind, variation, drop);
    if left == [] && later != [] {
      assert later[0] in later;
    } else if left != [] {
      assert left == [left[0]];
    }
  }

  lemma NothingLeftExactly(ts: seq<Target>, kind: string, variation: int, drop: set<string>)
    ensures WithoutTargets(ts, kind, variation, drop) == [] <==> LosesAll(ts, kind, variation, drop)
  {
    if j :| 0 <= j < |ts| && Pruned(ts[j], kind, variation, drop) != [] {
      SomethingLeft(ts, kind, variation, drop, j);
    } else {
      AllLost(ts, kind, variation, drop);
    }
  }

  lemma PruningSparesExactly(ts: seq<Target>, kind: string, variation: int, drop: set<string>)
    ensures Overlaid(ts, WithoutTargets(ts, kind, variation, drop)) == ts <==>
              PruneCutsTheEnd(ts, kind, variation, drop)
  {
    var i := FirstIndex(ts, (t: Target) => Pruned(t, kind, variation, drop) != [t]);
    if i == |ts| {
      NoneLost(ts, kind, variation, drop);
    } else {
      PruningAfter(ts, i, kind, variation, drop);
      var rest := Pruned(ts[i], kind, variation, drop) + WithoutTargets(ts[i + 1..], kind, variation, drop);
      LossShows(ts[i], ts[i + 1..], kind, variation, drop);
      NothingLeftExactly(ts[i + 1..], kind, variation, drop);
      CutsFrom(ts, i, kind, variation, drop);
    }
  }

  lemma CutsFrom(ts: seq<Target>, i: nat, kind: string, variation: int, drop: set<string>)
    requires i < |ts| && forall j :: 0 <= j < i ==> Pruned(ts[j], kind, variation, drop) == [ts[j]]
    requires Pruned(ts[i], kind, variation, drop) != [ts[i]]
    ensures PruneCutsTheEnd(ts, kind, variation, drop) <==>
            Pruned(ts[i], kind, variation, drop) == [] && LosesAll(ts[i + 1..], kind, variation, drop)
  {
    if Pruned(ts[i], kind, variation, drop) == [] && LosesAll(ts[i + 1..], kind, variation, drop) {
      forall j | i < j < |ts| ensures Pruned(ts[j], kind, variation, drop) == [] {
        assert ts[j] == ts[i + 1..][j - i - 1];
      }
    }
  }

  lemma RemovingSparesExactly<T>(s: seq<T>, keep: T -> bool)
    ensures Overlaid(s, Keep(s, keep)) == s <==> RemovalCutsTheEnd(s, keep)
  {
    SharedListSurvivesCompaction(s, keep);
    assert Overlaid(s, Keep(s, keep)) == Compacted(s, keep);
  }

  lemma UpdatingSparesExactly(
      rules: seq<Rule>, id: string, clauses: seq<Clause>, serve: VariationOrRollout, next: seq<Rule>)
    requires WithRule(rules, id, clauses, serve) == Some(next)
    ensures Overlaid(rules, next) == rules <==>
              forall i: nat :: FirstWithId(rules, id, i) ==> rules[i] == Rule(id, clauses, serve)
  {
    ReplacesFirstWithId(rules, id, clauses, serve);
    var i := FirstIndex(rules, (r: Rule) => r.id == id);
    assert FirstWithId(rules, id, i);
    assert Overlaid(rules, next) == next == rules[i := Rule(id, clauses, serve)];
    assert next[i] == Rule(id, clauses, serve);
    assert forall k: nat :: FirstWithId(rules, id, k) ==> k == i;
  }

  lemma OverlaySame<T>(s: seq<T>, more: seq<T>)
    ensures Overlaid(s, s) == s && Overlaid(s, s + more) == s
  {
  }

  lemma SeenAfterOne(m: Memory, cfg: Config, ins: Instruction, freshId: string)
    requires JustShared(m, cfg)
    ensures SeenAfter(m, cfg, [ins], [freshId]) ==
            match Step(cfg, ins, freshId)
            case Err(_) => cfg
            case Ok(next) => Seen(WriteAll(m, next, ins.kind.ReorderRules?), cfg)
  {
    assert [ins][..|[ins]| - 1] == [] && [freshId][..|[ins]| - 1] == [];
    assert Fold(cfg, [], []) == Ok(cfg) && AfterEdits(m, cfg, [], []) == m;
    assert AfterEdits(m, cfg, [ins], [freshId]) ==
      if Step(cfg, ins, freshId).Ok? then WriteAll(m, Step(cfg, ins, freshId).value, ins.kind.ReorderRules?) else m;
  }

  /** One list of the caller's after one write to a fresh copy. */
  lemma ListSparedExactly<T>(h: Held<T>, s: seq<T>, next: seq<T>, spared: bool)
    requires h.shared && |s| <= |h.cells| && h.cells[..|s|] == s
    requires Overlaid(s, next) == s <==> spared
    requires |next| > |h.cells| ==> spared
    ensures Write(h, next, false).cells[..|s|] == s <==> spared
  {
  }

  lemma ListSpared<T>(h: Held<T>, s: seq<T>, more: seq<T>)
    requires h.shared && |s| <= |h.cells| && h.cells[..|s|] == s
    ensures Write(h, s, false).cells[..|s|] == s && Write(h, s + more, false).cells[..|s|] == s
  {
    OverlaySame(s, more);
  }

  /** One instruction applied to a copy leaves the caller's configuration as it was exactly when it fails, or spares
      it by the condition for its kind. */
  lemma OneInstructionSparesExactly(m: Memory, cfg: Config, ins: Instruction, freshId: string)
    requires JustShared(m, cfg)
    ensures SeenAfter(m, cfg, [ins], [freshId]) == cfg <==> Step(cfg, ins, freshId).Err? || Spares(cfg, ins)
  {
    SeenAfterOne(m, cfg, ins, freshId);
    if Step(cfg, ins, freshId).Ok? {
      var next := Step(cfg, ins, freshId).value;
      StepSparesExactly(m, cfg, ins, next, freshId);
    }
  }

  lemma StepSparesExactly(m: Memory, cfg: Config, ins: Instruction, next: Config, freshId: string)
    requires JustShared(m, cfg) && Step(cfg, ins, freshId) == Ok(next)
    ensures Seen(WriteAll(m, next, ins.kind.ReorderRules?), cfg) == cfg <==> Spares(cfg, ins)
  {
    ListSpared(m.prereqs, cfg.prerequisites, []);
    ListSpared(m.targets, cfg.targets, []);
    ListSpared(m.rules, cfg.rules, []);
    match ins.kind
    case AddTargets =>
      AddingSparesExactly(cfg.targets, ins.contextKind, ins.variation.value, ins.values);
      AddedSize(cfg.targets, ins.contextKind, ins.variation.value, ins.values);
      ListSparedExactly(m.targets, cfg.targets, next.targets, Spares(cfg, ins));
    case RemoveTargets =>
      PruningSparesExactly(cfg.targets, ins.contextKind, ins.variation.value, set v | v in ins.values);
      ListSparedExactly(m.targets, cfg.targets, next.targets, Spares(cfg, ins));
    case AddRule => ListSpared(m.rules, cfg.rules, next.rules[|cfg.rules|..]);
    case UpdateRule =>
      UpdatingSparesExactly(cfg.rules, ins.ruleId, ins.clauses, VariationOrRollout(ins.variation, ins.rollout),
          next.rules);
      ReplacingKeepsIds(cfg.rules, ins.ruleId, ins.clauses, VariationOrRollout(ins.variation, ins.rollout));
      assert |Ids(next.rules)| == |Ids(cfg.rules)|;
      ListSparedExactly(m.rules, cfg.rules, next.rules, Spares(cfg, ins));
    case RemoveRule =>
      RemovingSparesExactly(cfg.rules, HasOtherId(ins.ruleId));
      ListSparedExactly(m.rules, cfg.rules, next.rules, Spares(cfg, ins));
    case AddPrerequisite => ListSpared(m.prereqs, cfg.prerequisites, next.prerequisites[|cfg.prerequisites|..]);
    case RemovePrerequisite =>
      RemovingSparesExactly(cfg.prerequisites, HasOtherKey(ins.key));
      ListSparedExactly(m.prereqs, cfg.prerequisites, next.prerequisites, Spares(cfg, ins));
    case _ =>
  }

  lemma AddedSize(ts: seq<Target>, kind: string, variation: int, values: seq<string>)
    ensures |WithTargets(ts, kind, variation, values)| > |ts| ==> MergeIsVoid(ts, kind, variation, values)
  {
    var i := FirstIndex(ts, (t: Target) => IsFor(t, kind, variation));
    if i < |ts| {
      MergingTargets(ts, i, kind, variation, values);
    }
  }

  // ----- a whole list: edits that only touch what the copy has of its own -----

  /** The instruction names no rule, prerequisite or target of the caller's. */
  ghost predicate Foreign(cfg: Config, ins: Instruction) {
    match ins.kind
    case AddTargets =>
      ins.variation.Some? ==> forall t :: t in cfg.targets ==> !IsFor(t, ins.contextKind, ins.variation.value)
    case RemoveTargets =>
      ins.variation.Some? ==> forall t :: t in cfg.targets ==> !IsFor(t, ins.contextKind, ins.variation.value)
    case UpdateRule => forall r :: r in cfg.rules ==> r.id != ins.ruleId
    case RemoveRule => forall r :: r in cfg.rules ==> r.id != ins.ruleId
    case RemovePrerequisite => forall p :: p in cfg.prerequisites ==> p.key != ins.key
    case _ => true
  }

  /** The caller's list is intact, and as long as the copy shares it, the copy's list still starts with it. */
  ghost predicate Safe<T>(h: Held<T>, own: seq<T>, current: seq<T>) {
    && |own| <= |h.cells| && h.cells[..|own|] == own
    && (h.shared ==> own <= current)
  }

  ghost predicate AllSafe(m: Memory, cfg: Config, current: Config) {
    && Safe(m.prereqs, cfg.prerequisites, current.prerequisites)
    && Safe(m.targets, cfg.targets, current.targets)
    && Safe(m.rules, cfg.rules, current.rules)
  }

  lemma SafeWrite<T>(h: Held<T>, own: seq<T>, current: seq<T>, next: seq<T>, anew: bool)
    requires Safe(h, own, current)
    requires own <= current && !anew ==> own <= next
    ensures Safe(Write(h, next, anew), own, next)
  {
  }

  lemma KeepsFront<T>(s: seq<T>, own: seq<T>, p: T -> bool)
    requires own <= s && forall x :: x in own ==> p(x)
    ensures own <= Keep(s, p)
  {
    assert s == own + s[|own|..];
    KeepSplits(own, s[|own|..], p);
    KeepAll(own, p);
  }

  lemma {:induction false} UpdateKeepsFront(
      s: seq<Rule>, own: seq<Rule>, id: string, clauses: seq<Clause>, serve: VariationOrRollout)
    requires own <= s && forall r :: r in own ==> r.id != id
    ensures var r := WithRule(s, id, clauses, serve); r.Some? ==> own <= r.value
  {
    if own != [] {
      assert own[0] in own && s[0] == own[0];
      UpdateKeepsFront(s[1..], own[1..], id, clauses, serve);
    }
  }

  lemma {:induction false} AddKeepsFront(
      s: seq<Target>, own: seq<Target>, kind: string, variation: int, values: seq<string>)
    requires own <= s && forall t :: t in own ==> !IsFor(t, kind, variation)
    ensures own <= WithTargets(s, kind, variation, values)
  {
    if own != [] {
      assert own[0] in own && s[0] == own[0];
      AddKeepsFront(s[1..], own[1..], kind, variation, values);
    }
  }

  lemma PruneKeepsFront(s: seq<Target>, own: seq<Target>, kind: string, variation: int, drop: set<string>)
    requires own <= s && forall t :: t in own ==> !IsFor(t, kind, variation)
    ensures own <= WithoutTargets(s, kind, variation, drop)
  {
    assert s == own + s[|own|..];
    WithoutTargetsSplits(own, s[|own|..], kind, variation, drop);
    UntouchedTargets(own, kind, variation, drop);
  }

  lemma ForeignStepKeepsFronts(cfg: Config, current: Config, ins: Instruction, freshId: string)
    requires Foreign(cfg, ins) && Step(current, ins, freshId).Ok?
    ensures var next := Step(current, ins, freshId).value;
            && (cfg.prerequisites <= current.prerequisites ==> cfg.prerequisites <= next.prerequisites)
            && (cfg.targets <= current.targets ==> cfg.targets <= next.targets)
            && (cfg.rules <= current.rules && !ins.kind.ReorderRules? ==> cfg.rules <= next.rules)
  {
    match ins.kind
    case AddTargets =>
      if cfg.targets <= current.targets {
        AddKeepsFront(current.targets, cfg.targets, ins.contextKind, ins.variation.value, ins.values);
      }
    case RemoveTargets =>
      if cfg.targets <= current.targets {
        PruneKeepsFront(current.targets, cfg.targets, ins.contextKind, ins.variation.value, set v | v in ins.values);
      }
    case UpdateRule =>
      if cfg.rules <= current.rules {
        UpdateKeepsFront(current.rules, cfg.rules, ins.ruleId, ins.clauses,
            VariationOrRollout(ins.variation, ins.rollout));
      }
    case RemoveRule =>
      if cfg.rules <= current.rules {
        KeepsFront(current.rules, cfg.rules, HasOtherId(ins.ruleId));
      }
    case RemovePrerequisite =>
      if cfg.prerequisites <= current.prerequisites {
        KeepsFront(current.prerequisites, cfg.prerequisites, HasOtherKey(ins.key));
      }
    case _ =>
  }

  lemma ForeignStepIsSafe(m: Memory, cfg: Config, current: Config, ins: Instruction, freshId: string)
    requires Foreign(cfg, ins) && Step(current, ins, freshId).Ok? && AllSafe(m, cfg, current)
    ensures var next := Step(current, ins, freshId).value;
            AllSafe(WriteAll(m, next, ins.kind.ReorderRules?), cfg, next)
  {
    var next := Step(current, ins, freshId).value;
    ForeignStepKeepsFronts(cfg, current, ins, freshId);
    SafeWrite(m.prereqs, cfg.prerequisites, current.prerequisites, next.prerequisites, false);
    SafeWrite(m.targets, cfg.targets, current.targets, next.targets, false);
    SafeWrite(m.rules, cfg.rules, current.rules, next.rules, ins.kind.ReorderRules?);
  }

  lemma {:induction false} ForeignEditIsSafe(m: Memory, cfg: Config, list: seq<Instruction>, ids: seq<string>)
    requires |ids| == |list| && AllSafe(m, cfg, cfg) && forall ins :: ins in list ==> Foreign(cfg, ins)
    ensures HasRoom(AfterEdits(m, cfg, list, ids), cfg) && Seen(AfterEdits(m, cfg, list, ids), cfg) == cfg
    ensures var r := Fold(cfg, list, ids); r.Ok? ==> AllSafe(AfterEdits(m, cfg, list, ids), cfg, r.value)
  {
    if list != [] {
      var last := |list| - 1;
      assert list[last] in list && forall ins :: ins in list[..last] ==> ins in list;
      ForeignEditIsSafe(m, cfg, list[..last], ids[..last]);
      var mid := Fold(cfg, list[..last], ids[..last]);
      if mid.Ok? && Step(mid.value, list[last], ids[last]).Ok? {
        ForeignStepIsSafe(AfterEdits(m, cfg, list[..last], ids[..last]), cfg, mid.value, list[last], ids[last]);
      }
    }
  }

  /** A list of instructions that touches nothing the caller has, only what the list itself adds, leaves the caller's
      configuration as it was: whether the list succeeds or fails, and however much spare room the storage has. */
  lemma ForeignEditSparesCaller(m: Memory, cfg: Config, list: seq<Instruction>, ids: seq<string>)
    requires |ids| == |list| && JustShared(m, cfg) && forall ins :: ins in list ==> Foreign(cfg, ins)
    ensures SeenAfter(m, cfg, list, ids) == cfg
  {
    ForeignEditIsSafe(m, cfg, list, ids);
  }

  // ----- an edit of a copy that the caller sees -----

  /** Adding a rule to the copy spares the caller, and so would removing the caller's last rule; but one after the
      other, the new rule takes the removed one's cell, and the caller sees it. */
  lemma RemoveThenAddIsSeen(rule: Rule, added: Instruction, freshId: string)
    requires added.kind == AddRule && added.clauses != [] && added.variation.Some? && rule.id != "" &&
               freshId != rule.id
    ensures var cfg := Config(true, 0, [], [], [rule], VariationOrRollout(Some(0), None));
            var m := Memory(Held([], true), Held([], true), Held([rule], true));
            var removed := Instruction(RemoveRule, None, [], "", [], None, rule.id, [], "");
            && JustShared(m, cfg) && Spares(cfg, removed) && Spares(cfg, added)
            && SeenAfter(m, cfg, [removed], [freshId]) == cfg
            && SeenAfter(m, cfg, [removed, added], ["", freshId]) ==
                 cfg.(rules := [Rule(freshId, added.clauses, VariationOrRollout(added.variation, added.rollout))])
            && SeenAfter(m, cfg, [removed, added], ["", freshId]) != cfg
  {
    var cfg := Config(true, 0, [], [], [rule], VariationOrRollout(Some(0), None));
    var m := Memory(Held([], true), Held([], true), Held([rule], true));
    var removed := Instruction(RemoveRule, None, [], "", [], None, rule.id, [], "");
    var without := cfg.(rules := []);
    assert [rule][..0] == [];
    assert Keep([rule], HasOtherId(rule.id)) == [];
    assert Step(cfg, removed, "") == Ok(without) && Step(cfg, removed, freshId) == Ok(without);
    OneInstructionSparesExactly(m, cfg, removed, freshId);
    SeenAfterOne(m, cfg, removed, "");
    var one := AfterEdits(m, cfg, [removed], [""]);
    assert [removed, added][..1] == [removed] && ["", freshId][..1] == [""];
    assert [removed][..0] == [] && [""][..0] == [];
    assert Fold(cfg, [], []) == Ok(cfg) && Fold(cfg, [removed], [""]) == Ok(without);
    assert AfterEdits(m, cfg, [], []) == m;
    assert one == WriteAll(m, without, false);
    var next := without.(rules := [Rule(freshId, added.clauses, VariationOrRollout(added.variation, added.rollout))]);
    assert without.rules + next.rules == next.rules;
    assert Step(without, added, freshId) == Ok(next);
    assert AfterEdits(m, cfg, [removed, added], ["", freshId]) == WriteAll(one, next, false);
  }
}
