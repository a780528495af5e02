// Stored configurations and what changes them: patches with instructions, whole replacements, and saves of the
// definition they belong to.
module FlagStore {
  import opened Models
  import opened Lists
  import opened Edits
  import opened Instructions
  import opened Validation
  import opened Evaluation

  /** A flag's id and an environment's id. */
  type RowKey = (string, string)

  datatype Row = Row(config: Config, version: nat)

  datatype SaveError = NotFound | Invalid | Rejected(cause: EditError)

  datatype Definition = Defined | KeyMissing | NoVariations | StoreFailed

  datatype Outcome = Saved(row: Row) | Failed(error: SaveError)

  /** The two tables: how many variations each flag defines, and its configuration in each environment. */
  datatype Tables = Tables(variations: map<string, nat>, rows: map<RowKey, Row>)

  /** A validated write: a new row starts at version 1, an existing one moves to the next version. */
  ghost function Save(db: Tables, key: RowKey, cfg: Config): (Tables, Outcome) {
    if key.0 !in db.variations then (db, Failed(NotFound))
    else if !ValidConfig(cfg, db.variations[key.0]) then (db, Failed(Invalid))
    else
      var row := Row(cfg, if key in db.rows then db.rows[key].version + 1 else 1);
      (db.(rows := db.rows[key := row]), Saved(row))
  }

  /** A save is refused exactly if there is no such flag or the configuration is not fit for it; otherwise it is stored,
      at version 1 if there was none and one version on if there was, and no other row is touched. */
  lemma SavingMeans(db: Tables, key: RowKey, cfg: Config)
    ensures var (after, outcome) := Save(db, key, cfg);
            && after.variations == db.variations
            && (outcome == Failed(NotFound) <==> key.0 !in db.variations)
            && (outcome == Failed(Invalid) <==> key.0 in db.variations && !ValidConfig(cfg, db.variations[key.0]))
            && (outcome.Failed? ==> after == db && outcome.error in {NotFound, Invalid})
            && (outcome.Saved? ==>
                  && key in after.rows && after.rows[key] == outcome.row && outcome.row.config == cfg
                  && after.rows - {key} == db.rows - {key}
                  && (key !in db.rows ==> outcome.row.version == 1)
                  && (key in db.rows ==> outcome.row.version == db.rows[key].version + 1))
  {
  }

  /** Load, edit, save. */
  ghost function Patch(db: Tables, key: RowKey, list: seq<Instruction>, ids: seq<string>): (Tables, Outcome)
    requires |ids| == |list|
  {
    if key !in db.rows then (db, Failed(NotFound))
    else
      match Edit(db.rows[key].config, list, ids)
      case Err(e) => (db, Failed(Rejected(e)))
      case Ok(next) => Save(db, key, next)
  }

  /** The row a flag starts with in an environment: off, serving its first variation. */
  const DEFAULT_ROW := Row(Config(false, 0, [], [], [], VariationOrRollout(Some(0), None)), 1)

  /** A definition is saved with `count` variations, and each environment gets a default row if it has none.
      A definition without variations is refused. The targeting stored is not looked at. */
  ghost function Define(db: Tables, flag: string, count: nat, envs: seq<string>): Tables {
    if count == 0 then db
    else
      Tables(db.variations[flag := count],
             map key | key in db.rows.Keys + (set env | env in envs :: (flag, env)) ::
               if key in db.rows then db.rows[key] else DEFAULT_ROW)
  }

  /** The environments reached when the database answers `good` times and then fails. */
  function Answered(envs: seq<string>, good: int): seq<string> {
    if good <= 0 then [] else if good < |envs| then envs[..good] else envs
  }

  /** They are the first ones, as many as there were answers. */
  lemma AnsweredAreTheFirst(envs: seq<string>, good: int)
    ensures Answered(envs, good) <= envs
    ensures |Answered(envs, good)| == if good < 0 then 0 else if good < |envs| then good else |envs|
  {
  }

  class Store {
    var variations: map<string, nat>
    var rows: map<RowKey, Row>

    ghost function Db(): Tables
      reads this
    {
      Tables(variations, rows)
    }

    method UpsertFlagConfig(key: RowKey, cfg: Config) returns (row: Row)
      modifies this`rows
      ensures row == Row(cfg, if key in old(rows) then old(rows)[key].version + 1 else 1)
      ensures rows == old(rows)[key := row]
    {
      row := Row(cfg, if key in rows then rows[key].version + 1 else 1);
      rows := rows[key := row];
    }

    /** `propagated` are the environments that are reloaded and broadcast at the end. */
    method SaveFlagConfig(key: RowKey, cfg: Config) returns (outcome: Outcome, propagated: seq<string>)
      modifies this`rows
      ensures (Db(), outcome) == Save(old(Db()), key, cfg)
      ensures propagated == if outcome.Saved? then [key.1] else []
    {
      if key.0 !in variations {
        return Failed(NotFound), [];
      }
      var problem := ValidateConfig(cfg, variations[key.0]);
      if problem.Some? {
        return Failed(Invalid), [];
      }
      var row := UpsertFlagConfig(key, cfg);
      return Saved(row), [key.1];
    }

    /** `good` is the number of calls that the database answers before one fails. */
    method EnsureFlagConfigs(flag: string, envs: seq<string>, good: nat) returns (ok: bool)
      modifies this`rows
      ensures ok == (|envs| <= good)
      ensures rows == map key | key in old(rows).Keys + (set env | env in Answered(envs, good) :: (flag, env)) ::
                        if key in old(rows) then old(rows)[key] else DEFAULT_ROW
    {
      ok := true;
      for i := 0 to |envs|
        invariant ok && i <= good
        invariant rows.Keys == old(rows).Keys + set env | env in envs[..i] :: (flag, env)
        invariant forall key :: key in rows ==> rows[key] == if key in old(rows) then old(rows)[key] else DEFAULT_ROW
      {
        if i == good {
          return false;
        }
        assert envs[..i + 1] == envs[..i] + [envs[i]];
        if (flag, envs[i]) !in rows {
          rows := rows[(flag, envs[i]) := DEFAULT_ROW];
        }
      }
      assert envs[..|envs|] == envs;
    }

    /** Saves a definition under `flag`, the id that its key has or gets. A save that the database cuts short after the
        definition is written is a save with fewer environments, and none of them is propagated. */
    method SaveFlag(key: string, flag: string, count: nat, envs: seq<string>, good: nat)
      returns (outcome: Definition, propagated: seq<string>)
      modifies this
      ensures outcome ==
              if key == "" then KeyMissing
              else if count == 0 then Definition.NoVariations
              else if good < |envs| + 2 then StoreFailed
              else Defined
      ensures Db() ==
              if key == "" || good == 0 then old(Db())
              else Define(old(Db()), flag, count, Answered(envs, good - 2))
      ensures propagated == if outcome == Defined then envs else []
    {
      if key == "" {
        return KeyMissing, [];
      }
      if count == 0 {
        return Definition.NoVariations, [];
      }
      if good == 0 {
        return StoreFailed, [];
      }
      variations := variations[flag := count];
      if good == 1 {
        return StoreFailed, [];
      }
      var ok := EnsureFlagConfigs(flag, envs, good - 2);
      if !ok {
        return StoreFailed, [];
      }
      return Defined, envs;
    }

    method PatchFlagConfig(key: RowKey, list: seq<Instruction>, ids: seq<string>)
      returns (outcome: Outcome, propagated: seq<string>)
      requires |ids| == |list|
      modifies this`rows
      ensures (Db(), outcome) == Patch(old(Db()), key, list, ids)
      ensures propagated == if outcome.Saved? then [key.1] else []
    {
      if key !in rows {
        return Failed(NotFound), [];
      }
      var current := new FlagConfig.Decode(rows[key].config);
      var next, problem := ApplyInstructions(current, list, ids);
      if problem.Some? {
        return Failed(Rejected(problem.value)), [];
      }
      outcome, propagated := SaveFlagConfig(key, next.Encode());
    }
  }

  /** A patch is all or nothing: it fails and changes no row, or it stores the whole edit, accepted, at the next
      version, and changes no other row. */
  lemma PatchIsAllOrNothing(db: Tables, key: RowKey, list: seq<Instruction>, ids: seq<string>)
    requires |ids| == |list|
    ensures var (after, outcome) := Patch(db, key, list, ids);
            && (outcome.Failed? <==> after == db)
            && (outcome.Saved? ==>
                  && list != [] && key in db.rows && key.0 in db.variations
                  && Fold(db.rows[key].config, list, ids) == Ok(after.rows[key].config)
                  && ValidConfig(after.rows[key].config, db.variations[key.0])
                  && after.rows[key].version == db.rows[key].version + 1
                  && after.rows - {key} == db.rows - {key} && after.variations == db.variations)
  {
    var (after, outcome) := Patch(db, key, list, ids);
    if outcome.Saved? {
      assert after.rows[key].version != db.rows[key].version;
    }
  }

  // ----- accepted tables -----

  ghost predicate AcceptedRow(db: Tables, key: RowKey)
    requires key in db.rows
  {
    key.0 in db.variations && ValidConfig(db.rows[key].config, db.variations[key.0])
  }

  /** Every stored configuration is acceptable for its flag as it is now defined. */
  ghost predicate Accepted(db: Tables) {
    forall key :: key in db.rows ==> AcceptedRow(db, key)
  }

  ghost predicate RowsFit(db: Tables, flag: string, count: nat) {
    forall key :: key in db.rows && key.0 == flag ==> ValidConfig(db.rows[key].config, count)
  }

  lemma SavingKeepsAccepted(db: Tables, key: RowKey, cfg: Config)
    requires Accepted(db)
    ensures Accepted(Save(db, key, cfg).0)
  {
    var after := Save(db, key, cfg).0;
    forall k | k in after.rows ensures AcceptedRow(after, k) {
      assert k in db.rows ==> AcceptedRow(db, k);
    }
  }

  /** Saving a definition keeps the tables acceptable exactly when every configuration stored for the flag fits the
      new number of variations: the check it leaves out. */
  lemma DefiningKeepsAcceptedExactly(db: Tables, flag: string, count: nat, envs: seq<string>)
    requires Accepted(db)
    ensures Accepted(Define(db, flag, count, envs)) <==> count == 0 || RowsFit(db, flag, count)
  {
    var after := Define(db, flag, count, envs);
    if count > 0 && RowsFit(db, flag, count) {
      forall k | k in after.rows ensures AcceptedRow(after, k) {
        assert k in db.rows ==> AcceptedRow(db, k);
      }
    }
    if count > 0 && Accepted(after) {
      forall k | k in db.rows && k.0 == flag ensures ValidConfig(db.rows[k].config, count) {
        assert AcceptedRow(after, k);
      }
    }
  }

  // ----- runs of requests -----

  datatype Request =
    | PatchRequest(key: RowKey, list: seq<Instruction>, ids: seq<string>)
    | SaveRequest(key: RowKey, config: Config)
    | DefineRequest(flag: string, count: nat, envs: seq<string>)

  ghost predicate Proper(r: Request) {
    r.PatchRequest? ==> |r.ids| == |r.list|
  }

  ghost function Perform(db: Tables, r: Request): Tables
    requires Proper(r)
  {
    match r
    case PatchRequest(key, list, ids) => Patch(db, key, list, ids).0
    case SaveRequest(key, cfg) => Save(db, key, cfg).0
    case DefineRequest(flag, count, envs) => Define(db, flag, count, envs)
  }

  ghost function Run(db: Tables, requests: seq<Request>): Tables
    requires forall r :: r in requests ==> Proper(r)
  {
    if requests == [] then db
    else
      var last := requests[|requests| - 1];
      assert Proper(last);
      Perform(Run(db, requests[..|requests| - 1]), last)
  }

  /** No definition is saved with fewer variations than a configuration stored at that moment uses. */
  ghost predicate Careful(db: Tables, requests: seq<Request>)
    requires forall r :: r in requests ==> Proper(r)
  {
    requests != [] ==>
      var init, last := requests[..|requests| - 1], requests[|requests| - 1];
      && Careful(db, init)
      && (last.DefineRequest? ==> RowsFit(Run(db, init), last.flag, last.count))
  }

  lemma PerformingKeepsAccepted(db: Tables, r: Request)
    requires Proper(r) && Accepted(db) && (r.DefineRequest? ==> RowsFit(db, r.flag, r.count))
    ensures Accepted(Perform(db, r))
  {
    match r
    case PatchRequest(key, list, ids) =>
      if key in db.rows && Edit(db.rows[key].config, list, ids).Ok? {
        SavingKeepsAccepted(db, key, Edit(db.rows[key].config, list, ids).value);
      }
    case SaveRequest(key, cfg) => SavingKeepsAccepted(db, key, cfg);
    case DefineRequest(flag, count, envs) => DefiningKeepsAcceptedExactly(db, flag, count, envs);
  }

  /** From acceptable tables, every run of patches, saves and careful definitions leaves acceptable tables. */
  lemma {:induction false} EveryRunStaysAccepted(db: Tables, requests: seq<Request>)
    requires forall r :: r in requests ==> Proper(r)
    requires Accepted(db) && Careful(db, requests)
    ensures Accepted(Run(db, requests))
  {
    if requests != [] {
      var init, last := requests[..|requests| - 1], requests[|requests| - 1];
      assert last in requests && forall r :: r in init ==> r in requests;
      EveryRunStaysAccepted(db, init);
      PerformingKeepsAccepted(Run(db, init), last);
    }
  }

  /** The flag evaluation works with: a definition joined with its stored configuration. */
  function Joined(key: string, salt: string, clientSide: bool, variations: seq<Value>, cfg: Config): EvalFlag {
    EvalFlag(key, salt, clientSide, variations, cfg.on, cfg.offVariation, cfg.prerequisites, cfg.targets, cfg.rules,
        cfg.fallthru)
  }

  /** A flag new to an environment is off there and serves its first variation to everyone. */
  lemma NewFlagIsOff(
      db: Tables, flag: string, count: nat, envs: seq<string>, e: string,
      w: World, key: string, salt: string, clientSide: bool, variations: seq<Value>, ctx: Context, env: EvalEnv)
    requires count > 0 && count == |variations| && e in envs && (flag, e) !in db.rows && Evaluation.WellKeyed(env)
    ensures var rows := Define(db, flag, count, envs).rows;
            && (flag, e) in rows && rows[(flag, e)].version == 1
            && Evaluate(w, Joined(key, salt, clientSide, variations, rows[(flag, e)].config), ctx, env, {})
                 == Evaluated(key, variations[0], 0, Off)
  {
  }

  /** ... and no other row is touched. */
  lemma DefiningKeepsRows(db: Tables, flag: string, count: nat, envs: seq<string>)
    ensures var after := Define(db, flag, count, envs);
            && (forall key :: key in db.rows ==> key in after.rows && after.rows[key] == db.rows[key])
            && (forall key :: key in after.rows && key !in db.rows ==> key.0 == flag && key.1 in envs)
            && (forall f :: f in db.variations && f != flag ==>
                 f in after.variations && after.variations[f] == db.variations[f])
            && (count > 0 ==> flag in after.variations && after.variations[flag] == count)
  {
  }

  /** After every such run, every flag serves one of its variations to everyone. */
  lemma EveryRunServesVariations(
      db: Tables, requests: seq<Request>, at: RowKey,
      w: World, key: string, salt: string, clientSide: bool, variations: seq<Value>, ctx: Context, env: EvalEnv)
    requires forall r :: r in requests ==> Proper(r)
    requires Accepted(db) && Careful(db, requests)
    requires at in Run(db, requests).rows && at.0 in Run(db, requests).variations
    requires Run(db, requests).variations[at.0] == |variations|
    requires Evaluation.WellKeyed(env)
    ensures var ef := Joined(key, salt, clientSide, variations, Run(db, requests).rows[at].config);
            var r := Evaluate(w, ef, ctx, env, {});
            InRange(r.variation, |variations|) && r.value == variations[r.variation]
  {
    EveryRunStaysAccepted(db, requests);
    assert AcceptedRow(Run(db, requests), at);
    var cfg := Run(db, requests).rows[at].config;
    var ef := Joined(key, salt, clientSide, variations, cfg);
    assert ConfigOf(ef) == cfg;
    AcceptedConfigServesAVariation(w, ef, ctx, env, {});
  }

  // ----- rules and targets stay well formed -----

  ghost predicate WellFormedRows(db: Tables) {
    forall key :: key in db.rows ==> WellFormed(db.rows[key].config)
  }

  /** The rule ids a request draws or names. */
  ghost function MentionedBy(r: Request): set<string> {
    match r
    case PatchRequest(_, _, ids) => set id | id in ids
    case SaveRequest(_, cfg) => set id | id in Ids(cfg.rules)
    case DefineRequest(_, _, _) => {}
  }

  ghost function Mentioned(requests: seq<Request>): set<string> {
    if requests == [] then {} else Mentioned(requests[..|requests| - 1]) + MentionedBy(requests[|requests| - 1])
  }

  ghost predicate RuleIdsAmong(db: Tables, known: set<string>) {
    forall key :: key in db.rows ==> forall id :: id in Ids(db.rows[key].config.rules) ==> id in known
  }

  /** What the request brings in is well formed: whole configurations are, and drawn ids are new. */
  ghost predicate BringsInOrder(r: Request, known: set<string>) {
    && (r.SaveRequest? ==> WellFormed(r.config))
    && (r.PatchRequest? ==> Distinct(r.ids) && forall id :: id in r.ids ==> id !in known)
  }

  ghost predicate AllBringInOrder(requests: seq<Request>, known: set<string>) {
    requests != [] ==>
      var init := requests[..|requests| - 1];
      AllBringInOrder(init, known) && BringsInOrder(requests[|requests| - 1], known + Mentioned(init))
  }

  lemma PerformingKeepsWellFormed(db: Tables, r: Request, known: set<string>)
    requires Proper(r) && WellFormedRows(db) && RuleIdsAmong(db, known) && BringsInOrder(r, known)
    ensures WellFormedRows(Perform(db, r)) && RuleIdsAmong(Perform(db, r), known + MentionedBy(r))
  {
    match r
    case PatchRequest(key, list, ids) =>
      if key in db.rows && Patch(db, key, list, ids).1.Saved? {
        FoldKeepsWellFormed(db.rows[key].config, list, ids);
      }
    case SaveRequest(_, _) =>
    case DefineRequest(_, _, _) => assert Ids(DEFAULT_ROW.config.rules) == [];
  }

  /** From well-formed rows, every run leaves well-formed rows, provided the configurations saved as a whole are well
      formed and no rule id is drawn that was drawn or named before. */
  lemma {:induction false} EveryRunStaysWellFormed(db: Tables, requests: seq<Request>, known: set<string>)
    requires forall r :: r in requests ==> Proper(r)
    requires WellFormedRows(db) && RuleIdsAmong(db, known) && AllBringInOrder(requests, known)
    ensures WellFormedRows(Run(db, requests)) && RuleIdsAmong(Run(db, requests), known + Mentioned(requests))
  {
    if requests != [] {
      var init, last := requests[..|requests| - 1], requests[|requests| - 1];
      assert last in requests && forall r :: r in init ==> r in requests;
      EveryRunStaysWellFormed(db, init, known);
      PerformingKeepsWellFormed(Run(db, init), last, known + Mentioned(init));
    }
  }

  /** A save does not look: a configuration with one rule id twice is accepted and stored. */
  lemma SavingMayRepeatRuleIds()
    ensures var serve := VariationOrRollout(Some(0), None);
            var rule := Rule("r", [Clause("", "key", "in", [], false)], serve);
            var cfg := Config(true, 0, [], [], [rule, rule], serve);
            var db := Tables(map["f" := 1], map[]);
            Save(db, ("f", "e"), cfg).1.Saved? && !WellFormed(cfg)
  {
    var rule := Rule("r", [Clause("", "key", "in", [], false)], VariationOrRollout(Some(0), None));
    assert Ids([rule, rule])[0] == Ids([rule, rule])[1];
    assert ValidRule(rule, 1);
  }
}
