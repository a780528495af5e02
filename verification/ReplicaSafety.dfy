// What the cache protocol guarantees: every step keeps every cell of every replica accounted for, so whatever is
// settled has seen the database; and exactly when that is enough for replicas to converge.
module ReplicaSafety {
  import opened Lists
  import opened Transitions
  import opened Replication

  // ----- each step keeps every cell accounted for -----

  /** What stays owed when a request moves on. */
  lemma OwedSurvives(s: State, t: State, r: nat, env: string)
    requires r < |s.replicas| == |t.replicas| && s.replicas[r].id == t.replicas[r].id
    requires Owed(s, r, env)
    requires forall ev :: ev in s.replicas[r].queue && ev.env == env && ev.origin != s.replicas[r].id ==>
               ev in t.replicas[r].queue
    requires forall op :: op in s.ops && OwedBy(s.ops[op], r, env) ==> op in t.ops && OwedBy(t.ops[op], r, env)
    ensures Owed(t, r, env)
  {
    if ForeignQueued(s, r, env) {
      var ev :| ev in s.replicas[r].queue && ev.env == env && ev.origin != s.replicas[r].id;
      assert ev in t.replicas[r].queue;
    } else {
      var op :| op in s.ops && OwedBy(s.ops[op], r, env);
      assert OwedBy(t.ops[op], r, env);
    }
  }

  lemma WriteKeepsAccounts(s: State, op: nat, cell: Cell, value: int, r: nat, c: Cell)
    requires Inv(s) && r < |s.replicas| && Enabled(Mode(Free, true), s, Write(op, cell, value))
    ensures Accounted(Apply(s, Write(op, cell, value)), r, c)
  {
    assert Accounted(s, r, c);
    var t := Apply(s, Write(op, cell, value));
    if c == cell {
      assert OwedBy(t.ops[op], r, c.env);
    } else if Owed(s, r, c.env) {
      OwedSurvives(s, t, r, c.env);
    } else if wk :| Covers(s, wk, r, c) {
      assert Covers(t, wk, r, c);
    }
  }

  lemma BeginKeepsAccounts(s: State, a: Action, r: nat, c: Cell)
    requires Inv(s) && r < |s.replicas| && (a.BeginWrite? || a.BeginPropagate?) && Enabled(Mode(Free, true), s, a)
    ensures Accounted(Apply(s, a), r, c)
  {
    assert Accounted(s, r, c);
    var t := Apply(s, a);
    if Owed(s, r, c.env) {
      OwedSurvives(s, t, r, c.env);
    } else if wk :| Covers(s, wk, r, c) {
      assert Covers(t, wk, r, c);
    }
  }

  lemma StartReloadKeepsAccounts(s: State, op: nat, r: nat, c: Cell)
    requires Inv(s) && r < |s.replicas| && Enabled(Mode(Free, true), s, StartReload(op))
    ensures Accounted(Apply(s, StartReload(op)), r, c)
  {
    assert Accounted(s, r, c);
    var t, me := Apply(s, StartReload(op)), s.ops[op];
    assert Writer(op) !in s.reloads;
    if me.replica == r && me.todo[0] == c.env {
      assert Covers(t, Writer(op), r, c);
    } else if Owed(s, r, c.env) {
      OwedSurvives(s, t, r, c.env);
    } else if wk :| Covers(s, wk, r, c) {
      assert Covers(t, wk, r, c);
    }
  }

  lemma QueryKeepsAccounts(s: State, wk: Worker, r: nat, c: Cell)
    requires Inv(s) && r < |s.replicas| && Enabled(Mode(Free, true), s, Query(wk))
    ensures Accounted(Apply(s, Query(wk)), r, c)
  {
    assert Accounted(s, r, c);
    var t := Apply(s, Query(wk));
    if Owed(s, r, c.env) {
      OwedSurvives(s, t, r, c.env);
    } else if wk' :| Covers(s, wk', r, c) {
      assert Covers(t, wk', r, c);
    }
  }

  /** An install that covers the cell brings its current content, and no install takes the newest content away. */
  lemma InstallRenews(s: State, wk: Worker, c: Cell)
    requires Sane(s) && Enabled(Mode(Free, true), s, Install(wk))
    ensures var rl, t := s.reloads[wk], Apply(s, Install(wk));
            && (Covers(s, wk, rl.replica, c) ==> At(t.replicas[rl.replica].newest, c) == At(s.db, c))
            && (At(s.replicas[rl.replica].newest, c) == At(s.db, c) ==>
                 At(t.replicas[rl.replica].newest, c) == At(s.db, c))
  {
    var rl := s.reloads[wk];
    RenewedAt(s.replicas[rl.replica].newest, rl, c);
    assert NotAhead(s.db, c, At(s.replicas[rl.replica].newest, c));
    if c.env == rl.env {
      assert NotAhead(s.db, Cell(rl.env, c.part), rl.got[c.part]);
    }
  }

  lemma InstallKeepsAccounts(s: State, wk: Worker, r: nat, c: Cell)
    requires Inv(s) && r < |s.replicas| && Enabled(Mode(Free, true), s, Install(wk))
    ensures Accounted(Apply(s, Install(wk)), r, c)
  {
    assert Accounted(s, r, c);
    var t := Apply(s, Install(wk));
    InstallRenews(s, wk, c);
    if Owed(s, r, c.env) {
      OwedSurvives(s, t, r, c.env);
    } else if wk' :| Covers(s, wk', r, c) {
      assert wk' != wk ==> Covers(t, wk', r, c);
    }
  }

  lemma PublishKeepsAccounts(s: State, op: nat, r: nat, c: Cell)
    requires Inv(s) && r < |s.replicas| && Enabled(Mode(Free, true), s, Publish(op))
    ensures Accounted(Apply(s, Publish(op)), r, c)
  {
    assert Accounted(s, r, c);
    var t, me := Apply(s, Publish(op)), s.ops[op];
    var event := Event(me.todo[0], s.replicas[me.replica].id);
    assert t.replicas[r].queue == s.replicas[r].queue + [event];
    if me.replica != r && me.todo[0] == c.env {
      assert event in t.replicas[r].queue;
      assert s.replicas[me.replica].id != s.replicas[r].id;
      assert ForeignQueued(t, r, c.env);
    } else if Owed(s, r, c.env) {
      assert me.todo == [me.todo[0]] + me.todo[1..];
      OwedSurvives(s, t, r, c.env);
    } else if wk :| Covers(s, wk, r, c) {
      assert Covers(t, wk, r, c);
    }
  }

  lemma DeliverKeepsAccounts(s: State, d: nat, r: nat, c: Cell)
    requires Inv(s) && r < |s.replicas| && Enabled(Mode(Free, true), s, Deliver(d))
    ensures Accounted(Apply(s, Deliver(d)), r, c)
  {
    assert Accounted(s, r, c);
    var t, event := Apply(s, Deliver(d)), s.replicas[d].queue[0];
    assert s.replicas[d].queue == [event] + s.replicas[d].queue[1..];
    if d == r && event.env == c.env && event.origin != s.replicas[d].id {
      assert Covers(t, Consumer(d), r, c);
    } else if Owed(s, r, c.env) {
      OwedSurvives(s, t, r, c.env);
    } else if wk :| Covers(s, wk, r, c) {
      assert Covers(t, wk, r, c);
    }
  }

  lemma FailReloadKeepsAccounts(s: State, wk: Worker, r: nat, c: Cell)
    requires Inv(s) && r < |s.replicas| && Enabled(Mode(Free, true), s, FailReload(wk))
    ensures Accounted(Apply(s, FailReload(wk)), r, c)
  {
    assert Accounted(s, r, c);
    var t := Apply(s, FailReload(wk));
    if Owed(s, r, c.env) {
      OwedSurvives(s, t, r, c.env);
    } else if wk' :| Covers(s, wk', r, c) {
      assert wk' != wk ==> Covers(t, wk', r, c);
    }
  }

  lemma FailPublishKeepsAccounts(s: State, op: nat, r: nat, c: Cell)
    requires Inv(s) && r < |s.replicas| && Enabled(Mode(Free, true), s, FailPublish(op))
    ensures Accounted(Apply(s, FailPublish(op)), r, c)
  {
    assert Accounted(s, r, c);
    var t, me := Apply(s, FailPublish(op)), s.ops[op];
    if me.todo[0] == c.env && r != me.replica {
      assert Place(r, c.env) in t.missed;
    } else if Owed(s, r, c.env) {
      assert me.todo == [me.todo[0]] + me.todo[1..];
      OwedSurvives(s, t, r, c.env);
    } else if wk :| Covers(s, wk, r, c) {
      assert Covers(t, wk, r, c);
    }
  }

  lemma AbandonKeepsAccounts(s: State, op: nat, r: nat, c: Cell)
    requires Inv(s) && r < |s.replicas| && Enabled(Mode(Free, true), s, Abandon(op))
    ensures Accounted(Apply(s, Abandon(op)), r, c)
  {
    assert Accounted(s, r, c);
    var t := Apply(s, Abandon(op));
    if c.env in s.ops[op].todo {
      assert Place(r, c.env) in t.missed;
    } else if Owed(s, r, c.env) {
      OwedSurvives(s, t, r, c.env);
    } else if wk :| Covers(s, wk, r, c) {
      assert Covers(t, wk, r, c);
    }
  }

  lemma InstallKeepsSane(s: State, wk: Worker)
    requires Sane(s) && Enabled(Mode(Free, true), s, Install(wk))
    ensures Sane(Apply(s, Install(wk)))
  {
    var rl, t := s.reloads[wk], Apply(s, Install(wk));
    var rep := s.replicas[rl.replica];
    forall c ensures NotAhead(s.db, c, At(Renewed(rep.newest, rl), c))
      ensures At(Installed(rep.cache, rl), c).stamp <= At(Renewed(rep.newest, rl), c).stamp
    {
      InstalledAt(rep.cache, rl, c);
      RenewedAt(rep.newest, rl, c);
      assert NotAhead(s.db, c, At(rep.newest, c));
      assert c.env == rl.env ==> NotAhead(s.db, Cell(rl.env, c.part), rl.got[c.part]);
    }
  }

  lemma QueryKeepsSane(s: State, wk: Worker)
    requires Sane(s) && Enabled(Mode(Free, true), s, Query(wk))
    ensures Sane(Apply(s, Query(wk)))
  {
  }

  lemma WriteKeepsSane(s: State, op: nat, cell: Cell, value: int)
    requires Sane(s) && Enabled(Mode(Free, true), s, Write(op, cell, value))
    ensures Sane(Apply(s, Write(op, cell, value)))
  {
  }

  /** The same content everywhere; reloads may start and end. */
  ghost predicate SameContent(s: State, t: State) {
    && t.db == s.db && |t.replicas| == |s.replicas|
    && (forall r :: 0 <= r < |s.replicas| ==>
          t.replicas[r].id == s.replicas[r].id && t.replicas[r].cache == s.replicas[r].cache &&
              t.replicas[r].newest == s.replicas[r].newest)
    && forall wk :: wk in t.reloads ==>
         t.reloads[wk].got == map[] || (wk in s.reloads && t.reloads[wk] == s.reloads[wk])
  }

  /** Steps that touch no content keep what is known of it. */
  lemma SameContentStaysSane(s: State, t: State)
    requires Sane(s) && WritersMatch(t) && SameContent(s, t)
    ensures Sane(t)
  {
    forall r, c | 0 <= r < |t.replicas| ensures NotAhead(t.db, c, At(t.replicas[r].newest, c)) {
      assert NotAhead(s.db, c, At(s.replicas[r].newest, c));
    }
  }

  lemma StepKeepsSane(s: State, a: Action)
    requires Sane(s) && Enabled(Mode(Free, true), s, a)
    ensures Sane(Apply(s, a)) && |Apply(s, a).replicas| == |s.replicas|
  {
    match a
    case Install(wk) => InstallKeepsSane(s, wk);
    case Query(wk) => QueryKeepsSane(s, wk);
    case Write(op, cell, value) => WriteKeepsSane(s, op, cell, value);
    case _ =>
      StepKeepsWriters(s, a);
      OthersTouchNoContent(s, a);
      SameContentStaysSane(s, Apply(s, a));
  }

  lemma OthersTouchNoContent(s: State, a: Action)
    requires Enabled(Mode(Free, true), s, a) && !a.Install? && !a.Query? && !a.Write?
    ensures SameContent(s, Apply(s, a))
  {
    match a
    case Publish(op) => PublishTouchesNoContent(s, op);
    case Deliver(r) => DeliverTouchesNoContent(s, r);
    case _ =>
  }

  lemma PublishTouchesNoContent(s: State, op: nat)
    requires Enabled(Mode(Free, true), s, Publish(op))
    ensures SameContent(s, Apply(s, Publish(op)))
  {
  }

  lemma DeliverTouchesNoContent(s: State, r: nat)
    requires Enabled(Mode(Free, true), s, Deliver(r))
    ensures SameContent(s, Apply(s, Deliver(r)))
  {
  }

  lemma StepKeepsWriters(s: State, a: Action)
    requires WritersMatch(s) && Enabled(Mode(Free, true), s, a)
    ensures WritersMatch(Apply(s, a))
  {
  }

  /** One step keeps the invariant, under any discipline and with faults. */
  lemma StepKeepsInv(s: State, a: Action)
    requires Inv(s) && Enabled(Mode(Free, true), s, a)
    ensures Inv(Apply(s, a))
  {
    StepKeepsSane(s, a);
    var t := Apply(s, a);
    forall r: nat, c: Cell | r < |t.replicas| ensures Accounted(t, r, c) {
      match a
      case Write(op, cell, value) => WriteKeepsAccounts(s, op, cell, value, r, c);
      case StartReload(op) => StartReloadKeepsAccounts(s, op, r, c);
      case Query(wk) => QueryKeepsAccounts(s, wk, r, c);
      case Install(wk) => InstallKeepsAccounts(s, wk, r, c);
      case Publish(op) => PublishKeepsAccounts(s, op, r, c);
      case Deliver(d) => DeliverKeepsAccounts(s, d, r, c);
      case FailReload(wk) => FailReloadKeepsAccounts(s, wk, r, c);
      case FailPublish(op) => FailPublishKeepsAccounts(s, op, r, c);
      case Abandon(op) => AbandonKeepsAccounts(s, op, r, c);
      case _ => BeginKeepsAccounts(s, a, r, c);
    }
  }

  /** The program itself waits for no other reload: it starts one, installs one and takes an event whenever it has
      come to that, whatever else is going on. */
  lemma TheProgramDoesNotWait(faults: bool, s: State, op: nat, wk: Worker, r: nat)
    ensures Enabled(Mode(Free, faults), s, StartReload(op)) <==> OpIn(s, op, ToReload)
    ensures Enabled(Mode(Free, faults), s, Install(wk)) <==>
            && wk in s.reloads && Complete(s.reloads[wk]) && s.reloads[wk].replica < |s.replicas|
            && (wk.Writer? ==> OpIn(s, wk.op, Reloading))
    ensures Enabled(Mode(Free, faults), s, Deliver(r)) <==>
            r < |s.replicas| && s.replicas[r].queue != [] && Consumer(r) !in s.reloads
  {
  }

  lemma FreerSteps(m: Mode, s: State, a: Action)
    requires Enabled(m, s, a)
    ensures Enabled(Mode(Free, true), s, a)
  {
  }

  lemma RunsKeepInv(m: Mode, s: State, run: seq<Action>, t: State)
    requires Inv(s) && Runs(StepsOf(m), s, run, t)
    ensures Inv(t)
  {
    forall x, a, y | Inv(x) && StepsOf(m)(x, a, y) ensures Inv(y) {
      FreerSteps(m, x, a);
      StepKeepsInv(x, a);
    }
    RunsKeep(StepsOf(m), Inv, s, run, t);
  }

  lemma InitIsAccounted(ids: seq<string>, db: Contents)
    requires Distinct(ids)
    ensures Inv(Init(ids, db))
  {
  }

  // ----- what every run guarantees -----

  lemma SettledIsNewest(t: State, r: nat, c: Cell)
    requires Inv(t) && r < |t.replicas| && Settled(t, r, c.env) && Place(r, c.env) !in t.missed
    ensures At(t.replicas[r].newest, c) == At(t.db, c)
  {
    assert Accounted(t, r, c);
    assert forall wk :: Covers(t, wk, r, c) ==> Busy(t, r, c.env);
  }

  /** In every run with distinct ids, with overlapping reloads and with faults: where nothing is on its way and no
      fault is unrepaired, the database's content has been installed; and it is still there exactly when no older
      content was installed after it. */
  lemma SettledHasSeenTheDatabase(m: Mode, ids: seq<string>, db: Contents, t: State, r: nat, c: Cell)
    requires Distinct(ids) && Reachable(m, Init(ids, db), t)
    requires r < |t.replicas| && Settled(t, r, c.env) && Place(r, c.env) !in t.missed
    ensures At(t.replicas[r].newest, c) == At(t.db, c)
    ensures At(t.replicas[r].cache, c) == At(t.db, c) <==> At(t.replicas[r].cache, c) == At(t.replicas[r].newest, c)
  {
    var run :| Runs(StepsOf(m), Init(ids, db), run, t);
    InitIsAccounted(ids, db);
    RunsKeepInv(m, Init(ids, db), run, t);
    SettledIsNewest(t, r, c);
  }

  // ----- disciplines under which nothing older is installed -----

  ghost predicate CacheIsNewest(s: State) {
    forall r, c :: 0 <= r < |s.replicas| ==> At(s.replicas[r].cache, c) == At(s.replicas[r].newest, c)
  }

  predicate SamePlace(a: Reload, b: Reload) {
    a.replica == b.replica && a.env == b.env
  }

  ghost predicate SerialReloads(s: State) {
    && (forall wk, wk' :: wk in s.reloads && wk' in s.reloads && SamePlace(s.reloads[wk], s.reloads[wk']) ==> wk == wk')
    && (forall wk :: wk in s.reloads && s.reloads[wk].replica < |s.replicas| ==>
          NotOlder(s.reloads[wk], s.replicas[s.reloads[wk].replica].cache))
  }

  ghost predicate Orderly(m: Mode, s: State) {
    && (m.discipline != Free ==> CacheIsNewest(s))
    && (m.discipline == Serial ==> SerialReloads(s))
  }

  lemma InstallIsOrderly(s: State, wk: Worker)
    requires Sane(s) && CacheIsNewest(s) && Enabled(Mode(Free, true), s, Install(wk))
    requires NotOlder(s.reloads[wk], s.replicas[s.reloads[wk].replica].cache)
    ensures CacheIsNewest(Apply(s, Install(wk)))
  {
    var rl := s.reloads[wk];
    var rep := s.replicas[rl.replica];
    forall c ensures At(Installed(rep.cache, rl), c) == At(Renewed(rep.newest, rl), c) {
      assert At(rep.cache, c) == At(rep.newest, c);
      InstalledAt(rep.cache, rl, c);
      RenewedAt(rep.newest, rl, c);
      assert c.env == rl.env ==> c == Cell(rl.env, c.part);
    }
  }

  lemma StartStaysSerial(s: State, wk: Worker, rl: Reload)
    requires SerialReloads(s) && !Busy(s, rl.replica, rl.env) && rl.got == map[]
    ensures SerialReloads(s.(reloads := s.reloads[wk := rl]))
  {
    forall other | other in s.reloads ensures !SamePlace(s.reloads[other], rl) {
      assert !Busy(s, rl.replica, rl.env);
    }
  }

  lemma QueryIsNotOlder(s: State, wk: Worker)
    requires Sane(s) && SerialReloads(s) && Enabled(Mode(Serial, true), s, Query(wk)) &&
               s.reloads[wk].replica < |s.replicas|
    ensures NotOlder(Apply(s, Query(wk)).reloads[wk], s.replicas[s.reloads[wk].replica].cache)
  {
    var rl := Apply(s, Query(wk)).reloads[wk];
    forall part | part in rl.got
      ensures rl.got[part].stamp >= At(s.replicas[rl.replica].cache, Cell(rl.env, part)).stamp
    {
      assert NotAhead(s.db, Cell(rl.env, part), At(s.replicas[rl.replica].newest, Cell(rl.env, part)));
      assert NotOlder(s.reloads[wk], s.replicas[rl.replica].cache);
    }
  }

  lemma QueryStaysSerial(s: State, wk: Worker)
    requires Sane(s) && SerialReloads(s) && Enabled(Mode(Serial, true), s, Query(wk))
    ensures SerialReloads(Apply(s, Query(wk)))
  {
    var t := Apply(s, Query(wk));
    assert forall other :: other in s.reloads ==> SamePlace(s.reloads[other], t.reloads[other]);
    forall other | other in t.reloads && t.reloads[other].replica < |t.replicas|
      ensures NotOlder(t.reloads[other], t.replicas[t.reloads[other].replica].cache)
    {
      if other == wk {
        QueryIsNotOlder(s, wk);
      } else {
        assert NotOlder(s.reloads[other], s.replicas[s.reloads[other].replica].cache);
      }
    }
  }

  lemma InstallStaysSerial(s: State, wk: Worker)
    requires SerialReloads(s) && Enabled(Mode(Serial, true), s, Install(wk))
    ensures SerialReloads(Apply(s, Install(wk)))
  {
    var t, rl := Apply(s, Install(wk)), s.reloads[wk];
    forall other | other in t.reloads && t.reloads[other].replica < |t.replicas|
      ensures NotOlder(t.reloads[other], t.replicas[t.reloads[other].replica].cache)
    {
      assert !SamePlace(s.reloads[other], rl);
      assert NotOlder(s.reloads[other], s.replicas[s.reloads[other].replica].cache);
    }
  }

  lemma DeliverStaysSerial(s: State, d: nat)
    requires SerialReloads(s) && Enabled(Mode(Serial, true), s, Deliver(d))
    ensures SerialReloads(Apply(s, Deliver(d)))
  {
    var t := Apply(s, Deliver(d));
    if Foreign(s.replicas[d]) {
      StartStaysSerial(s, Consumer(d), t.reloads[Consumer(d)]);
      SerialSeesCaches(s.(reloads := t.reloads), t);
    } else {
      SerialSeesCaches(s, t);
    }
  }

  lemma StepStaysSerial(s: State, a: Action)
    requires Sane(s) && SerialReloads(s) && Enabled(Mode(Serial, true), s, a)
    ensures SerialReloads(Apply(s, a))
  {
    match a
    case StartReload(op) =>
      assert Writer(op) !in s.reloads;
      StartStaysSerial(s, Writer(op), Apply(s, a).reloads[Writer(op)]);
    case Deliver(d) => DeliverStaysSerial(s, d);
    case Query(wk) => QueryStaysSerial(s, wk);
    case Install(wk) => InstallStaysSerial(s, wk);
    case Publish(op) => SerialSeesCaches(s, Apply(s, a));
    case FailReload(wk) =>
    case _ =>
  }

  /** Being serial depends on the reloads and the caches alone. */
  lemma SerialSeesCaches(s: State, t: State)
    requires SerialReloads(s) && t.reloads == s.reloads && |t.replicas| == |s.replicas|
    requires forall r :: 0 <= r < |s.replicas| ==> t.replicas[r].cache == s.replicas[r].cache
    ensures SerialReloads(t)
  {
    forall wk | wk in t.reloads && t.reloads[wk].replica < |t.replicas|
      ensures NotOlder(t.reloads[wk], t.replicas[t.reloads[wk].replica].cache)
    {
      assert NotOlder(s.reloads[wk], s.replicas[s.reloads[wk].replica].cache);
    }
  }

  lemma StepStaysOrderly(m: Mode, s: State, a: Action)
    requires Sane(s) && Orderly(m, s) && Enabled(m, s, a)
    ensures Orderly(m, Apply(s, a))
  {
    FreerSteps(m, s, a);
    if m.discipline != Free {
      if a.Install? {
        InstallIsOrderly(s, a.worker);
      } else {
        var t := Apply(s, a);
        forall r | 0 <= r < |t.replicas|
          ensures t.replicas[r].cache == s.replicas[r].cache && t.replicas[r].newest == s.replicas[r].newest
        {
        }
      }
    }
    if m.discipline == Serial {
      StepStaysSerial(s, a);
    }
  }

  lemma RunsStayOrderly(m: Mode, s: State, run: seq<Action>, t: State)
    requires Sane(s) && Orderly(m, s) && Runs(StepsOf(m), s, run, t)
    ensures Sane(t) && Orderly(m, t)
  {
    var inv := (x: State) => Sane(x) && Orderly(m, x);
    forall x, a, y | inv(x) && StepsOf(m)(x, a, y) ensures inv(y) {
      FreerSteps(m, x, a);
      StepKeepsSane(x, a);
      StepStaysOrderly(m, x, a);
    }
    RunsKeep(StepsOf(m), inv, s, run, t);
  }

  // ----- exactly when replicas converge -----

  ghost predicate Converged(s: State) {
    forall r: nat, c: Cell :: r < |s.replicas| && Settled(s, r, c.env) ==>
        At(s.replicas[r].cache, c).value == At(s.db, c).value
  }

  /** In every reachable state, whatever is settled is current. */
  ghost predicate AlwaysConverges(m: Mode, ids: seq<string>) {
    forall db, t :: Reachable(m, Init(ids, db), t) ==> Converged(t)
  }

  /** No fault is unrepaired. */
  ghost predicate NoneMissed(s: State) {
    s.missed == {}
  }

  lemma NoFaultMissesNothing(m: Mode, s: State, a: Action)
    requires !m.faults && NoneMissed(s) && Enabled(m, s, a)
    ensures NoneMissed(Apply(s, a))
  {
  }

  lemma NothingMissed(m: Mode, s: State, run: seq<Action>, t: State)
    requires !m.faults && NoneMissed(s) && Runs(StepsOf(m), s, run, t)
    ensures NoneMissed(t)
  {
    forall x, a, y | NoneMissed(x) && StepsOf(m)(x, a, y) ensures NoneMissed(y) {
      NoFaultMissesNothing(m, x, a);
    }
    RunsKeep(StepsOf(m), NoneMissed, s, run, t);
  }

  lemma DisciplinedRunsConverge(m: Mode, ids: seq<string>, db: Contents, t: State)
    requires Distinct(ids) && m.discipline != Free && !m.faults && Reachable(m, Init(ids, db), t)
    ensures Converged(t)
  {
    var run :| Runs(StepsOf(m), Init(ids, db), run, t);
    InitIsAccounted(ids, db);
    RunsStayOrderly(m, Init(ids, db), run, t);
    NothingMissed(m, Init(ids, db), run, t);
    forall r: nat, c: Cell | r < |t.replicas| && Settled(t, r, c.env)
      ensures At(t.replicas[r].cache, c) == At(t.db, c)
    {
      SettledHasSeenTheDatabase(m, ids, db, t, r, c);
    }
  }

  lemma Extend(m: Mode, s: State, mid: State, a: Action)
    requires Reachable(m, s, mid) && Enabled(m, mid, a)
    ensures Enabled(Mode(Free, true), mid, a) && Reachable(m, s, Apply(mid, a))
  {
    FreerSteps(m, mid, a);
    var run :| Runs(StepsOf(m), s, run, mid);
    OneStepMore(StepsOf(m), s, run, mid, a, Apply(mid, a));
  }

  const ENV := "e"
  const FLAGS := Cell(ENV, FlagRows)
  const SEGMENTS := Cell(ENV, SegmentRows)

  /** The only cell ever written below is FLAGS. */
  function Only(x: Stamped): Contents {
    map[FLAGS := x]
  }

  lemma BeginAndWrite(m: Mode, s: State, mid: State, op: nat, r: nat, value: int) returns (t: State)
    requires Reachable(m, s, mid) && op !in mid.ops && r < |mid.replicas|
    ensures Reachable(m, s, t)
    ensures t == mid.(db := mid.db[FLAGS := Stamped(value, At(mid.db, FLAGS).stamp + 1)],
              ops := mid.ops[op := Op(r, [ENV], Writing)])
  {
    Extend(m, s, mid, BeginWrite(op, r, [ENV]));
    t := Apply(mid, BeginWrite(op, r, [ENV]));
    Extend(m, s, t, Write(op, FLAGS, value));
    t := Apply(t, Write(op, FLAGS, value));
  }

  /** A request writes a value to the flag rows and is about to reload. */
  lemma WriteOut(m: Mode, s: State, mid: State, op: nat, r: nat, value: int) returns (t: State)
    requires Reachable(m, s, mid) && op !in mid.ops && r < |mid.replicas|
    ensures Reachable(m, s, t)
    ensures t == mid.(db := mid.db[FLAGS := Stamped(value, At(mid.db, FLAGS).stamp + 1)],
              ops := mid.ops[op := Op(r, [ENV], ToReload)])
  {
    t := BeginAndWrite(m, s, mid, op, r, value);
    Extend(m, s, t, BeginPropagate(op));
    t := Apply(t, BeginPropagate(op));
    assert t.ops == mid.ops[op := Op(r, [ENV], ToReload)];
  }

  lemma QueryTwice(m: Mode, s: State, mid: State, wk: Worker, r: nat) returns (t: State)
    requires Reachable(m, s, mid) && wk in mid.reloads && mid.reloads[wk] == Reload(r, ENV, map[])
    ensures Reachable(m, s, t) && t == mid.(reloads := mid.reloads[wk := ReadOut(mid.db, r)])
  {
    Extend(m, s, mid, Query(wk));
    t := Apply(mid, Query(wk));
    Extend(m, s, t, Query(wk));
    t := Apply(t, Query(wk));
    assert t.reloads[wk] == ReadOut(mid.db, r);
    assert t.reloads == mid.reloads[wk := ReadOut(mid.db, r)];
  }

  /** It starts reloading, and both queries return the current rows. */
  lemma StartAndQuery(m: Mode, s: State, mid: State, op: nat, r: nat) returns (t: State)
    requires Reachable(m, s, mid) && r < |mid.replicas|
    requires op in mid.ops && mid.ops[op] == Op(r, [ENV], ToReload)
    requires m.discipline == Serial ==> !Busy(mid, r, ENV)
    ensures Reachable(m, s, t)
    ensures t == mid.(ops := mid.ops[op := Op(r, [ENV], Reloading)],
                      reloads := mid.reloads[Writer(op) := ReadOut(mid.db, r)],
                      missed := mid.missed - {Place(r, ENV)})
  {
    Extend(m, s, mid, StartReload(op));
    t := Apply(mid, StartReload(op));
    t := QueryTwice(m, s, t, Writer(op), r);
    assert t.reloads == mid.reloads[Writer(op) := ReadOut(mid.db, r)];
  }

  function ReadOut(db: Contents, r: nat): Reload {
    Reload(r, ENV, map[FlagRows := At(db, FLAGS), SegmentRows := At(db, SEGMENTS)])
  }

  /** It installs what it has read, publishes to every replica and is done. */
  lemma Finish(m: Mode, s: State, mid: State, op: nat, r: nat, rl: Reload) returns (t: State)
    requires Reachable(m, s, mid) && r < |mid.replicas|
    requires op in mid.ops && mid.ops[op] == Op(r, [ENV], Reloading)
    requires Writer(op) in mid.reloads && mid.reloads[Writer(op)] == rl && Complete(rl) && rl.replica == r &&
               rl.env == ENV
    requires m.discipline == InOrder ==> NotOlder(rl, mid.replicas[r].cache)
    ensures Reachable(m, s, t) && |t.replicas| == |mid.replicas| && t.db == mid.db
    ensures t.reloads == mid.reloads - {Writer(op)} && t.ops == mid.ops[op := Op(r, [], ToReload)]
    ensures forall i :: 0 <= i < |t.replicas| ==>
              && t.replicas[i].id == mid.replicas[i].id
              && t.replicas[i].queue == mid.replicas[i].queue + [Event(ENV, mid.replicas[r].id)]
              && t.replicas[i].cache == if i == r then Installed(mid.replicas[i].cache, rl) else mid.replicas[i].cache
  {
    Extend(m, s, mid, Install(Writer(op)));
    t := Apply(mid, Install(Writer(op)));
    Extend(m, s, t, Publish(op));
    t := Apply(t, Publish(op));
    assert [ENV][1..] == [];
    assert t.ops == mid.ops[op := Op(r, [], ToReload)];
  }

  /** A settled replica holding other content than the database. */
  lemma StaleMeansNotConverged(t: State, r: nat)
    requires r < |t.replicas| && t.reloads == map[]
    requires forall op :: op in t.ops ==> t.ops[op].todo == []
    requires forall ev :: ev in t.replicas[r].queue ==> ev.origin == t.replicas[r].id
    requires At(t.replicas[r].cache, FLAGS).value != At(t.db, FLAGS).value
    ensures !Converged(t)
  {
    assert Settled(t, r, FLAGS.env);
  }

  lemma StartReachable(m: Mode, s: State)
    ensures Reachable(m, s, s)
  {
    NoStep(StepsOf(m), s);
  }

  /** Two replicas with one instance id: each takes the other's broadcasts for its own and stays stale. */
  lemma SharedIdLosesUpdates(m: Mode, ids: seq<string>, i: nat, j: nat)
    requires i < |ids| && j < |ids| && i != j && ids[i] == ids[j]
    ensures !AlwaysConverges(m, ids)
  {
    var start := Init(ids, map[]);
    StartReachable(m, start);
    var t := WriteOut(m, start, start, 0, i, 1);
    t := StartAndQuery(m, start, t, 0, i);
    t := Finish(m, start, t, 0, i, ReadOut(t.db, i));
    assert t.replicas[j].queue == [] + [Event(ENV, ids[i])];
    StaleMeansNotConverged(t, j);
  }

  lemma FirstHasRead(m: Mode, start: State) returns (t: State)
    requires m.discipline == Free && start.replicas != []
    requires start.ops == map[] && start.reloads == map[] && start.db == map[]
    ensures Reachable(m, start, t) && t.replicas == start.replicas && t.db == Only(Stamped(1, 1))
    ensures t.ops == map[0 := Op(0, [ENV], Reloading)]
    ensures t.reloads == map[Writer(0) := ReadOut(Only(Stamped(1, 1)), 0)]
  {
    StartReachable(m, start);
    t := WriteOut(m, start, start, 0, 0, 1);
    t := StartAndQuery(m, start, t, 0, 0);
  }

  /** Two requests on one replica, the first having read the content before the second wrote. */
  lemma ReloadsOverlap(m: Mode, start: State) returns (t: State)
    requires m.discipline == Free && start.replicas != []
    requires start.ops == map[] && start.reloads == map[] && start.db == map[]
    ensures Reachable(m, start, t) && t.replicas == start.replicas && t.db == Only(Stamped(2, 2))
    ensures t.ops == map[0 := Op(0, [ENV], Reloading), 1 := Op(0, [ENV], Reloading)]
    ensures t.reloads == map[Writer(0) := ReadOut(Only(Stamped(1, 1)), 0), Writer(1) := ReadOut(Only(Stamped(2, 2)), 0)]
  {
    t := FirstHasRead(m, start);
    t := WriteOut(m, start, t, 1, 0, 2);
    assert t.db == Only(Stamped(2, 2)) && t.ops == map[0 := Op(0, [ENV], Reloading), 1 := Op(0, [ENV], ToReload)];
    t := StartAndQuery(m, start, t, 1, 0);
  }

  /** Two reloads of one environment on one replica, installing in the opposite order of their queries:
      the older content stays. */
  lemma OverlappingReloadsLoseUpdates(m: Mode, ids: seq<string>)
    requires m.discipline == Free && ids != []
    ensures !AlwaysConverges(m, ids)
  {
    var start := Init(ids, map[]);
    var mid := ReloadsOverlap(m, start);
    var t := OverlapFinishesBackwards(m, start, mid);
    StaleMeansNotConverged(t, 0);
  }

  lemma NewerFinishesFirst(m: Mode, start: State, mid: State) returns (t: State)
    requires m.discipline == Free && Reachable(m, start, mid) && mid.replicas != [] && mid.replicas[0].queue == []
    requires mid.ops == map[0 := Op(0, [ENV], Reloading), 1 := Op(0, [ENV], Reloading)]
    requires mid.reloads == map[Writer(0) := ReadOut(Only(Stamped(1, 1)), 0),
               Writer(1) := ReadOut(Only(Stamped(2, 2)), 0)]
    ensures Reachable(m, start, t) && t.replicas != [] && t.db == mid.db
    ensures t.replicas[0].queue == [Event(ENV, t.replicas[0].id)]
    ensures t.ops == map[0 := Op(0, [ENV], Reloading), 1 := Op(0, [], ToReload)]
    ensures t.reloads == map[Writer(0) := ReadOut(Only(Stamped(1, 1)), 0)]
  {
    t := Finish(m, start, mid, 1, 0, ReadOut(Only(Stamped(2, 2)), 0));
  }

  lemma OlderIsInstalled(cache: Contents)
    ensures At(Installed(cache, ReadOut(Only(Stamped(1, 1)), 0)), FLAGS).value == 1
  {
  }

  lemma OlderFinishesLast(m: Mode, start: State, mid: State) returns (t: State)
    requires Reachable(m, start, mid) && mid.replicas != [] && m.discipline == Free
    requires mid.replicas[0].queue == [Event(ENV, mid.replicas[0].id)]
    requires mid.ops == map[0 := Op(0, [ENV], Reloading), 1 := Op(0, [], ToReload)]
    requires mid.reloads == map[Writer(0) := ReadOut(Only(Stamped(1, 1)), 0)]
    ensures Reachable(m, start, t) && t.replicas != [] && t.db == mid.db && t.reloads == map[]
    ensures forall op :: op in t.ops ==> t.ops[op].todo == []
    ensures forall ev :: ev in t.replicas[0].queue ==> ev.origin == t.replicas[0].id
    ensures At(t.replicas[0].cache, FLAGS).value == 1
  {
    t := Finish(m, start, mid, 0, 0, ReadOut(Only(Stamped(1, 1)), 0));
    assert t.ops[0].todo == [] && t.ops[1].todo == [];
    OlderIsInstalled(mid.replicas[0].cache);
    assert t.reloads == map[];
  }

  /** The requests finish in the opposite order, so the older content is installed last. */
  lemma OverlapFinishesBackwards(m: Mode, start: State, mid: State) returns (t: State)
    requires m.discipline == Free && Reachable(m, start, mid) && mid.replicas != [] && mid.replicas[0].queue == []
    requires mid.ops == map[0 := Op(0, [ENV], Reloading), 1 := Op(0, [ENV], Reloading)]
    requires mid.reloads
          == map[Writer(0) := ReadOut(Only(Stamped(1, 1)), 0), Writer(1) := ReadOut(Only(Stamped(2, 2)), 0)]
    ensures Reachable(m, start, t) && t.replicas != [] && t.db == mid.db && t.reloads == map[]
    ensures forall op :: op in t.ops ==> t.ops[op].todo == []
    ensures forall ev :: ev in t.replicas[0].queue ==> ev.origin == t.replicas[0].id
    ensures At(t.replicas[0].cache, FLAGS).value == 1
  {
    t := NewerFinishesFirst(m, start, mid);
    t := OlderFinishesLast(m, start, t);
  }

  /** A failed local reload is only logged: the replica that wrote stays stale. */
  lemma FailedReloadLosesUpdates(m: Mode, ids: seq<string>)
    requires m.faults && ids != []
    ensures !AlwaysConverges(m, ids)
  {
    var start := Init(ids, map[]);
    StartReachable(m, start);
    var t := WriteOut(m, start, start, 0, 0, 1);
    t := StartAndQuery(m, start, t, 0, 0);
    Extend(m, start, t, FailReload(Writer(0)));
    t := Apply(t, FailReload(Writer(0)));
    assert t.reloads == map[];
    Extend(m, start, t, Publish(0));
    t := Apply(t, Publish(0));
    assert [ENV][1..] == [];
    StaleMeansNotConverged(t, 0);
  }

  /** A request that ends between its write and its propagation, as when the environments cannot be listed, starts no
      reload and no broadcast: every replica stays stale. */
  lemma AbandonedRequestLosesUpdates(m: Mode, ids: seq<string>, r: nat)
    requires m.faults && r < |ids|
    ensures !AlwaysConverges(m, ids)
  {
    var start := Init(ids, map[]);
    StartReachable(m, start);
    var t := BeginAndWrite(m, start, start, 0, 0, 1);
    Extend(m, start, t, Abandon(0));
    t := Apply(t, Abandon(0));
    StaleMeansNotConverged(t, r);
  }

  /** Replicas always converge exactly when instance ids are distinct, no fault occurs, and no install brings older
      content than is cached, as when reloads of one environment do not overlap on one replica. */
  lemma ConvergesExactly(m: Mode, ids: seq<string>)
    requires ids != []
    ensures AlwaysConverges(m, ids) <==> m.discipline != Free && !m.faults && Distinct(ids)
  {
    if !Distinct(ids) {
      var i, j :| 0 <= i < j < |ids| && ids[i] == ids[j];
      SharedIdLosesUpdates(m, ids, i, j);
    } else if m.discipline == Free {
      OverlappingReloadsLoseUpdates(m, ids);
    } else if m.faults {
      FailedReloadLosesUpdates(m, ids);
    } else {
      forall db, t | Reachable(m, Init(ids, db), t) ensures Converged(t) {
        DisciplinedRunsConverge(m, ids, db, t);
      }
    }
  }

  /** With every request finished, every queue empty, no reload in progress and no fault unrepaired, every replica has
      had the database's content installed, in runs of any kind; where nothing older came after it, it still has. */
  lemma QuietReplicasHaveSeenTheDatabase(m: Mode, ids: seq<string>, db: Contents, t: State)
    requires Distinct(ids) && Reachable(m, Init(ids, db), t)
    requires t.reloads == map[] && NoneMissed(t) && forall op :: op in t.ops ==> t.ops[op].todo == []
    requires forall r :: 0 <= r < |t.replicas| ==> t.replicas[r].queue == []
    ensures forall r, c :: 0 <= r < |t.replicas| ==> At(t.replicas[r].newest, c) == At(t.db, c)
    ensures m.discipline != Free ==> forall r, c :: 0 <= r < |t.replicas| ==> At(t.replicas[r].cache, c) == At(t.db, c)
  {
    forall r, c | 0 <= r < |t.replicas| ensures At(t.replicas[r].newest, c) == At(t.db, c) {
      assert Settled(t, r, c.env);
      SettledHasSeenTheDatabase(m, ids, db, t, r, c);
    }
    var run :| Runs(StepsOf(m), Init(ids, db), run, t);
    InitIsAccounted(ids, db);
    RunsStayOrderly(m, Init(ids, db), run, t);
  }
}
