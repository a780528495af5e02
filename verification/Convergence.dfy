// Replicas do converge: once writing stops, every schedule of the remaining steps is finite, and when nothing
// is left to do every replica has had the database's content installed.
module Convergence {
  import opened Lists
  import opened Transitions
  import opened MapSums
  import opened Replication
  import opened ReplicaSafety

  /** Everything in progress belongs to a replica, and a request marked as reloading is. */
  ghost predicate Tidy(s: State) {
    && (forall wk :: wk in s.reloads ==> s.reloads[wk].replica < |s.replicas|)
    && (forall op :: op in s.ops ==> s.ops[op].replica < |s.replicas|)
    && (forall op :: op in s.ops && s.ops[op].stage == Reloading && s.ops[op].todo != [] ==> Writer(op) in s.reloads)
  }

  lemma ReloadEndKeepsTidy(s: State, t: State, wk: Worker)
    requires Tidy(s) && WritersMatch(s) && wk in s.reloads && (wk.Writer? ==> OpIn(s, wk.op, Reloading))
    requires t.reloads == ReloadEnded(s, wk).reloads && t.ops == ReloadEnded(s, wk).ops && |t.replicas| == |s.replicas|
    ensures Tidy(t)
  {
  }

  lemma StepKeepsTidy(s: State, a: Action)
    requires Tidy(s) && WritersMatch(s) && Enabled(Mode(Free, true), s, a)
    ensures Tidy(Apply(s, a))
  {
    match a
    case Install(wk) => ReloadEndKeepsTidy(s, Apply(s, a), wk);
    case FailReload(wk) => ReloadEndKeepsTidy(s, Apply(s, a), wk);
    case _ =>
  }

  ghost predicate IsWrite(a: Action) {
    a.BeginWrite? || a.Write?
  }

  // ----- a measure of the work left -----

  /** One environment of a request: its reload, its broadcast and the reloads that follow at `n` replicas. */
  ghost function ItemWork(n: nat): nat {
    4 * n + 6
  }

  ghost function OpWork(op: Op, n: nat): nat {
    if op.todo == [] then 0
    else
      var all := |op.todo| * ItemWork(n);
      assert all >= 6;
      match op.stage
      case Writing => all + 1
      case ToReload => all
      case Reloading => all - 4
      case ToPublish => all - 5
  }

  ghost function ReloadWork(rl: Reload): nat {
    1 + (if FlagRows in rl.got then 0 else 1) + (if SegmentRows in rl.got then 0 else 1)
  }

  ghost function OpCosts(ops: map<nat, Op>, n: nat): map<nat, nat> {
    map op | op in ops :: OpWork(ops[op], n)
  }

  ghost function ReloadCosts(reloads: map<Worker, Reload>): map<Worker, nat> {
    map wk | wk in reloads :: ReloadWork(reloads[wk])
  }

  ghost function QueueWork(replicas: seq<Replica>): nat {
    if replicas == [] then 0 else 4 * |replicas[0].queue| + QueueWork(replicas[1..])
  }

  ghost function Work(s: State): nat {
    Sum(OpCosts(s.ops, |s.replicas|)) + Sum(ReloadCosts(s.reloads)) + QueueWork(s.replicas)
  }

  lemma OpChange(ops: map<nat, Op>, op: nat, next: Op, n: nat)
    requires op in ops
    ensures Sum(OpCosts(ops[op := next], n)) + OpWork(ops[op], n) == Sum(OpCosts(ops, n)) + OpWork(next, n)
  {
    assert OpCosts(ops[op := next], n) == OpCosts(ops, n)[op := OpWork(next, n)];
    SumAfterSet(OpCosts(ops, n), op, OpWork(next, n));
  }

  lemma ReloadChange(reloads: map<Worker, Reload>, wk: Worker, next: Reload)
    ensures Sum(ReloadCosts(reloads[wk := next])) + (if wk in reloads then ReloadWork(reloads[wk]) else 0) ==
            Sum(ReloadCosts(reloads)) + ReloadWork(next)
  {
    assert ReloadCosts(reloads[wk := next]) == ReloadCosts(reloads)[wk := ReloadWork(next)];
    SumAfterSet(ReloadCosts(reloads), wk, ReloadWork(next));
  }

  lemma ReloadGone(reloads: map<Worker, Reload>, wk: Worker)
    requires wk in reloads
    ensures Sum(ReloadCosts(reloads - {wk})) + ReloadWork(reloads[wk]) == Sum(ReloadCosts(reloads))
  {
    SumWithout(ReloadCosts(reloads), wk);
    assert ReloadCosts(reloads - {wk}) == ReloadCosts(reloads) - {wk};
  }

  lemma {:induction false} QueueChange(replicas: seq<Replica>, r: nat, next: Replica)
    requires r < |replicas|
    ensures QueueWork(replicas[r := next]) + 4 * |replicas[r].queue| == QueueWork(replicas) + 4 * |next.queue|
  {
    if r == 0 {
      assert replicas[0 := next][1..] == replicas[1..];
    } else {
      assert replicas[r := next][1..] == replicas[1..][r - 1 := next];
      QueueChange(replicas[1..], r - 1, next);
    }
  }

  lemma {:induction false} QueuesGrow(replicas: seq<Replica>, replicas': seq<Replica>)
    requires |replicas'| == |replicas|
    requires forall r :: 0 <= r < |replicas| ==> |replicas'[r].queue| == |replicas[r].queue| + 1
    ensures QueueWork(replicas') == QueueWork(replicas) + 4 * |replicas|
  {
    if replicas != [] {
      QueuesGrow(replicas[1..], replicas'[1..]);
    }
  }

  lemma PublishWorks(s: State, op: nat)
    requires Enabled(Mode(Free, true), s, Publish(op))
    ensures Work(Apply(s, Publish(op))) < Work(s)
  {
    var t, n := Apply(s, Publish(op)), |s.replicas|;
    OpChange(s.ops, op, t.ops[op], n);
    PublishedOpWork(s.ops[op], n);
    QueuesGrow(s.replicas, t.replicas);
  }

  lemma PublishedOpWork(op: Op, n: nat)
    requires op.stage == ToPublish && op.todo != []
    ensures OpWork(op.(todo := op.todo[1..], stage := ToReload), n) + 4 * n + 1 == OpWork(op, n)
  {
    var k := |op.todo|;
    assert k * ItemWork(n) == (k - 1) * ItemWork(n) + ItemWork(n);
  }

  lemma InstallWorks(s: State, wk: Worker)
    requires Enabled(Mode(Free, true), s, Install(wk))
    ensures Work(Apply(s, Install(wk))) < Work(s)
  {
    var t, rl := Apply(s, Install(wk)), s.reloads[wk];
    ReloadGone(s.reloads, wk);
    QueueChange(s.replicas, rl.replica, t.replicas[rl.replica]);
    if wk.Writer? {
      OpChange(s.ops, wk.op, t.ops[wk.op], |s.replicas|);
    }
  }

  lemma DeliverWorks(s: State, r: nat)
    requires Enabled(Mode(Free, true), s, Deliver(r))
    ensures Work(Apply(s, Deliver(r))) < Work(s)
  {
    var t := Apply(s, Deliver(r));
    QueueChange(s.replicas, r, t.replicas[r]);
    if Consumer(r) in t.reloads {
      ReloadChange(s.reloads, Consumer(r), t.reloads[Consumer(r)]);
    }
  }

  lemma FailReloadWorks(s: State, wk: Worker)
    requires Enabled(Mode(Free, true), s, FailReload(wk))
    ensures Work(Apply(s, FailReload(wk))) < Work(s)
  {
    var t := Apply(s, FailReload(wk));
    ReloadGone(s.reloads, wk);
    if wk.Writer? {
      OpChange(s.ops, wk.op, t.ops[wk.op], |s.replicas|);
    }
  }

  lemma FailPublishWorks(s: State, op: nat)
    requires Enabled(Mode(Free, true), s, FailPublish(op))
    ensures Work(Apply(s, FailPublish(op))) < Work(s)
  {
    OpChange(s.ops, op, NextEnv(s.ops[op]), |s.replicas|);
    PublishedOpWork(s.ops[op], |s.replicas|);
  }

  lemma StartWorks(s: State, op: nat)
    requires WritersMatch(s) && Enabled(Mode(Free, true), s, StartReload(op))
    ensures Work(Apply(s, StartReload(op))) < Work(s)
  {
    var t := Apply(s, StartReload(op));
    OpChange(s.ops, op, t.ops[op], |s.replicas|);
    ReloadChange(s.reloads, Writer(op), t.reloads[Writer(op)]);
  }

  lemma AbandonWorks(s: State, op: nat)
    requires Enabled(Mode(Free, true), s, Abandon(op))
    ensures Work(Apply(s, Abandon(op))) < Work(s)
  {
    OpChange(s.ops, op, s.ops[op].(todo := []), |s.replicas|);
  }

  lemma OnlyWritesWrite(s: State, a: Action)
    requires Enabled(Mode(Free, true), s, a) && !IsWrite(a)
    ensures Apply(s, a).db == s.db
  {
  }

  /** Every step but a write leaves less work, whatever the discipline, and faults are no exception. */
  lemma StepWorks(s: State, a: Action)
    requires WritersMatch(s) && Enabled(Mode(Free, true), s, a) && !IsWrite(a)
    ensures Work(Apply(s, a)) < Work(s)
  {
    var t := Apply(s, a);
    match a
    case BeginPropagate(op) => OpChange(s.ops, op, t.ops[op], |s.replicas|);
    case StartReload(op) => StartWorks(s, op);
    case Query(wk) => ReloadChange(s.reloads, wk, t.reloads[wk]);
    case Install(wk) => InstallWorks(s, wk);
    case Publish(op) => PublishWorks(s, op);
    case Deliver(r) => DeliverWorks(s, r);
    case FailReload(wk) => FailReloadWorks(s, wk);
    case FailPublish(op) => FailPublishWorks(s, op);
    case Abandon(op) => AbandonWorks(s, op);
  }

  ghost predicate WriteFree(run: seq<Action>) {
    forall a :: a in run ==> !IsWrite(a)
  }

  ghost predicate Quiet(a: Action) {
    !IsWrite(a)
  }

  lemma WriteFreeRunsAreBounded(m: Mode, s: State, run: seq<Action>, t: State)
    requires Inv(s) && Tidy(s) && WriteFree(run) && Runs(StepsOf(m), s, run, t)
    ensures |run| + Work(t) <= Work(s) && t.db == s.db
    ensures Inv(t) && Tidy(t)
  {
    var inv := (x: State) => Inv(x) && Tidy(x) && x.db == s.db;
    forall x, a, y | inv(x) && Quiet(a) && StepsOf(m)(x, a, y) ensures inv(y) && Work(y) < Work(x) {
      QuietStep(m, x, a);
    }
    QuietRunsAreBounded(StepsOf(m), inv, Quiet, Work, s, run, t);
  }

  lemma QuietStep(m: Mode, s: State, a: Action)
    requires Inv(s) && Tidy(s) && Quiet(a) && Enabled(m, s, a)
    ensures Enabled(Mode(Free, true), s, a)
    ensures Inv(Apply(s, a)) && Tidy(Apply(s, a)) && Apply(s, a).db == s.db && Work(Apply(s, a)) < Work(s)
  {
    FreerSteps(m, s, a);
    StepKeepsInv(s, a);
    StepKeepsTidy(s, a);
    StepWorks(s, a);
    OnlyWritesWrite(s, a);
  }

  // ----- nothing gets stuck -----

  /** Only a write can happen, even when reloads of one environment on one replica must wait for each other. */
  ghost predicate Stuck(s: State) {
    forall a :: Enabled(Mode(Serial, false), s, a) ==> IsWrite(a)
  }

  lemma ReloadCanGoOn(s: State, wk: Worker)
    requires WritersMatch(s) && Tidy(s) && wk in s.reloads
    ensures !Stuck(s)
  {
    if Complete(s.reloads[wk]) {
      assert Enabled(Mode(Serial, false), s, Install(wk));
    } else {
      assert Enabled(Mode(Serial, false), s, Query(wk));
    }
  }

  lemma RequestCanGoOn(s: State, op: nat)
    requires WritersMatch(s) && Tidy(s) && op in s.ops && s.ops[op].todo != []
    ensures !Stuck(s)
  {
    var r, env := s.ops[op].replica, s.ops[op].todo[0];
    match s.ops[op].stage
    case Writing => assert Enabled(Mode(Serial, false), s, BeginPropagate(op));
    case ToReload =>
      if Busy(s, r, env) {
        var wk :| wk in s.reloads && s.reloads[wk].replica == r && s.reloads[wk].env == env;
        ReloadCanGoOn(s, wk);
      } else {
        assert Enabled(Mode(Serial, false), s, StartReload(op));
      }
    case Reloading => ReloadCanGoOn(s, Writer(op));
    case ToPublish => assert Enabled(Mode(Serial, false), s, Publish(op));
  }

  lemma QueueCanGoOn(s: State, r: nat)
    requires WritersMatch(s) && Tidy(s) && r < |s.replicas| && s.replicas[r].queue != []
    ensures !Stuck(s)
  {
    var env := s.replicas[r].queue[0].env;
    if Consumer(r) in s.reloads {
      ReloadCanGoOn(s, Consumer(r));
    } else if Busy(s, r, env) {
      var wk :| wk in s.reloads && s.reloads[wk].replica == r && s.reloads[wk].env == env;
      ReloadCanGoOn(s, wk);
    } else {
      assert Enabled(Mode(Serial, false), s, Deliver(r));
    }
  }

  lemma StuckIsSettled(s: State, r: nat, env: string)
    requires WritersMatch(s) && Tidy(s) && Stuck(s) && r < |s.replicas|
    ensures Settled(s, r, env)
  {
    forall wk ensures wk !in s.reloads {
      if wk in s.reloads {
        ReloadCanGoOn(s, wk);
      }
    }
    forall op | op in s.ops ensures !OwedBy(s.ops[op], r, env) {
      if s.ops[op].todo != [] {
        RequestCanGoOn(s, op);
      }
    }
    if s.replicas[r].queue != [] {
      QueueCanGoOn(s, r);
    }
  }

  lemma RunsKeepTidy(m: Mode, s: State, run: seq<Action>, t: State)
    requires Tidy(s) && WritersMatch(s) && Runs(StepsOf(m), s, run, t)
    ensures Tidy(t)
  {
    var inv := (x: State) => Tidy(x) && WritersMatch(x);
    forall x, a, y | inv(x) && StepsOf(m)(x, a, y) ensures inv(y) {
      FreerSteps(m, x, a);
      StepKeepsTidy(x, a);
      StepKeepsWriters(x, a);
    }
    RunsKeep(StepsOf(m), inv, s, run, t);
  }

  /** From any reachable state, with distinct instance ids, every run without further writes has at most Work(s)
      steps, reloads overlapping or not. When it can go no further, every replica has had the final content
      installed wherever no fault was left unrepaired; and it still has it if nothing older is ever installed.
      InOrder says of a run that its installs came in order, it makes no install wait: where such a run ends before a
      reload in progress has installed its older content, nothing is said, since the next step breaks the order. */
  lemma ReplicasConverge(m: Mode, ids: seq<string>, db: Contents, s: State, run: seq<Action>, t: State)
    requires Distinct(ids) && Reachable(m, Init(ids, db), s)
    requires WriteFree(run) && Runs(StepsOf(m), s, run, t)
    ensures |run| <= Work(s) && t.db == s.db
    ensures Stuck(t) ==>
              forall r: nat, c: Cell :: r < |t.replicas| && Place(r, c.env) !in t.missed ==>
                && At(t.replicas[r].newest, c) == At(s.db, c)
                && (m.discipline != Free ==> At(t.replicas[r].cache, c) == At(s.db, c))
  {
    var before :| Runs(StepsOf(m), Init(ids, db), before, s);
    InitIsAccounted(ids, db);
    RunsKeepInv(m, Init(ids, db), before, s);
    RunsKeepTidy(m, Init(ids, db), before, s);
    RunsStayOrderly(m, Init(ids, db), before, s);
    RunsStayOrderly(m, s, run, t);
    WriteFreeRunsAreBounded(m, s, run, t);
    if Stuck(t) {
      forall r: nat, c: Cell | r < |t.replicas| && Place(r, c.env) !in t.missed
        ensures At(t.replicas[r].newest, c) == At(s.db, c)
      {
        StuckIsSettled(t, r, c.env);
        SettledIsNewest(t, r, c);
      }
    }
  }
}
