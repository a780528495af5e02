// The cache protocol and the streams together: once writing stops, every open stream on every replica has sent what
// the database holds.
module ReplicaStreams {
  import opened Lists
  import opened MapSums
  import opened Models
  import opened Transitions
  import opened Service
  import R = Replication
  import Safe = ReplicaSafety
  import Conv = Convergence
  import S = Streams
  import P = StreamProgress

  /** What the flag rows and the segment rows of an environment are indexed to. */
  type Decode = (int, int) -> EvalEnv

  function ContentOf(d: Decode, m: R.Contents, env: string): EvalEnv {
    d(R.At(m, R.Cell(env, R.FlagRows)).value, R.At(m, R.Cell(env, R.SegmentRows)).value)
  }

  /** The replicas of the protocol, and on each of them its streams. */
  datatype State = State(rep: R.State, streams: seq<S.State>)

  datatype Action = Protocol(step: R.Action) | Stream(r: nat, move: S.Action)

  ghost predicate Enabled(m: R.Mode, s: State, x: Action) {
    match x
    case Protocol(a) => R.Enabled(m, s.rep, a) && (a.Install? ==> s.rep.reloads[a.worker].replica < |s.streams|)
    case Stream(r, a) => r < |s.streams| && !a.Install? && S.Enabled(s.streams[r], a)
  }

  function Read(d: Decode, rl: R.Reload): EvalEnv
    requires R.Complete(rl)
  {
    d(rl.got[R.FlagRows].value, rl.got[R.SegmentRows].value)
  }

  /** An install in the protocol is an install on its replica; everything else happens on one side alone. */
  ghost function Apply(d: Decode, s: State, x: Action): State
    requires Enabled(R.Mode(R.Free, true), s, x)
  {
    match x
    case Protocol(a) =>
      var next := s.(rep := R.Apply(s.rep, a));
      if !a.Install? then next
      else
        var rl := s.rep.reloads[a.worker];
        next.(streams := s.streams[rl.replica := S.Apply(s.streams[rl.replica], S.Install(rl.env, Read(d, rl)))])
    case Stream(r, a) => s.(streams := s.streams[r := S.Apply(s.streams[r], a)])
  }

  lemma FreerSteps(m: R.Mode, s: State, x: Action)
    requires Enabled(m, s, x)
    ensures Enabled(R.Mode(R.Free, true), s, x)
  {
    if x.Protocol? {
      Safe.FreerSteps(m, s.rep, x.step);
    }
  }

  ghost predicate Steps(m: R.Mode, d: Decode, s: State, x: Action, t: State) {
    Enabled(m, s, x) && Enabled(R.Mode(R.Free, true), s, x) && t == Apply(d, s, x)
  }

  ghost function StepsOf(m: R.Mode, d: Decode): (State, Action, State) -> bool {
    (s, x, t) => Steps(m, d, s, x, t)
  }

  // ----- the invariant -----

  /** The streams of a replica see what the protocol has cached there. */
  ghost predicate Linked(d: Decode, s: State) {
    && |s.streams| == |s.rep.replicas|
    && forall r, env :: 0 <= r < |s.streams| ==>
         Current(s.streams[r].core, env) == ContentOf(d, s.rep.replicas[r].cache, env)
  }

  ghost predicate AllAwake(s: State) {
    forall r :: 0 <= r < |s.streams| ==> S.Inv(s.streams[r])
  }

  ghost predicate Inv(m: R.Mode, d: Decode, s: State) {
    && R.Inv(s.rep) && Safe.Orderly(m, s.rep) && Conv.Tidy(s.rep)
    && Linked(d, s) && AllAwake(s)
  }

  lemma InstallKeepsLinked(d: Decode, s: State, wk: R.Worker)
    requires Linked(d, s) && Enabled(R.Mode(R.Free, true), s, Protocol(R.Install(wk)))
    ensures Linked(d, Apply(d, s, Protocol(R.Install(wk))))
  {
    var rl, t := s.rep.reloads[wk], Apply(d, s, Protocol(R.Install(wk)));
    var cache := s.rep.replicas[rl.replica].cache;
    forall env ensures Current(t.streams[rl.replica].core, env) == ContentOf(d, R.Installed(cache, rl), env) {
      R.InstalledAt(cache, rl, R.Cell(env, R.FlagRows));
      R.InstalledAt(cache, rl, R.Cell(env, R.SegmentRows));
      assert Current(s.streams[rl.replica].core, env) == ContentOf(d, cache, env);
    }
  }

  /** Only an install changes a cache. */
  lemma OthersKeepCaches(s: R.State, a: R.Action)
    requires R.Enabled(R.Mode(R.Free, true), s, a) && !a.Install?
    ensures |R.Apply(s, a).replicas| == |s.replicas|
    ensures forall r :: 0 <= r < |s.replicas| ==> R.Apply(s, a).replicas[r].cache == s.replicas[r].cache
  {
  }

  /** No step of a stream changes the cache. */
  lemma StreamsKeepCaches(s: S.State, a: S.Action)
    requires S.Enabled(s, a) && !a.Install?
    ensures S.Apply(s, a).core.cache == s.core.cache
  {
  }

  lemma StepKeepsLinked(d: Decode, s: State, x: Action)
    requires Linked(d, s) && Enabled(R.Mode(R.Free, true), s, x)
    ensures Linked(d, Apply(d, s, x))
  {
    match x
    case Protocol(a) =>
      if a.Install? {
        InstallKeepsLinked(d, s, a.worker);
      } else {
        OthersKeepCaches(s.rep, a);
      }
    case Stream(r, a) => StreamsKeepCaches(s.streams[r], a);
  }

  lemma StepKeepsAllAwake(d: Decode, s: State, x: Action)
    requires AllAwake(s) && Enabled(R.Mode(R.Free, true), s, x)
    ensures AllAwake(Apply(d, s, x))
  {
    match x
    case Protocol(a) =>
      if a.Install? {
        var rl := s.rep.reloads[a.worker];
        S.StepKeepsAwake(s.streams[rl.replica], S.Install(rl.env, Read(d, rl)));
      }
    case Stream(r, a) => S.StepKeepsAwake(s.streams[r], a);
  }

  lemma StepKeepsInv(m: R.Mode, d: Decode, s: State, x: Action)
    requires Inv(m, d, s) && Enabled(m, s, x)
    ensures Enabled(R.Mode(R.Free, true), s, x) && Inv(m, d, Apply(d, s, x))
  {
    FreerSteps(m, s, x);
    StepKeepsLinked(d, s, x);
    StepKeepsAllAwake(d, s, x);
    if x.Protocol? {
      Safe.StepKeepsInv(s.rep, x.step);
      Safe.StepStaysOrderly(m, s.rep, x.step);
      Conv.StepKeepsTidy(s.rep, x.step);
    }
  }

  lemma RunsKeepInv(m: R.Mode, d: Decode, s: State, run: seq<Action>, t: State)
    requires Inv(m, d, s) && Runs(StepsOf(m, d), s, run, t)
    ensures Inv(m, d, t)
  {
    forall x, a, y | Inv(m, d, x) && StepsOf(m, d)(x, a, y) ensures Inv(m, d, y) {
      StepKeepsInv(m, d, x, a);
    }
    RunsKeep(StepsOf(m, d), (x: State) => Inv(m, d, x), s, run, t);
  }

  /** Replicas with distinct ids, warmed from the database, and no stream open yet. */
  ghost predicate IsStart(d: Decode, ids: seq<string>, db: R.Contents, s: State) {
    && Distinct(ids) && s.rep == R.Init(ids, db) && |s.streams| == |ids|
    && forall r :: 0 <= r < |ids| ==>
         exists cache :: s.streams[r] == S.Start(cache)
             && forall env :: Current(s.streams[r].core, env) == ContentOf(d, db, env)
  }

  lemma StartIsGood(m: R.Mode, d: Decode, ids: seq<string>, db: R.Contents, s: State)
    requires IsStart(d, ids, db, s)
    ensures Inv(m, d, s)
  {
    Safe.InitIsAccounted(ids, db);
  }

  // ----- what a stream at rest has sent -----

  /** In every run in which nothing older is ever installed: a stream at rest, in an environment to which nothing is on
      its way and from which no fault has kept a reload, has sent what the database holds. */
  lemma StreamAtRestHasTheDatabase(
      m: R.Mode, d: Decode, ids: seq<string>, db: R.Contents, s: State, run: seq<Action>, t: State, r: nat, id: SubID)
    requires m.discipline != R.Free && IsStart(d, ids, db, s) && Runs(StepsOf(m, d), s, run, t)
    requires r < |t.streams| && id in t.streams[r].streams && S.AtRest(t.streams[r], id)
    requires var env := t.streams[r].streams[id].env;
             r < |t.rep.replicas| && R.Settled(t.rep, r, env) && R.Place(r, env) !in t.rep.missed
    ensures var stream := t.streams[r].streams[id]; stream.sent == Some(ContentOf(d, t.rep.db, stream.env))
  {
    StartIsGood(m, d, ids, db, s);
    RunsKeepInv(m, d, s, run, t);
    RestMeansSent(m, d, t, r, id);
  }

  lemma RestMeansSent(m: R.Mode, d: Decode, t: State, r: nat, id: SubID)
    requires m.discipline != R.Free && Inv(m, d, t)
    requires r < |t.streams| && id in t.streams[r].streams && S.AtRest(t.streams[r], id)
    requires var env := t.streams[r].streams[id].env;
             R.Settled(t.rep, r, env) && R.Place(r, env) !in t.rep.missed
    ensures var stream := t.streams[r].streams[id]; stream.sent == Some(ContentOf(d, t.rep.db, stream.env))
  {
    var env := t.streams[r].streams[id].env;
    Safe.SettledIsNewest(t.rep, r, R.Cell(env, R.FlagRows));
    Safe.SettledIsNewest(t.rep, r, R.Cell(env, R.SegmentRows));
    assert S.Awake(t.streams[r], id);
  }

  // ----- and everything comes to rest -----

  /** No write begins or goes on, and no stream opens. */
  ghost predicate Quiet(x: Action) {
    match x
    case Protocol(a) => !Conv.IsWrite(a)
    case Stream(_, a) => !a.Open?
  }

  ghost function StreamWork(streams: seq<S.State>): nat {
    if streams == [] then 0 else P.Work(streams[0]) + StreamWork(streams[1..])
  }

  lemma {:induction false} StreamWorkChange(streams: seq<S.State>, r: nat, next: S.State)
    requires r < |streams|
    ensures StreamWork(streams[r := next]) + P.Work(streams[r]) == StreamWork(streams) + P.Work(next)
  {
    if r == 0 {
      assert streams[0 := next][1..] == streams[1..];
    } else {
      assert streams[r := next][1..] == streams[1..][r - 1 := next];
      StreamWorkChange(streams[1..], r - 1, next);
    }
  }

  /** A notification costs less than `k` on every replica. */
  ghost predicate NotifyWithin(s: State, k: nat) {
    forall r :: 0 <= r < |s.streams| ==> P.NotifyCost(s.streams[r]) < k
  }

  /** Each step of the protocol may bring one notification. */
  ghost function Work(s: State, k: nat): nat {
    Conv.Work(s.rep) * k + StreamWork(s.streams)
  }

  lemma InstallCosts(s: S.State, env: string, content: EvalEnv)
    ensures P.Work(S.Apply(s, S.Install(env, content))) == P.Work(s) + P.NotifyCost(s)
    ensures P.NotifyCost(S.Apply(s, S.Install(env, content))) == P.NotifyCost(s)
  {
    var t := S.Apply(s, S.Install(env, content));
    assert P.Costs(t) == P.Costs(s);
    assert |t.unnotified| == |s.unnotified| + 1;
    OneTimeMore(P.NotifyCost(s), |s.unnotified|);
  }

  lemma LessByOne(u: nat, u': nat, k: nat)
    requires u' < u
    ensures u' * k + k <= u * k
  {
    OneTimeMore(k, u - 1);
    if u' < u - 1 {
      LessByOne(u - 1, u', k);
    }
  }

  lemma SettlingStepCosts(s: S.State, a: S.Action)
    requires S.Enabled(s, a) && P.Settling(a)
    ensures P.Work(S.Apply(s, a)) < P.Work(s) && P.NotifyCost(S.Apply(s, a)) <= P.NotifyCost(s)
  {
    P.StepWorks(s, a);
    var t := S.Apply(s, a);
    assert t.streams.Keys <= s.streams.Keys;
    assert |t.streams| <= |s.streams| by {
      assert s.streams.Keys == t.streams.Keys + (s.streams.Keys - t.streams.Keys);
      assert |t.streams| == |t.streams.Keys| && |s.streams| == |s.streams.Keys|;
    }
  }

  lemma QuietStep(m: R.Mode, d: Decode, s: State, x: Action, k: nat)
    requires Inv(m, d, s) && NotifyWithin(s, k) && k > 0 && Quiet(x) && Enabled(m, s, x)
    ensures Enabled(R.Mode(R.Free, true), s, x)
    ensures var t := Apply(d, s, x); NotifyWithin(t, k) && Work(t, k) < Work(s, k) && t.rep.db == s.rep.db
  {
    FreerSteps(m, s, x);
    match x
    case Protocol(a) => ProtocolStepWorks(d, s, a, k);
    case Stream(r, a) =>
      SettlingStepCosts(s.streams[r], a);
      StreamWorkChange(s.streams, r, S.Apply(s.streams[r], a));
  }

  lemma ProtocolStepWorks(d: Decode, s: State, a: R.Action, k: nat)
    requires Enabled(R.Mode(R.Free, true), s, Protocol(a)) && R.Enabled(R.Mode(R.Free, true), s.rep, a)
    requires R.Inv(s.rep) && Conv.Tidy(s.rep) && NotifyWithin(s, k) && k > 0 && !Conv.IsWrite(a)
    ensures var t := Apply(d, s, Protocol(a)); NotifyWithin(t, k) && Work(t, k) < Work(s, k) && t.rep.db == s.rep.db
  {
    Conv.QuietStep(R.Mode(R.Free, true), s.rep, a);
    LessByOne(Conv.Work(s.rep), Conv.Work(R.Apply(s.rep, a)), k);
    if a.Install? {
      var rl := s.rep.reloads[a.worker];
      var was, next := s.streams[rl.replica], S.Apply(s.streams[rl.replica], S.Install(rl.env, Read(d, rl)));
      InstallCosts(was, rl.env, Read(d, rl));
      StreamWorkChange(s.streams, rl.replica, next);
    }
  }

  /** Nothing can happen but a write, a stream opening or a client leaving, even when reloads have to wait for each
      other. */
  ghost predicate Idle(s: State) {
    Conv.Stuck(s.rep) && forall r :: 0 <= r < |s.streams| ==> P.Idle(s.streams[r])
  }

  lemma IdleMeansSent(m: R.Mode, d: Decode, t: State, r: nat, id: SubID)
    requires m.discipline != R.Free && Inv(m, d, t) && Idle(t)
    requires r < |t.streams| && id in t.streams[r].streams && R.Place(r, t.streams[r].streams[id].env) !in t.rep.missed
    ensures var stream := t.streams[r].streams[id]; stream.sent == Some(ContentOf(d, t.rep.db, stream.env))
  {
    Conv.StuckIsSettled(t.rep, r, t.streams[r].streams[id].env);
    P.IdleIsAtRest(t.streams[r], id);
    RestMeansSent(m, d, t, r, id);
  }

  ghost predicate IsOpen(t: State, r: nat, id: SubID) {
    r < |t.streams| && id in t.streams[r].streams
  }

  /** From any reachable state: once writing stops and no stream opens, every schedule of whatever replicas and streams
      still do ends within a bound; and where it ends, every open stream on every replica has sent what the writes left
      in the database, unless a fault has kept its environment from reloading there. */
  lemma EveryStreamGetsTheDatabase(
      m: R.Mode, d: Decode, ids: seq<string>, db: R.Contents, start: State, before: seq<Action>, s: State,
      run: seq<Action>, t: State, k: nat)
    requires IsStart(d, ids, db, start) && Runs(StepsOf(m, d), start, before, s)
    requires Runs(StepsOf(m, d), s, run, t) && (forall x :: x in run ==> Quiet(x)) && NotifyWithin(s, k) && k > 0
    ensures |run| <= Work(s, k) && t.rep.db == s.rep.db
    ensures m.discipline != R.Free && Idle(t) ==>
              forall r: nat, id :: IsOpen(t, r, id) && R.Place(r, t.streams[r].streams[id].env) !in t.rep.missed ==>
                t.streams[r].streams[id].sent == Some(ContentOf(d, s.rep.db, t.streams[r].streams[id].env))
  {
    StartIsGood(m, d, ids, db, start);
    RunsKeepInv(m, d, start, before, s);
    QuietRuns(m, d, s, run, t, k);
    if m.discipline != R.Free && Idle(t) {
      forall r: nat, id | IsOpen(t, r, id) && R.Place(r, t.streams[r].streams[id].env) !in t.rep.missed
        ensures t.streams[r].streams[id].sent == Some(ContentOf(d, s.rep.db, t.streams[r].streams[id].env))
      {
        IdleMeansSent(m, d, t, r, id);
      }
    }
  }

  lemma QuietRuns(m: R.Mode, d: Decode, s: State, run: seq<Action>, t: State, k: nat)
    requires Inv(m, d, s) && NotifyWithin(s, k) && k > 0
    requires Runs(StepsOf(m, d), s, run, t) && forall x :: x in run ==> Quiet(x)
    ensures |run| + Work(t, k) <= Work(s, k) && Inv(m, d, t) && t.rep.db == s.rep.db
  {
    var inv := (x: State) => Inv(m, d, x) && NotifyWithin(x, k) && x.rep.db == s.rep.db;
    var work := (x: State) => Work(x, k);
    forall x, a, y | inv(x) && Quiet(a) && StepsOf(m, d)(x, a, y) ensures inv(y) && work(y) < work(x) {
      StepKeepsInv(m, d, x, a);
      QuietStep(m, d, x, a, k);
    }
    QuietRunsAreBounded(StepsOf(m, d), inv, Quiet, work, s, run, t);
  }
}
