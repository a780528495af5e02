// The cross-replica cache protocol. A write changes the database, then the writing replica reloads each
// affected environment and broadcasts it; every other replica reloads on receiving the broadcast. A reload
// is two queries and an install, and any other step may come between them; reloads of one environment on one
// replica may overlap and install in any order; with faults, a reload or a broadcast may come to nothing, and
// a request may end after writing, before it propagates anything.
module Replication {
  import opened Transitions

  /** An environment's content comes from two queries. */
  datatype Part = FlagRows | SegmentRows

  datatype Cell = Cell(env: string, part: Part)

  /** Content is an opaque number; the stamp counts the writes it is the result of. */
  datatype Stamped = Stamped(value: int, stamp: nat)

  /** What a table or a cache holds, cell by cell; nothing was ever written where nothing is stored. */
  type Contents = map<Cell, Stamped>

  function At(m: Contents, c: Cell): Stamped {
    if c in m then m[c] else Stamped(0, 0)
  }

  datatype Event = Event(env: string, origin: string)

  /** `newest` is a record: of all content ever installed here, the one that results from most writes. */
  datatype Replica = Replica(id: string, cache: Contents, newest: Contents, queue: seq<Event>)

  /** A writer still writing, about to reload, reloading, or about to publish the first environment of its list. */
  datatype Stage = Writing | ToReload | Reloading | ToPublish

  datatype Op = Op(replica: nat, todo: seq<string>, stage: Stage)

  /** Who reloads: the request that wrote, or the replica's event consumer. */
  datatype Worker = Writer(op: nat) | Consumer(replica: nat)

  /** A reload in progress: what its queries have returned so far. */
  datatype Reload = Reload(replica: nat, env: string, got: map<Part, Stamped>)

  /** A replica and an environment. */
  datatype Place = Place(replica: nat, env: string)

  /** `missed` records the places that a fault has kept from reloading and that have not started to reload since. */
  datatype State = State(
    db: Contents, replicas: seq<Replica>, ops: map<nat, Op>, reloads: map<Worker, Reload>, missed: set<Place>)

  datatype Action =
    | BeginWrite(op: nat, replica: nat, envs: seq<string>)
    | Write(op: nat, cell: Cell, value: int)
    | BeginPropagate(op: nat)
    | StartReload(op: nat)
    | Query(worker: Worker)
    | Install(worker: Worker)
    | Publish(op: nat)
    | Deliver(replica: nat)
    | FailReload(worker: Worker)
    | FailPublish(op: nat)
    | Abandon(op: nat)

  /** What is known of the runs: nothing; that no install brings content older than what is cached; or that reloads
      of one environment on one replica do not overlap. The code ensures neither. */
  datatype Discipline = Free | InOrder | Serial

  datatype Mode = Mode(discipline: Discipline, faults: bool)

  /** All replicas up and warmed from the database. */
  function Init(ids: seq<string>, db: Contents): State {
    State(db, seq(|ids|, i requires 0 <= i < |ids| => Replica(ids[i], db, db, [])), map[], map[], {})
  }

  ghost predicate Busy(s: State, r: nat, env: string) {
    exists wk :: wk in s.reloads && s.reloads[wk].replica == r && s.reloads[wk].env == env
  }

  predicate OpIn(s: State, op: nat, stage: Stage) {
    op in s.ops && s.ops[op].stage == stage && s.ops[op].todo != [] && s.ops[op].replica < |s.replicas|
  }

  predicate Complete(rl: Reload) {
    FlagRows in rl.got && SegmentRows in rl.got
  }

  /** The reload has read nothing older than what is cached. */
  predicate NotOlder(rl: Reload, cache: Contents) {
    forall part | part in rl.got :: rl.got[part].stamp >= At(cache, Cell(rl.env, part)).stamp
  }

  predicate Foreign(rep: Replica) {
    rep.queue != [] && rep.queue[0].origin != rep.id
  }

  /** When a step can happen. */
  ghost predicate Enabled(m: Mode, s: State, a: Action) {
    match a
    case BeginWrite(op, r, envs) => op !in s.ops && r < |s.replicas|
    case Write(op, cell, _) => OpIn(s, op, Writing) && cell.env in s.ops[op].todo
    case BeginPropagate(op) => OpIn(s, op, Writing)
    case StartReload(op) =>
      OpIn(s, op, ToReload) && (m.discipline == Serial ==> !Busy(s, s.ops[op].replica, s.ops[op].todo[0]))
    case Query(wk) => wk in s.reloads && !Complete(s.reloads[wk])
    case Install(wk) =>
      && wk in s.reloads && Complete(s.reloads[wk]) && s.reloads[wk].replica < |s.replicas|
      && (wk.Writer? ==> OpIn(s, wk.op, Reloading))
      && (m.discipline == InOrder ==> NotOlder(s.reloads[wk], s.replicas[s.reloads[wk].replica].cache))
    case Publish(op) => OpIn(s, op, ToPublish)
    case Deliver(r) =>
      && r < |s.replicas| && s.replicas[r].queue != [] && Consumer(r) !in s.reloads
      && (m.discipline == Serial && Foreign(s.replicas[r]) ==> !Busy(s, r, s.replicas[r].queue[0].env))
    case FailReload(wk) => m.faults && wk in s.reloads && (wk.Writer? ==> OpIn(s, wk.op, Reloading))
    case FailPublish(op) => m.faults && OpIn(s, op, ToPublish)
    case Abandon(op) => m.faults && OpIn(s, op, Writing)
  }

  function Installed(cache: Contents, rl: Reload): Contents
    requires Complete(rl)
  {
    cache[Cell(rl.env, FlagRows) := rl.got[FlagRows]][Cell(rl.env, SegmentRows) := rl.got[SegmentRows]]
  }

  function Newer(a: Stamped, b: Stamped): Stamped {
    if b.stamp >= a.stamp then b else a
  }

  function Renewed(newest: Contents, rl: Reload): Contents
    requires Complete(rl)
  {
    newest[Cell(rl.env, FlagRows) := Newer(At(newest, Cell(rl.env, FlagRows)), rl.got[FlagRows])]
          [Cell(rl.env, SegmentRows) := Newer(At(newest, Cell(rl.env, SegmentRows)), rl.got[SegmentRows])]
  }

  lemma InstalledAt(cache: Contents, rl: Reload, c: Cell)
    requires Complete(rl)
    ensures c.part in rl.got
    ensures At(Installed(cache, rl), c) == if c.env == rl.env then rl.got[c.part] else At(cache, c)
  {
    assert c.part == FlagRows || c.part == SegmentRows;
  }

  lemma RenewedAt(newest: Contents, rl: Reload, c: Cell)
    requires Complete(rl)
    ensures c.part in rl.got
    ensures At(Renewed(newest, rl), c)
              == if c.env == rl.env then Newer(At(newest, c), rl.got[c.part]) else At(newest, c)
  {
    assert c.part == FlagRows || c.part == SegmentRows;
  }

  /** The next environment of the request's list, after the first has been published or has failed to be. */
  function NextEnv(op: Op): Op
    requires op.todo != []
  {
    op.(todo := op.todo[1..], stage := ToReload)
  }

  /** A request whose reload has ended, one way or the other, goes on to publish. */
  function ReloadEnded(s: State, wk: Worker): State {
    var next := s.(reloads := s.reloads - {wk});
    if wk.Writer? && wk.op in s.ops then next.(ops := s.ops[wk.op := s.ops[wk.op].(stage := ToPublish)]) else next
  }

  /** What a step does. */
  ghost function Apply(s: State, a: Action): State
    requires Enabled(Mode(Free, true), s, a)
  {
    match a
    case BeginWrite(op, r, envs) => s.(ops := s.ops[op := Op(r, envs, Writing)])
    case Write(_, cell, value) => s.(db := s.db[cell := Stamped(value, At(s.db, cell).stamp + 1)])
    case BeginPropagate(op) => s.(ops := s.ops[op := s.ops[op].(stage := ToReload)])
    case StartReload(op) =>
      s.(ops := s.ops[op := s.ops[op].(stage := Reloading)],
         reloads := s.reloads[Writer(op) := Reload(s.ops[op].replica, s.ops[op].todo[0], map[])],
         missed := s.missed - {Place(s.ops[op].replica, s.ops[op].todo[0])})
    case Query(wk) =>
      var rl := s.reloads[wk];
      var part := if FlagRows in rl.got then SegmentRows else FlagRows;
      s.(reloads := s.reloads[wk := rl.(got := rl.got[part := At(s.db, Cell(rl.env, part))])])
    case Install(wk) =>
      var rl := s.reloads[wk];
      var rep := s.replicas[rl.replica];
      var after := rep.(cache := Installed(rep.cache, rl), newest := Renewed(rep.newest, rl));
      ReloadEnded(s, wk).(replicas := s.replicas[rl.replica := after])
    case Publish(op) =>
      var event := Event(s.ops[op].todo[0], s.replicas[s.ops[op].replica].id);
      s.(replicas := seq(|s.replicas|,
          i requires 0 <= i < |s.replicas| => s.replicas[i].(queue := s.replicas[i].queue + [event])),
         ops := s.ops[op := NextEnv(s.ops[op])])
    case Deliver(r) =>
      var rep := s.replicas[r];
      var env := rep.queue[0].env;
      var next := s.(replicas := s.replicas[r := rep.(queue := rep.queue[1..])]);
      if !Foreign(rep) then next
      else next.(reloads := s.reloads[Consumer(r) := Reload(r, env, map[])], missed := s.missed - {Place(r, env)})
    case FailReload(wk) =>
      ReloadEnded(s, wk).(missed := s.missed + {Place(s.reloads[wk].replica, s.reloads[wk].env)})
    case FailPublish(op) =>
      s.(ops := s.ops[op := NextEnv(s.ops[op])],
         missed := s.missed + set r | 0 <= r < |s.replicas| && r != s.ops[op].replica :: Place(r, s.ops[op].todo[0]))
    case Abandon(op) =>
      s.(ops := s.ops[op := s.ops[op].(todo := [])],
         missed := s.missed + set r, env | 0 <= r < |s.replicas| && env in s.ops[op].todo :: Place(r, env))
  }

  ghost predicate Steps(m: Mode, s: State, a: Action, t: State) {
    Enabled(m, s, a) && t == Apply(s, a)
  }

  ghost function StepsOf(m: Mode): (State, Action, State) -> bool {
    (s, a, t) => Steps(m, s, a, t)
  }

  ghost predicate Reachable(m: Mode, s: State, t: State) {
    exists run :: Runs(StepsOf(m), s, run, t)
  }

  // ----- what is still on its way -----

  ghost predicate ForeignQueued(s: State, r: nat, env: string)
    requires r < |s.replicas|
  {
    exists ev :: ev in s.replicas[r].queue && ev.env == env && ev.origin != s.replicas[r].id
  }

  ghost function ReloadsDue(op: Op): seq<string> {
    if op.stage == Writing || op.stage == ToReload || op.todo == [] then op.todo else op.todo[1..]
  }

  /** An unfinished request still has to reload the environment here, or to publish it from elsewhere. */
  ghost predicate OwedBy(op: Op, r: nat, env: string) {
    if op.replica == r then env in ReloadsDue(op) else env in op.todo
  }

  ghost predicate Owed(s: State, r: nat, env: string)
    requires r < |s.replicas|
  {
    ForeignQueued(s, r, env) || exists op :: op in s.ops && OwedBy(s.ops[op], r, env)
  }

  /** A reload in progress that has read, or will read, the current content of the cell. */
  ghost predicate Covers(s: State, wk: Worker, r: nat, c: Cell)
  {
    && wk in s.reloads && s.reloads[wk].replica == r && s.reloads[wk].env == c.env
    && (c.part in s.reloads[wk].got ==> s.reloads[wk].got[c.part] == At(s.db, c))
  }

  /** The cell's current content has been installed here at some time, or something on its way will install it,
      or a fault has kept it away. */
  ghost predicate Accounted(s: State, r: nat, c: Cell)
    requires r < |s.replicas|
  {
    || Owed(s, r, c.env)
    || (exists wk :: Covers(s, wk, r, c))
    || At(s.replicas[r].newest, c) == At(s.db, c)
    || Place(r, c.env) in s.missed
  }

  ghost predicate DistinctIds(replicas: seq<Replica>) {
    forall i, j :: 0 <= i < j < |replicas| ==> replicas[i].id != replicas[j].id
  }

  ghost predicate WritersMatch(s: State) {
    forall op :: Writer(op) in s.reloads ==>
      && op in s.ops && s.ops[op].stage == Reloading && s.ops[op].todo != []
      && s.reloads[Writer(op)].env == s.ops[op].todo[0] && s.reloads[Writer(op)].replica == s.ops[op].replica
  }

  /** The content results from no more writes than the cell has had; if from as many, it is the cell's. */
  ghost predicate NotAhead(db: Contents, c: Cell, x: Stamped) {
    x.stamp <= At(db, c).stamp && (x.stamp == At(db, c).stamp ==> x == At(db, c))
  }

  ghost predicate NothingAhead(s: State) {
    && (forall r, c :: 0 <= r < |s.replicas| ==> NotAhead(s.db, c, At(s.replicas[r].newest, c)))
    && (forall r, c :: 0 <= r < |s.replicas| ==> At(s.replicas[r].cache, c).stamp <= At(s.replicas[r].newest, c).stamp)
    && (forall wk, part :: wk in s.reloads && part in s.reloads[wk].got ==>
          NotAhead(s.db, Cell(s.reloads[wk].env, part), s.reloads[wk].got[part]))
  }

  ghost predicate Sane(s: State) {
    DistinctIds(s.replicas) && WritersMatch(s) && NothingAhead(s)
  }

  ghost predicate Inv(s: State) {
    && Sane(s)
    && forall r: nat, c: Cell :: r < |s.replicas| ==> Accounted(s, r, c)
  }

  /** Nothing is on its way to the environment on this replica. */
  ghost predicate Settled(s: State, r: nat, env: string)
    requires r < |s.replicas|
  {
    !Owed(s, r, env) && !Busy(s, r, env)
  }
}
