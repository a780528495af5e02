// Event streams over one replica's cache. Installing a reload, waking the subscribers, a stream taking its
// wakeup, evaluating and sending are separate steps that interleave in any order.
module Streams {
  import opened Models
  import opened Transitions
  import opened Service

  /** A stream is about to evaluate, has evaluated a snapshot it has yet to send, or waits for a wakeup. */
  datatype Phase = MustSend | Evaluated(snapshot: EvalEnv) | Waiting

  /** `sent` is the snapshot of the last event written. */
  datatype Stream = Stream(env: string, phase: Phase, sent: Option<EvalEnv>)

  /** `unnotified` counts reloads that have installed and not yet woken their environment's subscribers. */
  datatype State = State(core: Core, unnotified: multiset<string>, streams: map<SubID, Stream>)

  datatype Action =
    | Install(env: string, content: EvalEnv)
    | Notify(env: string)
    | Open(env: string)
    | Take(id: SubID)
    | Evaluate(id: SubID)
    | Send(id: SubID)
    | Close(id: SubID)

  ghost predicate HasWakeup(s: State, id: SubID) {
    && id in s.streams
    && id in SubsOf(s.core, s.streams[id].env)
    && SubsOf(s.core, s.streams[id].env)[id]
  }

  ghost predicate Enabled(s: State, a: Action) {
    match a
    case Install(_, _) => true
    case Notify(env) => env in s.unnotified
    case Open(_) => true
    case Take(id) => id in s.streams && s.streams[id].phase == Waiting && HasWakeup(s, id)
    case Evaluate(id) => id in s.streams && s.streams[id].phase == MustSend
    case Send(id) => id in s.streams && s.streams[id].phase.Evaluated?
    case Close(id) => id in s.streams
  }

  ghost function Apply(s: State, a: Action): State
    requires Enabled(s, a)
  {
    match a
    case Install(env, content) =>
      s.(core := Installed(s.core, env, content), unnotified := s.unnotified + multiset{env})
    case Notify(env) => s.(core := Notified(s.core, env), unnotified := s.unnotified - multiset{env})
    case Open(env) =>
      s.(core := Subscribed(s.core, env), streams := s.streams[SubID(s.core.nextSubID) := Stream(env, MustSend, None)])
    case Take(id) =>
      s.(core := Taken(s.core, s.streams[id].env, id), streams := s.streams[id := s.streams[id].(phase := MustSend)])
    case Evaluate(id) =>
      s.(streams := s.streams[id := s.streams[id].(phase := Evaluated(Current(s.core, s.streams[id].env)))])
    case Send(id) =>
      s.(streams := s.streams[id := s.streams[id].(phase := Waiting, sent := Some(s.streams[id].phase.snapshot))])
    case Close(id) => s.(core := Cancelled(s.core, s.streams[id].env, id), streams := s.streams - {id})
  }

  ghost predicate Steps(s: State, a: Action, t: State) {
    Enabled(s, a) && t == Apply(s, a)
  }

  /** A replica with this content cached and no stream open. */
  function Start(cache: map<string, EvalEnv>): State {
    State(Core(cache, map[], 0), multiset{}, map[])
  }

  /** The snapshot the stream's client has, or is about to have. */
  ghost function View(st: Stream): Option<EvalEnv> {
    if st.phase.Evaluated? then Some(st.phase.snapshot) else st.sent
  }

  /** Up to date, or certain to send again. */
  ghost predicate Awake(s: State, id: SubID)
    requires id in s.streams
  {
    || View(s.streams[id]) == Some(Current(s.core, s.streams[id].env))
    || HasWakeup(s, id)
    || s.streams[id].env in s.unnotified
    || s.streams[id].phase == MustSend
  }

  ghost predicate Inv(s: State) {
    && (forall id :: id in s.streams ==> id.n < s.core.nextSubID && id in SubsOf(s.core, s.streams[id].env))
    && forall id :: id in s.streams ==> Awake(s, id)
  }

  lemma StaysAwake(s: State, a: Action, id: SubID)
    requires Inv(s) && Enabled(s, a) && id in Apply(s, a).streams
    ensures var t := Apply(s, a);
            id.n < t.core.nextSubID && id in SubsOf(t.core, t.streams[id].env) && Awake(t, id)
  {
    if id in s.streams {
      assert Awake(s, id);
    }
  }

  lemma StepKeepsAwake(s: State, a: Action)
    requires Inv(s) && Enabled(s, a)
    ensures Inv(Apply(s, a))
  {
    forall id | id in Apply(s, a).streams
      ensures id.n < Apply(s, a).core.nextSubID && id in SubsOf(Apply(s, a).core, Apply(s, a).streams[id].env)
      ensures Awake(Apply(s, a), id)
    {
      StaysAwake(s, a, id);
    }
  }

  lemma EveryRunKeepsAwake(s: State, run: seq<Action>, t: State)
    requires Inv(s) && Runs(Steps, s, run, t)
    ensures Inv(t)
  {
    forall x, a, y | Inv(x) && Steps(x, a, y) ensures Inv(y) {
      StepKeepsAwake(x, a);
    }
    RunsKeep(Steps, Inv, s, run, t);
  }

  ghost predicate AtRest(s: State, id: SubID)
    requires id in s.streams
  {
    s.streams[id].phase == Waiting && !HasWakeup(s, id) && s.streams[id].env !in s.unnotified
  }

  /** No wakeup is ever lost: in every run, a stream left waiting with nothing on its way has sent the
      snapshot that is cached. */
  lemma NoLostWakeup(cache: map<string, EvalEnv>, run: seq<Action>, t: State, id: SubID)
    requires Runs(Steps, Start(cache), run, t)
    ensures id in t.streams && AtRest(t, id) ==> t.streams[id].sent == Some(Current(t.core, t.streams[id].env))
  {
    EveryRunKeepsAwake(Start(cache), run, t);
  }

  /** A stream can open at any time, and can then be sent what is installed before anything else happens. */
  lemma NewStreamIsServed(start: State, before: seq<Action>, s: State, env: string)
    returns (run: seq<Action>, t: State, id: SubID)
    requires Runs(Steps, start, before, s)
    ensures Runs(Steps, start, run, t) && id in t.streams
    ensures t.streams[id] == Stream(env, Waiting, Some(Current(s.core, env)))
  {
    id := SubID(s.core.nextSubID);
    var open := Apply(s, Open(env));
    run := GoOn(Steps, start, before, s, Open(env), open);
    var evaluated := Apply(open, Evaluate(id));
    run := GoOn(Steps, start, run, open, Evaluate(id), evaluated);
    t := Apply(evaluated, Send(id));
    run := GoOn(Steps, start, run, evaluated, Send(id), t);
  }

  /** Replacing the cache without waking anyone, as warming up and dropping an environment do, keeps a stream
      at rest up to date exactly when its environment's content does not change. */
  lemma SilentChangeIsNoticedOnlyIfVoid(s: State, cache: map<string, EvalEnv>, id: SubID)
    requires Inv(s) && id in s.streams && AtRest(s, id)
    ensures var t := s.(core := s.core.(cache := cache));
            Awake(t, id) <==> Current(t.core, s.streams[id].env) == Current(s.core, s.streams[id].env)
  {
    assert Awake(s, id);
  }
}
