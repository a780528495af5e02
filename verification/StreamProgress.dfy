// Streams do catch up: once no reload installs and no stream opens, every schedule of the remaining steps is
// finite, and when nothing is left to do every stream has sent what is installed.
module StreamProgress {
  import opened Models
  import opened Transitions
  import opened MapSums
  import opened Service
  import opened Streams

  /** What a stream may still do by itself: close, take its wakeup, evaluate and send. */
  ghost function Cost(s: State, id: SubID): nat
    requires id in s.streams
  {
    1 + (if s.streams[id].phase == MustSend then 2 else if s.streams[id].phase.Evaluated? then 1 else 0)
      + (if HasWakeup(s, id) then 3 else 0)
  }

  ghost function Costs(s: State): map<SubID, nat> {
    map id | id in s.streams :: Cost(s, id)
  }

  /** One notification may wake every stream. */
  ghost function NotifyCost(s: State): nat {
    3 * |s.streams| + 1
  }

  ghost function Work(s: State): nat {
    |s.unnotified| * NotifyCost(s) + Sum(Costs(s))
  }

  /** No reload installs and no stream opens. */
  ghost predicate Settling(a: Action) {
    !a.Install? && !a.Open?
  }

  lemma StreamStepWorks(s: State, a: Action, id: SubID)
    requires (a == Take(id) || a == Evaluate(id) || a == Send(id)) && Enabled(s, a)
    ensures Work(Apply(s, a)) < Work(s)
  {
    var t := Apply(s, a);
    assert t.streams.Keys == s.streams.Keys;
    assert |t.streams| == |t.streams.Keys| == |s.streams|;
    forall other | other in s.streams && other != id ensures Cost(t, other) == Cost(s, other) {
    }
    assert Costs(t) == Costs(s)[id := Cost(t, id)];
    SumAfterSet(Costs(s), id, Cost(t, id));
    LessWork(s, t);
  }

  lemma ClosingTakesItsCost(s: State, id: SubID)
    requires Enabled(s, Close(id))
    ensures Sum(Costs(Apply(s, Close(id)))) + Cost(s, id) == Sum(Costs(s))
  {
    var t := Apply(s, Close(id));
    forall other | other in t.streams ensures Cost(t, other) == Cost(s, other) {
    }
    assert Costs(t) == Costs(s) - {id};
    SumWithout(Costs(s), id);
  }

  lemma CloseWorks(s: State, id: SubID)
    requires Enabled(s, Close(id))
    ensures Work(Apply(s, Close(id))) < Work(s)
  {
    var t := Apply(s, Close(id));
    assert |t.streams| <= |s.streams| by {
      assert t.streams.Keys == s.streams.Keys - {id} && |t.streams| == |t.streams.Keys|;
    }
    assert Cost(s, id) > 0;
    ClosingTakesItsCost(s, id);
    LessWork(s, t);
  }

  lemma LessWork(s: State, t: State)
    requires t.unnotified == s.unnotified && |t.streams| <= |s.streams| && Sum(Costs(t)) < Sum(Costs(s))
    ensures Work(t) < Work(s)
  {
    TimesGrows(|s.unnotified|, NotifyCost(t), NotifyCost(s));
  }

  lemma TimesGrows(u: nat, a: nat, b: nat)
    requires a <= b
    ensures u * a <= u * b
  {
  }

  lemma OneLess(u: nat, c: nat)
    requires u > 0
    ensures u * c == (u - 1) * c + c
  {
  }

  lemma NotifyingCostsAtMost(s: State, env: string)
    requires Enabled(s, Notify(env))
    ensures Sum(Costs(Apply(s, Notify(env)))) <= Sum(Costs(s)) + 3 * |s.streams|
  {
    assert Costs(s).Keys == s.streams.Keys && |Costs(s)| == |Costs(s).Keys| == |s.streams.Keys|;
    SumGrowsAtMost(Costs(s), Costs(Apply(s, Notify(env))), 3);
  }

  lemma NotifyWorks(s: State, env: string)
    requires Enabled(s, Notify(env))
    ensures Work(Apply(s, Notify(env))) < Work(s)
  {
    NotifyingCostsAtMost(s, env);
    OneLess(|s.unnotified|, NotifyCost(s));
  }

  /** Every step but installing and opening leaves less work, and the cache alone. */
  lemma StepWorks(s: State, a: Action)
    requires Enabled(s, a) && Settling(a)
    ensures Work(Apply(s, a)) < Work(s) && Apply(s, a).core.cache == s.core.cache
  {
    match a
    case Notify(env) => NotifyWorks(s, env);
    case Take(id) => StreamStepWorks(s, a, id);
    case Evaluate(id) => StreamStepWorks(s, a, id);
    case Send(id) => StreamStepWorks(s, a, id);
    case Close(id) => CloseWorks(s, id);
  }

  lemma SettlingRunsAreBounded(s: State, run: seq<Action>, t: State)
    requires Runs(Steps, s, run, t) && forall a :: a in run ==> Settling(a)
    ensures |run| + Work(t) <= Work(s) && t.core.cache == s.core.cache
  {
    var same := (x: State) => x.core.cache == s.core.cache;
    forall x, a, y | same(x) && Settling(a) && Steps(x, a, y) ensures same(y) && Work(y) < Work(x) {
      StepWorks(x, a);
    }
    QuietRunsAreBounded(Steps, same, Settling, Work, s, run, t);
  }

  /** Nothing can happen but a new reload, a new stream or a client leaving. */
  ghost predicate Idle(s: State) {
    forall a :: Enabled(s, a) ==> a.Install? || a.Open? || a.Close?
  }

  lemma IdleIsAtRest(s: State, id: SubID)
    requires Idle(s) && id in s.streams
    ensures AtRest(s, id)
  {
    assert !Enabled(s, Notify(s.streams[id].env));
    assert !Enabled(s, Take(id));
    assert !Enabled(s, Evaluate(id));
    assert !Enabled(s, Send(id));
  }

  /** From any reachable state, every run without new reloads and streams ends within a bound, and where it ends
      every stream still open has sent the content that is installed. */
  lemma StreamsCatchUp(cache: map<string, EvalEnv>, before: seq<Action>, s: State, run: seq<Action>, t: State)
    requires Runs(Steps, Start(cache), before, s)
    requires Runs(Steps, s, run, t) && forall a :: a in run ==> Settling(a)
    ensures |run| <= Work(s) && t.core.cache == s.core.cache
    ensures Idle(t) ==> forall id :: id in t.streams ==> t.streams[id].sent == Some(Current(s.core, t.streams[id].env))
  {
    EveryRunKeepsAwake(Start(cache), before, s);
    EveryRunKeepsAwake(s, run, t);
    SettlingRunsAreBounded(s, run, t);
    if Idle(t) {
      forall id | id in t.streams ensures t.streams[id].sent == Some(Current(s.core, t.streams[id].env)) {
        IdleIsAtRest(t, id);
        assert Awake(t, id);
      }
    }
  }
}
