// The flag service on one replica: the cached environments, and the streams woken when one reloads.
module Service {
  import opened Models
  import opened Evaluation
  import opened TargetingMeaning
  import Seg = Segments

  /** A subscriber, numbered in order of arrival. */
  datatype SubID = SubID(n: int)

  /** Per subscriber, whether a wakeup is waiting in its channel, which holds at most one. */
  type Wakeups = map<SubID, bool>

  /** What the replica's two locks protect. */
  datatype Core = Core(cache: map<string, EvalEnv>, subs: map<string, Wakeups>, nextSubID: int)

  function Current(c: Core, env: string): EvalEnv {
    if env in c.cache then c.cache[env] else EvalEnv(map[], map[])
  }

  function SubsOf(c: Core, env: string): Wakeups {
    if env in c.subs then c.subs[env] else map[]
  }

  function Installed(c: Core, env: string, content: EvalEnv): Core {
    c.(cache := c.cache[env := content])
  }

  /** Every subscriber of the environment has a wakeup waiting. */
  function Notified(c: Core, env: string): Core {
    if env !in c.subs then c else c.(subs := c.subs[env := map id | id in c.subs[env] :: true])
  }

  function Subscribed(c: Core, env: string): Core {
    c.(subs := c.subs[env := SubsOf(c, env)[SubID(c.nextSubID) := false]], nextSubID := c.nextSubID + 1)
  }

  /** The subscriber is gone; an environment without subscribers is forgotten. */
  function Cancelled(c: Core, env: string, id: SubID): Core {
    var rest := SubsOf(c, env) - {id};
    c.(subs := if rest == map[] then c.subs - {env} else c.subs[env := rest])
  }

  function Taken(c: Core, env: string, id: SubID): Core
    requires env in c.subs
  {
    c.(subs := c.subs[env := c.subs[env][id := false]])
  }

  // ----- what these do, subscriber by subscriber -----

  /** Whether a wakeup waits for the subscriber, if there is one of that number in the environment. */
  ghost function WakeupOf(c: Core, env: string, id: SubID): Option<bool> {
    if env in c.subs && id in c.subs[env] then Some(c.subs[env][id]) else None
  }

  ghost predicate SameSubscribersBut(c: Core, d: Core, env: string, id: SubID) {
    forall e, i :: e != env || i != id ==> WakeupOf(d, e, i) == WakeupOf(c, e, i)
  }

  /** Subscribing adds one subscriber, with an empty channel, under a number that is not given out again. */
  lemma SubscribingMeans(c: Core, env: string)
    ensures var d, id := Subscribed(c, env), SubID(c.nextSubID);
            && WakeupOf(d, env, id) == Some(false) && SameSubscribersBut(c, d, env, id)
            && d.nextSubID == c.nextSubID + 1 && d.cache == c.cache
  {
  }

  /** Cancelling removes one, and an environment whose last one it was. */
  lemma CancellingMeans(c: Core, env: string, id: SubID)
    ensures var d := Cancelled(c, env, id);
            && WakeupOf(d, env, id) == None && SameSubscribersBut(c, d, env, id)
            && (env in d.subs <==> exists i :: i != id && WakeupOf(c, env, i).Some?)
            && d.nextSubID == c.nextSubID && d.cache == c.cache
  {
    var rest := SubsOf(c, env) - {id};
    forall i | i != id ensures i in rest <==> WakeupOf(c, env, i).Some? {
    }
    if rest != map[] {
      var i :| i in rest;
      assert i != id && WakeupOf(c, env, i).Some?;
    }
  }

  /** Everyone in the environment has a wakeup waiting, and no one else has one more or less. */
  ghost predicate AllWoken(c: Core, d: Core, env: string) {
    forall e, i :: WakeupOf(d, e, i) == if e == env && WakeupOf(c, e, i).Some? then Some(true) else WakeupOf(c, e, i)
  }

  /** Notifying leaves a wakeup for everyone in the environment, and taking one leaves none. */
  lemma WakingMeans(c: Core, env: string, id: SubID)
    ensures AllWoken(c, Notified(c, env), env)
    ensures env in c.subs ==>
              WakeupOf(Taken(c, env, id), env, id) == Some(false) && SameSubscribersBut(c, Taken(c, env, id), env, id)
  {
  }

  datatype EventKind = EnvironmentChanged | EnvironmentRemoved

  datatype Broadcast = Broadcast(kind: EventKind, env: string, origin: string)

  ghost predicate LastFlagRow(rows: seq<EvalFlag>, k: string, i: nat) {
    i < |rows| && rows[i].key == k && forall j :: i < j < |rows| ==> rows[j].key != k
  }

  ghost predicate LastSegmentRow(rows: seq<Segment>, k: string, i: nat) {
    i < |rows| && rows[i].key == k && forall j :: i < j < |rows| ==> rows[j].key != k
  }

  /** Each row under its key; of two rows with one key the later stays. */
  ghost predicate FlagsIndexed(flags: map<string, EvalFlag>, rows: seq<EvalFlag>) {
    && (forall i :: 0 <= i < |rows| ==> rows[i].key in flags)
    && (forall k :: k in flags ==> exists i: nat :: LastFlagRow(rows, k, i) && flags[k] == rows[i])
  }

  ghost predicate SegmentsIndexed(segments: map<string, Segment>, rows: seq<Segment>) {
    && (forall i :: 0 <= i < |rows| ==> rows[i].key in segments)
    && (forall k :: k in segments ==> exists i: nat :: LastSegmentRow(rows, k, i) && segments[k] == rows[i])
  }

  /** The rows of one reload, each under its key. */
  ghost predicate Indexes(content: EvalEnv, flagRows: seq<EvalFlag>, segRows: seq<Segment>) {
    FlagsIndexed(content.flags, flagRows) && SegmentsIndexed(content.segments, segRows)
  }

  /** There is only one way to index the rows of a reload, and it puts everything under its own key. */
  lemma IndexIsUnique(a: EvalEnv, b: EvalEnv, flagRows: seq<EvalFlag>, segRows: seq<Segment>)
    requires Indexes(a, flagRows, segRows)
    ensures WellKeyed(a)
    ensures Indexes(b, flagRows, segRows) ==> a == b
  {
    if Indexes(b, flagRows, segRows) {
    }
  }

  /** One more row takes its key, whatever was there. */
  lemma IndexOneMore(content: EvalEnv, flagRows: seq<EvalFlag>, segRows: seq<Segment>, ef: EvalFlag, seg: Segment)
    requires Indexes(content, flagRows, segRows)
    ensures Indexes(EvalEnv(content.flags[ef.key := ef], content.segments), flagRows + [ef], segRows)
    ensures Indexes(EvalEnv(content.flags, content.segments[seg.key := seg]), flagRows, segRows + [seg])
    ensures Indexes(EvalEnv(map[], map[]), [], [])
  {
    FlagsOneMore(content.flags, flagRows, ef);
    SegmentsOneMore(content.segments, segRows, seg);
  }

  lemma FlagsOneMore(flags: map<string, EvalFlag>, rows: seq<EvalFlag>, ef: EvalFlag)
    requires FlagsIndexed(flags, rows)
    ensures FlagsIndexed(flags[ef.key := ef], rows + [ef])
  {
    assert LastFlagRow(rows + [ef], ef.key, |rows|);
    forall k | k in flags && k != ef.key
      ensures exists i: nat :: LastFlagRow(rows + [ef], k, i) && flags[k] == (rows + [ef])[i]
    {
      var i: nat :| LastFlagRow(rows, k, i) && flags[k] == rows[i];
      assert LastFlagRow(rows + [ef], k, i);
    }
  }

  lemma SegmentsOneMore(segments: map<string, Segment>, rows: seq<Segment>, seg: Segment)
    requires SegmentsIndexed(segments, rows)
    ensures SegmentsIndexed(segments[seg.key := seg], rows + [seg])
  {
    assert LastSegmentRow(rows + [seg], seg.key, |rows|);
    forall k | k in segments && k != seg.key
      ensures exists i: nat :: LastSegmentRow(rows + [seg], k, i) && segments[k] == (rows + [seg])[i]
    {
      var i: nat :| LastSegmentRow(rows, k, i) && segments[k] == rows[i];
      assert LastSegmentRow(rows + [seg], k, i);
    }
  }

  method IndexFlags(rows: seq<EvalFlag>) returns (flags: map<string, EvalFlag>)
    ensures FlagsIndexed(flags, rows)
  {
    flags := map[];
    ghost var at: map<string, nat> := map[];
    for n := 0 to |rows|
      invariant flags.Keys == at.Keys
      invariant forall i :: 0 <= i < n ==> rows[i].key in at
      invariant forall k :: k in at ==> at[k] < n && rows[at[k]].key == k && flags[k] == rows[at[k]]
      invariant forall k, j :: k in at && at[k] < j < n ==> rows[j].key != k
    {
      flags := flags[rows[n].key := rows[n]];
      at := at[rows[n].key := n];
    }
    assert forall k :: k in flags ==> LastFlagRow(rows, k, at[k]);
  }

  method IndexSegments(rows: seq<Segment>) returns (segments: map<string, Segment>)
    ensures SegmentsIndexed(segments, rows)
  {
    segments := map[];
    ghost var at: map<string, nat> := map[];
    for n := 0 to |rows|
      invariant segments.Keys == at.Keys
      invariant forall i :: 0 <= i < n ==> rows[i].key in at
      invariant forall k :: k in at ==> at[k] < n && rows[at[k]].key == k && segments[k] == rows[at[k]]
      invariant forall k, j :: k in at && at[k] < j < n ==> rows[j].key != k
    {
      segments := segments[rows[n].key := rows[n]];
      at := at[rows[n].key := n];
    }
    assert forall k :: k in segments ==> LastSegmentRow(rows, k, at[k]);
  }

  method IndexRows(flagRows: seq<EvalFlag>, segRows: seq<Segment>) returns (content: EvalEnv)
    ensures Indexes(content, flagRows, segRows) && WellKeyed(content)
  {
    var flags := IndexFlags(flagRows);
    var segments := IndexSegments(segRows);
    content := EvalEnv(flags, segments);
    IndexIsUnique(content, content, flagRows, segRows);
  }

  /** Signals each channel; one that already holds a wakeup is left as it is. */
  method WakeAll(wakeups: Wakeups) returns (woken: Wakeups)
    ensures woken == map id | id in wakeups :: true
  {
    woken := wakeups;
    var todo := wakeups.Keys;
    while todo != {}
      invariant todo <= wakeups.Keys == woken.Keys
      invariant forall id :: id in woken.Keys - todo ==> woken[id]
      decreases |todo|
    {
      var id :| id in todo;
      if !woken[id] {
        woken := woken[id := true];
      }
      todo := todo - {id};
    }
  }

  class FlagService {
    var cache: map<string, EvalEnv>
    var subs: map<string, Wakeups>
    var nextSubID: int

    ghost function State(): Core
      reads this
    {
      Core(cache, subs, nextSubID)
    }

    /** Everything cached is stored under its own key. */
    ghost predicate Valid()
      reads this
    {
      forall env :: env in cache ==> WellKeyed(cache[env])
    }

    constructor ()
      ensures Valid() && State() == Core(map[], map[], 0)
    {
      cache, subs, nextSubID := map[], map[], 0;
    }

    method SubscribeEnv(env: string) returns (id: SubID)
      modifies this`subs, this`nextSubID
      ensures id == SubID(old(nextSubID)) && State() == Subscribed(old(State()), env)
    {
      id := SubID(nextSubID);
      nextSubID := nextSubID + 1;
      if env !in subs {
        subs := subs[env := map[]];
      }
      subs := subs[env := subs[env][id := false]];
      assert subs == Subscribed(old(State()), env).subs;
    }

    method Cancel(env: string, id: SubID)
      modifies this`subs
      ensures State() == Cancelled(old(State()), env, id)
    {
      var rest := SubsOf(Core(cache, subs, nextSubID), env) - {id};
      if rest == map[] {
        subs := subs - {env};
      } else {
        subs := subs[env := rest];
      }
    }

    /** Wakes every subscriber; a wakeup already waiting is left as it is. */
    method NotifyEnv(env: string)
      modifies this`subs
      ensures State() == Notified(old(State()), env)
    {
      if env !in subs {
        return;
      }
      var wakeups := WakeAll(subs[env]);
      subs := subs[env := wakeups];
    }

    /** Rebuilds one environment from freshly read rows and wakes its streams; changes nothing if a query fails. */
    method ReloadEnv(env: string, flagRows: Option<seq<EvalFlag>>, segRows: Option<seq<Segment>>) returns (ok: bool)
      requires Valid()
      modifies this`cache, this`subs
      ensures Valid() && Reloaded(old(State()), env, flagRows, segRows, ok, State())
    {
      if flagRows.None? || segRows.None? {
        return false;
      }
      var content := IndexRows(flagRows.value, segRows.value);
      cache := cache[env := content];
      NotifyEnv(env);
      ok := true;
    }

    /** Reconciles the cache with a broadcast, given the rows a reload would read. Broadcasts of this replica
        itself are skipped; a removed environment is dropped and wakes no one; a failed reload is passed over. */
    method OnEvent(event: Broadcast, instance: string, flagRows: Option<seq<EvalFlag>>, segRows: Option<seq<Segment>>)
      requires Valid()
      modifies this`cache, this`subs
      ensures Valid()
      ensures event.origin == instance ==> State() == old(State())
      ensures event.origin != instance && event.kind == EnvironmentChanged ==>
                exists ok :: Reloaded(old(State()), event.env, flagRows, segRows, ok, State())
      ensures event.origin != instance && event.kind == EnvironmentRemoved ==>
                State() == old(State()).(cache := old(cache) - {event.env})
    {
      if event.origin == instance {
        return;
      }
      match event.kind
      case EnvironmentChanged =>
        var ok := ReloadEnv(event.env, flagRows, segRows);
      case EnvironmentRemoved => cache := cache - {event.env};
    }

    /** One flag, from the cache alone; none when it is not stored or not offered to clients. */
    method Evaluate(w: World, env: string, key: string, ctx: Context, clientOnly: bool) returns (r: Option<Evaluated>)
      requires Valid()
      ensures WellKeyed(Current(State(), env)) && r == OneEvaluation(w, Current(State(), env), key, ctx, clientOnly)
    {
      if env !in cache || key !in cache[env].flags || (clientOnly && !cache[env].flags[key].clientSideAvailable) {
        return None;
      }
      var result := EvaluateFlag(w, cache[env].flags[key], ctx, cache[env]);
      return Some(result);
    }

    /** Every offered flag of an environment, all from one cached snapshot. */
    method EvaluateAll(w: World, env: string, ctx: Context, clientOnly: bool) returns (out: map<string, Evaluated>)
      requires Valid()
      ensures WellKeyed(Current(State(), env)) && out == AllEvaluations(w, Current(State(), env), ctx, clientOnly)
      ensures var flags := Current(State(), env).flags;
              forall k :: k in out <==> k in flags && (clientOnly ==> flags[k].clientSideAvailable)
    {
      out := map[];
      if env !in cache {
        return;
      }
      var content := cache[env];
      var todo := content.flags.Keys;
      while |todo| > 0
        invariant todo <= content.flags.Keys
        invariant forall k :: k in out <==> k in content.flags && k !in todo && Offered(content.flags[k], clientOnly)
        invariant forall k :: k in out ==> out[k] == Evaluation.Evaluate(w, content.flags[k], ctx, content, {})
        decreases todo
      {
        var k :| k in todo;
        var ef := content.flags[k];
        if Offered(ef, clientOnly) {
          var result := EvaluateFlag(w, ef, ctx, content);
          out := out[ef.key := result];
        }
        todo := todo - {k};
      }
    }
  }

  /** A reload succeeds when both queries do; it then installs their rows and wakes the environment's subscribers. */
  ghost predicate Reloaded(
      before: Core, env: string, flagRows: Option<seq<EvalFlag>>, segRows: Option<seq<Segment>>, ok: bool,
      after: Core) {
    && (ok <==> flagRows.Some? && segRows.Some?)
    && (!ok ==> after == before)
    && (ok ==> exists content ::
         Indexes(content, flagRows.value, segRows.value) && after == Notified(Installed(before, env, content), env))
  }

  /** What a reload does: it fails exactly if a query does, and then changes nothing. Otherwise the environment holds
      what was read, all its subscribers have a wakeup, and nothing else changes. */
  lemma ReloadMeans(
      before: Core, env: string, flagRows: Option<seq<EvalFlag>>, segRows: Option<seq<Segment>>, ok: bool,
      after: Core)
    requires Reloaded(before, env, flagRows, segRows, ok, after)
    ensures ok <==> flagRows != None && segRows != None
    ensures !ok ==> after == before
    ensures ok ==>
              && env in after.cache && Indexes(after.cache[env], flagRows.value, segRows.value)
              && after.cache - {env} == before.cache - {env} && after.nextSubID == before.nextSubID
              && AllWoken(before, after, env)
  {
    if ok {
      var content :| Indexes(content, flagRows.value, segRows.value)
                     && after == Notified(Installed(before, env, content), env);
      WokenAfterInstall(before, env, content);
    }
  }

  lemma WokenAfterInstall(c: Core, env: string, content: EvalEnv)
    ensures var d := Notified(Installed(c, env, content), env);
            && AllWoken(c, d, env) && d.nextSubID == c.nextSubID
            && env in d.cache && d.cache[env] == content && d.cache - {env} == c.cache - {env}
  {
    WakingMeans(Installed(c, env, content), env, SubID(0));
    forall e, i ensures WakeupOf(Installed(c, env, content), e, i) == WakeupOf(c, e, i) {
    }
  }

  predicate Offered(ef: EvalFlag, clientOnly: bool) {
    clientOnly ==> ef.clientSideAvailable
  }

  function AllEvaluations(w: World, content: EvalEnv, ctx: Context, clientOnly: bool): map<string, Evaluated>
    requires WellKeyed(content)
  {
    map k | k in content.flags && Offered(content.flags[k], clientOnly) ::
      Evaluation.Evaluate(w, content.flags[k], ctx, content, {})
  }

  ghost function OneEvaluation(
      w: World, content: EvalEnv, key: string, ctx: Context, clientOnly: bool): Option<Evaluated>
    requires WellKeyed(content)
  {
    if key !in content.flags || (clientOnly && !content.flags[key].clientSideAvailable) then None
    else Some(Evaluation.Evaluate(w, content.flags[key], ctx, content, {}))
  }

  /** A flag is offered to everyone, except that clients get only those marked available to them; and asking for all
      flags answers for exactly those that asking for one does, and the same. */
  lemma OneAndAllAgree(w: World, content: EvalEnv, key: string, ctx: Context, clientOnly: bool)
    requires WellKeyed(content)
    ensures var one, all := OneEvaluation(w, content, key, ctx, clientOnly),
              AllEvaluations(w, content, ctx, clientOnly);
            && (one.Some? <==> key in content.flags && (clientOnly ==> content.flags[key].clientSideAvailable))
            && (key in all <==> one.Some?)
            && (one.Some? ==> all[key] == one.value && one.value.flagKey == key)
  {
    if OneEvaluation(w, content, key, ctx, clientOnly).Some? {
      EvaluationMeans(w, content.flags[key], ctx, content, {});
    }
  }
}
