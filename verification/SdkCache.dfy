// The cache of SDK-key lookups. On a miss the store is read and the answer is put in the cache, two steps
// between which keys may be revoked and caches flushed. Each replica has a cache; the store is shared.
module SdkCache {
  import opened Models
  import opened Transitions

  /** What a lookup found: the key's record, or that no such active key exists. */
  type Answer = Option<string>

  const MAX_ENTRIES: nat := 100_000

  datatype Entry = Entry(answer: Answer, expires: int)

  type Cache = map<string, Entry>

  /** A lookup that has read the store and not yet put its answer. */
  datatype Lookup = Lookup(replica: nat, key: string, answer: Answer, readAt: int)

  /** The active keys from a moment on. */
  datatype Version = Version(since: int, active: map<string, string>)

  /** `versions` records every content the key table has had, the current one last. */
  datatype State = State(now: int, versions: seq<Version>, caches: seq<Cache>, lookups: map<nat, Lookup>)

  datatype Action =
    | Advance(to: int)
    | CreateKey(key: string, record: string)
    | RevokeKey(key: string)
    | Flush(replica: nat)
    | Miss(id: nat, replica: nat, key: string)
    | Put(id: nat)

  function AnswerIn(v: Version, key: string): Answer {
    if key in v.active then Some(v.active[key]) else None
  }

  /** A cached answer that has not expired; none means the store must be asked. */
  function Cached(ttl: int, c: Cache, key: string, now: int): Option<Answer> {
    if ttl <= 0 || key !in c || now > c[key].expires then None else Some(c[key].answer)
  }

  /** The cache after a put: it is emptied first when it is full, and left alone when caching is off. */
  function WithPut(ttl: int, c: Cache, key: string, answer: Answer, now: int): (r: Cache)
    ensures |c| <= MAX_ENTRIES ==> |r| <= MAX_ENTRIES
  {
    if ttl <= 0 then c
    else
      var base := if |c| >= MAX_ENTRIES then map[] else c;
      var next := base[key := Entry(answer, now + ttl)];
      assert next.Keys == base.Keys + {key};
      next
  }

  /** The parameters of a deployment: the time to live, and how long a lookup may take from read to put. */
  datatype Params = Params(ttl: int, lag: nat)

  ghost predicate Enabled(p: Params, s: State, a: Action) {
    && s.versions != []
    && match a
       case Advance(to) => s.now <= to
       case CreateKey(key, _) => forall v :: v in s.versions ==> key !in v.active
       case RevokeKey(_) => true
       case Flush(r) => r < |s.caches|
       case Miss(id, r, key) => id !in s.lookups && r < |s.caches| && Cached(p.ttl, s.caches[r], key, s.now).None?
       case Put(id) => id in s.lookups && s.lookups[id].replica < |s.caches| && s.now <= s.lookups[id].readAt + p.lag
  }

  function Latest(s: State): Version
    requires s.versions != []
  {
    s.versions[|s.versions| - 1]
  }

  ghost function Apply(p: Params, s: State, a: Action): State
    requires Enabled(p, s, a)
  {
    match a
    case Advance(to) => s.(now := to)
    case CreateKey(key, record) => s.(versions := s.versions + [Version(s.now, Latest(s).active[key := record])])
    case RevokeKey(key) => s.(versions := s.versions + [Version(s.now, Latest(s).active - {key})])
    case Flush(r) => s.(caches := s.caches[r := map[]])
    case Miss(id, r, key) => s.(lookups := s.lookups[id := Lookup(r, key, AnswerIn(Latest(s), key), s.now)])
    case Put(id) =>
      var l := s.lookups[id];
      s.(caches := s.caches[l.replica := WithPut(p.ttl, s.caches[l.replica], l.key, l.answer, s.now)],
         lookups := s.lookups - {id})
  }

  ghost predicate Steps(p: Params, s: State, a: Action, t: State) {
    Enabled(p, s, a) && t == Apply(p, s, a)
  }

  ghost function StepsOf(p: Params): (State, Action, State) -> bool {
    (s, a, t) => Steps(p, s, a, t)
  }

  function Start(replicas: nat): State {
    State(0, [Version(0, map[])], seq(replicas, i requires 0 <= i < replicas => map[]), map[])
  }

  // ----- every answer was true not long ago -----

  /** Version `i` was still in force at time `from` or later. */
  ghost predicate LastedUntil(versions: seq<Version>, i: nat, from: int)
    requires i < |versions|
  {
    i + 1 < |versions| ==> versions[i + 1].since >= from
  }

  /** The answer was the store's at some moment no earlier than `from`. */
  ghost predicate TrueSince(versions: seq<Version>, key: string, answer: Answer, from: int) {
    exists i: nat :: i < |versions| && AnswerIn(versions[i], key) == answer && LastedUntil(versions, i, from)
  }

  /** A lookup carries what the store said when it was read. */
  ghost predicate LookupTrue(versions: seq<Version>, now: int, l: Lookup) {
    l.readAt <= now && TrueSince(versions, l.key, l.answer, l.readAt)
  }

  /** An entry says what the store said at most ttl + lag before it expires. */
  ghost predicate EntryTrue(p: Params, versions: seq<Version>, key: string, e: Entry) {
    TrueSince(versions, key, e.answer, e.expires - p.ttl - p.lag)
  }

  ghost predicate CacheTrue(p: Params, versions: seq<Version>, now: int, c: Cache) {
    forall key :: key in c ==> EntryTrue(p, versions, key, c[key]) && c[key].expires <= now + p.ttl
  }

  ghost predicate Chronological(versions: seq<Version>, now: int) {
    && (forall i :: 0 <= i < |versions| ==> versions[i].since <= now)
    && forall i, j :: 0 <= i <= j < |versions| ==> versions[i].since <= versions[j].since
  }

  ghost predicate Inv(p: Params, s: State) {
    && s.versions != []
    && Chronological(s.versions, s.now)
    && (forall id :: id in s.lookups ==> LookupTrue(s.versions, s.now, s.lookups[id]))
    && (forall r :: 0 <= r < |s.caches| ==> CacheTrue(p, s.versions, s.now, s.caches[r]))
    && (forall r :: 0 <= r < |s.caches| ==> |s.caches[r]| <= MAX_ENTRIES)
  }

  lemma TruthIsRemembered(versions: seq<Version>, v: Version, key: string, answer: Answer, from: int)
    requires TrueSince(versions, key, answer, from) && v.since >= from
    ensures TrueSince(versions + [v], key, answer, from)
  {
    var i: nat :| i < |versions| && AnswerIn(versions[i], key) == answer && LastedUntil(versions, i, from);
    assert (versions + [v])[i] == versions[i];
    assert LastedUntil(versions + [v], i, from);
  }

  lemma StoreChangeKeepsInv(p: Params, s: State, v: Version)
    requires Inv(p, s) && v.since == s.now
    ensures Inv(p, s.(versions := s.versions + [v]))
  {
    var versions := s.versions + [v];
    forall id | id in s.lookups ensures LookupTrue(versions, s.now, s.lookups[id]) {
      var l := s.lookups[id];
      TruthIsRemembered(s.versions, v, l.key, l.answer, l.readAt);
    }
    forall r | 0 <= r < |s.caches| ensures CacheTrue(p, versions, s.now, s.caches[r]) {
      forall key | key in s.caches[r] ensures EntryTrue(p, versions, key, s.caches[r][key]) {
        var e := s.caches[r][key];
        TruthIsRemembered(s.versions, v, key, e.answer, e.expires - p.ttl - p.lag);
      }
    }
  }

  lemma MissKeepsInv(p: Params, s: State, id: nat, r: nat, key: string)
    requires Inv(p, s) && Enabled(p, s, Miss(id, r, key))
    ensures Inv(p, Apply(p, s, Miss(id, r, key)))
  {
    assert LastedUntil(s.versions, |s.versions| - 1, s.now);
    assert LookupTrue(s.versions, s.now, Lookup(r, key, AnswerIn(Latest(s), key), s.now));
  }

  lemma PutKeepsTrue(p: Params, versions: seq<Version>, c: Cache, l: Lookup, now: int)
    requires CacheTrue(p, versions, now, c) && LookupTrue(versions, now, l) && now <= l.readAt + p.lag
    ensures CacheTrue(p, versions, now, WithPut(p.ttl, c, l.key, l.answer, now))
  {
    assert EntryTrue(p, versions, l.key, Entry(l.answer, now + p.ttl));
  }

  lemma PutKeepsInv(p: Params, s: State, id: nat)
    requires Inv(p, s) && Enabled(p, s, Put(id))
    ensures Inv(p, Apply(p, s, Put(id)))
  {
    var t, l := Apply(p, s, Put(id)), s.lookups[id];
    var next := WithPut(p.ttl, s.caches[l.replica], l.key, l.answer, s.now);
    PutKeepsTrue(p, s.versions, s.caches[l.replica], l, s.now);
    forall r | 0 <= r < |t.caches|
      ensures CacheTrue(p, t.versions, t.now, t.caches[r]) && |t.caches[r]| <= MAX_ENTRIES
    {
      assert t.caches[r] == if r == l.replica then next else s.caches[r];
    }
  }

  lemma AdvanceKeepsInv(p: Params, s: State, to: int)
    requires Inv(p, s) && s.now <= to
    ensures Inv(p, s.(now := to))
  {
    forall r | 0 <= r < |s.caches| ensures CacheTrue(p, s.versions, to, s.caches[r]) {
      assert CacheTrue(p, s.versions, s.now, s.caches[r]);
    }
    forall id | id in s.lookups ensures LookupTrue(s.versions, to, s.lookups[id]) {
      assert LookupTrue(s.versions, s.now, s.lookups[id]);
    }
  }

  lemma StepKeepsInv(p: Params, s: State, a: Action)
    requires Inv(p, s) && Enabled(p, s, a)
    ensures Inv(p, Apply(p, s, a))
  {
    match a
    case CreateKey(key, record) => StoreChangeKeepsInv(p, s, Version(s.now, Latest(s).active[key := record]));
    case RevokeKey(key) => StoreChangeKeepsInv(p, s, Version(s.now, Latest(s).active - {key}));
    case Miss(id, r, key) => MissKeepsInv(p, s, id, r, key);
    case Put(id) => PutKeepsInv(p, s, id);
    case Advance(to) => AdvanceKeepsInv(p, s, to);
    case Flush(r) =>
  }

  lemma RunsKeepInv(p: Params, s: State, run: seq<Action>, t: State)
    requires Inv(p, s) && Runs(StepsOf(p), s, run, t)
    ensures Inv(p, t)
  {
    forall x, a, y | Inv(p, x) && StepsOf(p)(x, a, y) ensures Inv(p, y) {
      StepKeepsInv(p, x, a);
    }
    RunsKeep(StepsOf(p), (x: State) => Inv(p, x), s, run, t);
  }

  /** In every run, whatever a replica answers was the store's answer not long ago: from its cache, at some moment
      in the last ttl + lag; after a miss, in the last lag. And no cache ever exceeds its bound. */
  lemma AnswersAreRecent(p: Params, replicas: nat, run: seq<Action>, t: State, r: nat, key: string)
    requires Runs(StepsOf(p), Start(replicas), run, t) && r < |t.caches|
    ensures var hit := Cached(p.ttl, t.caches[r], key, t.now);
            hit.Some? ==> TrueSince(t.versions, key, hit.value, t.now - p.ttl - p.lag)
    ensures forall id :: Enabled(p, t, Put(id)) ==>
              TrueSince(t.versions, t.lookups[id].key, t.lookups[id].answer, t.now - p.lag)
    ensures |t.caches[r]| <= 100_000
  {
    RunsKeepInv(p, Start(replicas), run, t);
    var hit := Cached(p.ttl, t.caches[r], key, t.now);
    if hit.Some? {
      var e := t.caches[r][key];
    }
    forall id | Enabled(p, t, Put(id))
      ensures TrueSince(t.versions, t.lookups[id].key, t.lookups[id].answer, t.now - p.lag)
    {
      var l := t.lookups[id];
      assert LookupTrue(t.versions, t.now, l);
    }
  }

  // ----- and every answer is kept until it expires -----

  /** No lookup of the key is on its way to the replica. */
  ghost predicate NoneUnderWay(lookups: map<nat, Lookup>, r: nat, key: string) {
    forall id :: id in lookups ==> lookups[id].replica != r || lookups[id].key != key
  }

  /** The replica holds the answer, and nothing is about to replace it. */
  ghost predicate Holds(s: State, r: nat, key: string, e: Entry) {
    && r < |s.caches| && key in s.caches[r] && s.caches[r][key] == e
    && NoneUnderWay(s.lookups, r, key)
  }

  lemma PutHolds(p: Params, s: State, id: nat)
    requires Enabled(p, s, Put(id)) && p.ttl > 0
    requires NoneUnderWay(s.lookups - {id}, s.lookups[id].replica, s.lookups[id].key)
    ensures var l, t := s.lookups[id], Apply(p, s, Put(id));
            Holds(t, l.replica, l.key, Entry(l.answer, s.now + p.ttl)) &&
                |t.caches[l.replica]| <= |s.caches[l.replica]| + 1
  {
    var l := s.lookups[id];
    PutAddsOne(p.ttl, s.caches[l.replica], l.key, l.answer, s.now);
  }

  lemma PutAddsOne(ttl: int, c: Cache, key: string, answer: Answer, now: int)
    ensures |WithPut(ttl, c, key, answer, now)| <= |c| + 1
  {
    assert c[key := Entry(answer, now + ttl)].Keys == c.Keys + {key};
  }

  lemma StepHolds(p: Params, s: State, a: Action, r: nat, key: string, e: Entry)
    requires Enabled(p, s, a) && Holds(s, r, key, e) && s.now <= e.expires && p.ttl > 0
    requires a != Flush(r) && |s.caches[r]| < MAX_ENTRIES
    ensures Holds(Apply(p, s, a), r, key, e) && |Apply(p, s, a).caches[r]| <= |s.caches[r]| + 1
  {
    if a.Put? {
      var l := s.lookups[a.id];
      PutAddsOne(p.ttl, s.caches[l.replica], l.key, l.answer, s.now);
    }
  }

  lemma {:induction false} RunHolds(p: Params, s: State, run: seq<Action>, t: State, r: nat, key: string, e: Entry)
    requires Runs(StepsOf(p), s, run, t) && Holds(s, r, key, e) && t.now <= e.expires && p.ttl > 0
    requires Flush(r) !in run && |s.caches[r]| + |run| <= MAX_ENTRIES
    ensures Holds(t, r, key, e) && |t.caches[r]| <= |s.caches[r]| + |run|
    decreases |run|
  {
    if run != [] {
      var mid :| Runs(StepsOf(p), s, Front(run), mid) && StepsOf(p)(mid, Last(run), t);
      assert Last(run) in run && forall a :: a in Front(run) ==> a in run;
      RunHolds(p, s, Front(run), mid, r, key, e);
      StepHolds(p, mid, Last(run), r, key, e);
    }
  }

  /** An answer put in a cache is served from it until its time to live is over: in every run in which the replica does
      not flush and its cache does not fill up, if no other lookup of the key was on its way. */
  lemma PutIsServedUntilItExpires(p: Params, s: State, id: nat, run: seq<Action>, t: State)
    requires Enabled(p, s, Put(id)) && p.ttl > 0 && Runs(StepsOf(p), Apply(p, s, Put(id)), run, t)
    requires NoneUnderWay(s.lookups - {id}, s.lookups[id].replica, s.lookups[id].key)
    requires Flush(s.lookups[id].replica) !in run
    requires |s.caches[s.lookups[id].replica]| + 1 + |run| <= MAX_ENTRIES
    ensures var l := s.lookups[id];
            && l.replica < |t.caches|
            && (t.now <= s.now + p.ttl ==> Cached(p.ttl, t.caches[l.replica], l.key, t.now) == Some(l.answer))
  {
    var l := s.lookups[id];
    PutHolds(p, s, id);
    RunsKeep(StepsOf(p), (x: State) => |x.caches| == |s.caches|, Apply(p, s, Put(id)), run, t);
    if t.now <= s.now + p.ttl {
      RunHolds(p, Apply(p, s, Put(id)), run, t, l.replica, l.key, Entry(l.answer, s.now + p.ttl));
    }
  }

  /** With caching off nothing is ever kept, and every request asks the store. */
  lemma NothingIsKeptWhenOff(p: Params, replicas: nat, run: seq<Action>, t: State, r: nat, key: string)
    requires p.ttl <= 0 && Runs(StepsOf(p), Start(replicas), run, t) && r < |t.caches|
    ensures t.caches[r] == map[] && Cached(p.ttl, t.caches[r], key, t.now) == None
  {
    var empty := (x: State) => forall i :: 0 <= i < |x.caches| ==> x.caches[i] == map[];
    RunsKeep(StepsOf(p), empty, Start(replicas), run, t);
  }

  // ----- revoking -----

  /** From version `i` on the key is not active. */
  ghost predicate RevokedFrom(versions: seq<Version>, i: nat, key: string) {
    forall j :: i <= j < |versions| ==> key !in versions[j].active
  }

  /** A revoked key is refused by every replica: by its cache once ttl + lag have passed, by a lookup once lag has. */
  lemma RevokedIsRefusedEverywhere(p: Params, replicas: nat, run: seq<Action>, t: State, r: nat, key: string, i: nat)
    requires Runs(StepsOf(p), Start(replicas), run, t) && r < |t.caches|
    requires i < |t.versions| && RevokedFrom(t.versions, i, key)
    ensures var hit := Cached(p.ttl, t.caches[r], key, t.now);
            hit.Some? && t.now > t.versions[i].since + p.ttl + p.lag ==> hit.value == None
    ensures forall id :: Enabled(p, t, Put(id)) && t.lookups[id].key == key && t.now > t.versions[i].since + p.lag ==>
              t.lookups[id].answer == None
  {
    RunsKeepInv(p, Start(replicas), run, t);
    AnswersAreRecent(p, replicas, run, t, r, key);
    forall answer: Answer, from | answer.Some? && t.versions[i].since < from
      ensures !TrueSince(t.versions, key, answer, from)
    {
    }
  }

  /** A lookup that read the key as active and can still reach the replica's cache in time. */
  ghost predicate Carries(p: Params, s: State, id: nat, r: nat, key: string) {
    && id in s.lookups && s.lookups[id].replica == r && s.lookups[id].key == key && s.lookups[id].answer.Some?
    && s.now <= s.lookups[id].readAt + p.lag
  }

  /** The replica's cache, or a lookup on its way there, says the key is active. */
  ghost predicate MayAdmit(p: Params, s: State, r: nat, key: string)
    requires r < |s.caches|
  {
    (key in s.caches[r] && s.caches[r][key].answer.Some?) || exists id :: Carries(p, s, id, r, key)
  }

  /** A revoked key: it was active once, so it is never minted again, and it is not active now. */
  ghost predicate IsRevoked(s: State, key: string) {
    s.versions != [] && key !in Latest(s).active && exists v :: v in s.versions && key in v.active
  }

  lemma RevokedStaysRevoked(p: Params, s: State, a: Action, key: string)
    requires IsRevoked(s, key) && Enabled(p, s, a)
    ensures IsRevoked(Apply(p, s, a), key)
  {
    var v :| v in s.versions && key in v.active;
    assert v in Apply(p, s, a).versions;
  }

  lemma StepKeepsRefusing(p: Params, s: State, a: Action, r: nat, key: string)
    requires Enabled(p, s, a) && r < |s.caches| && IsRevoked(s, key) && !MayAdmit(p, s, r, key)
    ensures |Apply(p, s, a).caches| == |s.caches| && !MayAdmit(p, Apply(p, s, a), r, key)
  {
    var t := Apply(p, s, a);
    forall id ensures !Carries(p, t, id, r, key) {
      assert !Carries(p, s, id, r, key);
    }
    if a.Put? {
      assert !Carries(p, s, a.id, r, key);
    }
  }

  ghost predicate Refuses(p: Params, s: State, r: nat, key: string) {
    r < |s.caches| && IsRevoked(s, key) && !MayAdmit(p, s, r, key)
  }

  lemma RefusedStaysRefused(p: Params, s: State, run: seq<Action>, t: State, r: nat, key: string)
    requires Runs(StepsOf(p), s, run, t) && Refuses(p, s, r, key)
    ensures Refuses(p, t, r, key)
  {
    forall x, a, y | Refuses(p, x, r, key) && StepsOf(p)(x, a, y) ensures Refuses(p, y, r, key) {
      StepKeepsRefusing(p, x, a, r, key);
      RevokedStaysRevoked(p, x, a, key);
    }
    RunsKeep(StepsOf(p), (x: State) => Refuses(p, x, r, key), s, run, t);
  }

  /** The replica serves the key as active from its cache. */
  ghost predicate Admits(p: Params, s: State, r: nat, key: string)
    requires r < |s.caches|
  {
    var hit := Cached(p.ttl, s.caches[r], key, s.now);
    hit.Some? && hit.value.Some?
  }

  ghost predicate EverAdmits(p: Params, s: State, r: nat, key: string) {
    exists run, t :: Runs(StepsOf(p), s, run, t) && r < |t.caches| && Admits(p, t, r, key)
  }

  lemma LatePutAdmits(p: Params, s: State, id: nat, r: nat, key: string)
    requires s.versions != [] && r < |s.caches| && p.ttl > 0 && Carries(p, s, id, r, key)
    ensures EverAdmits(p, s, r, key)
  {
    var t := Apply(p, s, Put(id));
    NoStep(StepsOf(p), s);
    OneStepMore(StepsOf(p), s, [], s, Put(id), t);
  }

  /** Flushing a replica after a revoke takes effect at once and for good, except exactly when a lookup that had
      read the key as active is still on its way to that cache. */
  lemma FlushTakesEffectExactly(p: Params, s: State, r: nat, key: string)
    requires IsRevoked(s, key) && r < |s.caches| && p.ttl > 0
    ensures EverAdmits(p, s.(caches := s.caches[r := map[]]), r, key) <==> exists id :: Carries(p, s, id, r, key)
  {
    var flushed := s.(caches := s.caches[r := map[]]);
    forall id ensures Carries(p, s, id, r, key) <==> Carries(p, flushed, id, r, key) {
    }
    if id :| Carries(p, s, id, r, key) {
      assert Carries(p, flushed, id, r, key);
      LatePutAdmits(p, flushed, id, r, key);
    } else {
      forall run, t | Runs(StepsOf(p), flushed, run, t) && r < |t.caches| ensures !Admits(p, t, r, key) {
        RefusedStaysRefused(p, flushed, run, t, r, key);
      }
    }
  }

  /** A run in which a key is minted, looked up by a replica, and revoked before the answer is put. */
  lemma LookupOutlivesRevoke(p: Params, key: string, record: string) returns (run: seq<Action>, t: State)
    ensures Runs(StepsOf(p), Start(1), run, t)
    ensures t.now == 0 && |t.caches| == 1 && IsRevoked(t, key)
    ensures 0 in t.lookups && t.lookups[0] == Lookup(0, key, Some(record), 0)
  {
    NoStep(StepsOf(p), Start(1));
    var s1 := Apply(p, Start(1), CreateKey(key, record));
    run := GoOn(StepsOf(p), Start(1), [], Start(1), CreateKey(key, record), s1);
    var s2 := Apply(p, s1, Miss(0, 0, key));
    run := GoOn(StepsOf(p), Start(1), run, s1, Miss(0, 0, key), s2);
    t := Apply(p, s2, RevokeKey(key));
    run := GoOn(StepsOf(p), Start(1), run, s2, RevokeKey(key), t);
    assert t.versions[1] == Latest(s1) && Latest(s1) in t.versions;
  }

  /** A run after which a replica admits a key that has been revoked, although it flushed its cache after the revoke:
      it had looked the key up before, and puts the answer afterwards. */
  lemma RevokedKeyIsAdmitted(p: Params, key: string, record: string) returns (run: seq<Action>, t: State)
    requires p.ttl > 0
    ensures Runs(StepsOf(p), Start(1), run, t)
    ensures |t.caches| == 1 && IsRevoked(t, key) && Admits(p, t, 0, key)
  {
    var s: State;
    run, s := LookupOutlivesRevoke(p, key, record);
    RevokedStaysRevoked(p, s, Flush(0), key);
    var flushed := Apply(p, s, Flush(0));
    run := GoOn(StepsOf(p), Start(1), run, s, Flush(0), flushed);
    assert flushed.caches == [map[]];
    RevokedStaysRevoked(p, flushed, Put(0), key);
    t := Apply(p, flushed, Put(0));
    run := GoOn(StepsOf(p), Start(1), run, flushed, Put(0), t);
  }

  // ----- the program -----

  /** The store's reply to a lookup: a key or none such, or some other failure. */
  datatype Fetched = Fetched(answer: Answer) | Broken

  class SdkKeyCache {
    const ttl: int
    var m: Cache

    constructor (ttl: int)
      ensures this.ttl == ttl && m == map[]
    {
      this.ttl, m := ttl, map[];
    }

    method Get(key: string, now: int) returns (hit: Option<Answer>)
      ensures hit == Cached(ttl, m, key, now)
    {
      if ttl <= 0 {
        return None;
      }
      if key !in m || now > m[key].expires {
        return None;
      }
      return Some(m[key].answer);
    }

    method PutAnswer(key: string, answer: Answer, now: int)
      modifies this`m
      ensures m == WithPut(ttl, old(m), key, answer, now)
    {
      if ttl <= 0 {
        return;
      }
      if |m| >= MAX_ENTRIES {
        m := map[];
      }
      m := m[key := Entry(answer, now + ttl)];
    }

    /** Resolves a key: from the cache, or from the store, whose answer is then kept, positive or negative; any other
        failure of the store is passed on and nothing is kept. */
    method ActiveSdkKey(key: string, now: int, stored: Fetched, putAt: int) returns (answer: Fetched)
      modifies this`m
      ensures match Cached(ttl, old(m), key, now)
              case Some(kept) => answer == Fetched(kept) && m == old(m)
              case None =>
                && answer == stored
                && m == if stored.Broken? then old(m) else WithPut(ttl, old(m), key, stored.answer, putAt)
    {
      var hit := Get(key, now);
      if hit.Some? {
        return Fetched(hit.value);
      }
      if !stored.Broken? {
        PutAnswer(key, stored.answer, putAt);
      }
      return stored;
    }

    method FlushAll()
      modifies this`m
      ensures m == map[]
    {
      m := map[];
    }

    /** Revokes a key in the store, which may fail, and drops all cached answers if that succeeds. */
    method RevokeSdkKey(revoked: bool) returns (ok: bool)
      modifies this`m
      ensures ok == revoked && m == if revoked then map[] else old(m)
    {
      if !revoked {
        return false;
      }
      FlushAll();
      return true;
    }
  }
}
