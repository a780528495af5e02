// Scheduled changes: a table of pending changes and one scheduler that applies them when due. The scheduler
// lists a batch and then attempts its changes one by one; scheduling and cancelling may happen in between.
module Scheduler {
  import opened Lists
  import opened Transitions
  import opened Edits
  import FS = FlagStore

  datatype Status = Pending | Applied | Cancelled | Failed

  /** What a change is to do: a list of instructions for a flag, named by its key, in an environment. */
  datatype Work = Work(flagKey: string, env: string, list: seq<Instruction>)

  datatype Change = Change(scheduledFor: int, status: Status, work: Work)

  type Table = map<string, Change>

  /** How many changes one tick takes. */
  const BATCH_SIZE: nat := 100

  /** `batch` is what the current tick has listed and not yet attempted; `log` is every attempt so far. */
  datatype State = State(now: int, table: Table, batch: seq<string>, log: seq<string>)

  datatype Action =
    | Advance(to: int)
    | Schedule(id: string, scheduledFor: int, work: Work)
    | Cancel(id: string)
    | ListDue(due: seq<string>)
    | Attempt(ok: bool)

  predicate IsDue(table: Table, now: int, id: string) {
    id in table && table[id].status == Pending && table[id].scheduledFor <= now
  }

  ghost predicate InOrder(table: Table, ids: seq<string>) {
    && (forall i :: 0 <= i < |ids| ==> ids[i] in table)
    && forall i, j :: 0 <= i < j < |ids| ==> table[ids[i]].scheduledFor <= table[ids[j]].scheduledFor
  }

  /** What the due query may answer: the soonest due changes, at most `limit`, soonest first; ties in any order. */
  ghost predicate DueAnswer(table: Table, now: int, limit: nat, due: seq<string>) {
    && Distinct(due) && InOrder(table, due) && |due| <= limit
    && (forall id :: id in due ==> IsDue(table, now, id))
    && (forall id :: IsDue(table, now, id) && id !in due ==>
          && |due| == limit
          && forall d :: d in due ==> table[d].scheduledFor <= table[id].scheduledFor)
  }

  /** There always is an answer, so a tick that begins can list. */
  lemma AnswerExists(table: Table, now: int, limit: nat) returns (due: seq<string>)
    ensures DueAnswer(table, now, limit, due)
    ensures forall id :: id in due ==> table[id].status == Pending && table[id].scheduledFor <= now
    ensures |due| == limit || forall id :: id in table && table[id].status == Pending && id !in due ==>
                                table[id].scheduledFor > now
  {
    due := SoonestCanBeListed(map id | id in table && IsDue(table, now, id) :: table[id].scheduledFor, limit);
  }

  /** The guarded update of a finished attempt: only a pending change takes the new status. */
  function Marked(table: Table, id: string, ok: bool): Table {
    if id in table && table[id].status == Pending then
      table[id := table[id].(status := if ok then Applied else Failed)]
    else table
  }

  ghost predicate Enabled(s: State, a: Action) {
    match a
    case Advance(to) => s.now <= to
    case Schedule(id, at, work) => id !in s.table && s.now < at && work.list != []
    case Cancel(id) => id in s.table && s.table[id].status == Pending
    case ListDue(due) => s.batch == [] && DueAnswer(s.table, s.now, BATCH_SIZE, due)
    case Attempt(_) => s.batch != []
  }

  ghost function Apply(s: State, a: Action): State
    requires Enabled(s, a)
  {
    match a
    case Advance(to) => s.(now := to)
    case Schedule(id, at, work) => s.(table := s.table[id := Change(at, Pending, work)])
    case Cancel(id) => s.(table := s.table[id := s.table[id].(status := Cancelled)])
    case ListDue(due) => s.(batch := due)
    case Attempt(ok) => s.(table := Marked(s.table, s.batch[0], ok), batch := s.batch[1..], log := s.log + [s.batch[0]])
  }

  ghost predicate Steps(s: State, a: Action, t: State) {
    Enabled(s, a) && t == Apply(s, a)
  }

  const START := State(0, map[], [], [])

  // ----- the invariant -----

  /** Attempted, or about to be. */
  ghost function Taken(s: State): seq<string> {
    s.log + s.batch
  }

  ghost predicate Inv(s: State) {
    && Distinct(Taken(s)) && InOrder(s.table, Taken(s))
    && (forall id :: id in Taken(s) ==> id in s.table && s.table[id].scheduledFor <= s.now)
    && (forall id :: id in s.log ==> s.table[id].status != Pending)
    && (forall id :: id in s.batch ==> s.table[id].status == Pending || s.table[id].status == Cancelled)
    && (forall id, x :: id in s.table && s.table[id].status == Pending && id !in s.batch && x in Taken(s) ==>
          s.table[x].scheduledFor <= s.table[id].scheduledFor)
  }

  lemma ListKeepsInv(s: State, due: seq<string>)
    requires Inv(s) && Enabled(s, ListDue(due))
    ensures Inv(Apply(s, ListDue(due)))
  {
    assert s.log + s.batch == s.log;
  }

  lemma HeadLeaves(log: seq<string>, batch: seq<string>)
    requires Distinct(log + batch) && batch != []
    ensures (log + [batch[0]]) + batch[1..] == log + batch
    ensures batch[0] !in log && batch[0] !in batch[1..]
    ensures forall id :: id in batch <==> id == batch[0] || id in batch[1..]
  {
    var all := log + batch;
    forall i | 0 <= i < |log| ensures log[i] != batch[0] {
      assert all[i] != all[|log|];
    }
    forall i | 0 <= i < |batch| - 1 ensures batch[1..][i] != batch[0] {
      assert all[|log|] != all[|log| + 1 + i];
    }
    assert batch == [batch[0]] + batch[1..];
  }

  lemma AttemptKeepsInv(s: State, ok: bool)
    requires Inv(s) && Enabled(s, Attempt(ok))
    ensures Inv(Apply(s, Attempt(ok)))
  {
    HeadLeaves(s.log, s.batch);
    assert Taken(Apply(s, Attempt(ok))) == Taken(s);
  }

  lemma StepKeepsInv(s: State, a: Action)
    requires Inv(s) && Enabled(s, a)
    ensures Inv(Apply(s, a))
  {
    match a
    case ListDue(due) => ListKeepsInv(s, due);
    case Attempt(ok) => AttemptKeepsInv(s, ok);
    case _ => assert Taken(Apply(s, a)) == Taken(s);
  }

  lemma StepsKeepInv()
    ensures forall s, a, t :: Inv(s) && Steps(s, a, t) ==> Inv(t)
  {
    forall s, a, t | Inv(s) && Steps(s, a, t) ensures Inv(t) {
      StepKeepsInv(s, a);
    }
  }

  /** In every run changes are attempted in the order of their scheduled times, each at most once and never early. */
  lemma AttemptsAreOrderedAndUnique(run: seq<Action>, t: State)
    requires Runs(Steps, START, run, t)
    ensures InOrder(t.table, t.log) && Distinct(t.log)
    ensures forall id :: id in t.log ==> t.table[id].scheduledFor <= t.now && t.table[id].status != Pending
  {
    StepsKeepInv();
    RunsKeep(Steps, Inv, START, run, t);
    TakenStartsWithLog(t);
  }

  lemma TakenStartsWithLog(s: State)
    requires Inv(s)
    ensures InOrder(s.table, s.log) && Distinct(s.log)
    ensures forall id :: id in s.log ==> s.table[id].scheduledFor <= s.now
  {
    forall i, j | 0 <= i < j < |s.log|
      ensures s.log[i] != s.log[j] && s.table[s.log[i]].scheduledFor <= s.table[s.log[j]].scheduledFor
    {
      assert Taken(s)[i] == s.log[i] && Taken(s)[j] == s.log[j];
    }
    forall id | id in s.log ensures s.table[id].scheduledFor <= s.now {
      assert id in Taken(s);
    }
  }

  /** Once a change is applied, failed or cancelled it stays so, whatever happens next. */
  lemma FinalStatusStays(s: State, run: seq<Action>, t: State, id: string)
    requires Runs(Steps, s, run, t) && id in s.table && s.table[id].status != Pending
    ensures id in t.table && t.table[id] == s.table[id]
  {
    RunsKeep(Steps, (x: State) => id in x.table && x.table[id] == s.table[id], s, run, t);
  }

  /** An attempt of a pending change makes it applied if it succeeds and failed if not, for good, and touches no
      other. */
  lemma AttemptDecidesStatus(s: State, ok: bool, run: seq<Action>, t: State)
    requires Enabled(s, Attempt(ok)) && Runs(Steps, Apply(s, Attempt(ok)), run, t)
    requires s.batch[0] in s.table && s.table[s.batch[0]].status == Pending
    ensures s.batch[0] in t.table &&
              t.table[s.batch[0]] == s.table[s.batch[0]].(status := if ok then Applied else Failed)
    ensures forall id :: id in s.table && id != s.batch[0] ==> id in Apply(s, Attempt(ok)).table
    ensures forall id :: id in s.table && id != s.batch[0] ==> Apply(s, Attempt(ok)).table[id] == s.table[id]
  {
    FinalStatusStays(Apply(s, Attempt(ok)), run, t, s.batch[0]);
  }

  /** Listed or attempted. */
  ghost predicate IsTaken(s: State, id: string) {
    id in s.batch || id in s.log
  }

  lemma TakenStaysTaken(s: State, run: seq<Action>, t: State, id: string)
    requires Runs(Steps, s, run, t) && IsTaken(s, id)
    ensures IsTaken(t, id)
  {
    forall x, a, y | IsTaken(x, id) && Steps(x, a, y) ensures IsTaken(y, id) {
      if a.Attempt? && id in x.batch {
        assert x.batch == [x.batch[0]] + x.batch[1..];
      }
    }
    RunsKeep(Steps, (x: State) => IsTaken(x, id), s, run, t);
  }

  ghost predicate IsOut(s: State, id: string) {
    id in s.table && s.table[id].status == Cancelled && !IsTaken(s, id)
  }

  lemma CancelledStaysOut(s: State, run: seq<Action>, t: State, id: string)
    requires Runs(Steps, s, run, t) && IsOut(s, id)
    ensures IsOut(t, id)
  {
    RunsKeep(Steps, (x: State) => IsOut(x, id), s, run, t);
  }

  /** A cancelled change keeps its status, and is attempted all the same exactly when the scheduler had already
      listed it: later, at any moment between ticks, its attempt is in the log or never will be. */
  lemma CancelledIsAttemptedExactlyIfListed(before: seq<Action>, s: State, id: string, after: seq<Action>, t: State)
    requires Runs(Steps, START, before, s) && Enabled(s, Cancel(id))
    requires Runs(Steps, Apply(s, Cancel(id)), after, t) && t.batch == []
    ensures id in t.table && t.table[id].status == Cancelled
    ensures id in t.log <==> id in s.batch
  {
    StepsKeepInv();
    RunsKeep(Steps, Inv, START, before, s);
    var cancelled := Apply(s, Cancel(id));
    FinalStatusStays(cancelled, after, t, id);
    if id in s.batch {
      TakenStaysTaken(cancelled, after, t, id);
    } else {
      CancelledStaysOut(cancelled, after, t, id);
    }
  }

  /** A run in which a change is scheduled, falls due and is listed. */
  lemma ChangeIsListed(work: Work) returns (run: seq<Action>, t: State)
    requires work.list != []
    ensures Runs(Steps, START, run, t) && t == State(1, map["c" := Change(1, Pending, work)], ["c"], [])
  {
    NoStep(Steps, START);
    var s1 := Apply(START, Schedule("c", 1, work));
    run := GoOn(Steps, START, [], START, Schedule("c", 1, work), s1);
    var s2 := State(1, map["c" := Change(1, Pending, work)], [], []);
    run := GoOn(Steps, START, run, s1, Advance(1), s2);
    assert IsDue(s2.table, 1, "c") && forall id :: IsDue(s2.table, 1, id) ==> id == "c";
    t := Apply(s2, ListDue(["c"]));
    run := GoOn(Steps, START, run, s2, ListDue(["c"]), t);
  }

  /** A run in which it is then cancelled, and attempted all the same. */
  lemma CancelledChangeIsApplied(work: Work) returns (run: seq<Action>, t: State)
    requires work.list != []
    ensures Runs(Steps, START, run, t)
    ensures t.batch == [] && t.log == ["c"] && t.table == map["c" := Change(1, Cancelled, work)]
  {
    var listed;
    run, listed := ChangeIsListed(work);
    var cancelled := Apply(listed, Cancel("c"));
    run := GoOn(Steps, START, run, listed, Cancel("c"), cancelled);
    t := Apply(cancelled, Attempt(true));
    run := GoOn(Steps, START, run, cancelled, Attempt(true), t);
  }

  // ----- draining a backlog -----

  ghost function DueSet(table: Table, now: int): set<string> {
    set id | id in table && IsDue(table, now, id)
  }

  lemma {:induction false} DistinctSize(s: seq<string>)
    requires Distinct(s)
    ensures |set id | id in s| == |s|
  {
    if s != [] {
      var init := s[..|s| - 1];
      DistinctSize(init);
      assert (set id | id in s) == (set id | id in init) + {s[|s| - 1]};
    }
  }

  /** What a tick does to the table when nothing comes between its attempts. */
  function MarkedAll(table: Table, due: seq<string>, oks: seq<bool>): Table
    requires |oks| == |due|
  {
    if due == [] then table
    else Marked(MarkedAll(table, due[..|due| - 1], oks[..|due| - 1]), due[|due| - 1], oks[|due| - 1])
  }

  lemma {:induction false} MarkingTakesOutOfDue(table: Table, due: seq<string>, oks: seq<bool>, now: int)
    requires |oks| == |due| && forall id :: id in due ==> IsDue(table, now, id)
    ensures MarkedAll(table, due, oks).Keys == table.Keys
    ensures forall id :: id in table && id !in due ==> MarkedAll(table, due, oks)[id] == table[id]
    ensures forall id :: id in due ==> id in table && MarkedAll(table, due, oks)[id].status in {Applied, Failed}
  {
    if due != [] {
      var n := |due| - 1;
      assert due == due[..n] + [due[n]];
      assert due[n] in due;
      MarkingTakesOutOfDue(table, due[..n], oks[..n], now);
    }
  }

  /** One tick takes as many due changes as it can. */
  lemma TickTakesBatch(table: Table, now: int, due: seq<string>, oks: seq<bool>)
    requires DueAnswer(table, now, BATCH_SIZE, due) && |oks| == |due|
    ensures var n := |DueSet(table, now)|;
            |DueSet(MarkedAll(table, due, oks), now)| == if n <= BATCH_SIZE then 0 else n - BATCH_SIZE
  {
    var taken, after := (set id | id in due), MarkedAll(table, due, oks);
    MarkingTakesOutOfDue(table, due, oks, now);
    DistinctSize(due);
    assert taken <= DueSet(table, now);
    assert DueSet(after, now) == DueSet(table, now) - taken;
    if |due| < BATCH_SIZE {
      assert DueSet(table, now) == taken;
    }
  }

  /** The changes due by `moment` that are neither listed nor attempted nor cancelled. */
  ghost function Waiting(s: State, moment: int): set<string> {
    set id | id in s.table && IsDue(s.table, moment, id) && id !in s.batch
  }

  ghost function CountOf(run: seq<Action>, p: Action -> bool): nat {
    if run == [] then 0 else CountOf(Front(run), p) + if p(Last(run)) then 1 else 0
  }

  const IS_TICK := (a: Action) => a.ListDue?
  const IS_CANCEL := (a: Action) => a.Cancel?

  function AtLeastZero(n: int): nat {
    if n < 0 then 0 else n
  }

  /** A listing takes the soonest: those that have waited since `moment` come before all others. */
  lemma ListingServesWaiting(s: State, due: seq<string>, moment: int)
    requires Enabled(s, ListDue(due)) && moment <= s.now
    ensures var w, left := |Waiting(s, moment)|, |Waiting(Apply(s, ListDue(due)), moment)|;
            left == AtLeastZero(w - BATCH_SIZE)
    ensures Waiting(Apply(s, ListDue(due)), moment) <= Waiting(s, moment)
  {
    var before, after, taken := Waiting(s, moment), Waiting(Apply(s, ListDue(due)), moment), set id | id in due;
    DistinctSize(due);
    assert after == before - taken;
    if after != {} {
      var id :| id in after;
      assert IsDue(s.table, s.now, id) && id !in due;
      assert taken <= before;
    } else {
      forall id | id in before ensures id in taken {
        assert id !in after;
      }
      assert before <= taken && |before| <= |taken| + |before - taken|;
    }
  }

  /** Nothing else lists anything, and only a cancellation can take away from what waits; nothing is added to it. */
  lemma OthersLeaveWaiting(s: State, a: Action, moment: int)
    requires Enabled(s, a) && !a.ListDue? && moment <= s.now
    ensures var t := Apply(s, a);
            && Waiting(t, moment) <= Waiting(s, moment)
            && |Waiting(t, moment)| <= |Waiting(s, moment)|
            && |Waiting(s, moment)| <= |Waiting(t, moment)| + if a.Cancel? then 1 else 0
  {
    var t := Apply(s, a);
    assert Waiting(t, moment) <= Waiting(s, moment);
    if a.Cancel? {
      assert Waiting(t, moment) == Waiting(s, moment) - {a.id};
    } else {
      assert Waiting(t, moment) == Waiting(s, moment);
    }
  }

  /** Of `n` changes, `k` ticks and `c` cancellations leave this many. */
  ghost predicate Leaves(n: nat, k: nat, c: nat, left: nat) {
    AtLeastZero(n - k * BATCH_SIZE - c) <= left <= AtLeastZero(n - k * BATCH_SIZE)
  }

  lemma StepLeaves(s: State, a: Action, moment: int)
    requires Enabled(s, a) && moment <= s.now
    ensures Waiting(Apply(s, a), moment) <= Waiting(s, moment)
    ensures var k, c := if a.ListDue? then 1 else 0, if a.Cancel? then 1 else 0;
            Leaves(|Waiting(s, moment)|, k, c, |Waiting(Apply(s, a), moment)|)
  {
    if a.ListDue? {
      ListingServesWaiting(s, a.due, moment);
    } else {
      OthersLeaveWaiting(s, a, moment);
    }
  }

  lemma LeavesAdds(n: nat, k: nat, c: nat, mid: nat, k': nat, c': nat, left: nat)
    requires Leaves(n, k, c, mid) && Leaves(mid, k', c', left)
    ensures Leaves(n, k + k', c + c', left)
  {
  }

  /** Of n changes waiting at some moment, k later ticks leave at most n - 100 k, whatever is scheduled, cancelled or
      falls due in between; and exactly that many when nothing is cancelled. */
  lemma {:induction false} BacklogDrainsExactly(s: State, run: seq<Action>, t: State)
    requires Runs(Steps, s, run, t)
    ensures s.now <= t.now && Waiting(t, s.now) <= Waiting(s, s.now)
    ensures Leaves(|Waiting(s, s.now)|, CountOf(run, IS_TICK), CountOf(run, IS_CANCEL), |Waiting(t, s.now)|)
    decreases |run|
  {
    if run != [] {
      var mid :| Runs(Steps, s, Front(run), mid) && Steps(mid, Last(run), t);
      BacklogDrainsExactly(s, Front(run), mid);
      OneStepLeaves(
        |Waiting(s, s.now)|, CountOf(Front(run), IS_TICK), CountOf(Front(run), IS_CANCEL), mid, Last(run), s.now);
    }
  }

  lemma OneStepLeaves(n: nat, k: nat, c: nat, s: State, a: Action, moment: int)
    requires Enabled(s, a) && moment <= s.now && Leaves(n, k, c, |Waiting(s, moment)|)
    ensures moment <= Apply(s, a).now && Waiting(Apply(s, a), moment) <= Waiting(s, moment)
    ensures Leaves(
              n, k + if IS_TICK(a) then 1 else 0, c + if IS_CANCEL(a) then 1 else 0, |Waiting(Apply(s, a), moment)|)
  {
    StepLeaves(s, a, moment);
    LeavesAdds(
      n, k, c, |Waiting(s, moment)|,
      if a.ListDue? then 1 else 0, if a.Cancel? then 1 else 0, |Waiting(Apply(s, a), moment)|);
  }

  /** So once k ticks can hold them, and the last batch is done, none of the changes that were waiting is pending; and
      without cancellations not before. */
  lemma NobodyWaitsLonger(s: State, run: seq<Action>, t: State)
    requires Runs(Steps, s, run, t)
    ensures |Waiting(s, s.now)| <= CountOf(run, IS_TICK) * 100 && t.batch == [] ==>
              forall id :: id in t.table && t.table[id].status == Pending ==> t.table[id].scheduledFor > s.now
    ensures CountOf(run, IS_CANCEL) == 0 && Waiting(t, s.now) == {} ==>
              |Waiting(s, s.now)| <= CountOf(run, IS_TICK) * 100
  {
    BacklogDrainsExactly(s, run, t);
    if |Waiting(s, s.now)| <= CountOf(run, IS_TICK) * 100 && t.batch == [] {
      forall id | id in t.table && t.table[id].status == Pending ensures t.table[id].scheduledFor > s.now {
        assert id !in Waiting(t, s.now);
      }
    }
  }

  // ----- what a tick does to the flags -----

  /** Applies the work of a change: the flag is looked up by its key, then its configuration is patched. */
  ghost function Done(db: FS.Tables, flagIds: map<string, string>, work: Work, ids: seq<string>): (FS.Tables, bool)
    requires |ids| == |work.list|
  {
    if work.flagKey !in flagIds then (db, false)
    else
      var (after, outcome) := FS.Patch(db, (flagIds[work.flagKey], work.env), work.list, ids);
      (after, outcome.Saved?)
  }

  /** The work of a change fails if there is no flag of the key, and otherwise patches that flag in that environment and
      nothing else. */
  lemma WorkTouchesOneRow(db: FS.Tables, flagIds: map<string, string>, work: Work, ids: seq<string>)
    requires |ids| == |work.list|
    ensures var (after, ok) := Done(db, flagIds, work, ids);
            && after.variations == db.variations
            && (!ok ==> after == db)
            && (ok ==>
                  && work.flagKey in flagIds
                  && var at := (flagIds[work.flagKey], work.env);
                     && at in db.rows && at in after.rows && after.rows - {at} == db.rows - {at}
                     && Fold(db.rows[at].config, work.list, ids) == Ok(after.rows[at].config))
  {
    if work.flagKey in flagIds {
      FS.PatchIsAllOrNothing(db, (flagIds[work.flagKey], work.env), work.list, ids);
    }
  }

  /** Every listed change has ids enough for the rules it may add. */
  ghost predicate HasIds(table: Table, due: seq<string>, ids: seq<seq<string>>) {
    && |ids| == |due|
    && forall i :: 0 <= i < |due| ==> due[i] in table && |ids[i]| == |table[due[i]].work.list|
  }

  /** The flag tables after the listed changes have been attempted in order. */
  ghost function FlagsAfter(
      table: Table, db: FS.Tables, flagIds: map<string, string>, due: seq<string>, ids: seq<seq<string>>): FS.Tables
    requires HasIds(table, due, ids)
    decreases |due|
  {
    if due == [] then db
    else
      var last := |due| - 1;
      Done(FlagsAfter(table, db, flagIds, due[..last], ids[..last]), flagIds, table[due[last]].work, ids[last]).0
  }

  /** Whether each of them succeeded. */
  ghost function Outcomes(
      table: Table, db: FS.Tables, flagIds: map<string, string>, due: seq<string>,
      ids: seq<seq<string>>): (oks: seq<bool>)
    requires HasIds(table, due, ids)
    ensures |oks| == |due|
    decreases |due|
  {
    if due == [] then []
    else
      var last := |due| - 1;
      Outcomes(table, db, flagIds, due[..last], ids[..last])
        + [Done(FlagsAfter(table, db, flagIds, due[..last], ids[..last]), flagIds, table[due[last]].work, ids[last]).1]
  }

  /** The flag tables when the first `i` of the listed changes have been attempted. */
  ghost function FlagsAt(
      table: Table, db: FS.Tables, flagIds: map<string, string>, due: seq<string>, ids: seq<seq<string>>,
      i: nat): FS.Tables
    requires HasIds(table, due, ids) && i <= |due|
  {
    FlagsAfter(table, db, flagIds, due[..i], ids[..i])
  }

  /** The change is applied if its attempt had an effect on the flags, and failed if it had none. */
  ghost predicate MarkedByEffect(
      was: Table, now: Table, db: FS.Tables, flagIds: map<string, string>, due: seq<string>, ids: seq<seq<string>>,
      i: nat)
    requires HasIds(was, due, ids) && i < |due|
  {
    var before, after := FlagsAt(was, db, flagIds, due, ids, i), FlagsAt(was, db, flagIds, due, ids, i + 1);
    due[i] in now && now[due[i]].status == if after == before then Failed else Applied
  }

  /** After a tick that marks changes by their outcomes, each of them that was pending is marked by its effect. */
  lemma TickMarksByEffect(
      table: Table, db: FS.Tables, flagIds: map<string, string>, due: seq<string>, ids: seq<seq<string>>, i: nat)
    requires HasIds(table, due, ids) && Distinct(due) && i < |due| && table[due[i]].status == Pending
    ensures MarkedByEffect(table, MarkedAll(table, due, Outcomes(table, db, flagIds, due, ids)), db, flagIds, due, ids,
              i)
  {
    var oks := Outcomes(table, db, flagIds, due, ids);
    MarkedOnce(table, due, oks, i);
    OutcomeAt(table, db, flagIds, due, ids, i);
    assert due[..i + 1][..i] == due[..i] && ids[..i + 1][..i] == ids[..i];
    OutcomeIsEffect(FlagsAt(table, db, flagIds, due, ids, i), flagIds, table[due[i]].work, ids[i]);
  }

  lemma {:induction false} MarkedOnce(table: Table, due: seq<string>, oks: seq<bool>, i: nat)
    requires |oks| == |due| && Distinct(due) && i < |due| && due[i] in table && table[due[i]].status == Pending
    ensures due[i] in MarkedAll(table, due, oks)
    ensures MarkedAll(table, due, oks)[due[i]] == table[due[i]].(status := if oks[i] then Applied else Failed)
  {
    var n := |due| - 1;
    if i < n {
      MarkedOnce(table, due[..n], oks[..n], i);
    } else {
      NotMarked(table, due[..n], oks[..n], due[n]);
    }
  }

  lemma {:induction false} NotMarked(table: Table, due: seq<string>, oks: seq<bool>, id: string)
    requires |oks| == |due| && id !in due && id in table
    ensures id in MarkedAll(table, due, oks) && MarkedAll(table, due, oks)[id] == table[id]
  {
    if due != [] {
      NotMarked(table, due[..|due| - 1], oks[..|due| - 1], id);
    }
  }

  lemma {:induction false} OutcomeAt(
      table: Table, db: FS.Tables, flagIds: map<string, string>, due: seq<string>, ids: seq<seq<string>>, i: nat)
    requires HasIds(table, due, ids) && i < |due|
    ensures Outcomes(table, db, flagIds, due, ids)[i]
         == Done(FlagsAt(table, db, flagIds, due, ids, i), flagIds, table[due[i]].work, ids[i]).1
    decreases |due|
  {
    var n := |due| - 1;
    if i < n {
      OutcomeAt(table, db, flagIds, due[..n], ids[..n], i);
      assert due[..n][..i] == due[..i] && ids[..n][..i] == ids[..i] && due[..n][i] == due[i] && ids[..n][i] == ids[i];
      assert Outcomes(table, db, flagIds, due, ids)[i] == Outcomes(table, db, flagIds, due[..n], ids[..n])[i];
    }
  }

  /** A failed change leaves the flags alone, and no change makes them unacceptable. */
  lemma DoneKeepsAccepted(db: FS.Tables, flagIds: map<string, string>, work: Work, ids: seq<string>)
    requires |ids| == |work.list| && FS.Accepted(db)
    ensures var (after, ok) := Done(db, flagIds, work, ids); FS.Accepted(after) && (ok <==> after != db)
  {
    if work.flagKey in flagIds {
      var key := (flagIds[work.flagKey], work.env);
      FS.PerformingKeepsAccepted(db, FS.PatchRequest(key, work.list, ids));
      FS.PatchIsAllOrNothing(db, key, work.list, ids);
    }
  }

  lemma {:induction false} TickKeepsAccepted(
      table: Table, db: FS.Tables, flagIds: map<string, string>, due: seq<string>, ids: seq<seq<string>>)
    requires HasIds(table, due, ids) && FS.Accepted(db)
    ensures FS.Accepted(FlagsAfter(table, db, flagIds, due, ids))
    decreases |due|
  {
    if due != [] {
      var last := |due| - 1;
      TickKeepsAccepted(table, db, flagIds, due[..last], ids[..last]);
      DoneKeepsAccepted(FlagsAfter(table, db, flagIds, due[..last], ids[..last]), flagIds, table[due[last]].work,
          ids[last]);
    }
  }

  // ----- the program -----

  datatype Refusal = NotRefused | NoInstructions | ScheduledInPast

  class ChangeStore {
    var table: Table

    method CreateScheduledChange(id: string, scheduledFor: int, work: Work)
      requires id !in table
      modifies this
      ensures table == old(table)[id := Change(scheduledFor, Pending, work)]
    {
      table := table[id := Change(scheduledFor, Pending, work)];
    }

    /** Cancels a pending change; reports when there is none with the id. */
    method CancelScheduledChange(id: string) returns (found: bool)
      modifies this
      ensures found == (id in old(table) && old(table)[id].status == Pending)
      ensures table == if found then old(table)[id := old(table)[id].(status := Cancelled)] else old(table)
    {
      found := id in table && table[id].status == Pending;
      if found {
        table := table[id := table[id].(status := Cancelled)];
      }
    }

    method MarkApplied(id: string) returns (found: bool)
      modifies this
      ensures found == (id in old(table) && old(table)[id].status == Pending)
      ensures table == Marked(old(table), id, true)
    {
      found := id in table && table[id].status == Pending;
      if found {
        table := table[id := table[id].(status := Applied)];
      }
    }

    method MarkFailed(id: string)
      modifies this
      ensures table == Marked(old(table), id, false)
    {
      if id in table && table[id].status == Pending {
        table := table[id := table[id].(status := Failed)];
      }
    }

    /** Schedules a change under a new id; a change without instructions and a time not in the future are refused. */
    method ScheduleChange(now: int, id: string, scheduledFor: int, work: Work) returns (error: Refusal)
      requires id !in table
      modifies this
      ensures error ==
              if work.list == [] then Refusal.NoInstructions
              else if scheduledFor <= now then ScheduledInPast
              else NotRefused
      ensures table == if error == NotRefused then old(table)[id := Change(scheduledFor, Pending, work)] else old(table)
    {
      if |work.list| == 0 {
        return Refusal.NoInstructions;
      }
      if scheduledFor <= now {
        return ScheduledInPast;
      }
      CreateScheduledChange(id, scheduledFor, work);
      return NotRefused;
    }

    /** One undisturbed tick: `due` is the answer of the due query, `ids[i]` the rule ids drawn for change i. */
    method ApplyDue(due: seq<string>, store: FS.Store, flagIds: map<string, string>, ids: seq<seq<string>>)
      requires HasIds(table, due, ids)
      modifies this, store`rows
      ensures store.Db() == FlagsAfter(old(table), old(store.Db()), flagIds, due, ids)
      ensures table == MarkedAll(old(table), due, Outcomes(old(table), old(store.Db()), flagIds, due, ids))
      ensures Distinct(due) ==>
                forall i :: 0 <= i < |due| && old(table)[due[i]].status == Pending ==>
                  MarkedByEffect(old(table), table, old(store.Db()), flagIds, due, ids, i)
    {
      ghost var was, db := table, store.Db();
      for i := 0 to |due|
        invariant Through(was, db, flagIds, due, ids, i, table, store.Db())
      {
        OneMoreDue(was, db, flagIds, due, ids, i, table, store.Db());
        AttemptDue(due[i], store, flagIds, ids[i]);
      }
      assert due[..|due|] == due && ids[..|ids|] == ids;
      if Distinct(due) {
        forall i | 0 <= i < |due| && was[due[i]].status == Pending
          ensures MarkedByEffect(was, table, db, flagIds, due, ids, i)
        {
          TickMarksByEffect(was, db, flagIds, due, ids, i);
        }
      }
    }

    /** The body of the loop over the due changes. */
    method AttemptDue(id: string, store: FS.Store, flagIds: map<string, string>, ids: seq<string>)
      requires id in table && |ids| == |table[id].work.list|
      modifies this, store`rows
      ensures var (after, ok) := Done(old(store.Db()), flagIds, old(table)[id].work, ids);
              store.Db() == after && table == Marked(old(table), id, ok)
      ensures old(table)[id].status == Pending ==>
                table == old(table)[id := old(table)[id].(
                           status := if store.Db() != old(store.Db()) then Applied else Failed)]
      ensures old(table)[id].status != Pending ==> table == old(table)
    {
      OutcomeIsEffect(store.Db(), flagIds, table[id].work, ids);
      var ok := ApplyWork(store, flagIds, table[id].work, ids);
      if !ok {
        MarkFailed(id);
        return;
      }
      var found := MarkApplied(id);
    }
  }

  /** A change has an effect on the flags exactly if it succeeds. */
  lemma OutcomeIsEffect(db: FS.Tables, flagIds: map<string, string>, work: Work, ids: seq<string>)
    requires |ids| == |work.list|
    ensures var (after, ok) := Done(db, flagIds, work, ids); ok <==> after != db
  {
    if work.flagKey in flagIds {
      FS.PatchIsAllOrNothing(db, (flagIds[work.flagKey], work.env), work.list, ids);
    }
  }

  method ApplyWork(store: FS.Store, flagIds: map<string, string>, work: Work, ids: seq<string>) returns (ok: bool)
    requires |ids| == |work.list|
    modifies store`rows
    ensures (store.Db(), ok) == Done(old(store.Db()), flagIds, work, ids)
  {
    if work.flagKey !in flagIds {
      return false;
    }
    var outcome, _ := store.PatchFlagConfig((flagIds[work.flagKey], work.env), work.list, ids);
    return outcome.Saved?;
  }

  /** Where a tick is after its first `i` changes. */
  ghost predicate Through(
      was: Table, db: FS.Tables, flagIds: map<string, string>, due: seq<string>, ids: seq<seq<string>>, i: nat,
      table: Table, flags: FS.Tables)
    requires HasIds(was, due, ids)
  {
    && i <= |due|
    && flags == FlagsAfter(was, db, flagIds, due[..i], ids[..i])
    && table == MarkedAll(was, due[..i], Outcomes(was, db, flagIds, due[..i], ids[..i]))
    && table.Keys == was.Keys && forall id :: id in was ==> table[id].work == was[id].work
  }

  lemma OneMoreDue(
      was: Table, db: FS.Tables, flagIds: map<string, string>, due: seq<string>, ids: seq<seq<string>>, i: nat,
      table: Table, flags: FS.Tables)
    requires HasIds(was, due, ids) && i < |due| && Through(was, db, flagIds, due, ids, i, table, flags)
    ensures due[i] in table && table[due[i]].work == was[due[i]].work
    ensures var (after, ok) := Done(flags, flagIds, was[due[i]].work, ids[i]);
            Through(was, db, flagIds, due, ids, i + 1, Marked(table, due[i], ok), after)
  {
    assert due[..i + 1][..i] == due[..i] && ids[..i + 1][..i] == ids[..i];
    var oks := Outcomes(was, db, flagIds, due[..i + 1], ids[..i + 1]);
    assert oks[..i] == Outcomes(was, db, flagIds, due[..i], ids[..i]);
  }
}
