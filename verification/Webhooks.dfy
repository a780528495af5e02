// Webhook deliveries: at most five attempts, spaced by an exponential backoff computed in 64-bit integers.
module Webhooks {
  import opened Models
  import opened Int64
  import opened Text
  import opened Lists

  const SECOND: int := 1_000_000_000
  const MAX_ATTEMPTS: nat := 5
  const MAX_BACKOFF: int := 600 * SECOND

  function Pow2(n: nat): (p: nat)
    ensures p > 0
  {
    if n == 0 then 1 else 2 * Pow2(n - 1)
  }

  /** A left shift of a signed 64-bit value: high bits are lost, and counts of 64 and more leave nothing. */
  function ShiftLeft64(x: int, count: nat): int {
    Wrap64(x * Pow2(count))
  }

  /** The delay, in nanoseconds, before retry `attempt` (from 1). */
  function Backoff(attempt: nat): int
    requires attempt >= 1
  {
    var d := ShiftLeft64(30 * SECOND, attempt - 1);
    if d > MAX_BACKOFF || d <= 0 then MAX_BACKOFF else d
  }

  function Min(a: int, b: int): int {
    if a < b then a else b
  }

  // ----- the shift may overflow, but never into a delay that would be believed -----

  lemma {:induction false} Pow2Adds(a: nat, b: nat)
    ensures Pow2(a + b) == Pow2(a) * Pow2(b)
  {
    if a > 0 {
      Pow2Adds(a - 1, b);
      assert Pow2(a + b) == 2 * Pow2(a - 1 + b);
      assert Pow2(a) * Pow2(b) == 2 * (Pow2(a - 1) * Pow2(b));
    }
  }

  lemma Pow2At30()
    ensures Pow2(4) == 16 && Pow2(5) == 32 && Pow2(10) == 1024 && Pow2(30) == 0x4000_0000
  {
    assert Pow2(5) == 32;
    Pow2Adds(5, 5);
    Pow2Adds(10, 10);
    Pow2Adds(20, 10);
  }

  lemma {:induction false} Pow2Grows(a: nat, b: nat)
    requires a <= b
    ensures Pow2(a) <= Pow2(b)
  {
    if a < b {
      Pow2Grows(a, b - 1);
    }
  }

  /** 30 seconds is an odd multiple of 2^10 nanoseconds, so after 30 shifts only multiples of 2^40 are left,
      and 2^40 nanoseconds already exceed the cap. */
  lemma WrapOfMultiple(m: int)
    ensures Wrap64(0x100_0000_0000 * m) <= 0 || Wrap64(0x100_0000_0000 * m) > MAX_BACKOFF
  {
    var x := 0x100_0000_0000 * m;
    var q := (x + TWO_63) / TWO_64;
    assert Wrap64(x) == x - TWO_64 * q;
    assert TWO_64 == 0x100_0000_0000 * 0x100_0000;
    assert Wrap64(x) == 0x100_0000_0000 * (m - 0x100_0000 * q);
  }

  lemma ManyShiftsAreNotBelieved(count: nat)
    requires count >= 30
    ensures var d := ShiftLeft64(30 * SECOND, count); d <= 0 || d > MAX_BACKOFF
  {
    Pow2Adds(30, count - 30);
    Pow2At30();
    var k := Pow2(count - 30);
    assert 30 * SECOND == 0x400 * 29296875;
    assert 30 * SECOND * Pow2(count) == 30 * SECOND * (0x4000_0000 * k);
    assert 30 * SECOND * (0x4000_0000 * k) == 0x100_0000_0000 * (29296875 * k);
    WrapOfMultiple(29296875 * k);
  }

  /** For every attempt, however far the shift overflows, the delay is 30 seconds doubled each time, capped at ten
      minutes. */
  lemma BackoffIsCappedDoubling(attempt: nat)
    requires attempt >= 1
    ensures Backoff(attempt) == Min(30 * SECOND * Pow2(attempt - 1), MAX_BACKOFF)
  {
    var count := attempt - 1;
    Pow2At30();
    if count >= 30 {
      ManyShiftsAreNotBelieved(count);
      Pow2Grows(30, count);
    } else if count <= 4 {
      Pow2Grows(count, 4);
    } else {
      Pow2Grows(5, count);
      Pow2Grows(count, 29);
      assert Pow2(30) == 2 * Pow2(29);
    }
  }

  // ----- one delivery over its whole life -----

  datatype Status = Pending | Success | Failed

  /** What a send came back with: an HTTP status, or no response. */
  datatype Response = Answered(status: int) | NoAnswer(problem: string)

  /** `sends` is a record of when the payload was sent. */
  datatype Delivery = Delivery(
    status: Status, attempts: nat, nextAttemptAt: int,
    responseStatus: int, error: string, deliveredAt: Option<int>, sends: seq<int>)

  predicate Accepted(r: Response) {
    r.Answered? && 200 <= r.status < 300
  }

  function StatusOf(r: Response): int {
    if r.Answered? then r.status else 0
  }

  function ProblemOf(r: Response): string {
    match r
    case Answered(status) => "status " + Itoa(status)
    case NoAnswer(problem) => problem
  }

  function Finalized(d: Delivery, status: Status, responseStatus: int, error: string, now: int): Delivery {
    d.(status := status, responseStatus := responseStatus, error := error, deliveredAt := Some(now),
        nextAttemptAt := now)
  }

  /** One attempt: sent at `now`, answered by `after`. */
  function Attempted(d: Delivery, webhookExists: bool, now: int, after: int, r: Response): Delivery {
    if !webhookExists then Finalized(d, Failed, 0, "webhook not found", after)
    else
      var sent := d.(attempts := d.attempts + 1, sends := d.sends + [now]);
      if Accepted(r) then Finalized(sent, Success, r.status, "", after)
      else if sent.attempts >= MAX_ATTEMPTS then Finalized(sent, Failed, StatusOf(r), ProblemOf(r), after)
      else
        sent.(status := Pending, responseStatus := StatusOf(r), error := ProblemOf(r),
              nextAttemptAt := after + Backoff(sent.attempts))
  }

  datatype Event = Event(webhookExists: bool, now: int, after: int, response: Response)

  function AfterEvent(d: Delivery, e: Event): Delivery {
    Attempted(d, e.webhookExists, e.now, e.after, e.response)
  }

  /** The deliverer attempts a delivery only when it is pending and due. */
  ghost predicate Due(d: Delivery, now: int) {
    d.status == Pending && d.nextAttemptAt <= now
  }

  /** A life: attempts in the order they happen, each of a due delivery, on a clock that does not run backwards. */
  ghost predicate Life(events: seq<Event>, d: Delivery)
    decreases |events|
  {
    if events == [] then d.status == Pending && d.attempts == 0 && d.sends == []
    else
      var e := events[|events| - 1];
      exists before ::
        && Life(Earlier(events), before)
        && Due(before, e.now) && e.now <= e.after
        && d == AfterEvent(before, e)
  }

  ghost function Earlier(events: seq<Event>): seq<Event>
    requires events != []
  {
    events[..|events| - 1]
  }

  ghost predicate Spaced(sends: seq<int>) {
    forall i :: 0 <= i < |sends| - 1 ==> sends[i + 1] - sends[i] >= Backoff(i + 1)
  }

  ghost predicate Inv(d: Delivery) {
    && |d.sends| == d.attempts <= MAX_ATTEMPTS
    && Spaced(d.sends)
    && (d.status == Pending ==> d.attempts < MAX_ATTEMPTS)
    && (d.status == Pending && d.attempts > 0 ==> d.nextAttemptAt >= d.sends[d.attempts - 1] + Backoff(d.attempts))
    && (d.status == Success ==> d.attempts > 0)
  }

  lemma AttemptKeepsInv(d: Delivery, e: Event)
    requires Inv(d) && Due(d, e.now) && e.now <= e.after
    ensures Inv(AfterEvent(d, e))
  {
  }

  lemma {:induction false} EveryLifeKeepsInv(events: seq<Event>, d: Delivery)
    requires Life(events, d)
    ensures Inv(d) && |events| >= d.attempts
    decreases |events|
  {
    if events != [] {
      var e := events[|events| - 1];
      var before :| Life(Earlier(events), before) && Due(before, e.now) && e.now <= e.after
                    && d == AfterEvent(before, e);
      EveryLifeKeepsInv(Earlier(events), before);
      AttemptKeepsInv(before, e);
    }
  }

  /** In every life the payload is sent at most five times; a fifth send comes at least 450 seconds after the
      first; and a delivery that has succeeded or failed is never attempted again. */
  lemma EveryLifeIsBounded(events: seq<Event>, d: Delivery)
    requires Life(events, d)
    ensures |d.sends| <= 5
    ensures |d.sends| == 5 ==> d.sends[4] - d.sends[0] >= 450 * SECOND
    ensures |d.sends| == 5 ==> d.status != Pending
    ensures d.status != Pending ==> forall now :: !Due(d, now)
  {
    EveryLifeKeepsInv(events, d);
    BackoffIsCappedDoubling(1);
    BackoffIsCappedDoubling(2);
    BackoffIsCappedDoubling(3);
    BackoffIsCappedDoubling(4);
    Pow2At30();
    assert Pow2(0) == 1 && Pow2(1) == 2 && Pow2(2) == 4 && Pow2(3) == 8;
  }

  /** A delivery nobody accepts is sent exactly five times before it fails, as long as its webhook exists. */
  lemma {:induction false} RefusedDeliveryIsSentFiveTimes(events: seq<Event>, d: Delivery)
    requires Life(events, d)
    requires forall e :: e in events ==> e.webhookExists && !Accepted(e.response)
    ensures d.attempts == |events|
    ensures d.status == (if |events| < MAX_ATTEMPTS then Pending else Failed)
    decreases |events|
  {
    if events != [] {
      var e := events[|events| - 1];
      var before :| Life(Earlier(events), before) && Due(before, e.now) && e.now <= e.after
                    && d == AfterEvent(before, e);
      assert e in events && forall x :: x in Earlier(events) ==> x in events;
      RefusedDeliveryIsSentFiveTimes(Earlier(events), before);
    }
  }

  /** The webhook is still there and answers with a status from 200 to 299. */
  ghost predicate IsTaken(e: Event) {
    e.webhookExists && exists status :: 200 <= status <= 299 && e.response == Answered(status)
  }

  lemma TakenExactly(e: Event)
    ensures IsTaken(e) <==> e.webhookExists && Accepted(e.response)
  {
    if e.response.Answered? {
      assert IsTaken(e) <==> e.webhookExists && 200 <= e.response.status <= 299;
    }
  }

  /** What an attempt decides: success exactly if the webhook takes it, failure exactly if it is gone or does not at the
      fifth attempt, and otherwise another attempt, after thirty seconds doubled each time but no more than ten
      minutes. */
  ghost predicate Decides(e: Event, d: Delivery) {
    && (d.status == Success <==> IsTaken(e))
    && (d.status == Failed <==> !e.webhookExists || (!IsTaken(e) && d.attempts == 5))
    && (d.status == Pending ==>
          d.attempts > 0 && d.nextAttemptAt == e.after + Min(30 * SECOND * Pow2(d.attempts - 1), 600 * SECOND))
    && (d.status != Pending ==> d.deliveredAt == Some(e.after))
  }

  lemma AttemptDecides(before: Delivery, e: Event)
    requires Inv(before) && before.status == Pending
    ensures Decides(e, AfterEvent(before, e))
  {
    TakenExactly(e);
    BackoffIsCappedDoubling(before.attempts + 1);
  }

  /** What is recorded: the status of the response, and an error text unless the webhook took it. */
  ghost predicate Records(e: Event, d: Delivery) {
    if !e.webhookExists then d.responseStatus == 0 && d.error == "webhook not found"
    else
      match e.response
      case Answered(status) =>
        d.responseStatus == status && d.error == if IsTaken(e) then "" else "status " + Itoa(status)
      case NoAnswer(problem) => d.responseStatus == 0 && d.error == problem
  }

  lemma AttemptRecords(before: Delivery, e: Event)
    ensures Records(e, AfterEvent(before, e))
  {
    TakenExactly(e);
  }

  /** In every life the last attempt decides, and is recorded. */
  lemma LastAttemptDecides(events: seq<Event>, d: Delivery)
    requires Life(events, d) && events != []
    ensures Decides(events[|events| - 1], d) && Records(events[|events| - 1], d)
  {
    var e := events[|events| - 1];
    var before :| Life(Earlier(events), before) && Due(before, e.now) && e.now <= e.after
                  && d == AfterEvent(before, e);
    EveryLifeKeepsInv(Earlier(events), before);
    AttemptDecides(before, e);
    AttemptRecords(before, e);
  }

  lemma AttemptSends(before: Delivery, e: Event)
    requires e.webhookExists
    ensures AfterEvent(before, e).sends == before.sends + [e.now]
  {
  }

  /** A delivery is sent once at each attempt that finds its webhook, at the time of the attempt. */
  lemma {:induction false} SendsAreAttempts(events: seq<Event>, d: Delivery)
    requires Life(events, d) && forall e :: e in events ==> e.webhookExists
    ensures |d.sends| == |events| && forall i :: 0 <= i < |events| ==> d.sends[i] == events[i].now
    decreases |events|
  {
    if events != [] {
      var e := events[|events| - 1];
      var before :| Life(Earlier(events), before) && Due(before, e.now) && e.now <= e.after
                    && d == AfterEvent(before, e);
      assert e in events && forall x :: x in Earlier(events) ==> x in events;
      SendsAreAttempts(Earlier(events), before);
      AttemptSends(before, e);
    }
  }

  // ----- the program -----

  /** How many deliveries one tick takes. */
  const BATCH_SIZE: nat := 50

  /** What the due query may answer: the soonest due deliveries, at most `limit`, soonest first; ties in any order. */
  ghost predicate DueAnswer(table: map<string, Delivery>, now: int, limit: nat, due: seq<string>) {
    && Distinct(due) && |due| <= limit
    && (forall id :: id in due ==> id in table && Due(table[id], now))
    && (forall i, j :: 0 <= i < j < |due| ==> table[due[i]].nextAttemptAt <= table[due[j]].nextAttemptAt)
    && (forall id :: id in table && Due(table[id], now) && id !in due ==>
          |due| == limit && forall d :: d in due ==> table[d].nextAttemptAt <= table[id].nextAttemptAt)
  }

  /** There always is an answer. */
  lemma AnswerExists(table: map<string, Delivery>, now: int, limit: nat) returns (due: seq<string>)
    ensures DueAnswer(table, now, limit, due)
    ensures forall id :: id in due ==> table[id].status == Pending && table[id].nextAttemptAt <= now
    ensures |due| == limit || forall id :: id in table && table[id].status == Pending && id !in due ==>
                                table[id].nextAttemptAt > now
  {
    due := SoonestCanBeListed(map id | id in table && Due(table[id], now) :: table[id].nextAttemptAt, limit);
  }

  /** Each one listed is a soonest of those not listed before it. */
  lemma SoonestComeFirst(table: map<string, Delivery>, now: int, limit: nat, due: seq<string>, i: nat, id: string)
    requires DueAnswer(table, now, limit, due) && i < |due|
    requires id in table && table[id].status == Pending && id !in due[..i]
    ensures table[due[i]].nextAttemptAt <= table[id].nextAttemptAt
  {
    if id in due {
      assert due == due[..i] + due[i..];
      var j :| i <= j < |due| && due[j] == id;
    }
  }

  class Deliverer {
    var table: map<string, Delivery>

    method Finalize(id: string, d: Delivery, status: Status, responseStatus: int, error: string, now: int)
      modifies this
      ensures table == old(table)[id := Finalized(d, status, responseStatus, error, now)]
    {
      table := table[id := d.(status := status, responseStatus := responseStatus, error := error,
                              deliveredAt := Some(now), nextAttemptAt := now)];
    }

    /** Makes one attempt and records the result: a final status, or another try later. */
    method AttemptDelivery(id: string, webhookExists: bool, now: int, after: int, r: Response)
      requires id in table
      modifies this
      ensures table == old(table)[id := Attempted(old(table)[id], webhookExists, now, after, r)]
    {
      var d := table[id];
      if !webhookExists {
        Finalize(id, d, Failed, 0, "webhook not found", after);
        return;
      }
      d := d.(attempts := d.attempts + 1, sends := d.sends + [now]);
      if Accepted(r) {
        Finalize(id, d, Success, r.status, "", after);
        return;
      }
      if d.attempts >= MAX_ATTEMPTS {
        Finalize(id, d, Failed, StatusOf(r), ProblemOf(r), after);
        return;
      }
      table := table[id := d.(status := Pending, responseStatus := StatusOf(r), error := ProblemOf(r),
                              nextAttemptAt := after + Backoff(d.attempts))];
    }

    /** One tick over the answer of the due query: every delivery listed is attempted once, no other changes. */
    method DeliverDue(listedAt: int, due: seq<string>, events: seq<Event>)
      requires |events| == |due| && DueAnswer(table, listedAt, BATCH_SIZE, due)
      modifies this
      ensures DeliveredAll(old(table), table, due, events)
    {
      DeliverEach(due, events);
    }

    /** The loop of DeliverDue. */
    method DeliverEach(due: seq<string>, events: seq<Event>)
      requires |events| == |due| && Distinct(due) && forall id :: id in due ==> id in table
      modifies this
      ensures DeliveredAll(old(table), table, due, events)
    {
      for i := 0 to |due|
        invariant DeliveredAll(old(table), table, due[..i], events[..i])
      {
        ghost var before := table;
        AttemptDelivery(due[i], events[i].webhookExists, events[i].now, events[i].after, events[i].response);
        OneMoreDelivered(old(table), before, due, events, i);
      }
      assert due[..|due|] == due && events[..|events|] == events;
    }
  }

  lemma OneMoreDelivered(
      was: map<string, Delivery>, now: map<string, Delivery>, due: seq<string>, events: seq<Event>, i: nat)
    requires |events| == |due| && Distinct(due) && forall id :: id in due ==> id in was
    requires i < |due| && DeliveredAll(was, now, due[..i], events[..i])
    ensures due[i] in now && now[due[i]] == was[due[i]]
    ensures DeliveredAll(was, now[due[i] := AfterEvent(was[due[i]], events[i])], due[..i + 1], events[..i + 1])
  {
    assert due[i] in due && due[i] !in due[..i];
    assert due[..i + 1] == due[..i] + [due[i]];
  }

  /** Each delivery of `due` has had its attempt, and no other has changed. */
  ghost predicate DeliveredAll(
      was: map<string, Delivery>, now: map<string, Delivery>, due: seq<string>, events: seq<Event>)
    requires |events| == |due| && forall id :: id in due ==> id in was
  {
    && now.Keys == was.Keys
    && (forall i :: 0 <= i < |due| ==> now[due[i]] == AfterEvent(was[due[i]], events[i]))
    && forall id :: id in was && id !in due ==> now[id] == was[id]
  }

  ghost predicate AllInv(table: map<string, Delivery>) {
    forall id :: id in table ==> Inv(table[id])
  }

  /** What a tick decides: each listed delivery as its attempt goes, and nothing about any other. */
  lemma TickDecides(
      was: map<string, Delivery>, now: map<string, Delivery>, listedAt: int, due: seq<string>, events: seq<Event>)
    requires |events| == |due| && DueAnswer(was, listedAt, BATCH_SIZE, due) && AllInv(was)
    requires forall i :: 0 <= i < |due| ==> listedAt <= events[i].now <= events[i].after
    requires DeliveredAll(was, now, due, events)
    ensures now.Keys == was.Keys && forall id :: id in was && id !in due ==> now[id] == was[id]
    ensures forall i :: 0 <= i < |due| ==>
              due[i] in now && Decides(events[i], now[due[i]]) && Records(events[i], now[due[i]])
    ensures |due| <= 50 && AllInv(now)
  {
    forall i | 0 <= i < |due|
      ensures due[i] in now && Decides(events[i], now[due[i]]) && Records(events[i], now[due[i]]) && Inv(now[due[i]])
    {
      ListedIsDecided(was, now, listedAt, due, events, i);
    }
    forall id | id in now ensures Inv(now[id]) {
      if id in due {
        var i :| 0 <= i < |due| && due[i] == id;
      }
    }
  }

  lemma ListedIsDecided(
      was: map<string, Delivery>, now: map<string, Delivery>, listedAt: int, due: seq<string>, events: seq<Event>,
      i: nat)
    requires |events| == |due| && DueAnswer(was, listedAt, BATCH_SIZE, due) && AllInv(was)
    requires DeliveredAll(was, now, due, events) && i < |due| && listedAt <= events[i].now <= events[i].after
    ensures due[i] in now && Decides(events[i], now[due[i]]) && Records(events[i], now[due[i]]) && Inv(now[due[i]])
  {
    assert due[i] in due;
    var d := was[due[i]];
    AttemptDecides(d, events[i]);
    AttemptRecords(d, events[i]);
    AttemptKeepsInv(d, events[i]);
  }
}
