// Evaluation counts: recorded in a buffer, flushed to the store row by row, folded back when a flush fails.
// Recording goes on between any two steps of a flush.
module Analytics {
  import opened MapSums
  import opened Models
  import opened Transitions

  datatype Key = Key(envID: string, flagKey: string, variation: int)

  /** Counts are bucketed to the minute in which a flush began. */
  datatype Window = Window(minute: int)

  type Counts = map<Key, nat>

  /** The rolled-up rows of one counter. */
  type Windows = map<Window, nat>

  function Count(c: Counts, k: Key): nat {
    if k in c then c[k] else 0
  }

  function Plus(c: Counts, k: Key, n: nat): Counts {
    c[k := Count(c, k) + n]
  }

  /** A flush in progress: what it took, and the keys not yet written. */
  datatype Flush = Flush(snapshot: Counts, todo: set<Key>, window: Window)

  /** `recorded` counts everything ever recorded; `repeated` counts rows written by batches that later failed. */
  datatype State = State(
    buffer: Counts, flush: Option<Flush>, stored: map<Key, Windows>,
    recorded: Counts, repeated: Counts)

  datatype Action =
    | Record(k: Key, n: int)
    | BeginFlush(window: Window)
    | UpsertRow(k: Key)
    | FailFlush(k: Key, written: bool)
    | EndFlush

  function WindowsOf(stored: map<Key, Windows>, k: Key): Windows {
    if k in stored then stored[k] else map[]
  }

  /** Adds to the row of a counter and a window, inserting it if there is none. */
  function Upserted(stored: map<Key, Windows>, k: Key, w: Window, n: nat): map<Key, Windows> {
    var ws := WindowsOf(stored, k);
    stored[k := ws[w := (if w in ws then ws[w] else 0) + n]]
  }

  /** Every count of the snapshot added back to the buffer. */
  ghost function FoldedBack(buffer: Counts, snapshot: Counts): Counts {
    map k | k in buffer.Keys + snapshot.Keys :: Count(buffer, k) + Count(snapshot, k)
  }

  /** The snapshot's counts that were already written. */
  ghost function Repeats(repeated: Counts, snapshot: Counts, todo: set<Key>): Counts {
    map k | k in repeated.Keys + snapshot.Keys :: Count(repeated, k) + if k in todo then 0 else Count(snapshot, k)
  }

  ghost predicate Enabled(s: State, a: Action) {
    match a
    case Record(_, _) => true
    case BeginFlush(_) => s.flush.None? && s.buffer != map[]
    case UpsertRow(k) => s.flush.Some? && k in s.flush.value.todo
    case FailFlush(k, _) => s.flush.Some? && k in s.flush.value.todo
    case EndFlush => s.flush.Some? && s.flush.value.todo == {}
  }

  ghost function Apply(s: State, a: Action): State
    requires Enabled(s, a)
  {
    match a
    case Record(k, n) =>
      if n <= 0 then s else s.(buffer := Plus(s.buffer, k, n), recorded := Plus(s.recorded, k, n))
    case BeginFlush(w) => s.(buffer := map[], flush := Some(Flush(s.buffer, s.buffer.Keys, w)))
    case UpsertRow(k) =>
      var f := s.flush.value;
      s.(stored := Upserted(s.stored, k, f.window, Count(f.snapshot, k)), flush := Some(f.(todo := f.todo - {k})))
    case FailFlush(k, written) =>
      var f := s.flush.value;
      s.(stored := if written then Upserted(s.stored, k, f.window, Count(f.snapshot, k)) else s.stored,
         buffer := FoldedBack(s.buffer, f.snapshot),
         flush := None,
         repeated := Repeats(s.repeated, f.snapshot, if written then f.todo - {k} else f.todo))
    case EndFlush => s.(flush := None)
  }

  ghost predicate Steps(s: State, a: Action, t: State) {
    Enabled(s, a) && t == Apply(s, a)
  }

  const START := State(map[], None, map[], map[], map[])

  // ----- totals over windows -----

  /** A counter's total over all windows, as the statistics queries sum it. */
  ghost function Total(ws: Windows): nat {
    Sum(ws)
  }

  // ----- the account -----

  ghost function Stored(s: State, k: Key): nat {
    Total(WindowsOf(s.stored, k))
  }

  /** What the flush in progress has still to write. */
  ghost function InFlight(s: State, k: Key): nat {
    if s.flush.Some? && k in s.flush.value.todo then Count(s.flush.value.snapshot, k) else 0
  }

  /** Everything recorded is in the buffer, in flight or stored, and only repeated rows are stored beyond that. */
  ghost predicate Balanced(s: State, k: Key) {
    Count(s.buffer, k) + InFlight(s, k) + Stored(s, k) == Count(s.recorded, k) + Count(s.repeated, k)
  }

  ghost predicate Inv(s: State) {
    && (s.flush.Some? ==> s.flush.value.todo <= s.flush.value.snapshot.Keys)
    && forall k :: Balanced(s, k)
  }

  lemma UpsertAddsToTotal(stored: map<Key, Windows>, k: Key, w: Window, n: nat, k': Key)
    ensures Total(WindowsOf(Upserted(stored, k, w, n), k')) == Total(WindowsOf(stored, k')) + if k' == k then n else 0
  {
    var ws := WindowsOf(stored, k);
    SumAfterSet(ws, w, (if w in ws then ws[w] else 0) + n);
  }

  lemma UpsertKeepsBalance(s: State, row: Key, k: Key)
    requires Inv(s) && Enabled(s, UpsertRow(row))
    ensures Balanced(Apply(s, UpsertRow(row)), k)
  {
    assert Balanced(s, k);
    var f := s.flush.value;
    UpsertAddsToTotal(s.stored, row, f.window, Count(f.snapshot, row), k);
  }

  lemma FailKeepsBalance(s: State, row: Key, written: bool, k: Key)
    requires Inv(s) && Enabled(s, FailFlush(row, written))
    ensures Balanced(Apply(s, FailFlush(row, written)), k)
  {
    assert Balanced(s, k);
    var f := s.flush.value;
    UpsertAddsToTotal(s.stored, row, f.window, Count(f.snapshot, row), k);
    assert Count(FoldedBack(s.buffer, f.snapshot), k) == Count(s.buffer, k) + Count(f.snapshot, k);
    var unwritten := if written then f.todo - {row} else f.todo;
    assert Count(Repeats(s.repeated, f.snapshot, unwritten), k) ==
           Count(s.repeated, k) + if k in unwritten then 0 else Count(f.snapshot, k);
  }

  lemma StepKeepsBalance(s: State, a: Action, k: Key)
    requires Inv(s) && Enabled(s, a)
    ensures Balanced(Apply(s, a), k)
  {
    assert Balanced(s, k);
    match a
    case UpsertRow(row) => UpsertKeepsBalance(s, row, k);
    case FailFlush(row, written) => FailKeepsBalance(s, row, written, k);
    case _ =>
  }

  lemma StepKeepsInv(s: State, a: Action)
    requires Inv(s) && Enabled(s, a)
    ensures Inv(Apply(s, a))
  {
    forall k ensures Balanced(Apply(s, a), k) {
      StepKeepsBalance(s, a, k);
    }
  }

  lemma StepsKeepInv()
    ensures forall s, a, t :: Inv(s) && Steps(s, a, t) ==> Inv(t)
  {
    forall s, a, t | Inv(s) && Steps(s, a, t) ensures Inv(t) {
      StepKeepsInv(s, a);
    }
  }

  /** In every run no count is lost, and the totals are exact for a counter exactly when no failed batch had
      already written its row. */
  lemma CountsAreNeverLost(run: seq<Action>, t: State, k: Key)
    requires Runs(Steps, START, run, t)
    ensures Count(t.buffer, k) + InFlight(t, k) + Stored(t, k) >= Count(t.recorded, k)
    ensures Count(t.buffer, k) + InFlight(t, k) + Stored(t, k) == Count(t.recorded, k) <==> Count(t.repeated, k) == 0
  {
    StepsKeepInv();
    RunsKeep(Steps, Inv, START, run, t);
    assert Balanced(t, k);
  }

  // ----- windows -----

  /** What is stored for a counter in one window. */
  ghost function Row(s: State, k: Key, w: Window): nat {
    if k in s.stored && w in s.stored[k] then s.stored[k][w] else 0
  }

  /** A step that neither begins nor fails a flush. */
  ghost predicate GoesOn(a: Action) {
    !a.BeginFlush? && !a.FailFlush?
  }

  /** What the flush in progress has still to write into one window. */
  ghost function Coming(s: State, k: Key, w: Window): nat {
    if s.flush.Some? && s.flush.value.window == w then InFlight(s, k) else 0
  }

  lemma UpsertAddsToRow(s: State, row: Key, k: Key, w: Window)
    requires Enabled(s, UpsertRow(row))
    ensures var t := Apply(s, UpsertRow(row)); Row(t, k, w) + Coming(t, k, w) == Row(s, k, w) + Coming(s, k, w)
  {
    var f := s.flush.value;
    var t := Apply(s, UpsertRow(row));
    assert Row(t, k, w) == Row(s, k, w) + if k == row && w == f.window then Count(f.snapshot, row) else 0;
  }

  lemma StepLands(s: State, a: Action, k: Key, w: Window)
    requires Enabled(s, a) && GoesOn(a)
    ensures var t := Apply(s, a); Row(t, k, w) + Coming(t, k, w) == Row(s, k, w) + Coming(s, k, w)
  {
    if a.UpsertRow? {
      UpsertAddsToRow(s, a.k, k, w);
    }
  }

  /** Whatever is recorded meanwhile, a flush that ends without a failure has added all it took, each count to its
      counter's row in the window in which the flush began, and changed no other row. */
  lemma FlushLandsInItsWindow(s: State, run: seq<Action>, t: State, k: Key, w: Window)
    requires Runs(Steps, s, run, t) && (forall a :: a in run ==> GoesOn(a)) && t.flush.None?
    ensures Row(t, k, w) == Row(s, k, w) + Coming(s, k, w)
  {
    RunLands(s, run, t, k, w);
  }

  lemma {:induction false} RunLands(s: State, run: seq<Action>, t: State, k: Key, w: Window)
    requires Runs(Steps, s, run, t) && forall a :: a in run ==> GoesOn(a)
    ensures Row(t, k, w) + Coming(t, k, w) == Row(s, k, w) + Coming(s, k, w)
    decreases |run|
  {
    if run != [] {
      var mid :| Runs(Steps, s, Front(run), mid) && Steps(mid, Last(run), t);
      assert Last(run) in run && forall a :: a in Front(run) ==> a in run;
      RunLands(s, Front(run), mid, k, w);
      StepLands(mid, Last(run), k, w);
    }
  }

  /** Recording is possible at any time; a positive count is added to its counter and to no other. */
  lemma RecordingIsCounted(s: State, k: Key, n: int, k': Key)
    ensures Enabled(s, Record(k, n))
    ensures var t, m := Apply(s, Record(k, n)), if n > 0 && k' == k then n else 0;
            && Count(t.buffer, k') == Count(s.buffer, k') + m && Count(t.recorded, k') == Count(s.recorded, k') + m
            && t.stored == s.stored && t.flush == s.flush && t.repeated == s.repeated
  {
  }

  /** A flush takes the whole buffer. */
  lemma FlushTakesAll(s: State, w: Window, k: Key)
    requires Enabled(s, BeginFlush(w))
    ensures var t := Apply(s, BeginFlush(w));
            Coming(t, k, w) == Count(s.buffer, k) && Count(t.buffer, k) == 0
            && forall w' :: w' != w ==> Coming(t, k, w') == 0
  {
  }

  // ----- and what is buffered can always be stored -----

  lemma {:induction false} FlushCanEnd(start: State, before: seq<Action>, s: State, w: Window)
    returns (run: seq<Action>, t: State)
    requires Runs(Steps, start, before, s) && s.flush.Some? && s.flush.value.window == w
    ensures Runs(Steps, start, run, t) && t.flush.None? && t.buffer == s.buffer && t.repeated == s.repeated
    decreases |s.flush.value.todo|
  {
    if s.flush.value.todo == {} {
      t := Apply(s, EndFlush);
      run := GoOn(Steps, start, before, s, EndFlush, t);
    } else {
      var k :| k in s.flush.value.todo;
      var mid := Apply(s, UpsertRow(k));
      run := GoOn(Steps, start, before, s, UpsertRow(k), mid);
      run, t := FlushCanEnd(start, run, mid, w);
    }
  }

  /** From every reachable state without a flush in progress there is a way on after which everything recorded is
      stored, the buffer is empty, and no more rows have been repeated. */
  lemma EverythingCanBeStored(before: seq<Action>, s: State, w: Window) returns (run: seq<Action>, t: State)
    requires Runs(Steps, START, before, s) && s.flush.None?
    ensures Runs(Steps, START, run, t) && t.flush.None? && t.buffer == map[] && t.repeated == s.repeated
    ensures forall k :: Stored(t, k) == Count(t.recorded, k) + Count(s.repeated, k)
  {
    run, t := before, s;
    if s.buffer != map[] {
      var begun := Apply(s, BeginFlush(w));
      run := GoOn(Steps, START, before, s, BeginFlush(w), begun);
      run, t := FlushCanEnd(START, run, begun, w);
    }
    StepsKeepInv();
    RunsKeep(Steps, Inv, START, run, t);
    forall k ensures Stored(t, k) == Count(t.recorded, k) + Count(s.repeated, k) {
      assert Balanced(t, k);
    }
  }

  // ----- the program -----

  /** Adds the counts of a snapshot to a buffer, key by key. */
  method AddAll(buffer: Counts, snapshot: Counts) returns (sum: Counts)
    ensures sum == FoldedBack(buffer, snapshot)
  {
    sum := buffer;
    var todo := snapshot.Keys;
    while todo != {}
      invariant todo <= snapshot.Keys
      invariant sum.Keys + todo == buffer.Keys + snapshot.Keys
      invariant forall k :: Count(sum, k) + (if k in todo then Count(snapshot, k) else 0)
                  == Count(buffer, k) + Count(snapshot, k)
      decreases todo
    {
      var k :| k in todo;
      sum := Plus(sum, k, snapshot[k]);
      todo := todo - {k};
    }
    SameCounts(sum, FoldedBack(buffer, snapshot));
  }

  lemma SameCounts(a: Counts, b: Counts)
    requires a.Keys == b.Keys && forall k :: Count(a, k) == Count(b, k)
    ensures a == b
  {
    forall k | k in a ensures a[k] == b[k] {
      assert Count(a, k) == Count(b, k);
    }
  }

  class Recorder {
    var counts: Counts

    method RecordN(k: Key, n: int)
      modifies this
      ensures counts == if n <= 0 then old(counts) else Plus(old(counts), k, n)
    {
      if n <= 0 {
        return;
      }
      counts := counts[k := Count(counts, k) + n];
    }

    /** The buffer, taken and replaced by an empty one; none when there is nothing to flush. */
    method TakeSnapshot() returns (snapshot: Option<Counts>)
      modifies this
      ensures counts == map[]
      ensures snapshot == if old(counts) == map[] then None else Some(old(counts))
    {
      if counts == map[] {
        return None;
      }
      snapshot := Some(counts);
      counts := map[];
    }

    /** Adds a snapshot back to whatever has been recorded since. */
    method FoldBack(snapshot: Counts)
      modifies this
      ensures counts == FoldedBack(old(counts), snapshot)
    {
      counts := AddAll(counts, snapshot);
    }
  }

  class StatsTable {
    var rows: map<Key, Windows>

    /** Writes the first rows of a batch, in order, up to the one that fails. */
    method UpsertEvalStats(stats: seq<(Key, nat)>, w: Window, failsAt: Option<nat>) returns (ok: bool)
      modifies this
      ensures var n := if failsAt.Some? && failsAt.value < |stats| then failsAt.value else |stats|;
              ok == (n == |stats|) && rows == UpsertedAll(old(rows), stats[..n], w)
    {
      for i := 0 to |stats|
        invariant failsAt.Some? ==> i <= failsAt.value
        invariant rows == UpsertedAll(old(rows), stats[..i], w)
      {
        if failsAt == Some(i) {
          return false;
        }
        assert stats[..i + 1][..i] == stats[..i];
        var (k, n) := stats[i];
        rows := Upserted(rows, k, w, n);
      }
      return true;
    }
  }

  function UpsertedAll(stored: map<Key, Windows>, stats: seq<(Key, nat)>, w: Window): map<Key, Windows> {
    if stats == [] then stored
    else
      var last := stats[|stats| - 1];
      Upserted(UpsertedAll(stored, stats[..|stats| - 1], w), last.0, w, last.1)
  }
}
