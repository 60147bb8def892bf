/** The main results about the aggregator's counters, for every run of its loop. */
module AggregatorTheorems {
  import opened Net
  import opened TrafficLog
  import opened AggregatorModel
  import opened AggregatorRuns

  ghost function RunFrom(start: Instant, firstScan: Instant, inputs: seq<Inputs>): State {
    Run(Initial(start, firstScan), inputs)
  }

  ghost function LogOf(start: Instant, firstScan: Instant, inputs: seq<Inputs>): Log {
    Trace(Traced(Initial(start, firstScan), []), inputs).log
  }

  lemma RunInvariant(start: Instant, firstScan: Instant, inputs: seq<Inputs>)
    ensures Inv(Traced(RunFrom(start, firstScan, inputs), LogOf(start, firstScan, inputs)))
  {
    RunKeepsInv(start, firstScan, inputs);
    TraceState(Traced(Initial(start, firstScan), []), inputs);
  }

  // ---- Sums over the rows of a state ----

  /** What each of some rows shows of one quantity. */
  type Shown = map<Scope, U64>

  ghost function Sum(m: Shown): nat
    decreases |m|
  {
    if m == map[] then 0
    else
      var r :| r in m;
      assert |m - {r}| < |m| by { assert (m - {r}).Keys == m.Keys - {r}; }
      m[r] + Sum(m - {r})
  }

  /** The choice of row in the definition does not matter. */
  lemma {:induction false} SumPick(m: Shown, r: Scope)
    requires r in m
    ensures Sum(m) == m[r] + Sum(m - {r})
    decreases |m|
  {
    var q :| q in m && Sum(m) == m[q] + Sum(m - {q});
    if q != r {
      assert (m - {q}).Keys == m.Keys - {q};
      assert (m - {r}).Keys == m.Keys - {r};
      SumPick(m - {q}, r);
      SumPick(m - {r}, q);
      assert m - {q} - {r} == m - {r} - {q};
    }
  }

  // ---- Readings of a meter ----

  type SlotIndex = i: nat | i < HISTORY_SLOTS

  /** What can be read off a meter. */
  datatype Reading = OfTotal | OfCurrent | OfSlot(i: SlotIndex)

  function Read(m: Meter, r: Reading): U64 {
    match r
    case OfTotal => m.total
    case OfCurrent => m.current
    case OfSlot(i) => m.history[i]
  }

  /** What the log says of it. */
  ghost function Counted(log: Log, r: Reading, dir: Direction, scope: Scope): nat {
    match r
    case OfTotal => Total(log, dir, scope)
    case OfCurrent => Current(log, dir, scope)
    case OfSlot(i) => Slot(log, i, dir, scope)
  }

  ghost function WindowStart(log: Log, r: Reading): nat {
    match r
    case OfTotal => 0
    case OfCurrent => Start(log, 0)
    case OfSlot(i) => Start(log, i + 1)
  }

  ghost function WindowEnd(log: Log, r: Reading): (hi: nat)
    ensures hi <= |log|
  {
    match r
    case OfTotal => |log|
    case OfCurrent => |log|
    case OfSlot(i) => Start(log, i)
  }

  lemma CountedInWindow(log: Log, r: Reading, dir: Direction, scope: Scope)
    ensures Counted(log, r, dir, scope) == Bytes(log, WindowStart(log, r), WindowEnd(log, r), dir, scope)
  {
  }

  lemma ReadShows(m: Meter, log: Log, r: Reading, dir: Direction, scope: Scope)
    requires MeterShows(m, log, dir, scope)
    ensures Read(m, r) == Sat(Counted(log, r, dir, scope))
  {
  }

  /** What each of some threads shows. */
  ghost function ShownBy(threads: map<ThreadKey, ThreadStats>, r: Reading, dir: Direction): Shown {
    map k | k in threads :: OfThread(k) := Read(threads[k].Meter(dir), r)
  }

  ghost predicate RowsShow(threads: map<ThreadKey, ThreadStats>, log: Log, dir: Direction) {
    forall k :: k in threads ==> MeterShows(threads[k].Meter(dir), log, dir, OfThread(k))
  }

  /** The rows of `m` are these threads', and show what they counted in a window. */
  ghost predicate ShowsWindow(m: Shown, threads: set<ThreadKey>, log: Log, lo: nat, hi: nat, dir: Direction)
    requires hi <= |log|
  {
    m.Keys == ThreadRows(threads) && forall q :: q in m ==> m[q] == Sat(Bytes(log, lo, hi, dir, q))
  }

  lemma ShownInWindow(threads: map<ThreadKey, ThreadStats>, log: Log, r: Reading, dir: Direction)
    requires RowsShow(threads, log, dir)
    ensures ShowsWindow(ShownBy(threads, r, dir), threads.Keys, log, WindowStart(log, r), WindowEnd(log, r), dir)
  {
    forall k | k in threads
      ensures Read(threads[k].Meter(dir), r)
           == Sat(Bytes(log, WindowStart(log, r), WindowEnd(log, r), dir, OfThread(k)))
    {
      ReadShows(threads[k].Meter(dir), log, r, dir, OfThread(k));
      CountedInWindow(log, r, dir, OfThread(k));
    }
  }

  // ---- Sums that saturate row by row ----

  ghost function ConnCounts(s: State, thread: ThreadKey, dir: Direction): Shown {
    map c | c in s.conns && c.Thread() == thread :: OfConn(c) := s.conns[c].Count(dir)
  }

  lemma SatSum(a: nat, a': nat, b: nat, b': nat)
    requires Sat(a) == Sat(a') && Sat(b) == Sat(b')
    ensures Sat(a + b) == Sat(a' + b')
  {
  }

  /** A sum of counters that stop at the top shows the true sum as far as 64 bits reach, never
      exceeds it, and is exact just when all of them `fit`. */
  ghost predicate Agrees(shown: nat, actual: nat, fit: bool) {
    Sat(shown) == Sat(actual) && shown <= actual && (shown == actual <==> fit)
  }

  lemma AgreesAdd(a: nat, a': nat, p: bool, b: nat, b': nat, q: bool)
    requires Agrees(a, a', p) && Agrees(b, b', q)
    ensures Agrees(a + b, a' + b', p && q)
  {
  }

  ghost predicate Fit(rows: set<Scope>, log: Log, lo: nat, hi: nat, dir: Direction)
    requires hi <= |log|
  {
    forall q :: q in rows ==> Bytes(log, lo, hi, dir, q) <= U64_MAX
  }

  lemma {:induction false} SumAgrees(m: Shown, log: Log, lo: nat, hi: nat, dir: Direction)
    requires hi <= |log|
    requires forall r :: r in m ==> m[r] == Sat(Bytes(log, lo, hi, dir, r))
    ensures Agrees(Sum(m), SumRows(m.Keys, log, lo, hi, dir), Fit(m.Keys, log, lo, hi, dir))
    decreases |m|
  {
    if m != map[] {
      var r :| r in m;
      var m' := m - {r};
      assert m'.Keys == m.Keys - {r};
      SumAgrees(m', log, lo, hi, dir);
      SumPick(m, r);
      SumRowsPick(m.Keys, r, log, lo, hi, dir);
      var bytes := Bytes(log, lo, hi, dir, r);
      AgreesAdd(m[r], bytes, bytes <= U64_MAX,
                Sum(m'), SumRows(m'.Keys, log, lo, hi, dir), Fit(m'.Keys, log, lo, hi, dir));
      assert Fit(m.Keys, log, lo, hi, dir) <==> bytes <= U64_MAX && Fit(m'.Keys, log, lo, hi, dir);
    }
  }

  /** In one window, the live threads' counters and the retired bytes make up everything. */
  lemma WindowConserved(m: Shown, threads: set<ThreadKey>, log: Log, lo: nat, hi: nat, dir: Direction)
    requires hi <= |log| && ThreadsCover(log, threads) && ShowsWindow(m, threads, log, lo, hi, dir)
    ensures Agrees(Sum(m) + Bytes(log, lo, hi, dir, Retired), Bytes(log, lo, hi, dir, Everyone),
                   Fit(ThreadRows(threads), log, lo, hi, dir))
  {
    SumAgrees(m, log, lo, hi, dir);
    Conservation(log, threads, lo, hi, dir);
    var retired := Bytes(log, lo, hi, dir, Retired);
    AgreesAdd(Sum(m), SumRows(m.Keys, log, lo, hi, dir), Fit(m.Keys, log, lo, hi, dir), retired, retired, true);
  }

  lemma ChildrenShown(m: Shown, conns: set<ConnectionKey>, thread: ThreadKey, log: Log, dir: Direction)
    requires ParentsOutlive(log) && m.Keys == ConnRows(conns, thread)
    requires forall r :: r in m ==> m[r] == Sat(Total(log, dir, r))
    ensures Sat(Sum(m)) <= Sat(Total(log, dir, OfThread(thread)))
  {
    SumAgrees(m, log, 0, |log|, dir);
    ChildrenWithinParent(log, conns, thread, 0, |log|, dir);
  }

  // ---- Byte conservation ----

  ghost function ArrivedBytes(arrivals: seq<Arrival>, dir: Direction): nat
    decreases |arrivals|
  {
    if arrivals == [] then 0
    else
      var last := arrivals[|arrivals| - 1];
      ArrivedBytes(arrivals[..|arrivals| - 1], dir) + if last.record.direction == dir then last.record.byteCount else 0
  }

  /** The bytes of every record handed to a run. */
  ghost function RecordBytes(inputs: seq<Inputs>, dir: Direction): nat
    decreases |inputs|
  {
    if |inputs| == 0 then 0
    else RecordBytes(inputs[..|inputs| - 1], dir) + ArrivedBytes(inputs[|inputs| - 1].arrivals, dir)
  }

  lemma {:induction false} DrainCounts(t: Traced, arrivals: seq<Arrival>, dir: Direction)
    ensures Total(TraceDrain(t, arrivals).log, dir, Everyone)
         == Total(t.log, dir, Everyone) + ArrivedBytes(arrivals, dir)
    decreases |arrivals|
  {
    if arrivals != [] {
      var before := TraceDrain(t, arrivals[..|arrivals| - 1]);
      DrainCounts(t, arrivals[..|arrivals| - 1], dir);
      TotalFollows(before.log, FlowEvent(before.s, arrivals[|arrivals| - 1]), dir, Everyone);
    }
  }

  lemma IterationCounts(t: Traced, i: Inputs, dir: Direction)
    ensures Total(TraceIteration(t, i).log, dir, Everyone)
         == Total(t.log, dir, Everyone) + ArrivedBytes(i.arrivals, dir)
  {
    DrainCounts(Traced(RefreshCacheIfDue(t.s, i.scanCheck, i.scanned, i.scanStamp), t.log), i.arrivals, dir);
    var marked := TraceArrivals(t, i);
    var removed := TraceRemovals(marked, i.threadClock, i.connClock);
    TotalFollows(marked.log, removed.log[|marked.log|], dir, Everyone);
    TotalFollows(removed.log, Tick, dir, Everyone);
  }

  lemma {:induction false} LogCounts(start: Instant, firstScan: Instant, inputs: seq<Inputs>, dir: Direction)
    ensures Total(LogOf(start, firstScan, inputs), dir, Everyone) == RecordBytes(inputs, dir)
    decreases |inputs|
  {
    if |inputs| != 0 {
      LogCounts(start, firstScan, inputs[..|inputs| - 1], dir);
      IterationCounts(Trace(Traced(Initial(start, firstScan), []), inputs[..|inputs| - 1]), inputs[|inputs| - 1], dir);
    }
  }

  /** In total, in the running second and in each closed second, the interface shows exactly
      what its live threads show plus what evicted threads had carried by then. */
  ghost predicate Conserved(s: State, log: Log, dir: Direction) {
    forall r :: ReadingConserved(s, log, r, dir)
  }

  ghost predicate ReadingConserved(s: State, log: Log, r: Reading, dir: Direction) {
    Read(s.Interface(dir), r) == Sat(Sum(ShownBy(s.threads, r, dir)) + Counted(log, r, dir, Retired))
  }

  /** What the invariant says of one direction. */
  ghost predicate MetersShow(s: State, log: Log, dir: Direction) {
    && MeterShows(s.Interface(dir), log, dir, Everyone)
    && ThreadsCover(log, s.threads.Keys)
    && RowsShow(s.threads, log, dir)
  }

  lemma InvShows(t: Traced, dir: Direction)
    requires Inv(t)
    ensures MetersShow(t.s, t.log, dir)
  {
    forall k | k in t.s.threads ensures MeterShows(t.s.threads[k].Meter(dir), t.log, dir, OfThread(k)) {
      assert ThreadShows(t.s.threads[k], k, t.log);
    }
  }

  lemma LiveAgrees(s: State, log: Log, r: Reading, dir: Direction)
    requires MetersShow(s, log, dir)
    ensures Agrees(Sum(ShownBy(s.threads, r, dir)) + Counted(log, r, dir, Retired), Counted(log, r, dir, Everyone),
                   Fit(ThreadRows(s.threads.Keys), log, WindowStart(log, r), WindowEnd(log, r), dir))
  {
    ShownInWindow(s.threads, log, r, dir);
    WindowConserved(ShownBy(s.threads, r, dir), s.threads.Keys, log, WindowStart(log, r), WindowEnd(log, r), dir);
    CountedInWindow(log, r, dir, Retired);
    CountedInWindow(log, r, dir, Everyone);
  }

  lemma MetersConserve(s: State, log: Log, r: Reading, dir: Direction)
    requires MetersShow(s, log, dir)
    ensures ReadingConserved(s, log, r, dir)
  {
    LiveAgrees(s, log, r, dir);
    ReadShows(s.Interface(dir), log, r, dir, Everyone);
  }

  lemma BytesConserved(start: Instant, firstScan: Instant, inputs: seq<Inputs>, dir: Direction)
    ensures Conserved(RunFrom(start, firstScan, inputs), LogOf(start, firstScan, inputs), dir)
  {
    RunInvariant(start, firstScan, inputs);
    InvShows(Traced(RunFrom(start, firstScan, inputs), LogOf(start, firstScan, inputs)), dir);
    forall r ensures ReadingConserved(RunFrom(start, firstScan, inputs), LogOf(start, firstScan, inputs), r, dir) {
      MetersConserve(RunFrom(start, firstScan, inputs), LogOf(start, firstScan, inputs), r, dir);
    }
  }

  // ---- The sliding window ----

  /** The first `n` samples, added without bound. */
  ghost function HistorySum(h: History, n: nat): nat
    requires n <= HISTORY_SLOTS
  {
    if n == 0 then 0 else HistorySum(h, n - 1) + h[n - 1]
  }

  ghost function ShiftedOut(log: Log, dir: Direction, scope: Scope): nat {
    Bytes(log, 0, Start(log, HISTORY_SLOTS), dir, scope)
  }

  /** Each slot is the sum of its interval in the log, and the total is what the window shows and
      what has left it. */
  ghost predicate Windowed(m: Meter, log: Log, dir: Direction, scope: Scope) {
    && (forall i :: 0 <= i < HISTORY_SLOTS ==> m.history[i] == Sat(Slot(log, i, dir, scope)))
    && m.total == Sat(m.current + HistorySum(m.history, HISTORY_SLOTS) + ShiftedOut(log, dir, scope))
  }

  lemma {:induction false} HistoryShown(m: Meter, log: Log, n: nat, dir: Direction, scope: Scope)
    requires MeterShows(m, log, dir, scope) && n <= HISTORY_SLOTS
    ensures Sat(HistorySum(m.history, n)) == Sat(SlotSum(log, n, dir, scope))
    decreases n
  {
    if n > 0 {
      HistoryShown(m, log, n - 1, dir, scope);
      SatSum(HistorySum(m.history, n - 1), SlotSum(log, n - 1, dir, scope), m.history[n - 1],
             Slot(log, n - 1, dir, scope));
    }
  }

  lemma MeterIsWindowed(m: Meter, log: Log, dir: Direction, scope: Scope)
    requires MeterShows(m, log, dir, scope)
    ensures Windowed(m, log, dir, scope)
  {
    var shown, slots := HistorySum(m.history, HISTORY_SLOTS), SlotSum(log, HISTORY_SLOTS, dir, scope);
    var older := ShiftedOut(log, dir, scope);
    HistoryShown(m, log, HISTORY_SLOTS, dir, scope);
    TotalSplits(log, HISTORY_SLOTS, dir, scope);
    SatSum(m.current, Current(log, dir, scope), shown, slots);
    SatSum(m.current + shown, Current(log, dir, scope) + slots, older, older);
  }

  /** On every run, the meters of the interface and of every live thread are windows on the log. */
  lemma WindowsRefineLog(start: Instant, firstScan: Instant, inputs: seq<Inputs>, dir: Direction)
    ensures Windowed(RunFrom(start, firstScan, inputs).Interface(dir), LogOf(start, firstScan, inputs), dir, Everyone)
    ensures forall k :: k in RunFrom(start, firstScan, inputs).threads ==>
              Windowed(RunFrom(start, firstScan, inputs).threads[k].Meter(dir), LogOf(start, firstScan, inputs), dir,
                       OfThread(k))
  {
    RunInvariant(start, firstScan, inputs);
    AllWindowed(Traced(RunFrom(start, firstScan, inputs), LogOf(start, firstScan, inputs)), dir);
  }

  lemma AllWindowed(t: Traced, dir: Direction)
    requires Inv(t)
    ensures Windowed(t.s.Interface(dir), t.log, dir, Everyone)
    ensures forall k :: k in t.s.threads ==> Windowed(t.s.threads[k].Meter(dir), t.log, dir, OfThread(k))
  {
    InvShows(t, dir);
    MeterIsWindowed(t.s.Interface(dir), t.log, dir, Everyone);
    forall k | k in t.s.threads ensures Windowed(t.s.threads[k].Meter(dir), t.log, dir, OfThread(k)) {
      MeterIsWindowed(t.s.threads[k].Meter(dir), t.log, dir, OfThread(k));
    }
  }

  // ---- Parents and children ----

  /** Every connection row belongs to a live thread, and the connections of a thread together
      never show more than the thread does. */
  ghost predicate WithinThreads(s: State, dir: Direction) {
    && (forall c :: c in s.conns ==> c.Thread() in s.threads)
    && forall k :: k in s.threads ==> WithinThread(s, k, dir)
  }

  ghost predicate WithinThread(s: State, k: ThreadKey, dir: Direction)
    requires k in s.threads
  {
    && Sat(Sum(ConnCounts(s, k, dir))) <= s.threads[k].Meter(dir).total
    && (s.threads[k].Meter(dir).total < U64_MAX ==> Sum(ConnCounts(s, k, dir)) <= s.threads[k].Meter(dir).total)
  }

  lemma InvWithinThread(t: Traced, k: ThreadKey, dir: Direction)
    requires Inv(t) && k in t.s.threads
    ensures WithinThread(t.s, k, dir)
  {
    assert ThreadShows(t.s.threads[k], k, t.log);
    forall c | c in t.s.conns ensures t.s.conns[c].Count(dir) == Sat(Total(t.log, dir, OfConn(c))) {
      assert ConnShows(t.s.conns[c], c, t.log);
    }
    ChildrenShown(ConnCounts(t.s, k, dir), t.s.conns.Keys, k, t.log, dir);
  }

  lemma InvWithinThreads(t: Traced, dir: Direction)
    requires Inv(t)
    ensures WithinThreads(t.s, dir)
  {
    forall k | k in t.s.threads ensures WithinThread(t.s, k, dir) { InvWithinThread(t, k, dir); }
  }

  lemma ConnectionsWithinThread(start: Instant, firstScan: Instant, inputs: seq<Inputs>, dir: Direction)
    ensures WithinThreads(RunFrom(start, firstScan, inputs), dir)
  {
    RunInvariant(start, firstScan, inputs);
    InvWithinThreads(Traced(RunFrom(start, firstScan, inputs), LogOf(start, firstScan, inputs)), dir);
  }
}
