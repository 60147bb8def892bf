/** What evicted threads showed when they were evicted, and that it accounts for all that the live
    ones do not show. */
module AggregatorEvictions {
  import opened Net
  import opened TrafficLog
  import opened AggregatorModel
  import opened AggregatorRuns
  import opened AggregatorTheorems

  // ---- What evicted threads showed ----

  /** The state in which one pass reaches its removals. */
  ghost function BeforeRemovals(s: State, i: Inputs): State {
    MarkExited(Drain(RefreshCacheIfDue(s, i.scanCheck, i.scanned, i.scanStamp), i.arrivals), i.alive)
  }

  /** The rows that one pass evicts, as they are then. */
  ghost function Gone(s: State, i: Inputs): map<ThreadKey, ThreadStats> {
    var before := BeforeRemovals(s, i);
    before.threads - EvictStale(before, i.threadClock).threads.Keys
  }

  predicate Rotates(s: State, i: Inputs) {
    Elapsed(s.lastRotation, i.rotateCheck) >= SECOND
  }

  /** Where a reading stood before the pass: a rotation moves the running second into the first
      slot and each slot into the next, and leaves nothing in the running second. */
  function Earlier(r: Reading, rotated: bool): Option<Reading> {
    if r.OfTotal? || !rotated then Some(r)
    else if r.OfCurrent? then None
    else if r.i == 0 then Some(OfCurrent)
    else Some(OfSlot(r.i - 1))
  }

  /** What all threads ever evicted showed of a reading when they were evicted, moved back by every
      rotation since. */
  ghost function Evicted(s: State, inputs: seq<Inputs>, r: Reading, dir: Direction): nat
    decreases |inputs|
  {
    if |inputs| == 0 then 0
    else
      var prefix, i := inputs[..|inputs| - 1], inputs[|inputs| - 1];
      var q := Earlier(r, Rotates(Run(s, prefix), i));
      if q.None? then 0
      else Evicted(s, prefix, q.value, dir) + Sum(ShownBy(Gone(Run(s, prefix), i), q.value, dir))
  }

  /** None of them had carried more than 64 bits count, in the window of the reading. */
  ghost predicate EvictedFit(t: Traced, inputs: seq<Inputs>, r: Reading, dir: Direction)
    decreases |inputs|
  {
    |inputs| == 0 ||
      var prefix, i := inputs[..|inputs| - 1], inputs[|inputs| - 1];
      var before := Trace(t, prefix);
      var q := Earlier(r, Rotates(before.s, i));
      q.None? || (EvictedFit(t, prefix, q.value, dir) && GoneFit(before, i, q.value, dir))
  }

  ghost predicate GoneFit(t: Traced, i: Inputs, r: Reading, dir: Direction) {
    var log := TraceArrivals(t, i).log;
    Fit(ThreadRows(Gone(t.s, i).Keys), log, WindowStart(log, r), WindowEnd(log, r), dir)
  }

  // ---- Retired bytes, event by event ----

  /** Nothing but an eviction retires bytes; a tick moves them back. */
  lemma RetiredFollows(log: Log, e: LogEvent, r: Reading, dir: Direction)
    requires !e.Drop?
    ensures var q := Earlier(r, e.Tick?);
            Counted(log + [e], r, dir, Retired) == if q.None? then 0 else Counted(log, q.value, dir, Retired)
  {
    match r
    case OfTotal => TotalFollows(log, e, dir, Retired);
    case OfCurrent => CurrentFollows(log, e, dir, Retired);
    case OfSlot(i) => SlotFollows(log, e, i, dir, Retired);
  }

  lemma {:induction false} SumRowsUnion(a: set<Scope>, b: set<Scope>, log: Log, lo: nat, hi: nat, dir: Direction)
    requires hi <= |log| && a !! b
    ensures SumRows(a + b, log, lo, hi, dir) == SumRows(a, log, lo, hi, dir) + SumRows(b, log, lo, hi, dir)
    decreases |a|
  {
    if a == {} {
      assert a + b == b;
    } else {
      var r :| r in a;
      SumRowsUnion(a - {r}, b, log, lo, hi, dir);
      assert a + b - {r} == (a - {r}) + b;
      SumRowsPick(a, r, log, lo, hi, dir);
      SumRowsPick(a + b, r, log, lo, hi, dir);
    }
  }

  lemma {:induction false} SumRowsAppend(rows: set<Scope>, log: Log, e: LogEvent, lo: nat, hi: nat, dir: Direction)
    requires hi <= |log| && forall r :: r in rows ==> Keeps(e, r)
    ensures SumRows(rows, log + [e], lo, hi, dir) == SumRows(rows, log, lo, hi, dir)
    decreases |rows|
  {
    if rows != {} {
      var r :| r in rows;
      SumRowsAppend(rows - {r}, log, e, lo, hi, dir);
      SumRowsPick(rows, r, log, lo, hi, dir);
      SumRowsPick(rows, r, log + [e], lo, hi, dir);
      AppendBytes(log, e, lo, hi, dir, r);
    }
  }

  /** In every window, dropping rows retires exactly what they had counted there. */
  lemma DropRetires(log: Log, e: LogEvent, threads: set<ThreadKey>, lo: nat, hi: nat, dir: Direction)
    requires e.Drop? && e.threads <= threads && hi <= |log|
    requires ThreadsCover(log, threads) && ThreadsCover(log + [e], threads - e.threads)
    ensures Bytes(log + [e], lo, hi, dir, Retired)
         == Bytes(log, lo, hi, dir, Retired) + SumRows(ThreadRows(e.threads), log, lo, hi, dir)
  {
    var kept := ThreadRows(threads - e.threads);
    var gone := ThreadRows(e.threads);
    assert ThreadRows(threads) == kept + gone;
    SumRowsUnion(kept, gone, log, lo, hi, dir);
    SumRowsAppend(kept, log, e, lo, hi, dir);
    Conservation(log, threads, lo, hi, dir);
    Conservation(log + [e], threads - e.threads, lo, hi, dir);
    AppendBytes(log, e, lo, hi, dir, Everyone);
  }

  lemma LastAddsNothing(log: Log, e: LogEvent, lo: nat, dir: Direction)
    requires !e.Flow? && lo <= |log|
    ensures Bytes(log + [e], lo, |log| + 1, dir, Retired) == Bytes(log + [e], lo, |log|, dir, Retired)
  {
    assert (log + [e])[|log|] == e;
  }

  /** The same window, seen from the longer log. */
  lemma DropKeepsWindow(log: Log, e: LogEvent, r: Reading, dir: Direction)
    requires e.Drop?
    ensures Counted(log + [e], r, dir, Retired)
         == Bytes(log + [e], WindowStart(log, r), WindowEnd(log, r), dir, Retired)
  {
    match r
    case OfTotal =>
      LastAddsNothing(log, e, 0, dir);
    case OfCurrent =>
      QuietStart(log, e, 0);
      LastAddsNothing(log, e, Start(log, 0), dir);
    case OfSlot(i) =>
      QuietStart(log, e, i);
      QuietStart(log, e, i + 1);
  }

  // ---- One pass ----

  lemma {:induction false} DrainRetiresNothing(t: Traced, arrivals: seq<Arrival>, r: Reading, dir: Direction)
    ensures Counted(TraceDrain(t, arrivals).log, r, dir, Retired) == Counted(t.log, r, dir, Retired)
    decreases |arrivals|
  {
    if arrivals != [] {
      var before := TraceDrain(t, arrivals[..|arrivals| - 1]);
      DrainRetiresNothing(t, arrivals[..|arrivals| - 1], r, dir);
      RetiredFollows(before.log, FlowEvent(before.s, arrivals[|arrivals| - 1]), r, dir);
    }
  }

  lemma ArrivalsRetireNothing(t: Traced, i: Inputs, r: Reading, dir: Direction)
    ensures TraceArrivals(t, i).s == BeforeRemovals(t.s, i)
    ensures Counted(TraceArrivals(t, i).log, r, dir, Retired) == Counted(t.log, r, dir, Retired)
  {
    var refreshed := Traced(RefreshCacheIfDue(t.s, i.scanCheck, i.scanned, i.scanStamp), t.log);
    DrainRetiresNothing(refreshed, i.arrivals, r, dir);
    TraceDrainState(refreshed, i.arrivals);
  }

  lemma {:induction false} DrainKeepsTime(s: State, arrivals: seq<Arrival>)
    ensures Drain(s, arrivals).lastRotation == s.lastRotation
    decreases |arrivals|
  {
    if arrivals != [] { DrainKeepsTime(s, arrivals[..|arrivals| - 1]); }
  }

  lemma RotatesWhenDue(t: Traced, i: Inputs)
    ensures RotationDue(TraceRemovals(TraceArrivals(t, i), i.threadClock, i.connClock).s, i.rotateCheck)
       <==> Rotates(t.s, i)
  {
    ArrivalsRetireNothing(t, i, OfTotal, Tx);
    DrainKeepsTime(RefreshCacheIfDue(t.s, i.scanCheck, i.scanned, i.scanStamp), i.arrivals);
  }

  /** What one round of removals retires is what the rows it evicts had counted. */
  lemma RemovalsRetire(t: Traced, threadClock: ThreadKey -> Instant, connClock: ConnectionKey -> Instant,
                       r: Reading, dir: Direction)
    requires Inv(t)
    ensures var gone := t.s.threads.Keys - EvictStale(t.s, threadClock).threads.Keys;
            Counted(TraceRemovals(t, threadClock, connClock).log, r, dir, Retired)
            == Counted(t.log, r, dir, Retired)
               + SumRows(ThreadRows(gone), t.log, WindowStart(t.log, r), WindowEnd(t.log, r), dir)
  {
    var t' := TraceRemovals(t, threadClock, connClock);
    var e := t'.log[|t.log|];
    RemovalsKeepInv(t, threadClock, connClock);
    assert t'.s.threads.Keys == t.s.threads.Keys - e.threads;
    DropKeepsWindow(t.log, e, r, dir);
    DropRetires(t.log, e, t.s.threads.Keys, WindowStart(t.log, r), WindowEnd(t.log, r), dir);
    CountedInWindow(t.log, r, dir, Retired);
  }

  lemma GoneAgrees(t: Traced, i: Inputs, r: Reading, dir: Direction)
    requires Inv(t)
    ensures var log := TraceArrivals(t, i).log;
            Agrees(Sum(ShownBy(Gone(t.s, i), r, dir)),
                   SumRows(ThreadRows(Gone(t.s, i).Keys), log, WindowStart(log, r), WindowEnd(log, r), dir),
                   GoneFit(t, i, r, dir))
  {
    var marked := TraceArrivals(t, i);
    ArrivalsKeepInv(t, i);
    ArrivalsRetireNothing(t, i, r, dir);
    InvShows(marked, dir);
    var gone := Gone(t.s, i);
    assert RowsShow(gone, marked.log, dir);
    ShownInWindow(gone, marked.log, r, dir);
    SumAgrees(ShownBy(gone, r, dir), marked.log, WindowStart(marked.log, r), WindowEnd(marked.log, r), dir);
  }

  /** What a pass adds to the retired bytes of a reading, before its rotation moves them. */
  lemma PassRetires(t: Traced, i: Inputs, r: Reading, dir: Direction)
    requires Inv(t)
    ensures var log := TraceArrivals(t, i).log; var q := Earlier(r, Rotates(t.s, i));
            Counted(TraceIteration(t, i).log, r, dir, Retired)
            == if q.None? then 0
               else Counted(t.log, q.value, dir, Retired)
                    + SumRows(ThreadRows(Gone(t.s, i).Keys), log,
                              WindowStart(log, q.value), WindowEnd(log, q.value), dir)
  {
    var marked := TraceArrivals(t, i);
    var removed := TraceRemovals(marked, i.threadClock, i.connClock);
    ArrivalsKeepInv(t, i);
    RotatesWhenDue(t, i);
    if Rotates(t.s, i) { RetiredFollows(removed.log, Tick, r, dir); }
    var q := Earlier(r, Rotates(t.s, i));
    if q.Some? {
      ArrivalsRetireNothing(t, i, q.value, dir);
      RemovalsRetire(marked, i.threadClock, i.connClock, q.value, dir);
      assert Gone(t.s, i).Keys == marked.s.threads.Keys - EvictStale(marked.s, i.threadClock).threads.Keys;
    }
  }

  // ---- Every run ----

  lemma GoneAdd(t: Traced, i: Inputs, q: Reading, dir: Direction, evicted: nat, retired: nat, fit: bool)
    requires Inv(t) && Agrees(evicted, retired, fit)
    ensures var log := TraceArrivals(t, i).log;
            Agrees(evicted + Sum(ShownBy(Gone(t.s, i), q, dir)),
                   retired
                   + SumRows(ThreadRows(Gone(t.s, i).Keys), log, WindowStart(log, q), WindowEnd(log, q), dir),
                   fit && GoneFit(t, i, q, dir))
  {
    var log := TraceArrivals(t, i).log;
    GoneAgrees(t, i, q, dir);
    AgreesAdd(evicted, retired, fit, Sum(ShownBy(Gone(t.s, i), q, dir)),
              SumRows(ThreadRows(Gone(t.s, i).Keys), log, WindowStart(log, q), WindowEnd(log, q), dir),
              GoneFit(t, i, q, dir));
  }

  /** One pass adds what it evicts to what was evicted before, and moves both. */
  lemma PassAgrees(t: Traced, i: Inputs, r: Reading, dir: Direction, q: Option<Reading>, evicted: nat, fit: bool)
    requires Inv(t) && q == Earlier(r, Rotates(t.s, i))
    requires q.Some? ==> Agrees(evicted, Counted(t.log, q.value, dir, Retired), fit)
    ensures Agrees(if q.None? then 0 else evicted + Sum(ShownBy(Gone(t.s, i), q.value, dir)),
                   Counted(TraceIteration(t, i).log, r, dir, Retired),
                   q.None? || (fit && GoneFit(t, i, q.value, dir)))
  {
    PassRetires(t, i, r, dir);
    if q.Some? { GoneAdd(t, i, q.value, dir, evicted, Counted(t.log, q.value, dir, Retired), fit); }
  }

  ghost predicate RunAgrees(t: Traced, inputs: seq<Inputs>, r: Reading, dir: Direction) {
    Agrees(Evicted(t.s, inputs, r, dir), Counted(Trace(t, inputs).log, r, dir, Retired), EvictedFit(t, inputs, r, dir))
  }

  lemma NoPassAgrees(start: Instant, firstScan: Instant, r: Reading, dir: Direction)
    ensures RunAgrees(Traced(Initial(start, firstScan), []), [], r, dir)
  {
    NothingCounted([], WindowStart([], r), WindowEnd([], r), dir, Retired);
    CountedInWindow([], r, dir, Retired);
  }

  lemma NextPassAgrees(t: Traced, inputs: seq<Inputs>, prefix: seq<Inputs>, r: Reading, dir: Direction)
    requires |inputs| > 0 && prefix == inputs[..|inputs| - 1]
    requires Inv(Trace(t, prefix)) && forall q :: RunAgrees(t, prefix, q, dir)
    ensures RunAgrees(t, inputs, r, dir)
  {
    var i, before := inputs[|inputs| - 1], Trace(t, prefix);
    TraceState(t, prefix);
    var q := Earlier(r, Rotates(before.s, i));
    if q.None? {
      PassAgrees(before, i, r, dir, q, 0, true);
    } else {
      assert RunAgrees(t, prefix, q.value, dir);
      PassAgrees(before, i, r, dir, q, Evicted(t.s, prefix, q.value, dir), EvictedFit(t, prefix, q.value, dir));
    }
  }

  /** On every run, for every reading, the retired bytes of the log are what evicted threads showed,
      as far as 64 bits reach, and exactly if none of them had carried more. */
  lemma {:induction false} EvictedAgrees(start: Instant, firstScan: Instant, inputs: seq<Inputs>,
                                         r: Reading, dir: Direction)
    ensures RunAgrees(Traced(Initial(start, firstScan), []), inputs, r, dir)
    decreases |inputs|
  {
    if |inputs| == 0 {
      NoPassAgrees(start, firstScan, r, dir);
    } else {
      var prefix := inputs[..|inputs| - 1];
      RunKeepsInv(start, firstScan, prefix);
      forall q ensures RunAgrees(Traced(Initial(start, firstScan), []), prefix, q, dir) {
        EvictedAgrees(start, firstScan, prefix, q, dir);
      }
      NextPassAgrees(Traced(Initial(start, firstScan), []), inputs, prefix, r, dir);
    }
  }

  ghost predicate LiveFit(s: State, log: Log, r: Reading, dir: Direction) {
    Fit(ThreadRows(s.threads.Keys), log, WindowStart(log, r), WindowEnd(log, r), dir)
  }

  /** No thread, live or evicted, has carried more than 64 bits count in the window of a reading
      within one life. */
  ghost predicate LivesFit(start: Instant, firstScan: Instant, inputs: seq<Inputs>, r: Reading, dir: Direction) {
    && LiveFit(RunFrom(start, firstScan, inputs), LogOf(start, firstScan, inputs), r, dir)
    && EvictedFit(Traced(Initial(start, firstScan), []), inputs, r, dir)
  }

  /** A reading of the interface accounts for what the log counted: it is what live threads show and
      what evicted threads showed, as far as 64 bits reach; the plain sum never exceeds the count,
      and equals it just when all lives `fit`, in particular when the count itself fits. */
  ghost predicate Accounted(shown: U64, counted: nat, live: nat, evicted: nat, fit: bool) {
    && shown == Sat(counted) == Sat(live + evicted)
    && live + evicted <= counted
    && (live + evicted == counted <==> fit)
    && (counted <= U64_MAX ==> live + evicted == counted)
  }

  lemma AddUp(shown: U64, counted: nat, live: nat, retired: nat, evicted: nat, p: bool, q: bool)
    requires shown == Sat(counted)
    requires Agrees(live + retired, counted, p) && Agrees(evicted, retired, q)
    ensures Accounted(shown, counted, live, evicted, p && q)
  {
  }

  lemma StateAddsUp(t: Traced, r: Reading, dir: Direction, evicted: nat, fit: bool)
    requires Inv(t) && Agrees(evicted, Counted(t.log, r, dir, Retired), fit)
    ensures Accounted(Read(t.s.Interface(dir), r), Counted(t.log, r, dir, Everyone),
                      Sum(ShownBy(t.s.threads, r, dir)), evicted, LiveFit(t.s, t.log, r, dir) && fit)
  {
    InvShows(t, dir);
    LiveAgrees(t.s, t.log, r, dir);
    ReadShows(t.s.Interface(dir), t.log, r, dir, Everyone);
    AddUp(Read(t.s.Interface(dir), r), Counted(t.log, r, dir, Everyone), Sum(ShownBy(t.s.threads, r, dir)),
          Counted(t.log, r, dir, Retired), evicted, LiveFit(t.s, t.log, r, dir), fit);
  }

  /** What a reading of the interface on a run is accounted for by. */
  ghost predicate RunAccounted(start: Instant, firstScan: Instant, inputs: seq<Inputs>, r: Reading, dir: Direction,
                               counted: nat)
  {
    var s := RunFrom(start, firstScan, inputs);
    Accounted(Read(s.Interface(dir), r), counted, Sum(ShownBy(s.threads, r, dir)),
              Evicted(Initial(start, firstScan), inputs, r, dir), LivesFit(start, firstScan, inputs, r, dir))
  }

  /** On every run every reading of the interface is accounted for by the rows there are and the
      rows there were. */
  lemma ReadingsAddUp(start: Instant, firstScan: Instant, inputs: seq<Inputs>, r: Reading, dir: Direction)
    ensures RunAccounted(start, firstScan, inputs, r, dir,
                         Counted(LogOf(start, firstScan, inputs), r, dir, Everyone))
  {
    var origin := Traced(Initial(start, firstScan), []);
    RunInvariant(start, firstScan, inputs);
    EvictedAgrees(start, firstScan, inputs, r, dir);
    StateAddsUp(Traced(RunFrom(start, firstScan, inputs), LogOf(start, firstScan, inputs)), r, dir,
                Evicted(origin.s, inputs, r, dir), EvictedFit(origin, inputs, r, dir));
  }

  /** Live totals and evicted totals together are every byte ever recorded. */
  lemma TotalsAddUp(start: Instant, firstScan: Instant, inputs: seq<Inputs>, dir: Direction)
    ensures RunAccounted(start, firstScan, inputs, OfTotal, dir, RecordBytes(inputs, dir))
  {
    ReadingsAddUp(start, firstScan, inputs, OfTotal, dir);
    LogCounts(start, firstScan, inputs, dir);
  }
}
