/** Rates and averages: when the unchecked sums are exact, and what the peak is. */
module AggregatorRates {
  import opened Net
  import opened TrafficLog
  import opened AggregatorModel
  import opened AggregatorRuns
  import opened AggregatorTheorems

  /** Ten intervals of this many largest records still fit into 64 bits. */
  const MAX_FLOWS_PER_INTERVAL: nat := 429_496_729

  /** At no moment had more than that many records arrived since the last rotation. */
  ghost predicate Calm(log: Log) {
    forall p :: 0 <= p <= |log| ==> RunningCount(log[..p]) <= MAX_FLOWS_PER_INTERVAL
  }

  lemma CalmPrefix(log: Log)
    requires Calm(log) && |log| > 0
    ensures Calm(log[..|log| - 1])
  {
    var prefix := log[..|log| - 1];
    assert forall p :: 0 <= p <= |prefix| ==> prefix[..p] == log[..p];
  }

  ghost function RunningCount(log: Log): nat {
    FlowCount(log, Start(log, 0), |log|)
  }

  ghost function SlotCount(log: Log, i: nat): nat {
    FlowCount(log, Start(log, i + 1), Start(log, i))
  }

  lemma SlotCountFollows(log: Log, e: LogEvent, i: nat)
    ensures SlotCount(log + [e], i)
         == if !e.Tick? then SlotCount(log, i) else if i == 0 then RunningCount(log) else SlotCount(log, i - 1)
  {
    AppendStart(log, e, i);
    AppendStart(log, e, i + 1);
    if !e.Tick? {
      AppendFlowCount(log, e, Start(log, i + 1), Start(log, i));
    } else if i == 0 {
      AppendFlowCount(log, e, Start(log, 0), |log|);
    } else {
      AppendFlowCount(log, e, Start(log, i), Start(log, i - 1));
    }
  }

  lemma {:induction false} CalmSlot(log: Log, i: nat)
    requires Calm(log)
    ensures SlotCount(log, i) <= MAX_FLOWS_PER_INTERVAL
    decreases |log|
  {
    if |log| > 0 {
      var prefix, e := log[..|log| - 1], log[|log| - 1];
      assert log == prefix + [e];
      assert prefix == log[..|prefix|];
      CalmPrefix(log);
      SlotCountFollows(prefix, e, i);
      if !e.Tick? || i > 0 { CalmSlot(prefix, if e.Tick? then i - 1 else i); }
    }
  }

  lemma CalmBytes(log: Log, scope: Scope)
    requires Calm(log)
    ensures Current(log, Tx, scope) + Current(log, Rx, scope) <= MAX_FLOWS_PER_INTERVAL * U32_MAX
    ensures forall i :: Slot(log, i, Tx, scope) + Slot(log, i, Rx, scope) <= MAX_FLOWS_PER_INTERVAL * U32_MAX
  {
    assert log[..|log|] == log;
    BytesWithinCount(log, Start(log, 0), |log|, scope);
    forall i: nat
      ensures Slot(log, i, Tx, scope) + Slot(log, i, Rx, scope) <= MAX_FLOWS_PER_INTERVAL * U32_MAX
    {
      CalmSlot(log, i);
      StartDescends(log, i);
      BytesWithinCount(log, Start(log, i + 1), Start(log, i), scope);
    }
  }

  // ---- Averages ----

  lemma {:induction false} WrappedSum(h: History, n: nat)
    requires n <= HISTORY_SLOTS
    ensures WrappingSum(h, n) == HistorySum(h, n) % (U64_MAX + 1)
  {
    if n > 0 {
      WrappedSum(h, n - 1);
      WrapOnce(HistorySum(h, n - 1), h[n - 1]);
    }
  }

  lemma WrapOnce(a: nat, b: nat)
    ensures (a % (U64_MAX + 1) + b) % (U64_MAX + 1) == (a + b) % (U64_MAX + 1)
  {
  }

  /** A wrapped sum gives the right average exactly when nothing wrapped. */
  lemma WrappedAverage(sum: nat, n: nat)
    requires 0 < n <= 10
    ensures sum % (U64_MAX + 1) / n == sum / n <==> sum <= U64_MAX
  {
    if sum > U64_MAX {
      var m := U64_MAX + 1;
      assert sum == sum / m * m + sum % m;
      assert sum / m >= 1;
      assert sum >= sum % m + m;
    }
  }

  /** Each average is that of the samples shown if and only if they add up within 64 bits. */
  lemma AveragesExact(h: History)
    ensures TwoSecondAvg(h) == HistorySum(h, 2) / 2 <==> HistorySum(h, 2) <= U64_MAX
    ensures TenSecondAvg(h) == HistorySum(h, 10) / 10 <==> HistorySum(h, 10) <= U64_MAX
  {
    WrappedSum(h, 10);
    WrappedSum(h, 2);
    WrappedAverage(HistorySum(h, 10), 10);
    WrappedAverage(HistorySum(h, 2), 2);
    assert WrappingSum(h, 1) == WrappingAdd(WrappingSum(h, 0), h[0]) == h[0];
  }

  /** The running second and every closed one are shown exactly. */
  ghost predicate SecondsExact(m: Meter, log: Log, dir: Direction, scope: Scope) {
    && m.current == Current(log, dir, scope)
    && forall i :: 0 <= i < HISTORY_SLOTS ==> m.history[i] == Slot(log, i, dir, scope)
  }

  /** Besides, both averages are the averages of what was carried. */
  ghost predicate RatesExact(m: Meter, log: Log, dir: Direction, scope: Scope) {
    && SecondsExact(m, log, dir, scope)
    && TwoSecondAvg(m.history) == SlotSum(log, 2, dir, scope) / 2
    && TenSecondAvg(m.history) == SlotSum(log, 10, dir, scope) / 10
  }

  /** What was carried in each second fits into 64 bits. */
  ghost predicate SecondsFit(log: Log, dir: Direction, scope: Scope) {
    && Current(log, dir, scope) <= U64_MAX
    && forall i :: 0 <= i < HISTORY_SLOTS ==> Slot(log, i, dir, scope) <= U64_MAX
  }

  /** And so does what was carried in the last ten together. */
  ghost predicate RatesFit(log: Log, dir: Direction, scope: Scope) {
    SecondsFit(log, dir, scope) && SlotSum(log, 10, dir, scope) <= U64_MAX
  }

  lemma {:induction false} SlotSums(m: Meter, log: Log, n: nat, dir: Direction, scope: Scope)
    requires n <= HISTORY_SLOTS
    requires forall i :: 0 <= i < HISTORY_SLOTS ==> m.history[i] == Slot(log, i, dir, scope)
    ensures HistorySum(m.history, n) == SlotSum(log, n, dir, scope)
    decreases n
  {
    if n > 0 { SlotSums(m, log, n - 1, dir, scope); }
  }

  lemma {:induction false} SumGrows(log: Log, n: nat, k: nat, dir: Direction, scope: Scope)
    requires n <= k
    ensures SlotSum(log, n, dir, scope) <= SlotSum(log, k, dir, scope)
    decreases k
  {
    if n < k { SumGrows(log, n, k - 1, dir, scope); }
  }

  lemma MeterSeconds(m: Meter, log: Log, dir: Direction, scope: Scope)
    requires MeterShows(m, log, dir, scope)
    ensures SecondsExact(m, log, dir, scope) <==> SecondsFit(log, dir, scope)
  {
    if SecondsExact(m, log, dir, scope) {
      forall i | 0 <= i < HISTORY_SLOTS ensures Slot(log, i, dir, scope) <= U64_MAX {
        assert m.history[i] == Slot(log, i, dir, scope);
      }
    }
  }

  lemma MeterRates(m: Meter, log: Log, dir: Direction, scope: Scope)
    requires MeterShows(m, log, dir, scope)
    ensures RatesExact(m, log, dir, scope) <==> RatesFit(log, dir, scope)
  {
    MeterSeconds(m, log, dir, scope);
    if SecondsExact(m, log, dir, scope) {
      SlotSums(m, log, 2, dir, scope);
      SlotSums(m, log, 10, dir, scope);
      SumGrows(log, 2, 10, dir, scope);
      AveragesExact(m.history);
    }
  }

  /** When the counters of the interface are exact: the seconds when they fit, the total when it
      fits. No average is taken of them. */
  ghost predicate InterfaceExactWhenFits(m: Meter, log: Log, dir: Direction) {
    && (SecondsExact(m, log, dir, Everyone) <==> SecondsFit(log, dir, Everyone))
    && (m.total == Total(log, dir, Everyone) <==> Total(log, dir, Everyone) <= U64_MAX)
  }

  /** The same for a thread, with its averages. */
  ghost predicate ThreadExactWhenFits(m: Meter, log: Log, dir: Direction, k: ThreadKey) {
    && (SecondsExact(m, log, dir, OfThread(k)) <==> SecondsFit(log, dir, OfThread(k)))
    && (RatesExact(m, log, dir, OfThread(k)) <==> RatesFit(log, dir, OfThread(k)))
    && (m.total == Total(log, dir, OfThread(k)) <==> Total(log, dir, OfThread(k)) <= U64_MAX)
  }

  /** On every run, what is shown of the interface and of every thread is exact if and only if what
      was carried fits. */
  lemma RatesAreExact(start: Instant, firstScan: Instant, inputs: seq<Inputs>, dir: Direction)
    ensures InterfaceExactWhenFits(RunFrom(start, firstScan, inputs).Interface(dir),
                                   LogOf(start, firstScan, inputs), dir)
    ensures forall k :: k in RunFrom(start, firstScan, inputs).threads ==>
              ThreadExactWhenFits(RunFrom(start, firstScan, inputs).threads[k].Meter(dir),
                                  LogOf(start, firstScan, inputs), dir, k)
  {
    RunInvariant(start, firstScan, inputs);
    AllRates(Traced(RunFrom(start, firstScan, inputs), LogOf(start, firstScan, inputs)), dir);
  }

  lemma AllRates(t: Traced, dir: Direction)
    requires Inv(t)
    ensures InterfaceExactWhenFits(t.s.Interface(dir), t.log, dir)
    ensures forall k :: k in t.s.threads ==> ThreadExactWhenFits(t.s.threads[k].Meter(dir), t.log, dir, k)
  {
    InvShows(t, dir);
    MeterSeconds(t.s.Interface(dir), t.log, dir, Everyone);
    forall k | k in t.s.threads ensures ThreadExactWhenFits(t.s.threads[k].Meter(dir), t.log, dir, k) {
      MeterSeconds(t.s.threads[k].Meter(dir), t.log, dir, OfThread(k));
      MeterRates(t.s.threads[k].Meter(dir), t.log, dir, OfThread(k));
    }
  }

  lemma {:induction false} CalmSums(log: Log, n: nat, dir: Direction, scope: Scope)
    requires Calm(log)
    ensures SlotSum(log, n, dir, scope) <= n * (MAX_FLOWS_PER_INTERVAL * U32_MAX)
  {
    if n > 0 {
      CalmSums(log, n - 1, dir, scope);
      CalmBytes(log, scope);
      assert Slot(log, n - 1, dir, scope) <= Slot(log, n - 1, Tx, scope) + Slot(log, n - 1, Rx, scope);
    }
  }

  lemma CalmFits(log: Log, dir: Direction, scope: Scope)
    requires Calm(log)
    ensures RatesFit(log, dir, scope)
  {
    CalmBytes(log, scope);
    CalmSums(log, 10, dir, scope);
    forall i | 0 <= i < HISTORY_SLOTS ensures Slot(log, i, dir, scope) <= U64_MAX {
      assert Slot(log, i, dir, scope) <= Slot(log, i, Tx, scope) + Slot(log, i, Rx, scope);
    }
  }

  /** In particular the rates are exact on every run with at most so many records between
      rotations. */
  lemma CalmRatesAreExact(start: Instant, firstScan: Instant, inputs: seq<Inputs>, dir: Direction)
    requires Calm(LogOf(start, firstScan, inputs))
    ensures SecondsExact(RunFrom(start, firstScan, inputs).Interface(dir), LogOf(start, firstScan, inputs),
                         dir, Everyone)
    ensures forall k :: k in RunFrom(start, firstScan, inputs).threads ==>
              RatesExact(RunFrom(start, firstScan, inputs).threads[k].Meter(dir),
                         LogOf(start, firstScan, inputs), dir, OfThread(k))
  {
    RatesAreExact(start, firstScan, inputs, dir);
    CalmFits(LogOf(start, firstScan, inputs), dir, Everyone);
    forall k | k in RunFrom(start, firstScan, inputs).threads
      ensures RatesFit(LogOf(start, firstScan, inputs), dir, OfThread(k))
    {
      CalmFits(LogOf(start, firstScan, inputs), dir, OfThread(k));
    }
  }

  // ---- The peak ----

  /** What the unchecked sum gave for the `i`-th most recent completed interval. */
  ghost function Bandwidth(log: Log, i: nat): U64 {
    WrappingAdd(Sat(Slot(log, i, Tx, Everyone)), Sat(Slot(log, i, Rx, Everyone)))
  }

  /** `peak` is the largest bandwidth of all intervals ever completed. */
  ghost predicate IsPeak(peak: nat, log: Log) {
    && (forall i: nat :: Bandwidth(log, i) <= peak)
    && (exists i: nat :: Bandwidth(log, i) == peak)
  }

  lemma BandwidthFollows(log: Log, e: LogEvent, i: nat)
    ensures Bandwidth(log + [e], i)
         == if !e.Tick? then Bandwidth(log, i)
            else if i == 0 then WrappingAdd(Sat(Current(log, Tx, Everyone)), Sat(Current(log, Rx, Everyone)))
            else Bandwidth(log, i - 1)
  {
    SlotFollows(log, e, i, Tx, Everyone);
    SlotFollows(log, e, i, Rx, Everyone);
  }

  lemma QuietKeepsPeak(peak: nat, log: Log, e: LogEvent)
    requires IsPeak(peak, log) && !e.Tick?
    ensures IsPeak(peak, log + [e])
  {
    forall i: nat ensures Bandwidth(log + [e], i) == Bandwidth(log, i) { BandwidthFollows(log, e, i); }
    var i: nat :| Bandwidth(log, i) == peak;
    assert Bandwidth(log + [e], i) == peak;
  }

  lemma TickRaisesPeak(peak: U64, log: Log, tx: U64, rx: U64)
    requires IsPeak(peak, log)
    requires tx == Sat(Current(log, Tx, Everyone)) && rx == Sat(Current(log, Rx, Everyone))
    ensures IsPeak(RaisePeak(peak, tx, rx), log + [Tick])
  {
    var log' := log + [Tick];
    forall i: nat
      ensures Bandwidth(log', i) == if i == 0 then WrappingAdd(tx, rx) else Bandwidth(log, i - 1)
    {
      BandwidthFollows(log, Tick, i);
    }
    var i: nat :| Bandwidth(log, i) == peak;
    assert Bandwidth(log', i + 1) == peak;
    assert Bandwidth(log', 0) == WrappingAdd(tx, rx);
  }

  lemma {:induction false} DrainKeepsPeak(t: Traced, arrivals: seq<Arrival>)
    requires IsPeak(t.s.peak, t.log)
    ensures IsPeak(TraceDrain(t, arrivals).s.peak, TraceDrain(t, arrivals).log)
    decreases |arrivals|
  {
    if arrivals != [] {
      var before := TraceDrain(t, arrivals[..|arrivals| - 1]);
      DrainKeepsPeak(t, arrivals[..|arrivals| - 1]);
      QuietKeepsPeak(before.s.peak, before.log, FlowEvent(before.s, arrivals[|arrivals| - 1]));
    }
  }

  lemma IterationKeepsPeak(t: Traced, i: Inputs)
    requires Inv(t) && IsPeak(t.s.peak, t.log)
    ensures IsPeak(TraceIteration(t, i).s.peak, TraceIteration(t, i).log)
  {
    DrainKeepsPeak(Traced(RefreshCacheIfDue(t.s, i.scanCheck, i.scanned, i.scanStamp), t.log), i.arrivals);
    ArrivalsKeepInv(t, i);
    var marked := TraceArrivals(t, i);
    var removed := TraceRemovals(marked, i.threadClock, i.connClock);
    RemovalsKeepInv(marked, i.threadClock, i.connClock);
    QuietKeepsPeak(marked.s.peak, marked.log, removed.log[|marked.log|]);
    if RotationDue(removed.s, i.rotateCheck) {
      TickRaisesPeak(removed.s.peak, removed.log, removed.s.ifTx.current, removed.s.ifRx.current);
    }
  }

  lemma {:induction false} RunKeepsPeak(start: Instant, firstScan: Instant, inputs: seq<Inputs>)
    ensures IsPeak(Trace(Traced(Initial(start, firstScan), []), inputs).s.peak, LogOf(start, firstScan, inputs))
    decreases |inputs|
  {
    if |inputs| == 0 {
      assert Bandwidth([], 0) == 0;
    } else {
      RunKeepsPeak(start, firstScan, inputs[..|inputs| - 1]);
      RunKeepsInv(start, firstScan, inputs[..|inputs| - 1]);
      IterationKeepsPeak(Trace(Traced(Initial(start, firstScan), []), inputs[..|inputs| - 1]), inputs[|inputs| - 1]);
    }
  }

  /** The two bandwidth figures handed to the interface snapshot. */
  function CurrentBandwidth(s: State): U64 {
    SaturatingAdd(s.ifTx.history[0], s.ifRx.history[0])
  }

  ghost function IntervalBytes(log: Log, i: nat): nat {
    Slot(log, i, Tx, Everyone) + Slot(log, i, Rx, Everyone)
  }

  ghost predicate PeakExact(s: State, log: Log) {
    && (forall i: nat :: IntervalBytes(log, i) <= s.peak)
    && (exists i: nat :: IntervalBytes(log, i) == s.peak)
    && CurrentBandwidth(s) == IntervalBytes(log, 0)
  }

  /** Every interval, both directions together, fits into 64 bits. */
  ghost predicate IntervalsFit(log: Log) {
    forall i: nat :: IntervalBytes(log, i) <= U64_MAX
  }

  lemma FittingBandwidth(log: Log, i: nat)
    ensures IntervalBytes(log, i) <= U64_MAX ==> Bandwidth(log, i) == IntervalBytes(log, i)
  {
  }

  lemma PeakWhenFits(t: Traced)
    requires Inv(t) && IsPeak(t.s.peak, t.log)
    ensures PeakExact(t.s, t.log) <==> IntervalsFit(t.log)
  {
    if PeakExact(t.s, t.log) {
      forall i: nat ensures IntervalBytes(t.log, i) <= U64_MAX { assert IntervalBytes(t.log, i) <= t.s.peak; }
    }
    if IntervalsFit(t.log) {
      forall i: nat ensures Bandwidth(t.log, i) == IntervalBytes(t.log, i) { FittingBandwidth(t.log, i); }
      var i: nat :| Bandwidth(t.log, i) == t.s.peak;
      assert IntervalBytes(t.log, i) == t.s.peak;
    }
  }

  lemma CurrentCovered(t: Traced)
    requires Inv(t) && IsPeak(t.s.peak, t.log)
    ensures CurrentBandwidth(t.s) <= t.s.peak <==> IntervalBytes(t.log, 0) <= U64_MAX || t.s.peak == U64_MAX
  {
    assert Bandwidth(t.log, 0) <= t.s.peak;
    FittingBandwidth(t.log, 0);
  }

  /** On every run, the peak is the largest number of bytes that any completed interval carried if
      and only if all of them fit into 64 bits; and the current bandwidth is within the peak if and
      only if the last interval fits or the peak stands at the top. */
  lemma PeakIsMaximum(start: Instant, firstScan: Instant, inputs: seq<Inputs>)
    ensures PeakExact(RunFrom(start, firstScan, inputs), LogOf(start, firstScan, inputs))
       <==> IntervalsFit(LogOf(start, firstScan, inputs))
    ensures CurrentBandwidth(RunFrom(start, firstScan, inputs)) <= RunFrom(start, firstScan, inputs).peak
       <==> (|| IntervalBytes(LogOf(start, firstScan, inputs), 0) <= U64_MAX
             || RunFrom(start, firstScan, inputs).peak == U64_MAX)
  {
    RunInvariant(start, firstScan, inputs);
    RunKeepsPeak(start, firstScan, inputs);
    TraceState(Traced(Initial(start, firstScan), []), inputs);
    PeakWhenFits(Traced(RunFrom(start, firstScan, inputs), LogOf(start, firstScan, inputs)));
    CurrentCovered(Traced(RunFrom(start, firstScan, inputs), LogOf(start, firstScan, inputs)));
  }

  /** In particular with at most so many records between rotations. */
  lemma CalmPeak(start: Instant, firstScan: Instant, inputs: seq<Inputs>)
    requires Calm(LogOf(start, firstScan, inputs))
    ensures PeakExact(RunFrom(start, firstScan, inputs), LogOf(start, firstScan, inputs))
    ensures CurrentBandwidth(RunFrom(start, firstScan, inputs)) <= RunFrom(start, firstScan, inputs).peak
  {
    CalmBytes(LogOf(start, firstScan, inputs), Everyone);
    PeakIsMaximum(start, firstScan, inputs);
  }
}
