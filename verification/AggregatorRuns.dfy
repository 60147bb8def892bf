/** What holds of the aggregator's state after every run of its loop. */
module AggregatorRuns {
  import opened Net
  import opened TrafficLog
  import opened AggregatorModel

  // ---- The log of a run ----

  /** A state together with the log of everything that led to it. */
  datatype Traced = Traced(s: State, log: Log)

  ghost function FlowEvent(s: State, a: Arrival): LogEvent {
    var info := OwnerOf(a, s.cache);
    Flow(ThreadKeyOf(info), ConnKeyOf(a.record.key, info, a.record.direction), a.record.direction, a.record.byteCount)
  }

  ghost function TraceRecord(t: Traced, a: Arrival): Traced {
    Traced(ProcessRecord(t.s, a), t.log + [FlowEvent(t.s, a)])
  }

  ghost function TraceDrain(t: Traced, arrivals: seq<Arrival>): Traced
    decreases |arrivals|
  {
    if arrivals == [] then t
    else TraceRecord(TraceDrain(t, arrivals[..|arrivals| - 1]), arrivals[|arrivals| - 1])
  }

  /** Eviction and the pruning that follows it, logged as one removal. */
  ghost function TraceRemovals(t: Traced, threadClock: ThreadKey -> Instant, connClock: ConnectionKey -> Instant)
      : Traced
  {
    var s' := PruneConnections(EvictStale(t.s, threadClock), connClock);
    Traced(s', t.log + [Drop(t.s.threads.Keys - s'.threads.Keys, t.s.conns.Keys - s'.conns.Keys)])
  }

  ghost function TraceRotation(t: Traced, check: Instant, stamp: Instant): Traced {
    Traced(RotateIfDue(t.s, check, stamp), if RotationDue(t.s, check) then t.log + [Tick] else t.log)
  }

  /** One pass up to its removals. */
  ghost function TraceArrivals(t: Traced, i: Inputs): Traced {
    var refreshed := Traced(RefreshCacheIfDue(t.s, i.scanCheck, i.scanned, i.scanStamp), t.log);
    var drained := TraceDrain(refreshed, i.arrivals);
    Traced(MarkExited(drained.s, i.alive), drained.log)
  }

  ghost function TraceIteration(t: Traced, i: Inputs): Traced {
    TraceRotation(TraceRemovals(TraceArrivals(t, i), i.threadClock, i.connClock), i.rotateCheck, i.rotateStamp)
  }

  ghost function Trace(t: Traced, inputs: seq<Inputs>): Traced
    decreases |inputs|
  {
    if |inputs| == 0 then t else TraceIteration(Trace(t, inputs[..|inputs| - 1]), inputs[|inputs| - 1])
  }

  lemma {:induction false} TraceDrainState(t: Traced, arrivals: seq<Arrival>)
    ensures TraceDrain(t, arrivals).s == Drain(t.s, arrivals)
    decreases |arrivals|
  {
    if arrivals != [] { TraceDrainState(t, arrivals[..|arrivals| - 1]); }
  }

  /** Logging does not change what the loop does. */
  lemma {:induction false} TraceState(t: Traced, inputs: seq<Inputs>)
    ensures Trace(t, inputs).s == Run(t.s, inputs)
    decreases |inputs|
  {
    if |inputs| != 0 {
      var i := inputs[|inputs| - 1];
      var before := Trace(t, inputs[..|inputs| - 1]);
      TraceState(t, inputs[..|inputs| - 1]);
      TraceDrainState(Traced(RefreshCacheIfDue(before.s, i.scanCheck, i.scanned, i.scanStamp), before.log), i.arrivals);
    }
  }

  // ---- The invariant ----

  /** A meter shows, as far as 64 bits reach, what the log says of its scope. */
  ghost predicate MeterShows(m: Meter, log: Log, dir: Direction, scope: Scope) {
    && m.total == Sat(Total(log, dir, scope))
    && m.current == Sat(Current(log, dir, scope))
    && forall i :: 0 <= i < HISTORY_SLOTS ==> m.history[i] == Sat(Slot(log, i, dir, scope))
  }

  ghost predicate ThreadShows(t: ThreadStats, k: ThreadKey, log: Log) {
    && ThreadKeyOf(t.info) == k
    && MeterShows(t.tx, log, Tx, OfThread(k))
    && MeterShows(t.rx, log, Rx, OfThread(k))
  }

  ghost predicate ConnShows(c: ConnectionStats, k: ConnectionKey, log: Log) {
    && c.txBytes == Sat(Total(log, Tx, OfConn(k)))
    && c.rxBytes == Sat(Total(log, Rx, OfConn(k)))
  }

  ghost predicate Inv(t: Traced) {
    && MeterShows(t.s.ifTx, t.log, Tx, Everyone)
    && MeterShows(t.s.ifRx, t.log, Rx, Everyone)
    && (forall k :: k in t.s.threads ==> ThreadShows(t.s.threads[k], k, t.log))
    && (forall c :: c in t.s.conns ==> ConnShows(t.s.conns[c], c, t.log))
    && ThreadsCover(t.log, t.s.threads.Keys)
    && ConnsCover(t.log, t.s.conns.Keys)
    && ParentsOutlive(t.log)
    && (forall c :: c in t.s.conns ==> c.Thread() in t.s.threads)
  }

  // ---- One meter, one event ----

  /** What an event does to the meter of one scope and direction. */
  ghost function Follow(m: Meter, e: LogEvent, dir: Direction, claims: bool): Meter {
    match e
    case Flow(_, _, d, b) => if d == dir && claims then Add(m, b) else m
    case Tick => Rotate(m)
    case Drop(_, _) => m
  }

  ghost predicate Claims(e: LogEvent, scope: Scope) {
    e.Flow? &&
      match scope
      case Everyone => true
      case OfThread(k) => e.thread == k
      case OfConn(c) => e.conn == c
      case Retired => false
  }

  /** What an event adds to the counts of a scope. */
  ghost function Gain(e: LogEvent, dir: Direction, scope: Scope): nat {
    if e.Flow? && e.dir == dir && Claims(e, scope) then e.bytes else 0
  }

  lemma LastBytes(log: Log, e: LogEvent, dir: Direction, scope: Scope)
    ensures BytesAt(log + [e], |log|, dir, scope) == Gain(e, dir, scope)
  {
    assert (log + [e])[|log|] == e;
  }

  lemma TotalFollows(log: Log, e: LogEvent, dir: Direction, scope: Scope)
    requires Keeps(e, scope)
    ensures Total(log + [e], dir, scope) == Total(log, dir, scope) + Gain(e, dir, scope)
  {
    LastBytes(log, e, dir, scope);
    AppendBytes(log, e, 0, |log|, dir, scope);
  }

  lemma CurrentFollows(log: Log, e: LogEvent, dir: Direction, scope: Scope)
    requires Keeps(e, scope)
    ensures Current(log + [e], dir, scope)
         == if e.Tick? then 0 else Current(log, dir, scope) + Gain(e, dir, scope)
  {
    AppendStart(log, e, 0);
    LastBytes(log, e, dir, scope);
    AppendBytes(log, e, Start(log, 0), |log|, dir, scope);
  }

  lemma SlotFollows(log: Log, e: LogEvent, i: nat, dir: Direction, scope: Scope)
    requires Keeps(e, scope)
    ensures Slot(log + [e], i, dir, scope)
         == if !e.Tick? then Slot(log, i, dir, scope)
            else if i == 0 then Current(log, dir, scope)
            else Slot(log, i - 1, dir, scope)
  {
    AppendStart(log, e, i);
    AppendStart(log, e, i + 1);
    if !e.Tick? {
      AppendBytes(log, e, Start(log, i + 1), Start(log, i), dir, scope);
    } else if i == 0 {
      LastBytes(log, e, dir, scope);
      AppendBytes(log, e, Start(log, 0), |log|, dir, scope);
    } else {
      AppendBytes(log, e, Start(log, i), Start(log, i - 1), dir, scope);
    }
  }

  lemma MeterFollows(m: Meter, log: Log, e: LogEvent, dir: Direction, scope: Scope)
    requires MeterShows(m, log, dir, scope) && Keeps(e, scope)
    ensures MeterShows(Follow(m, e, dir, Claims(e, scope)), log + [e], dir, scope)
  {
    TotalFollows(log, e, dir, scope);
    CurrentFollows(log, e, dir, scope);
    var m' := Follow(m, e, dir, Claims(e, scope));
    forall i | 0 <= i < HISTORY_SLOTS
      ensures m'.history[i] == Sat(Slot(log + [e], i, dir, scope))
    {
      SlotFollows(log, e, i, dir, scope);
    }
  }

  /** A row that has no flows left in the log may start from zero. */
  lemma ZeroShows(log: Log, dir: Direction, scope: Scope)
    requires forall j :: 0 <= j < |log| && log[j].Flow? ==> !InScope(log, j, scope)
    ensures MeterShows(ZeroMeter(), log, dir, scope)
  {
    NothingCounted(log, 0, |log|, dir, scope);
    NothingCounted(log, Start(log, 0), |log|, dir, scope);
    forall i | 0 <= i < HISTORY_SLOTS
      ensures Slot(log, i, dir, scope) == 0
    {
      NothingCounted(log, Start(log, i + 1), Start(log, i), dir, scope);
    }
  }

  // ---- Each stage keeps the invariant ----

  lemma AppendDropped(log: Log, e: LogEvent, j: nat)
    requires j < |log| && log[j].Flow?
    ensures ThreadDropped(log + [e], j) <==> ThreadDropped(log, j) || (e.Drop? && log[j].thread in e.threads)
    ensures ConnDropped(log + [e], j) <==> ConnDropped(log, j) || (e.Drop? && log[j].conn in e.conns)
  {
    var log' := log + [e];
    assert log'[|log|] == e;
    assert forall m :: 0 <= m < |log| ==> log'[m] == log[m];
  }

  lemma CoverFollows(log: Log, e: LogEvent, threads: set<ThreadKey>, conns: set<ConnectionKey>)
    requires ThreadsCover(log, threads) && ConnsCover(log, conns) && ParentsOutlive(log)
    requires e.Flow? ==> e.conn.Thread() == e.thread
    requires e.Drop? ==> forall c :: c in conns && c.Thread() in e.threads ==> c in e.conns
    ensures ThreadsCover(log + [e],
                         (if e.Drop? then threads - e.threads else threads) + if e.Flow? then {e.thread} else {})
    ensures ConnsCover(log + [e], (if e.Drop? then conns - e.conns else conns) + if e.Flow? then {e.conn} else {})
    ensures ParentsOutlive(log + [e])
  {
    var log' := log + [e];
    forall j | 0 <= j < |log| && log[j].Flow?
      ensures ThreadDropped(log', j) <==> ThreadDropped(log, j) || (e.Drop? && log[j].thread in e.threads)
      ensures ConnDropped(log', j) <==> ConnDropped(log, j) || (e.Drop? && log[j].conn in e.conns)
      ensures log'[j] == log[j]
    {
      AppendDropped(log, e, j);
    }
    assert log'[|log|] == e;
    assert forall j :: 0 <= j < |log'| && log'[j].Flow? ==> j < |log| || j == |log|;
    assert e.Flow? ==> !ThreadDropped(log', |log|) && !ConnDropped(log', |log|);
  }

  lemma ThreadFollows(s: State, log: Log, e: LogEvent, k: ThreadKey)
    requires k in s.threads && ThreadShows(s.threads[k], k, log) && Keeps(e, OfThread(k))
    ensures MeterShows(Follow(s.threads[k].tx, e, Tx, Claims(e, OfThread(k))), log + [e], Tx, OfThread(k))
    ensures MeterShows(Follow(s.threads[k].rx, e, Rx, Claims(e, OfThread(k))), log + [e], Rx, OfThread(k))
  {
    MeterFollows(s.threads[k].tx, log, e, Tx, OfThread(k));
    MeterFollows(s.threads[k].rx, log, e, Rx, OfThread(k));
  }

  lemma ConnFollows(c: ConnectionStats, k: ConnectionKey, log: Log, e: LogEvent, seen: Instant)
    requires ConnShows(c, k, log) && Keeps(e, OfConn(k))
    ensures ConnShows(if Claims(e, OfConn(k)) then CountConn(c, e.dir, e.bytes, seen) else c, k, log + [e])
  {
    TotalFollows(log, e, Tx, OfConn(k));
    TotalFollows(log, e, Rx, OfConn(k));
  }

  lemma RecordThread(t: Traced, a: Arrival, k: ThreadKey)
    requires Inv(t) && k in ProcessRecord(t.s, a).threads
    ensures ThreadShows(ProcessRecord(t.s, a).threads[k], k, TraceRecord(t, a).log)
  {
    var e := FlowEvent(t.s, a);
    if k in t.s.threads {
      ThreadFollows(t.s, t.log, e, k);
    } else {
      ZeroShows(t.log, Tx, OfThread(k));
      ZeroShows(t.log, Rx, OfThread(k));
      MeterFollows(ZeroMeter(), t.log, e, Tx, OfThread(k));
      MeterFollows(ZeroMeter(), t.log, e, Rx, OfThread(k));
    }
  }

  lemma RecordConn(t: Traced, a: Arrival, c: ConnectionKey)
    requires Inv(t) && c in ProcessRecord(t.s, a).conns
    ensures ConnShows(ProcessRecord(t.s, a).conns[c], c, TraceRecord(t, a).log)
  {
    if c !in t.s.conns {
      NothingCounted(t.log, 0, |t.log|, Tx, OfConn(c));
      NothingCounted(t.log, 0, |t.log|, Rx, OfConn(c));
    }
    var entry := if c in t.s.conns then t.s.conns[c] else ConnectionStats(0, 0, a.connSeen);
    ConnFollows(entry, c, t.log, FlowEvent(t.s, a), a.connSeen);
  }

  lemma RecordCovers(t: Traced, a: Arrival)
    requires Inv(t)
    ensures var t' := TraceRecord(t, a);
            && ThreadsCover(t'.log, t'.s.threads.Keys) && ConnsCover(t'.log, t'.s.conns.Keys)
            && ParentsOutlive(t'.log)
            && forall c :: c in t'.s.conns ==> c.Thread() in t'.s.threads
  {
    var e := FlowEvent(t.s, a);
    var t' := TraceRecord(t, a);
    CoverFollows(t.log, e, t.s.threads.Keys, t.s.conns.Keys);
    assert t'.s.threads.Keys == t.s.threads.Keys + {e.thread};
    assert t'.s.conns.Keys == t.s.conns.Keys + {e.conn};
  }

  lemma RecordInterface(t: Traced, a: Arrival)
    requires Inv(t)
    ensures MeterShows(TraceRecord(t, a).s.ifTx, TraceRecord(t, a).log, Tx, Everyone)
    ensures MeterShows(TraceRecord(t, a).s.ifRx, TraceRecord(t, a).log, Rx, Everyone)
  {
    MeterFollows(t.s.ifTx, t.log, FlowEvent(t.s, a), Tx, Everyone);
    MeterFollows(t.s.ifRx, t.log, FlowEvent(t.s, a), Rx, Everyone);
  }

  lemma RecordKeepsInv(t: Traced, a: Arrival)
    requires Inv(t)
    ensures Inv(TraceRecord(t, a))
  {
    var t' := TraceRecord(t, a);
    RecordInterface(t, a);
    forall k | k in t'.s.threads ensures ThreadShows(t'.s.threads[k], k, t'.log) { RecordThread(t, a, k); }
    forall c | c in t'.s.conns ensures ConnShows(t'.s.conns[c], c, t'.log) { RecordConn(t, a, c); }
    RecordCovers(t, a);
  }

  lemma {:induction false} DrainKeepsInv(t: Traced, arrivals: seq<Arrival>)
    requires Inv(t)
    ensures Inv(TraceDrain(t, arrivals))
    decreases |arrivals|
  {
    if arrivals != [] {
      DrainKeepsInv(t, arrivals[..|arrivals| - 1]);
      RecordKeepsInv(TraceDrain(t, arrivals[..|arrivals| - 1]), arrivals[|arrivals| - 1]);
    }
  }

  lemma MarkKeepsInv(t: Traced, alive: ThreadKey -> bool)
    requires Inv(t)
    ensures Inv(Traced(MarkExited(t.s, alive), t.log))
  {
    var s' := MarkExited(t.s, alive);
    assert s'.threads.Keys == t.s.threads.Keys;
    forall k | k in s'.threads ensures ThreadShows(s'.threads[k], k, t.log) {
      assert ThreadShows(t.s.threads[k], k, t.log);
    }
  }

  /** Eviction alone would leave connections without a thread; the pruning that follows it
      at once restores the invariant. */
  lemma RemovalsKeepInv(t: Traced, threadClock: ThreadKey -> Instant, connClock: ConnectionKey -> Instant)
    requires Inv(t)
    ensures Inv(TraceRemovals(t, threadClock, connClock))
  {
    var t' := TraceRemovals(t, threadClock, connClock);
    var e := t'.log[|t.log|];
    MeterFollows(t.s.ifTx, t.log, e, Tx, Everyone);
    MeterFollows(t.s.ifRx, t.log, e, Rx, Everyone);
    forall k | k in t'.s.threads ensures ThreadShows(t'.s.threads[k], k, t'.log) {
      ThreadFollows(t.s, t.log, e, k);
    }
    forall c | c in t'.s.conns ensures ConnShows(t'.s.conns[c], c, t'.log) {
      ConnFollows(t.s.conns[c], c, t.log, e, 0);
    }
    CoverFollows(t.log, e, t.s.threads.Keys, t.s.conns.Keys);
    assert t'.s.threads.Keys == t.s.threads.Keys - e.threads;
    assert t'.s.conns.Keys == t.s.conns.Keys - e.conns;
  }

  lemma RotationKeepsInv(t: Traced, check: Instant, stamp: Instant)
    requires Inv(t)
    ensures Inv(TraceRotation(t, check, stamp))
  {
    if RotationDue(t.s, check) {
      var t' := TraceRotation(t, check, stamp);
      MeterFollows(t.s.ifTx, t.log, Tick, Tx, Everyone);
      MeterFollows(t.s.ifRx, t.log, Tick, Rx, Everyone);
      assert t'.s.threads.Keys == t.s.threads.Keys;
      forall k | k in t'.s.threads ensures ThreadShows(t'.s.threads[k], k, t'.log) {
        ThreadFollows(t.s, t.log, Tick, k);
      }
      forall c | c in t'.s.conns ensures ConnShows(t'.s.conns[c], c, t'.log) {
        ConnFollows(t.s.conns[c], c, t.log, Tick, 0);
      }
      CoverFollows(t.log, Tick, t.s.threads.Keys, t.s.conns.Keys);
      assert t.s.threads.Keys + {} == t.s.threads.Keys;
      assert t.s.conns.Keys + {} == t.s.conns.Keys;
    }
  }

  lemma ArrivalsKeepInv(t: Traced, i: Inputs)
    requires Inv(t)
    ensures Inv(TraceArrivals(t, i))
  {
    var refreshed := Traced(RefreshCacheIfDue(t.s, i.scanCheck, i.scanned, i.scanStamp), t.log);
    DrainKeepsInv(refreshed, i.arrivals);
    MarkKeepsInv(TraceDrain(refreshed, i.arrivals), i.alive);
  }

  lemma IterationKeepsInv(t: Traced, i: Inputs)
    requires Inv(t)
    ensures Inv(TraceIteration(t, i))
  {
    ArrivalsKeepInv(t, i);
    var marked := TraceArrivals(t, i);
    RemovalsKeepInv(marked, i.threadClock, i.connClock);
    RotationKeepsInv(TraceRemovals(marked, i.threadClock, i.connClock), i.rotateCheck, i.rotateStamp);
  }

  /** Every run keeps the invariant. */
  lemma {:induction false} RunKeepsInv(start: Instant, firstScan: Instant, inputs: seq<Inputs>)
    ensures Inv(Trace(Traced(Initial(start, firstScan), []), inputs))
    decreases |inputs|
  {
    if |inputs| == 0 {
      ZeroShows([], Tx, Everyone);
      ZeroShows([], Rx, Everyone);
    } else {
      RunKeepsInv(start, firstScan, inputs[..|inputs| - 1]);
      IterationKeepsInv(Trace(Traced(Initial(start, firstScan), []), inputs[..|inputs| - 1]), inputs[|inputs| - 1]);
    }
  }
}
