/** What the published records say, field by field, of everything that was ever recorded. */
module PublishedRows {
  import opened Net
  import opened TrafficLog
  import opened AggregatorModel
  import opened AggregatorRuns
  import opened AggregatorTheorems
  import opened AggregatorRates
  import opened Publication
  import opened Conversations

  // ---- Connections ----

  /** The cached connections of a thread, in cache order. */
  ghost function CachedOf(cache: seq<ResolvedConnection>, k: ThreadKey): seq<ResolvedConnection>
    decreases |cache|
  {
    if |cache| == 0 then []
    else
      var last := cache[|cache| - 1];
      CachedOf(cache[..|cache| - 1], k) + if last.pid == k.pid && last.tid == k.tid then [last] else []
  }

  /** An entry names a connection, and shows what was sent on it and, under that one condition, what
      was received. */
  ghost predicate EntryShows(e: ConnectionEntry, c: ResolvedConnection, conns: Conns, log: Log, localIps: seq<IpAddr>) {
    && e.localAddr == c.localAddr && e.remoteAddr == c.remoteAddr && e.protocol == c.protocol && e.state == c.state
    && e.pid == c.pid && e.tid == c.tid && e.process == c.process && e.threadName == c.threadName
    && e.username == c.username
    && e.txBytes == Sat(BytesFrom(log, c))
    && (e.rxBytes == Sat(BytesTo(log, c)) <==> ReceivedShown(conns, localIps, c))
  }

  ghost predicate EntriesShow(es: seq<ConnectionEntry>, cs: seq<ResolvedConnection>, conns: Conns, log: Log,
                              localIps: seq<IpAddr>)
  {
    |es| == |cs| && forall j :: 0 <= j < |es| ==> EntryShows(es[j], cs[j], conns, log, localIps)
  }

  lemma EntryIsShown(t: Traced, localIps: seq<IpAddr>, c: ResolvedConnection)
    requires Inv(t) && Witnessed(t) && Classified(t.log, localIps)
    ensures EntryShows(EntryOf(t.s.conns, c), c, t.s.conns, t.log, localIps)
  {
    PublishedConnection(t, localIps, c);
  }

  lemma {:induction false} EntriesAreShown(t: Traced, localIps: seq<IpAddr>, cache: seq<ResolvedConnection>,
                                           k: ThreadKey)
    requires Inv(t) && Witnessed(t) && Classified(t.log, localIps)
    ensures EntriesShow(EntriesOf(cache, t.s.conns, k), CachedOf(cache, k), t.s.conns, t.log, localIps)
    decreases |cache|
  {
    if |cache| > 0 {
      EntriesAreShown(t, localIps, cache[..|cache| - 1], k);
      EntryIsShown(t, localIps, cache[|cache| - 1]);
    }
  }

  // ---- Threads ----

  /** A row shows what its thread carried: in total and in each closed second. */
  ghost predicate ThreadRowShows(r: ProcessRow, log: Log) {
    var k := ThreadKey(r.info.pid, r.info.tid);
    && r.txBytes == Sat(Total(log, Tx, OfThread(k))) && r.rxBytes == Sat(Total(log, Rx, OfThread(k)))
    && (forall i :: 0 <= i < 300 ==> r.txHistory[i] == Sat(Slot(log, i, Tx, OfThread(k))))
    && (forall i :: 0 <= i < 300 ==> r.rxHistory[i] == Sat(Slot(log, i, Rx, OfThread(k))))
  }

  /** A row of a state: one of its threads, as it was last seen, whether it is blocked, what it carried,
      and its cached connections. */
  ghost predicate RowIsTrue(r: ProcessRow, s: State, log: Log, blocked: set<U32>, localIps: seq<IpAddr>) {
    var k := ThreadKey(r.info.pid, r.info.tid);
    && k in s.threads && r.info == s.threads[k].info && r.lastSeen == s.threads[k].lastSeen
    && (r.isBlocked <==> r.info.pid in blocked)
    && ThreadRowShows(r, log)
    && EntriesShow(r.connections, CachedOf(s.cache, k), s.conns, log, localIps)
  }

  lemma RowsAreTrue(t: Traced, r: ProcessRow, blocked: set<U32>, localIps: seq<IpAddr>)
    requires Inv(t) && Witnessed(t) && Classified(t.log, localIps) && IsRow(r, t.s, blocked)
    ensures RowIsTrue(r, t.s, t.log, blocked, localIps)
  {
    assert ThreadShows(t.s.threads[r.Key()], r.Key(), t.log);
    EntriesAreShown(t, localIps, t.s.cache, r.Key());
  }

  /** On every run of classified records, whatever list of rows is published: the rows increase by
      process, then thread; there is one for each live thread; and every field of each is true. */
  lemma PublishedRowsAreTrue(start: Instant, firstScan: Instant, inputs: seq<Inputs>, localIps: seq<IpAddr>,
                             rows: seq<ProcessRow>, blocked: set<U32>)
    requires ClassifiedInputs(inputs, localIps) && FaithfulRows(rows, RunFrom(start, firstScan, inputs), blocked)
    ensures forall i, j :: 0 <= i < j < |rows| ==>
              || rows[i].info.pid < rows[j].info.pid
              || (rows[i].info.pid == rows[j].info.pid && rows[i].info.tid < rows[j].info.tid)
    ensures forall k :: k in RunFrom(start, firstScan, inputs).threads ==>
              exists i :: 0 <= i < |rows| && rows[i].info.pid == k.pid && rows[i].info.tid == k.tid
    ensures forall i :: 0 <= i < |rows| ==>
              RowIsTrue(rows[i], RunFrom(start, firstScan, inputs), LogOf(start, firstScan, inputs), blocked, localIps)
  {
    var t := Traced(RunFrom(start, firstScan, inputs), LogOf(start, firstScan, inputs));
    RunInvariant(start, firstScan, inputs);
    RunKeepsWitness(start, firstScan, inputs, localIps);
    TraceState(Traced(Initial(start, firstScan), []), inputs);
    OneRowEach(rows, t.s, blocked);
    forall i | 0 <= i < |rows| ensures RowIsTrue(rows[i], t.s, t.log, blocked, localIps) {
      assert IsRow(rows[i], t.s, blocked);
      RowsAreTrue(t, rows[i], blocked, localIps);
    }
  }

  lemma OneRowEach(rows: seq<ProcessRow>, s: State, blocked: set<U32>)
    requires FaithfulRows(rows, s, blocked)
    ensures forall i, j :: 0 <= i < j < |rows| ==>
              || rows[i].info.pid < rows[j].info.pid
              || (rows[i].info.pid == rows[j].info.pid && rows[i].info.tid < rows[j].info.tid)
    ensures forall k :: k in s.threads ==>
              exists i :: 0 <= i < |rows| && rows[i].info.pid == k.pid && rows[i].info.tid == k.tid
  {
    forall k | k in s.threads
      ensures exists i :: 0 <= i < |rows| && rows[i].info.pid == k.pid && rows[i].info.tid == k.tid
    {
      assert HasRow(rows, k);
      var i :| 0 <= i < |rows| && rows[i].Key() == k;
      assert rows[i].info.pid == k.pid && rows[i].info.tid == k.tid;
    }
    forall i, j | 0 <= i < j < |rows|
      ensures || rows[i].info.pid < rows[j].info.pid
              || (rows[i].info.pid == rows[j].info.pid && rows[i].info.tid < rows[j].info.tid)
    {
      assert KeyLess(rows[i].Key(), rows[j].Key());
    }
  }

  // ---- The interface ----

  /** The interface record shows what was carried, in total and in each closed second, the last one's
      two directions together, and the largest sum of two directions that was ever closed. */
  ghost predicate InterfaceIsTrue(iface: InterfaceStats, log: Log) {
    && iface.txBytesTotal == Sat(Total(log, Tx, Everyone)) && iface.rxBytesTotal == Sat(Total(log, Rx, Everyone))
    && (forall i :: 0 <= i < 300 ==> iface.txHistory[i] == Sat(Slot(log, i, Tx, Everyone)))
    && (forall i :: 0 <= i < 300 ==> iface.rxHistory[i] == Sat(Slot(log, i, Rx, Everyone)))
    && iface.currentBandwidth == Sat(IntervalBytes(log, 0))
    && IsPeak(iface.peakBandwidth, log)
  }

  /** The two bandwidths are what was carried: the last interval, and the largest of all. */
  ghost predicate BandwidthsExact(iface: InterfaceStats, log: Log) {
    && (forall i: nat :: IntervalBytes(log, i) <= iface.peakBandwidth)
    && (exists i: nat :: IntervalBytes(log, i) == iface.peakBandwidth)
    && iface.currentBandwidth == IntervalBytes(log, 0)
  }

  lemma BandwidthShown(s: State, log: Log)
    requires MeterShows(s.ifTx, log, Tx, Everyone) && MeterShows(s.ifRx, log, Rx, Everyone)
    ensures InterfaceOf(s).currentBandwidth == Sat(IntervalBytes(log, 0)) == CurrentBandwidth(s)
  {
    SatSum(s.ifTx.history[0], Slot(log, 0, Tx, Everyone), s.ifRx.history[0], Slot(log, 0, Rx, Everyone));
  }

  /** On every run every field of the published interface record is true; its bandwidths are exact if
      and only if every interval fits into 64 bits, and the current one is within the peak if and only if
      the last interval fits or the peak stands at the top. */
  lemma PublishedInterfaceIsTrue(start: Instant, firstScan: Instant, inputs: seq<Inputs>, rows: seq<ProcessRow>,
                                 iface: InterfaceStats, blocked: set<U32>)
    requires Publishes(rows, iface, RunFrom(start, firstScan, inputs), blocked)
    ensures InterfaceIsTrue(iface, LogOf(start, firstScan, inputs))
    ensures BandwidthsExact(iface, LogOf(start, firstScan, inputs)) <==> IntervalsFit(LogOf(start, firstScan, inputs))
    ensures iface.currentBandwidth <= iface.peakBandwidth
       <==> IntervalBytes(LogOf(start, firstScan, inputs), 0) <= U64_MAX || iface.peakBandwidth == U64_MAX
  {
    var s, log := RunFrom(start, firstScan, inputs), LogOf(start, firstScan, inputs);
    RunInvariant(start, firstScan, inputs);
    RunKeepsPeak(start, firstScan, inputs);
    TraceState(Traced(Initial(start, firstScan), []), inputs);
    PeakIsMaximum(start, firstScan, inputs);
    BandwidthShown(s, log);
    InterfaceFields(iface, s, log);
  }

  lemma InterfaceFields(iface: InterfaceStats, s: State, log: Log)
    requires iface == InterfaceOf(s) && Inv(Traced(s, log)) && IsPeak(s.peak, log)
    ensures InterfaceIsTrue(iface, log)
    ensures BandwidthsExact(iface, log) <==> PeakExact(s, log)
  {
    BandwidthShown(s, log);
  }
}
