/** The aggregator as it runs: counters and history arrays updated in place. Every method is
    tied to the function of AggregatorModel that says what it does to the state. */
module Aggregator {
  import opened Net
  import opened TrafficLog
  import opened Publication
  import opened Attribution
  import M = AggregatorModel

  /** Moves every sample back by one slot and stores the newest in front. */
  method ShiftIn(history: array<U64>, newest: U64)
    requires history.Length == M.HISTORY_SLOTS
    modifies history
    ensures history[..] == M.Shifted(old(history[..]), newest)
  {
    for idx := M.HISTORY_SLOTS downto 1
      invariant forall j :: idx <= j < M.HISTORY_SLOTS ==> history[j] == old(history[j - 1])
      invariant forall j :: 0 <= j < idx ==> history[j] == old(history[j])
    {
      history[idx] := history[idx - 1];
    }
    history[0] := newest;
  }

  /** The first cached connection that matches the flow in either direction. */
  method LookupProcessFromConnections(flow: FlowKey, cache: seq<ResolvedConnection>) returns (r: Option<ProcessInfo>)
    ensures r.None? <==> forall i :: 0 <= i < |cache| ==> !OfFlow(cache[i], flow)
    ensures forall i: nat :: FirstOfFlow(cache, flow, i) ==>
              r == Some(ProcessInfo(cache[i].pid, cache[i].tid, cache[i].process, cache[i].threadName, cache[i].uid,
                                    cache[i].username))
    ensures r == M.LookupFrom(flow, cache, 0)
  {
    forall i: nat | FirstOfFlow(cache, flow, i)
      ensures M.LookupFrom(flow, cache, 0)
           == Some(ProcessInfo(cache[i].pid, cache[i].tid, cache[i].process, cache[i].threadName, cache[i].uid,
                               cache[i].username))
    {
      LookupIsFirst(flow, cache, 0, i);
    }
    for i := 0 to |cache|
      invariant forall j :: 0 <= j < i ==> !OfFlow(cache[j], flow)
      invariant M.LookupFrom(flow, cache, 0) == M.LookupFrom(flow, cache, i)
    {
      var conn := cache[i];
      if conn.protocol != flow.protocol { continue; }
      var forwardMatch := conn.localAddr.ip == flow.srcIp && conn.localAddr.port == flow.srcPort
                       && conn.remoteAddr.ip == flow.dstIp && conn.remoteAddr.port == flow.dstPort;
      var reverseMatch := conn.localAddr.ip == flow.dstIp && conn.localAddr.port == flow.dstPort
                       && conn.remoteAddr.ip == flow.srcIp && conn.remoteAddr.port == flow.srcPort;
      if !forwardMatch && !reverseMatch { continue; }
      return Some(ProcessInfo(conn.pid, conn.tid, conn.process, conn.threadName, conn.uid, conn.username));
    }
    r := None;
  }

  /** One thread's counters. `Row` is what they hold, as a value. */
  class ThreadStats {
    var info: ProcessInfo
    var txBytesTotal: U64
    var rxBytesTotal: U64
    var lastSeen: Instant
    var txCurrentSecond: U64
    var rxCurrentSecond: U64
    const txHistory: array<U64>
    const rxHistory: array<U64>
    ghost var Row: M.ThreadStats

    ghost predicate Valid()
      reads this, txHistory, rxHistory
    {
      && txHistory.Length == rxHistory.Length == M.HISTORY_SLOTS && txHistory != rxHistory
      && Row == M.ThreadStats(info, lastSeen,
                              M.Meter(txBytesTotal, txCurrentSecond, txHistory[..]),
                              M.Meter(rxBytesTotal, rxCurrentSecond, rxHistory[..]))
    }

    constructor (info: ProcessInfo, now: Instant)
      ensures Valid() && fresh(this) && fresh(txHistory) && fresh(rxHistory)
      ensures Row == M.NewThread(info, now)
    {
      this.info, lastSeen := info, now;
      txBytesTotal, rxBytesTotal, txCurrentSecond, rxCurrentSecond := 0, 0, 0, 0;
      txHistory := new U64[M.HISTORY_SLOTS](_ => 0);
      rxHistory := new U64[M.HISTORY_SLOTS](_ => 0);
      Row := M.NewThread(info, now);
    }

    method Count(info: ProcessInfo, dir: Direction, bytes: U64, seen: Instant)
      requires Valid()
      modifies this
      ensures Valid() && Row == M.CountThread(old(Row), info, dir, bytes, seen)
    {
      this.info := info;
      lastSeen := seen;
      if dir.Tx? {
        txBytesTotal := SaturatingAdd(txBytesTotal, bytes);
        txCurrentSecond := SaturatingAdd(txCurrentSecond, bytes);
      } else {
        rxBytesTotal := SaturatingAdd(rxBytesTotal, bytes);
        rxCurrentSecond := SaturatingAdd(rxCurrentSecond, bytes);
      }
      Row := M.CountThread(Row, info, dir, bytes, seen);
    }

    method RotateSecond()
      requires Valid()
      modifies this, txHistory, rxHistory
      ensures Valid() && Row == M.RotateThread(old(Row))
    {
      ShiftIn(txHistory, txCurrentSecond);
      ShiftIn(rxHistory, rxCurrentSecond);
      txCurrentSecond := 0;
      rxCurrentSecond := 0;
      Row := M.RotateThread(Row);
    }

    method Rename(name: string)
      requires Valid()
      modifies this
      ensures Valid() && Row == M.Renamed(old(Row), name)
    {
      info := info.(name := name);
      Row := M.Renamed(Row, name);
    }

    /** A copy of the counters, as the snapshot rows hold it. */
    method Copy() returns (row: M.ThreadStats)
      requires Valid()
      ensures row == Row
    {
      row := M.ThreadStats(info, lastSeen,
                           M.Meter(txBytesTotal, txCurrentSecond, txHistory[..]),
                           M.Meter(rxBytesTotal, rxCurrentSecond, rxHistory[..]));
    }
  }

  /** The map of thread rows. `Rows` is what its rows hold; `Owner` says which row each piece of
      memory belongs to, so that no two rows share any. */
  class ThreadTable {
    var stats: map<ThreadKey, ThreadStats>
    ghost var Rows: map<ThreadKey, M.ThreadStats>
    ghost var Owner: map<object, ThreadKey>
    ghost var Repr: set<object>

    ghost predicate Owns(k: ThreadKey)
      requires k in stats
      reads this
    {
      && stats[k] in Owner && Owner[stats[k]] == k
      && stats[k].txHistory in Owner && Owner[stats[k].txHistory] == k
      && stats[k].rxHistory in Owner && Owner[stats[k].rxHistory] == k
    }

    ghost predicate Valid()
      reads this, Repr
    {
      && Repr == Owner.Keys + {this} && this !in Owner
      && stats.Keys == Rows.Keys
      && (forall k :: k in stats ==> Owns(k))
      && (forall k :: k in stats ==> stats[k].Valid() && stats[k].Row == Rows[k])
    }

    constructor ()
      ensures Valid() && fresh(Repr) && Rows == map[]
    {
      stats, Rows, Owner, Repr := map[], map[], map[], {this};
    }

    /** Finds or creates the row of a record's owner and counts the record in it. */
    method Count(info: ProcessInfo, dir: Direction, bytes: U64, seen: Instant)
      requires Valid()
      modifies Repr
      ensures Valid() && fresh(Repr - old(Repr))
      ensures Rows == M.UpdateThread(old(Rows), info, dir, bytes, seen)
    {
      var key := ThreadKey(info.pid, info.tid);
      Entry(key, info, seen);
      CountRow(key, info, dir, bytes, seen);
    }

    /** Creates a row if there is none. */
    method Entry(key: ThreadKey, info: ProcessInfo, seen: Instant)
      requires Valid()
      modifies this
      ensures Valid() && fresh(Repr - old(Repr)) && key in stats
      ensures Rows == if key in old(Rows) then old(Rows) else old(Rows)[key := M.NewThread(info, seen)]
    {
      if key !in stats { Create(key, info, seen); }
    }

    method CountRow(k: ThreadKey, info: ProcessInfo, dir: Direction, bytes: U64, seen: Instant)
      requires Valid() && k in stats
      modifies Repr
      ensures Valid() && Repr == old(Repr)
      ensures Rows == old(Rows)[k := M.CountThread(old(Rows)[k], info, dir, bytes, seen)]
    {
      stats[k].Count(info, dir, bytes, seen);
      Rows := Rows[k := stats[k].Row];
    }

    method Create(key: ThreadKey, info: ProcessInfo, seen: Instant)
      requires Valid() && key !in stats
      modifies this
      ensures Valid() && fresh(Repr - old(Repr)) && key in stats
      ensures Rows == old(Rows)[key := M.NewThread(info, seen)]
    {
      var created := new ThreadStats(info, seen);
      Adopt(key, created);
    }

    method Adopt(key: ThreadKey, t: ThreadStats)
      requires Valid() && key !in stats
      requires t.Valid() && {t, t.txHistory, t.rxHistory} !! Repr
      modifies this
      ensures Valid() && key in stats
      ensures Repr == old(Repr) + {t, t.txHistory, t.rxHistory}
      ensures Rows == old(Rows)[key := t.Row]
    {
      stats := stats[key := t];
      Rows := Rows[key := t.Row];
      Owner := Owner[t := key][t.txHistory := key][t.rxHistory := key];
      Repr := Repr + {t, t.txHistory, t.rxHistory};
      forall k | k in stats ensures Owns(k) && stats[k].Valid() && stats[k].Row == Rows[k] {
        if k != key { assert old(Owns(k)) && old(stats[k].Valid()); }
      }
    }

    /** Rotates every row, in whatever order the map is walked. */
    method RotateAll()
      requires Valid()
      modifies Repr
      ensures Valid() && Repr == old(Repr)
      ensures Rows == M.RotateAll(old(Rows))
    {
      var rest := stats.Keys;
      M.RotateEnds(Rows);
      while rest != {}
        invariant Valid() && Repr == old(Repr) && rest <= old(Rows).Keys
        invariant Rows == M.RotateExcept(old(Rows), rest)
        decreases rest
      {
        var k :| k in rest;
        M.RotateOneMore(old(Rows), rest, k);
        RotateRow(k);
        rest := rest - {k};
      }
    }

    method RotateRow(k: ThreadKey)
      requires Valid() && k in stats
      modifies Repr
      ensures Valid() && Repr == old(Repr) && stats == old(stats)
      ensures Rows == old(Rows)[k := M.RotateThread(old(Rows)[k])]
    {
      stats[k].RotateSecond();
      Rows := Rows[k := stats[k].Row];
    }

    method MarkExited(alive: ThreadKey -> bool)
      requires Valid()
      modifies Repr
      ensures Valid() && Repr == old(Repr)
      ensures Rows == M.MarkAll(old(Rows), alive)
    {
      var rest := stats.Keys;
      M.MarkEnds(Rows, alive);
      while rest != {}
        invariant Valid() && Repr == old(Repr) && rest <= old(Rows).Keys
        invariant Rows == M.MarkExcept(old(Rows), alive, rest)
        decreases rest
      {
        var k :| k in rest;
        M.MarkOneMore(old(Rows), alive, rest, k);
        MarkRow(k, alive(k));
        rest := rest - {k};
      }
    }

    method MarkRow(k: ThreadKey, alive: bool)
      requires Valid() && k in stats
      modifies Repr
      ensures Valid() && Repr == old(Repr) && stats == old(stats)
      ensures Rows == old(Rows)[k := M.MarkThread(k, old(Rows)[k], alive)]
    {
      if k.pid == 0 { return; }
      if !alive && !M.EndsWith(stats[k].info.name, M.EXITED_SUFFIX) {
        Rename(k, stats[k].info.name + M.EXITED_SUFFIX);
      }
    }

    method Rename(k: ThreadKey, name: string)
      requires Valid() && k in stats
      modifies Repr
      ensures Valid() && Repr == old(Repr) && stats == old(stats)
      ensures Rows == old(Rows)[k := M.Renamed(old(Rows)[k], name)]
    {
      stats[k].Rename(name);
      Rows := Rows[k := stats[k].Row];
    }

    method EvictStale(clock: ThreadKey -> Instant)
      requires Valid()
      modifies this
      ensures Valid() && Repr == old(Repr)
      ensures Rows == M.KeepFresh(old(Rows), clock)
      ensures forall k :: k in Rows <==> k in old(Rows) && clock(k) <= old(Rows)[k].lastSeen + 30_000_000_000
    {
      stats := map k | k in stats && M.Fresh(stats[k].lastSeen, clock(k)) :: stats[k];
      Rows := M.KeepFresh(Rows, clock);
    }

    method Snapshot() returns (rows: map<ThreadKey, M.ThreadStats>)
      requires Valid()
      ensures rows == Rows
    {
      rows := map[];
      var rest := stats.Keys;
      while rest != {}
        invariant rest <= stats.Keys && rows.Keys == stats.Keys - rest
        invariant forall k :: k in rows ==> rows[k] == Rows[k]
        decreases rest
      {
        var k :| k in rest;
        var row := stats[k].Copy();
        rows := rows[k := row];
        rest := rest - {k};
      }
    }
  }

  class Aggregator {
    const statsByThread: ThreadTable
    var connectionStats: map<ConnectionKey, M.ConnectionStats>
    var lastRotation: Instant
    var lastProcScan: Instant
    var connectionCache: seq<ResolvedConnection>
    var ifTxTotal: U64
    var ifRxTotal: U64
    var ifTxCurrentSecond: U64
    var ifRxCurrentSecond: U64
    const ifTxHistory: array<U64>
    const ifRxHistory: array<U64>
    var peakBw: U64

    ghost function Repr(): set<object>
      reads statsByThread
    {
      {this, ifTxHistory, ifRxHistory} + statsByThread.Repr
    }

    ghost predicate Valid()
      reads Repr(), statsByThread
    {
      && ifTxHistory.Length == ifRxHistory.Length == M.HISTORY_SLOTS && ifTxHistory != ifRxHistory
      && statsByThread.Repr !! {this, ifTxHistory, ifRxHistory}
      && statsByThread.Valid()
    }

    function IfTx(): M.Meter
      requires ifTxHistory.Length == M.HISTORY_SLOTS
      reads this, ifTxHistory
    {
      M.Meter(ifTxTotal, ifTxCurrentSecond, ifTxHistory[..])
    }

    function IfRx(): M.Meter
      requires ifRxHistory.Length == M.HISTORY_SLOTS
      reads this, ifRxHistory
    {
      M.Meter(ifRxTotal, ifRxCurrentSecond, ifRxHistory[..])
    }

    /** The state as a value. */
    ghost function View(): M.State
      requires ifTxHistory.Length == ifRxHistory.Length == M.HISTORY_SLOTS
      reads this, ifTxHistory, ifRxHistory, statsByThread
    {
      M.State(statsByThread.Rows, connectionStats, IfTx(), IfRx(), peakBw, lastRotation, connectionCache, lastProcScan)
    }

    constructor (start: Instant, firstScan: Instant)
      ensures Valid() && fresh(Repr())
      ensures View() == M.Initial(start, firstScan)
    {
      statsByThread := new ThreadTable();
      connectionStats, connectionCache := map[], [];
      lastRotation, lastProcScan := start, firstScan;
      ifTxTotal, ifRxTotal, ifTxCurrentSecond, ifRxCurrentSecond, peakBw := 0, 0, 0, 0, 0;
      ifTxHistory := new U64[M.HISTORY_SLOTS](_ => 0);
      ifRxHistory := new U64[M.HISTORY_SLOTS](_ => 0);
    }

    method UpdateConnectionStats(record: FlowRecord, info: ProcessInfo, bytes: U64, isTx: bool, seen: Instant)
      requires Valid()
      modifies this`connectionStats
      ensures Valid()
      ensures connectionStats == M.UpdateConnection(old(connectionStats),
                M.ConnKeyOf(record.key, info, if isTx then Tx else Rx), if isTx then Tx else Rx, bytes, seen)
    {
      var localAddr, remoteAddr := record.key.Source(), record.key.Destination();
      if !isTx { localAddr, remoteAddr := remoteAddr, localAddr; }
      var key := ConnectionKey(info.pid, info.tid, localAddr, remoteAddr, record.key.protocol);
      var entry := if key in connectionStats then connectionStats[key] else M.ConnectionStats(0, 0, seen);
      if isTx {
        entry := M.ConnectionStats(SaturatingAdd(entry.txBytes, bytes), entry.rxBytes, seen);
      } else {
        entry := M.ConnectionStats(entry.txBytes, SaturatingAdd(entry.rxBytes, bytes), seen);
      }
      connectionStats := connectionStats[key := entry];
    }

    method ResolveOwner(a: M.Arrival) returns (info: ProcessInfo)
      ensures info == M.OwnerOf(a, connectionCache)
    {
      if a.resolved.Some? { return a.resolved.value; }
      var found := LookupProcessFromConnections(a.record.key, connectionCache);
      if found.Some? { return found.value; }
      info := M.UNKNOWN_PROCESS;
    }

    /** Counts a record for its connection and for the interface. */
    method CountInterface(record: FlowRecord, info: ProcessInfo, seen: Instant)
      requires Valid()
      modifies this`connectionStats, this`ifTxTotal, this`ifTxCurrentSecond, this`ifRxTotal, this`ifRxCurrentSecond
      ensures Valid()
      ensures connectionStats == M.UpdateConnection(old(connectionStats),
                M.ConnKeyOf(record.key, info, record.direction), record.direction, record.byteCount, seen)
      ensures IfTx() == if record.direction.Tx? then M.Add(old(IfTx()), record.byteCount) else old(IfTx())
      ensures IfRx() == if record.direction.Rx? then M.Add(old(IfRx()), record.byteCount) else old(IfRx())
    {
      var bytes: U64 := record.byteCount;
      match record.direction {
        case Tx =>
          ifTxTotal := SaturatingAdd(ifTxTotal, bytes);
          ifTxCurrentSecond := SaturatingAdd(ifTxCurrentSecond, bytes);
          UpdateConnectionStats(record, info, bytes, true, seen);
        case Rx =>
          ifRxTotal := SaturatingAdd(ifRxTotal, bytes);
          ifRxCurrentSecond := SaturatingAdd(ifRxCurrentSecond, bytes);
          UpdateConnectionStats(record, info, bytes, false, seen);
      }
    }

    /** Counts a record for its thread; the aggregator's own fields stay. */
    method CountThread(record: FlowRecord, info: ProcessInfo, seen: Instant)
      requires Valid()
      modifies statsByThread.Repr
      ensures Valid() && fresh(Repr() - old(Repr()))
      ensures IfTx() == old(IfTx()) && IfRx() == old(IfRx())
      ensures statsByThread.Rows
           == M.UpdateThread(old(statsByThread.Rows), info, record.direction, record.byteCount, seen)
    {
      statsByThread.Count(info, record.direction, record.byteCount, seen);
    }

    /** Counts a record everywhere; what does not count bytes stays. */
    method CountRecord(record: FlowRecord, info: ProcessInfo, threadSeen: Instant, connSeen: Instant)
      requires Valid()
      modifies Repr()
      ensures Valid() && fresh(Repr() - old(Repr()))
      ensures statsByThread.Rows
           == M.UpdateThread(old(statsByThread.Rows), info, record.direction, record.byteCount, threadSeen)
      ensures connectionStats == M.UpdateConnection(old(connectionStats),
                M.ConnKeyOf(record.key, info, record.direction), record.direction, record.byteCount, connSeen)
      ensures IfTx() == if record.direction.Tx? then M.Add(old(IfTx()), record.byteCount) else old(IfTx())
      ensures IfRx() == if record.direction.Rx? then M.Add(old(IfRx()), record.byteCount) else old(IfRx())
      ensures unchanged(this`peakBw, this`lastRotation, this`connectionCache, this`lastProcScan)
    {
      CountThread(record, info, threadSeen);
      CountInterface(record, info, connSeen);
    }

    method ProcessRecord(a: M.Arrival)
      requires Valid()
      modifies Repr()
      ensures Valid() && fresh(Repr() - old(Repr()))
      ensures View() == M.ProcessRecord(old(View()), a)
    {
      var info := ResolveOwner(a);
      CountRecord(a.record, info, a.threadSeen, a.connSeen);
    }

    method DrainFlowChannel(arrivals: seq<M.Arrival>)
      requires Valid()
      modifies Repr()
      ensures Valid() && fresh(Repr() - old(Repr()))
      ensures View() == M.Drain(old(View()), arrivals)
    {
      for n := 0 to |arrivals|
        invariant Valid() && fresh(Repr() - old(Repr()))
        invariant View() == M.Drain(old(View()), arrivals[..n])
      {
        assert arrivals[..n + 1][..n] == arrivals[..n];
        ProcessRecord(arrivals[n]);
      }
      assert arrivals[..|arrivals|] == arrivals;
    }

    method MarkExitedThreads(alive: ThreadKey -> bool)
      requires Valid()
      modifies Repr()
      ensures Valid() && Repr() == old(Repr())
      ensures View() == M.MarkExited(old(View()), alive)
    {
      statsByThread.MarkExited(alive);
    }

    method EvictStaleThreads(clock: ThreadKey -> Instant)
      requires Valid()
      modifies Repr()
      ensures Valid() && Repr() == old(Repr())
      ensures View() == M.EvictStale(old(View()), clock)
      ensures forall k :: k in View().threads <==>
                k in old(View()).threads && clock(k) <= old(View()).threads[k].lastSeen + 30_000_000_000
    {
      statsByThread.EvictStale(clock);
    }

    method PruneConnectionStats(clock: ConnectionKey -> Instant)
      requires Valid()
      modifies this`connectionStats
      ensures Valid() && Repr() == old(Repr())
      ensures View() == M.PruneConnections(old(View()), clock)
      ensures forall c :: c in connectionStats <==>
                && c in old(connectionStats) && clock(c) <= old(connectionStats)[c].lastSeen + 30_000_000_000
                && ThreadKey(c.pid, c.tid) in View().threads
    {
      connectionStats := map c | c in connectionStats && M.Fresh(connectionStats[c].lastSeen, clock(c))
                                && ThreadKey(c.pid, c.tid) in statsByThread.stats :: connectionStats[c];
      assert connectionStats == M.KeepOwned(old(connectionStats), statsByThread.Rows.Keys, clock);
    }

    method RefreshConnectionCacheIfDue(check: Instant, scanned: seq<ResolvedConnection>, stamp: Instant)
      requires Valid()
      modifies this`connectionCache, this`lastProcScan
      ensures Valid() && Repr() == old(Repr())
      ensures View() == M.RefreshCacheIfDue(old(View()), check, scanned, stamp)
    {
      if Elapsed(lastProcScan, check) >= M.RESOLVER_SCAN_INTERVAL {
        connectionCache := scanned;
        lastProcScan := stamp;
      }
    }

    method RotateInterfaceSecond()
      requires Valid()
      modifies ifTxHistory, ifRxHistory, this`ifTxCurrentSecond, this`ifRxCurrentSecond
      ensures Valid() && Repr() == old(Repr())
      ensures IfTx() == M.Rotate(old(IfTx())) && IfRx() == M.Rotate(old(IfRx()))
    {
      ShiftIn(ifTxHistory, ifTxCurrentSecond);
      ShiftIn(ifRxHistory, ifRxCurrentSecond);
      ifTxCurrentSecond := 0;
      ifRxCurrentSecond := 0;
    }

    method RaisePeak(stamp: Instant)
      requires Valid()
      modifies this`peakBw, this`lastRotation
      ensures Valid() && lastRotation == stamp
      ensures peakBw == M.RaisePeak(old(peakBw), ifTxHistory[0], ifRxHistory[0])
    {
      var currentBandwidth := WrappingAdd(ifTxHistory[0], ifRxHistory[0]);
      if currentBandwidth > peakBw { peakBw := currentBandwidth; }
      lastRotation := stamp;
    }

    method RotateHistoriesIfDue(check: Instant, stamp: Instant) returns (rotated: bool)
      requires Valid()
      modifies Repr()
      ensures Valid() && Repr() == old(Repr())
      ensures rotated == M.RotationDue(old(View()), check)
      ensures View() == M.RotateIfDue(old(View()), check, stamp)
    {
      if Elapsed(lastRotation, check) < SECOND { return false; }
      statsByThread.RotateAll();
      RotateInterfaceSecond();
      RaisePeak(stamp);
      return true;
    }

    method Publish(blocked: set<U32>) returns (rows: seq<ProcessRow>, iface: InterfaceStats)
      requires Valid() && KeysMatch(View())
      ensures Valid() && View() == old(View()) && Repr() == old(Repr())
      ensures Publishes(rows, iface, View(), blocked)
    {
      var threads := statsByThread.Snapshot();
      var s := M.State(threads, connectionStats, IfTx(), IfRx(), peakBw, lastRotation, connectionCache, lastProcScan);
      rows, iface := PublishSnapshots(s, blocked);
    }

    /** One pass of the main loop and its two snapshots. */
    method Iterate(i: M.Inputs, blocked: set<U32>) returns (rows: seq<ProcessRow>, iface: InterfaceStats)
      requires Valid() && KeysMatch(View())
      modifies Repr()
      ensures Valid() && fresh(Repr() - old(Repr()))
      ensures View() == M.Iterate(old(View()), i) && KeysMatch(View())
      ensures Publishes(rows, iface, View(), blocked)
    {
      RefreshConnectionCacheIfDue(i.scanCheck, i.scanned, i.scanStamp);
      DrainFlowChannel(i.arrivals);
      MarkExitedThreads(i.alive);
      EvictStaleThreads(i.threadClock);
      PruneConnectionStats(i.connClock);
      var _ := RotateHistoriesIfDue(i.rotateCheck, i.rotateStamp);
      KeysStay(old(View()), i);
      rows, iface := Publish(blocked);
    }
  }

  /** A row always describes the thread it is filed under. */
  ghost predicate KeysMatch(s: M.State) {
    forall k :: k in s.threads ==> M.ThreadKeyOf(s.threads[k].info) == k
  }

  lemma {:induction false} DrainKeysStay(s: M.State, arrivals: seq<M.Arrival>)
    requires KeysMatch(s)
    ensures KeysMatch(M.Drain(s, arrivals))
    decreases |arrivals|
  {
    if arrivals != [] { DrainKeysStay(s, arrivals[..|arrivals| - 1]); }
  }

  lemma KeysStay(s: M.State, i: M.Inputs)
    requires KeysMatch(s)
    ensures KeysMatch(M.Iterate(s, i))
  {
    DrainKeysStay(M.RefreshCacheIfDue(s, i.scanCheck, i.scanned, i.scanStamp), i.arrivals);
  }

  lemma RunOneMore(s: M.State, inputs: seq<M.Inputs>, n: nat)
    requires n < |inputs|
    ensures M.Run(s, inputs[..n + 1]) == M.Iterate(M.Run(s, inputs[..n]), inputs[n])
  {
    assert inputs[..n + 1][..n] == inputs[..n];
  }

  /** The main loop over a list of passes. What the fields hold at the end is what the value
      model says, so every result about runs of the model is a result about this loop. */
  method RunAggregatorLoop(start: Instant, firstScan: Instant, inputs: seq<M.Inputs>, blocked: seq<set<U32>>)
      returns (a: Aggregator, rows: seq<ProcessRow>, iface: InterfaceStats)
    requires |blocked| == |inputs|
    ensures fresh(a) && a.Valid() && a.View() == M.Run(M.Initial(start, firstScan), inputs)
    ensures |inputs| > 0 ==> Publishes(rows, iface, a.View(), blocked[|inputs| - 1])
  {
    a := new Aggregator(start, firstScan);
    rows := [];
    iface := InterfaceOf(M.Initial(start, firstScan));
    for n := 0 to |inputs|
      invariant fresh(a) && fresh(a.Repr()) && a.Valid()
      invariant KeysMatch(a.View())
      invariant a.View() == M.Run(M.Initial(start, firstScan), inputs[..n])
      invariant n > 0 ==> Publishes(rows, iface, a.View(), blocked[n - 1])
    {
      RunOneMore(M.Initial(start, firstScan), inputs, n);
      rows, iface := a.Iterate(inputs[n], blocked[n]);
    }
    assert inputs[..|inputs|] == inputs;
  }
}
