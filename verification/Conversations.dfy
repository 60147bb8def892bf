/** What a published connection says of the conversation it names. */
module Conversations {
  import opened Net
  import opened TrafficLog
  import opened AggregatorModel
  import opened AggregatorRuns
  import opened AggregatorTheorems
  import opened Publication
  import opened Capture
  import R = Resolver

  // ---- Conversations in the log ----

  ghost function SenderOf(e: LogEvent): SocketAddr
    requires e.Flow?
  {
    if e.dir.Tx? then e.conn.localAddr else e.conn.remoteAddr
  }

  ghost function ReceiverOf(e: LogEvent): SocketAddr
    requires e.Flow?
  {
    if e.dir.Tx? then e.conn.remoteAddr else e.conn.localAddr
  }

  /** The bytes that `owner` is on record for from `sender` to `receiver`, since the row that
      counted them was created. */
  ghost function Carried(log: Log, hi: nat, owner: ThreadKey, protocol: Protocol, sender: SocketAddr,
                         receiver: SocketAddr): nat
    requires hi <= |log|
    decreases hi
  {
    if hi == 0 then 0
    else
      var e := log[hi - 1];
      Carried(log, hi - 1, owner, protocol, sender, receiver)
      + if e.Flow? && e.conn.Thread() == owner && e.conn.protocol == protocol
           && SenderOf(e) == sender && ReceiverOf(e) == receiver && !ConnDropped(log, hi - 1)
        then e.bytes else 0
  }

  /** Every record got its direction from the classifier. */
  ghost predicate Classified(log: Log, localIps: seq<IpAddr>) {
    forall j :: 0 <= j < |log| && log[j].Flow? ==>
      log[j].dir == ClassifyDirection(localIps, SenderOf(log[j]).ip, ReceiverOf(log[j]).ip)
  }

  /** Every connection row was created by a record that it still counts. */
  ghost predicate Witnessed(t: Traced) {
    forall c :: c in t.s.conns ==> HasFlow(t.log, c)
  }

  ghost predicate HasFlow(log: Log, c: ConnectionKey) {
    exists j :: 0 <= j < |log| && log[j].Flow? && log[j].conn == c && !ConnDropped(log, j)
  }

  /** All traffic from `sender` to `receiver` is counted under one key and in one direction. */
  lemma {:induction false} CarriedInOneRow(
      log: Log, hi: nat, localIps: seq<IpAddr>, owner: ThreadKey, protocol: Protocol,
      sender: SocketAddr, receiver: SocketAddr)
    requires hi <= |log| && Classified(log, localIps)
    ensures var dir := ClassifyDirection(localIps, sender.ip, receiver.ip);
            var c := if dir.Tx? then ConnectionKey(owner.pid, owner.tid, sender, receiver, protocol)
                     else ConnectionKey(owner.pid, owner.tid, receiver, sender, protocol);
            Carried(log, hi, owner, protocol, sender, receiver) == Bytes(log, 0, hi, dir, OfConn(c))
    decreases hi
  {
    if hi > 0 {
      CarriedInOneRow(log, hi - 1, localIps, owner, protocol, sender, receiver);
    }
  }

  /** The other direction of that row stays empty unless the classifier sends the answers there. */
  lemma {:induction false} OtherSideEmpty(log: Log, hi: nat, localIps: seq<IpAddr>, c: ConnectionKey, dir: Direction)
    requires hi <= |log| && Classified(log, localIps)
    requires dir.Tx? ==> ClassifyDirection(localIps, c.localAddr.ip, c.remoteAddr.ip) != Tx
    requires dir.Rx? ==> ClassifyDirection(localIps, c.remoteAddr.ip, c.localAddr.ip) != Rx
    ensures Bytes(log, 0, hi, dir, OfConn(c)) == 0
    decreases hi
  {
    if hi > 0 {
      OtherSideEmpty(log, hi - 1, localIps, c, dir);
    }
  }

  lemma NoRowNoBytes(t: Traced, c: ConnectionKey, dir: Direction)
    requires Inv(t) && c !in t.s.conns
    ensures Total(t.log, dir, OfConn(c)) == 0
  {
    NothingCounted(t.log, 0, |t.log|, dir, OfConn(c));
  }

  /** A row exists only for a key whose own direction the classifier calls outbound. */
  lemma RowIsOutbound(t: Traced, localIps: seq<IpAddr>, c: ConnectionKey)
    requires Witnessed(t) && Classified(t.log, localIps) && c in t.s.conns
    ensures ClassifyDirection(localIps, c.localAddr.ip, c.remoteAddr.ip) == Tx
  {
    assert HasFlow(t.log, c);
  }

  ghost function BytesFrom(log: Log, c: ResolvedConnection): nat {
    Carried(log, |log|, ThreadKey(c.pid, c.tid), c.protocol, c.localAddr, c.remoteAddr)
  }

  ghost function BytesTo(log: Log, c: ResolvedConnection): nat {
    Carried(log, |log|, ThreadKey(c.pid, c.tid), c.protocol, c.remoteAddr, c.localAddr)
  }

  predicate ExactlyOneLocal(localIps: seq<IpAddr>, c: ResolvedConnection) {
    (c.localAddr.ip in localIps) != (c.remoteAddr.ip in localIps)
  }

  /** When what the snapshot says a connection received is what it received. */
  predicate ReceivedShown(conns: Conns, localIps: seq<IpAddr>, c: ResolvedConnection) {
    || ExactlyOneLocal(localIps, c)
    || ForwardKey(c) !in conns
    || ReverseKey(c) !in conns
    || conns[ReverseKey(c)].txBytes == 0
  }

  lemma RowShows(t: Traced, c: ConnectionKey, dir: Direction)
    requires Inv(t)
    ensures (if c in t.s.conns then t.s.conns[c].Count(dir) else 0) == Sat(Total(t.log, dir, OfConn(c)))
  {
    if c in t.s.conns { assert ConnShows(t.s.conns[c], c, t.log); } else { NoRowNoBytes(t, c, dir); }
  }

  /** What is published as sent is always what was sent. What is published as received is what
      was received exactly when one end alone is local, or when one of the two keys of the
      conversation holds no outbound bytes. */
  lemma PublishedConnection(t: Traced, localIps: seq<IpAddr>, c: ResolvedConnection)
    requires Inv(t) && Witnessed(t) && Classified(t.log, localIps)
    ensures PublishedBytes(t.s.conns, c).0 == Sat(BytesFrom(t.log, c))
    ensures PublishedBytes(t.s.conns, c).1 == Sat(BytesTo(t.log, c)) <==> ReceivedShown(t.s.conns, localIps, c)
  {
    var owner := ThreadKey(c.pid, c.tid);
    var out := ClassifyDirection(localIps, c.localAddr.ip, c.remoteAddr.ip);
    var back := ClassifyDirection(localIps, c.remoteAddr.ip, c.localAddr.ip);
    CarriedInOneRow(t.log, |t.log|, localIps, owner, c.protocol, c.localAddr, c.remoteAddr);
    CarriedInOneRow(t.log, |t.log|, localIps, owner, c.protocol, c.remoteAddr, c.localAddr);
    RowShows(t, ForwardKey(c), Tx);
    RowShows(t, ForwardKey(c), Rx);
    RowShows(t, ReverseKey(c), Tx);
    RowShows(t, ReverseKey(c), Rx);
    if ForwardKey(c) in t.s.conns { RowIsOutbound(t, localIps, ForwardKey(c)); }
    if ReverseKey(c) in t.s.conns { RowIsOutbound(t, localIps, ReverseKey(c)); }
    if out == Tx && back == Tx {
      OtherSideEmpty(t.log, |t.log|, localIps, ForwardKey(c), Rx);
      OtherSideEmpty(t.log, |t.log|, localIps, ReverseKey(c), Rx);
    }
  }

  // ---- Every run ----

  ghost predicate ClassifiedInputs(inputs: seq<Inputs>, localIps: seq<IpAddr>) {
    forall n, m :: 0 <= n < |inputs| && 0 <= m < |inputs[n].arrivals| ==>
      ClassifiedRecord(inputs[n].arrivals[m].record, localIps)
  }

  predicate ClassifiedRecord(r: FlowRecord, localIps: seq<IpAddr>) {
    r.direction == ClassifyDirection(localIps, r.key.srcIp, r.key.dstIp)
  }

  lemma WitnessFollows(log: Log, e: LogEvent, c: ConnectionKey)
    requires HasFlow(log, c) && Keeps(e, OfConn(c))
    ensures HasFlow(log + [e], c)
  {
    var j :| 0 <= j < |log| && log[j].Flow? && log[j].conn == c && !ConnDropped(log, j);
    AppendDropped(log, e, j);
    assert (log + [e])[j] == log[j];
  }

  lemma RecordKeepsWitness(t: Traced, a: Arrival, localIps: seq<IpAddr>)
    requires Witnessed(t) && Classified(t.log, localIps) && ClassifiedRecord(a.record, localIps)
    ensures Witnessed(TraceRecord(t, a)) && Classified(TraceRecord(t, a).log, localIps)
  {
    var e := FlowEvent(t.s, a);
    var t' := TraceRecord(t, a);
    assert t'.log[|t.log|] == e;
    assert !ConnDropped(t'.log, |t.log|);
    forall c | c in t'.s.conns ensures HasFlow(t'.log, c) {
      if c != e.conn { WitnessFollows(t.log, e, c); }
    }
  }

  lemma {:induction false} DrainKeepsWitness(t: Traced, arrivals: seq<Arrival>, localIps: seq<IpAddr>)
    requires Witnessed(t) && Classified(t.log, localIps)
    requires forall m :: 0 <= m < |arrivals| ==> ClassifiedRecord(arrivals[m].record, localIps)
    ensures Witnessed(TraceDrain(t, arrivals)) && Classified(TraceDrain(t, arrivals).log, localIps)
    decreases |arrivals|
  {
    if arrivals != [] {
      DrainKeepsWitness(t, arrivals[..|arrivals| - 1], localIps);
      RecordKeepsWitness(TraceDrain(t, arrivals[..|arrivals| - 1]), arrivals[|arrivals| - 1], localIps);
    }
  }

  lemma RemovalsKeepWitness(t: Traced, threadClock: ThreadKey -> Instant, connClock: ConnectionKey -> Instant,
                            localIps: seq<IpAddr>)
    requires Witnessed(t) && Classified(t.log, localIps)
    ensures Witnessed(TraceRemovals(t, threadClock, connClock))
    ensures Classified(TraceRemovals(t, threadClock, connClock).log, localIps)
  {
    var t' := TraceRemovals(t, threadClock, connClock);
    forall c | c in t'.s.conns ensures HasFlow(t'.log, c) {
      WitnessFollows(t.log, t'.log[|t.log|], c);
    }
  }

  lemma IterationKeepsWitness(t: Traced, i: Inputs, localIps: seq<IpAddr>)
    requires Witnessed(t) && Classified(t.log, localIps)
    requires forall m :: 0 <= m < |i.arrivals| ==> ClassifiedRecord(i.arrivals[m].record, localIps)
    ensures Witnessed(TraceIteration(t, i)) && Classified(TraceIteration(t, i).log, localIps)
  {
    DrainKeepsWitness(Traced(RefreshCacheIfDue(t.s, i.scanCheck, i.scanned, i.scanStamp), t.log), i.arrivals, localIps);
    var marked := TraceArrivals(t, i);
    RemovalsKeepWitness(marked, i.threadClock, i.connClock, localIps);
    var removed := TraceRemovals(marked, i.threadClock, i.connClock);
    forall c | c in removed.s.conns ensures HasFlow(removed.log + [Tick], c) {
      WitnessFollows(removed.log, Tick, c);
    }
  }

  lemma {:induction false} RunKeepsWitness(start: Instant, firstScan: Instant, inputs: seq<Inputs>,
                                           localIps: seq<IpAddr>)
    requires ClassifiedInputs(inputs, localIps)
    ensures Witnessed(Trace(Traced(Initial(start, firstScan), []), inputs))
    ensures Classified(LogOf(start, firstScan, inputs), localIps)
    decreases |inputs|
  {
    if |inputs| != 0 {
      RunKeepsWitness(start, firstScan, inputs[..|inputs| - 1], localIps);
      IterationKeepsWitness(Trace(Traced(Initial(start, firstScan), []), inputs[..|inputs| - 1]),
                            inputs[|inputs| - 1], localIps);
    }
  }

  ghost predicate ShownExactly(s: State, log: Log, localIps: seq<IpAddr>, c: ResolvedConnection) {
    && PublishedBytes(s.conns, c).0 == Sat(BytesFrom(log, c))
    && (PublishedBytes(s.conns, c).1 == Sat(BytesTo(log, c)) <==> ReceivedShown(s.conns, localIps, c))
  }

  /** On every run whose records were classified against the local addresses, every published
      connection shows its conversation, up to that one condition. */
  lemma ConnectionsAreExact(start: Instant, firstScan: Instant, inputs: seq<Inputs>, localIps: seq<IpAddr>,
                            c: ResolvedConnection)
    requires ClassifiedInputs(inputs, localIps)
    ensures ShownExactly(RunFrom(start, firstScan, inputs), LogOf(start, firstScan, inputs), localIps, c)
  {
    RunInvariant(start, firstScan, inputs);
    RunKeepsWitness(start, firstScan, inputs, localIps);
    TraceState(Traced(Initial(start, firstScan), []), inputs);
    PublishedConnection(Traced(RunFrom(start, firstScan, inputs), LogOf(start, firstScan, inputs)), localIps, c);
  }

  // ---- One key or two ----

  /** When one end alone is local, only the key that starts with it can be present. */
  lemma OneKeyOnly(start: Instant, firstScan: Instant, inputs: seq<Inputs>, localIps: seq<IpAddr>,
                   c: ResolvedConnection)
    requires ClassifiedInputs(inputs, localIps) && ExactlyOneLocal(localIps, c)
    ensures var conns := RunFrom(start, firstScan, inputs).conns;
            if c.localAddr.ip in localIps then ReverseKey(c) !in conns else ForwardKey(c) !in conns
  {
    RunKeepsWitness(start, firstScan, inputs, localIps);
    TraceState(Traced(Initial(start, firstScan), []), inputs);
    var t := Traced(RunFrom(start, firstScan, inputs), LogOf(start, firstScan, inputs));
    if ForwardKey(c) in t.s.conns { RowIsOutbound(t, localIps, ForwardKey(c)); }
    if ReverseKey(c) in t.s.conns { RowIsOutbound(t, localIps, ReverseKey(c)); }
  }

  /** One record of one byte each way, seen at time 0, for the holder of the connection. */
  function Exchange(c: ResolvedConnection): Inputs {
    var (a, b) := (c.localAddr, c.remoteAddr);
    var there := FlowRecord(FlowKey(a.ip, b.ip, a.port, b.port, c.protocol), 1, Tx);
    var back := FlowRecord(FlowKey(b.ip, a.ip, b.port, a.port, c.protocol), 1, Tx);
    Inputs(0, [], 0, [Arrival(there, Some(InfoOf(c)), 0, 0), Arrival(back, Some(InfoOf(c)), 0, 0)],
           _ => true, _ => 0, _ => 0, 0, 0)
  }

  lemma OnePass(s: State, i: Inputs)
    ensures Run(s, [i]) == Iterate(s, i)
  {
    assert [i][..0] == [] && [i][0] == i;
  }

  lemma TwoArrivals(s: State, a: Arrival, b: Arrival)
    ensures Drain(s, [a, b]) == ProcessRecord(ProcessRecord(s, a), b)
  {
    assert [a, b][..1] == [a] && [a][..0] == [];
    assert Drain(s, [a]) == ProcessRecord(Drain(s, []), a);
  }

  /** Two keys in the map, of one thread that is there too. */
  ghost predicate BothKeys(s: State, c: ResolvedConnection) {
    && s.threads.Keys == {ThreadKey(c.pid, c.tid)}
    && (forall k :: k in s.threads ==> s.threads[k].lastSeen == 0)
    && ForwardKey(c) in s.conns && ReverseKey(c) in s.conns
    && s.conns[ForwardKey(c)].lastSeen == s.conns[ReverseKey(c)].lastSeen == 0
    && s.conns[ReverseKey(c)].txBytes > 0
  }

  lemma ExchangeCounts(s: State, c: ResolvedConnection)
    requires s.threads == map[] && s.conns == map[]
    ensures BothKeys(Drain(s, Exchange(c).arrivals), c)
  {
    var i := Exchange(c);
    TwoArrivals(s, i.arrivals[0], i.arrivals[1]);
  }

  lemma ExchangeKept(c: ResolvedConnection)
    ensures var conns := RunFrom(0, 0, [Exchange(c)]).conns;
            && ForwardKey(c) in conns && ReverseKey(c) in conns && conns[ReverseKey(c)].txBytes > 0
  {
    OnePass(Initial(0, 0), Exchange(c));
    ExchangeCounts(RefreshCacheIfDue(Initial(0, 0), 0, [], 0), c);
  }

  /** A connection is shown on every run to have received what it received, if and only if exactly
      one of its ends is local. */
  lemma ReceivedShownAlways(localIps: seq<IpAddr>, c: ResolvedConnection)
    ensures (forall start: Instant, firstScan: Instant, inputs: seq<Inputs> :: ClassifiedInputs(inputs, localIps) ==>
               ReceivedRight(start, firstScan, inputs, c))
       <==> ExactlyOneLocal(localIps, c)
  {
    if ExactlyOneLocal(localIps, c) {
      forall start: Instant, firstScan: Instant, inputs: seq<Inputs> | ClassifiedInputs(inputs, localIps)
        ensures ReceivedRight(start, firstScan, inputs, c)
      {
        ConnectionsAreExact(start, firstScan, inputs, localIps, c);
      }
    } else {
      ExchangeKept(c);
      assert ClassifiedInputs([Exchange(c)], localIps);
      ConnectionsAreExact(0, 0, [Exchange(c)], localIps, c);
      assert !ReceivedRight(0, 0, [Exchange(c)], c);
    }
  }

  ghost predicate ReceivedRight(start: Instant, firstScan: Instant, inputs: seq<Inputs>, c: ResolvedConnection) {
    PublishedBytes(RunFrom(start, firstScan, inputs).conns, c).1 == Sat(BytesTo(LogOf(start, firstScan, inputs), c))
  }

  // ---- Without local addresses ----

  lemma {:induction false} NothingReceived(log: Log, lo: nat, hi: nat, scope: Scope)
    requires hi <= |log| && Classified(log, [])
    ensures Bytes(log, lo, hi, Rx, scope) == 0
    decreases hi
  {
    if lo < hi { NothingReceived(log, lo, hi - 1, scope); }
  }

  /** A meter that has counted nothing. */
  ghost predicate Idle(m: Meter) {
    m.total == 0 && m.current == 0 && forall i :: 0 <= i < HISTORY_SLOTS ==> m.history[i] == 0
  }

  /** No row of the state has counted anything as received. */
  ghost predicate NeverReceived(s: State) {
    && Idle(s.ifRx)
    && (forall k :: k in s.threads ==> Idle(s.threads[k].rx))
    && forall c :: c in s.conns ==> s.conns[c].rxBytes == 0
  }

  /** Received bytes are shown only where the two ends of a connection are swapped. */
  ghost predicate ShownOnlySwapped(conns: Conns) {
    forall c: ResolvedConnection ::
      (PublishedBytes(conns, c).1 > 0) <==>
      (ForwardKey(c) !in conns && ReverseKey(c) in conns && conns[ReverseKey(c)].txBytes > 0)
  }

  /** Started without local addresses, as the GUI starts it, the monitor counts every byte as
      sent: on every run the interface, every thread and every connection row have received
      nothing. A published connection shows received bytes if and only if it has no row of its own
      and the row of its swapped ends has sent some. */
  lemma NoLocalAddresses(start: Instant, firstScan: Instant, inputs: seq<Inputs>)
    requires ClassifiedInputs(inputs, [])
    ensures NeverReceived(RunFrom(start, firstScan, inputs))
    ensures ShownOnlySwapped(RunFrom(start, firstScan, inputs).conns)
  {
    RunInvariant(start, firstScan, inputs);
    RunKeepsWitness(start, firstScan, inputs, []);
    NothingCountedAsReceived(Traced(RunFrom(start, firstScan, inputs), LogOf(start, firstScan, inputs)));
  }

  lemma IdleMeter(m: Meter, log: Log, scope: Scope)
    requires MeterShows(m, log, Rx, scope) && Classified(log, [])
    ensures Idle(m)
  {
    NothingReceived(log, 0, |log|, scope);
    NothingReceived(log, Start(log, 0), |log|, scope);
    forall i | 0 <= i < HISTORY_SLOTS ensures m.history[i] == 0 {
      NothingReceived(log, Start(log, i + 1), Start(log, i), scope);
    }
  }

  lemma NothingCountedAsReceived(t: Traced)
    requires Inv(t) && Classified(t.log, [])
    ensures NeverReceived(t.s)
  {
    IdleMeter(t.s.ifRx, t.log, Everyone);
    forall k | k in t.s.threads ensures Idle(t.s.threads[k].rx) {
      assert ThreadShows(t.s.threads[k], k, t.log);
      IdleMeter(t.s.threads[k].rx, t.log, OfThread(k));
    }
    forall c | c in t.s.conns ensures t.s.conns[c].rxBytes == 0 {
      NothingReceived(t.log, 0, |t.log|, OfConn(c));
      assert ConnShows(t.s.conns[c], c, t.log);
    }
  }

  /** One byte from the far end, and none to it. */
  function FarEndOnly(c: ResolvedConnection): Inputs {
    Exchange(c).(arrivals := [Exchange(c).arrivals[1]])
  }

  lemma FarEndCounts(s: State, c: ResolvedConnection)
    requires s.threads == map[] && s.conns == map[]
    ensures var t := Drain(s, FarEndOnly(c).arrivals);
            && t.threads.Keys == {ThreadKey(c.pid, c.tid)} && t.threads[ThreadKey(c.pid, c.tid)].lastSeen == 0
            && t.conns == map[ReverseKey(c) := ConnectionStats(1, 0, 0)]
  {
    var a := FarEndOnly(c).arrivals[0];
    assert [a][..0] == [] && Drain(s, []) == s;
    assert Drain(s, [a]) == ProcessRecord(s, a);
  }

  /** A run without local addresses on which a connection is shown to have received bytes: only its
      far end was heard. */
  lemma FarEndHeard(c: ResolvedConnection)
    requires c.localAddr != c.remoteAddr
    ensures ClassifiedInputs([FarEndOnly(c)], [])
    ensures PublishedBytes(RunFrom(0, 0, [FarEndOnly(c)]).conns, c) == (0, 1)
  {
    OnePass(Initial(0, 0), FarEndOnly(c));
    FarEndCounts(RefreshCacheIfDue(Initial(0, 0), 0, [], 0), c);
    assert RunFrom(0, 0, [FarEndOnly(c)]).conns == map[ReverseKey(c) := ConnectionStats(1, 0, 0)];
  }

  // ---- Both directions of one conversation ----

  /** A flow and its mirror match the same sockets. With exactly one local end they classify to
      opposite directions and land in the same row, on opposite counters; otherwise both count
      as sent, in two rows. */
  lemma MirrorSymmetry(localIps: seq<IpAddr>, flow: FlowKey, info: ProcessInfo)
    ensures var d := ClassifyDirection(localIps, flow.srcIp, flow.dstIp);
            var d' := ClassifyDirection(localIps, flow.Mirror().srcIp, flow.Mirror().dstIp);
            && (forall a, b, p :: Matches(a, b, p, flow) <==> Matches(a, b, p, flow.Mirror()))
            && (d != d' <==> (flow.srcIp in localIps) != (flow.dstIp in localIps))
            && (d != d' ==> ConnKeyOf(flow, info, d) == ConnKeyOf(flow.Mirror(), info, d'))
            && (d == d' ==> d == Tx)
            && (d == d' ==> (ConnKeyOf(flow, info, d) == ConnKeyOf(flow.Mirror(), info, d') <==> flow == flow.Mirror()))
  {
  }

  lemma {:induction false} MirrorLookup(flow: FlowKey, cache: seq<ResolvedConnection>, i: nat)
    requires i <= |cache|
    ensures LookupFrom(flow.Mirror(), cache, i) == LookupFrom(flow, cache, i)
    decreases |cache| - i
  {
    if i < |cache| { MirrorLookup(flow, cache, i + 1); }
  }

  /** One walk of the resolver's cache. */
  datatype Snapshot = Snapshot(order: seq<U64>, sockets: R.Table, owners: map<U64, ProcessInfo>) {
    function OwnerOf(flow: FlowKey): Option<ProcessInfo> { R.FirstOwner(flow, order, sockets, owners) }
  }

  /** A record and the one that answers it: the ends swapped, and both resolved on one snapshot. */
  predicate Answer(there: Arrival, back: Arrival, localIps: seq<IpAddr>, snap: Snapshot) {
    && back.record.key == there.record.key.Mirror()
    && there.resolved == snap.OwnerOf(there.record.key) && back.resolved == snap.OwnerOf(back.record.key)
    && ClassifiedRecord(there.record, localIps) && ClassifiedRecord(back.record, localIps)
  }

  function KeyFor(a: Arrival, cache: seq<ResolvedConnection>): ConnectionKey {
    ConnKeyOf(a.record.key, OwnerOf(a, cache), a.record.direction)
  }

  function CountIn(conns: Conns, c: ConnectionKey, dir: Direction): U64 {
    if c in conns then conns[c].Count(dir) else 0
  }

  /** What a record under key `k` adds to one counter of one row. */
  function Share(a: Arrival, k: ConnectionKey, c: ConnectionKey, d: Direction): nat {
    if k == c && a.record.direction == d then a.record.byteCount else 0
  }

  /** What a record under key `k` leaves: every counter has grown by its share, and no other row
      has changed. */
  ghost predicate Grown(before: Conns, after: Conns, a: Arrival, k: ConnectionKey) {
    && after.Keys == before.Keys + {k}
    && (forall c :: c in before && c != k ==> after[c] == before[c])
    && forall c, d :: CountIn(after, c, d) == Sat(CountIn(before, c, d) + Share(a, k, c, d))
  }

  /** And two records. */
  ghost predicate GrownBoth(before: Conns, after: Conns, a: Arrival, k: ConnectionKey, b: Arrival, l: ConnectionKey) {
    && after.Keys == before.Keys + {k, l}
    && (forall c :: c in before && c != k && c != l ==> after[c] == before[c])
    && forall c, d :: CountIn(after, c, d) == Sat(CountIn(before, c, d) + Share(a, k, c, d) + Share(b, l, c, d))
  }

  lemma RecordGrows(s: State, a: Arrival)
    ensures Grown(s.conns, ProcessRecord(s, a).conns, a, KeyFor(a, s.cache))
  {
  }

  lemma GrownTwice(x: Conns, y: Conns, z: Conns, a: Arrival, k: ConnectionKey, b: Arrival, l: ConnectionKey)
    requires Grown(x, y, a, k) && Grown(y, z, b, l)
    ensures GrownBoth(x, z, a, k, b, l)
  {
    forall c, d
      ensures CountIn(z, c, d) == Sat(CountIn(x, c, d) + Share(a, k, c, d) + Share(b, l, c, d))
    {
      assert CountIn(y, c, d) == Sat(CountIn(x, c, d) + Share(a, k, c, d));
    }
  }

  lemma TwoRecordsGrow(s: State, a: Arrival, b: Arrival)
    ensures GrownBoth(s.conns, ProcessRecord(ProcessRecord(s, a), b).conns,
                      a, KeyFor(a, s.cache), b, KeyFor(b, s.cache))
  {
    var t := ProcessRecord(s, a);
    RecordGrows(s, a);
    RecordGrows(t, b);
    GrownTwice(s.conns, t.conns, ProcessRecord(t, b).conns, a, KeyFor(a, s.cache), b, KeyFor(b, s.cache));
  }

  lemma AnswersShareOwner(there: Arrival, back: Arrival, localIps: seq<IpAddr>, snap: Snapshot,
                          cache: seq<ResolvedConnection>)
    requires Answer(there, back, localIps, snap)
    ensures OwnerOf(back, cache) == OwnerOf(there, cache)
  {
    R.MirrorOwner(there.record.key, snap.order, snap.sockets, snap.owners);
    MirrorLookup(there.record.key, cache, 0);
  }

  /** A record and its answer belong to the same owner. They are counted in one row if and only if
      exactly one end is local (or both ends are the same), and then on opposite counters; all other
      rows stay. */
  lemma AnswerCountsInOneRow(s: State, there: Arrival, back: Arrival, localIps: seq<IpAddr>, snap: Snapshot)
    requires Answer(there, back, localIps, snap)
    ensures OwnerOf(back, s.cache) == OwnerOf(there, s.cache)
    ensures var flow := there.record.key;
            var oneLocal := (flow.srcIp in localIps) != (flow.dstIp in localIps);
            && (KeyFor(there, s.cache) == KeyFor(back, s.cache) <==> oneLocal || flow == flow.Mirror())
            && (there.record.direction != back.record.direction <==> oneLocal)
    ensures GrownBoth(s.conns, ProcessRecord(ProcessRecord(s, there), back).conns,
                      there, KeyFor(there, s.cache), back, KeyFor(back, s.cache))
  {
    AnswersShareOwner(there, back, localIps, snap, s.cache);
    MirrorSymmetry(localIps, there.record.key, OwnerOf(there, s.cache));
    TwoRecordsGrow(s, there, back);
  }
}
