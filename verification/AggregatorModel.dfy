/** The aggregator's state as a value, and each stage of its loop as a function on it. */
module AggregatorModel {
  import opened Net
  import opened TrafficLog

  const HISTORY_SLOTS: nat := 300
  const RESOLVER_SCAN_INTERVAL: nat := 800_000_000
  const PROCESS_EVICTION_TIMEOUT: nat := 30 * SECOND
  const UNKNOWN_PROCESS_LABEL := "[unknown]"
  const EXITED_SUFFIX := " [exited]"

  type History = h: seq<U64> | |h| == HISTORY_SLOTS witness seq(HISTORY_SLOTS, _ => 0)

  /** One direction's counters: since creation, in the running second, and per closed second,
      most recent first. */
  datatype Meter = Meter(total: U64, current: U64, history: History)

  function ZeroMeter(): Meter {
    Meter(0, 0, seq(HISTORY_SLOTS, _ => 0))
  }

  datatype ThreadStats = ThreadStats(info: ProcessInfo, lastSeen: Instant, tx: Meter, rx: Meter) {
    function Meter(dir: Direction): Meter { if dir.Tx? then tx else rx }
  }

  datatype ConnectionStats = ConnectionStats(txBytes: U64, rxBytes: U64, lastSeen: Instant) {
    function Count(dir: Direction): U64 { if dir.Tx? then txBytes else rxBytes }
  }

  datatype State = State(
    threads: map<ThreadKey, ThreadStats>,
    conns: map<ConnectionKey, ConnectionStats>,
    ifTx: Meter,
    ifRx: Meter,
    peak: U64,
    lastRotation: Instant,
    cache: seq<ResolvedConnection>,
    lastScan: Instant)
  {
    function Interface(dir: Direction): Meter { if dir.Tx? then ifTx else ifRx }
  }

  /** One record taken from the channel, with what the resolver answered for it and the clock
      readings taken while it was applied. */
  datatype Arrival = Arrival(
    record: FlowRecord, resolved: Option<ProcessInfo>, threadSeen: Instant, connSeen: Instant)

  /** Everything one pass of the loop takes from outside. The clock is read once per entry while
      the maps are filtered, so those readings are functions of the key. */
  datatype Inputs = Inputs(
    scanCheck: Instant, scanned: seq<ResolvedConnection>, scanStamp: Instant,
    arrivals: seq<Arrival>,
    alive: ThreadKey -> bool,
    threadClock: ThreadKey -> Instant,
    connClock: ConnectionKey -> Instant,
    rotateCheck: Instant, rotateStamp: Instant)

  function Initial(start: Instant, firstScan: Instant): State {
    State(map[], map[], ZeroMeter(), ZeroMeter(), 0, start, [], firstScan)
  }

  // ---- Meters ----

  function Add(m: Meter, bytes: U64): Meter {
    Meter(SaturatingAdd(m.total, bytes), SaturatingAdd(m.current, bytes), m.history)
  }

  function Shifted(h: History, newest: U64): History {
    [newest] + h[..HISTORY_SLOTS - 1]
  }

  function Rotate(m: Meter): Meter {
    Meter(m.total, 0, Shifted(m.history, m.current))
  }

  // ---- Attribution ----

  predicate Matches(localAddr: SocketAddr, remoteAddr: SocketAddr, protocol: Protocol, flow: FlowKey) {
    && protocol == flow.protocol
    && (|| (localAddr == flow.Source() && remoteAddr == flow.Destination())
        || (localAddr == flow.Destination() && remoteAddr == flow.Source()))
  }

  function InfoOf(c: ResolvedConnection): ProcessInfo {
    ProcessInfo(c.pid, c.tid, c.process, c.threadName, c.uid, c.username)
  }

  const UNKNOWN_PROCESS :=
    ProcessInfo(0, 0, UNKNOWN_PROCESS_LABEL, UNKNOWN_PROCESS_LABEL, 0, UNKNOWN_PROCESS_LABEL)

  /** The first cached connection that matches the flow. */
  function LookupFrom(flow: FlowKey, cache: seq<ResolvedConnection>, i: nat): Option<ProcessInfo>
    requires i <= |cache|
    decreases |cache| - i
  {
    if i == |cache| then None
    else if Matches(cache[i].localAddr, cache[i].remoteAddr, cache[i].protocol, flow) then Some(InfoOf(cache[i]))
    else LookupFrom(flow, cache, i + 1)
  }

  function OwnerOf(a: Arrival, cache: seq<ResolvedConnection>): ProcessInfo {
    if a.resolved.Some? then a.resolved.value
    else
      var found := LookupFrom(a.record.key, cache, 0);
      if found.Some? then found.value else UNKNOWN_PROCESS
  }

  function ThreadKeyOf(info: ProcessInfo): ThreadKey {
    ThreadKey(info.pid, info.tid)
  }

  /** The sender is the local end of an outbound record, the receiver that of an inbound one. */
  function ConnKeyOf(flow: FlowKey, info: ProcessInfo, dir: Direction): ConnectionKey {
    if dir.Tx? then ConnectionKey(info.pid, info.tid, flow.Source(), flow.Destination(), flow.protocol)
    else ConnectionKey(info.pid, info.tid, flow.Destination(), flow.Source(), flow.protocol)
  }

  // ---- Stages ----

  function CountThread(t: ThreadStats, info: ProcessInfo, dir: Direction, bytes: U64, seen: Instant): ThreadStats {
    ThreadStats(info, seen,
                if dir.Tx? then Add(t.tx, bytes) else t.tx,
                if dir.Rx? then Add(t.rx, bytes) else t.rx)
  }

  function CountConn(c: ConnectionStats, dir: Direction, bytes: U64, seen: Instant): ConnectionStats {
    ConnectionStats(
      if dir.Tx? then SaturatingAdd(c.txBytes, bytes) else c.txBytes,
      if dir.Rx? then SaturatingAdd(c.rxBytes, bytes) else c.rxBytes,
      seen)
  }

  function UpdateConnection(conns: map<ConnectionKey, ConnectionStats>, key: ConnectionKey,
                            dir: Direction, bytes: U64, seen: Instant): map<ConnectionKey, ConnectionStats>
  {
    var entry := if key in conns then conns[key] else ConnectionStats(0, 0, seen);
    conns[key := CountConn(entry, dir, bytes, seen)]
  }

  function NewThread(info: ProcessInfo, seen: Instant): ThreadStats {
    ThreadStats(info, seen, ZeroMeter(), ZeroMeter())
  }

  function UpdateThread(threads: map<ThreadKey, ThreadStats>, info: ProcessInfo,
                        dir: Direction, bytes: U64, seen: Instant): map<ThreadKey, ThreadStats>
  {
    var key := ThreadKeyOf(info);
    var entry := if key in threads then threads[key] else NewThread(info, seen);
    threads[key := CountThread(entry, info, dir, bytes, seen)]
  }

  /** Counts one record for its owner, its connection and the interface. */
  function Count(s: State, info: ProcessInfo, record: FlowRecord, threadSeen: Instant, connSeen: Instant): State {
    State(UpdateThread(s.threads, info, record.direction, record.byteCount, threadSeen),
          UpdateConnection(s.conns, ConnKeyOf(record.key, info, record.direction),
                           record.direction, record.byteCount, connSeen),
          if record.direction.Tx? then Add(s.ifTx, record.byteCount) else s.ifTx,
          if record.direction.Rx? then Add(s.ifRx, record.byteCount) else s.ifRx,
          s.peak, s.lastRotation, s.cache, s.lastScan)
  }

  function ProcessRecord(s: State, a: Arrival): State {
    Count(s, OwnerOf(a, s.cache), a.record, a.threadSeen, a.connSeen)
  }

  function Drain(s: State, arrivals: seq<Arrival>): State
    decreases |arrivals|
  {
    if arrivals == [] then s
    else ProcessRecord(Drain(s, arrivals[..|arrivals| - 1]), arrivals[|arrivals| - 1])
  }

  function RefreshCacheIfDue(s: State, check: Instant, scanned: seq<ResolvedConnection>, stamp: Instant): State {
    if Elapsed(s.lastScan, check) >= RESOLVER_SCAN_INTERVAL then s.(cache := scanned, lastScan := stamp) else s
  }

  predicate EndsWith(text: string, suffix: string) {
    |suffix| <= |text| && text[|text| - |suffix|..] == suffix
  }

  function Renamed(t: ThreadStats, name: string): ThreadStats {
    ThreadStats(t.info.(name := name), t.lastSeen, t.tx, t.rx)
  }

  function MarkThread(key: ThreadKey, t: ThreadStats, alive: bool): ThreadStats {
    if key.pid != 0 && !alive && !EndsWith(t.info.name, EXITED_SUFFIX)
    then Renamed(t, t.info.name + EXITED_SUFFIX)
    else t
  }

  function MarkAll(threads: map<ThreadKey, ThreadStats>, alive: ThreadKey -> bool): map<ThreadKey, ThreadStats> {
    map k | k in threads :: MarkThread(k, threads[k], alive(k))
  }

  /** The rows when all but those in `rest` have been marked. */
  ghost function MarkExcept(threads: map<ThreadKey, ThreadStats>, alive: ThreadKey -> bool, rest: set<ThreadKey>)
      : map<ThreadKey, ThreadStats>
  {
    map k | k in threads :: if k in rest then threads[k] else MarkThread(k, threads[k], alive(k))
  }

  lemma MarkEnds(threads: map<ThreadKey, ThreadStats>, alive: ThreadKey -> bool)
    ensures MarkExcept(threads, alive, threads.Keys) == threads
    ensures MarkExcept(threads, alive, {}) == MarkAll(threads, alive)
  {
  }

  lemma MarkOneMore(threads: map<ThreadKey, ThreadStats>, alive: ThreadKey -> bool, rest: set<ThreadKey>, k: ThreadKey)
    requires k in rest && rest <= threads.Keys
    ensures k in MarkExcept(threads, alive, rest)
    ensures var rows := MarkExcept(threads, alive, rest);
            rows[k := MarkThread(k, rows[k], alive(k))] == MarkExcept(threads, alive, rest - {k})
  {
  }

  function MarkExited(s: State, alive: ThreadKey -> bool): State {
    s.(threads := MarkAll(s.threads, alive))
  }

  predicate Fresh(lastSeen: Instant, now: Instant) {
    Elapsed(lastSeen, now) <= PROCESS_EVICTION_TIMEOUT
  }

  function KeepFresh(threads: map<ThreadKey, ThreadStats>, clock: ThreadKey -> Instant): map<ThreadKey, ThreadStats> {
    map k | k in threads && Fresh(threads[k].lastSeen, clock(k)) :: threads[k]
  }

  function EvictStale(s: State, clock: ThreadKey -> Instant): State {
    s.(threads := KeepFresh(s.threads, clock))
  }

  function KeepOwned(conns: map<ConnectionKey, ConnectionStats>, threads: set<ThreadKey>,
                     clock: ConnectionKey -> Instant): map<ConnectionKey, ConnectionStats>
  {
    map c | c in conns && Fresh(conns[c].lastSeen, clock(c)) && c.Thread() in threads :: conns[c]
  }

  function PruneConnections(s: State, clock: ConnectionKey -> Instant): State {
    s.(conns := KeepOwned(s.conns, s.threads.Keys, clock))
  }

  function RotateThread(t: ThreadStats): ThreadStats {
    ThreadStats(t.info, t.lastSeen, Rotate(t.tx), Rotate(t.rx))
  }

  function RotateAll(threads: map<ThreadKey, ThreadStats>): map<ThreadKey, ThreadStats> {
    map k | k in threads :: RotateThread(threads[k])
  }

  /** The rows when all but those in `rest` have been rotated. */
  ghost function RotateExcept(threads: map<ThreadKey, ThreadStats>, rest: set<ThreadKey>): map<ThreadKey, ThreadStats> {
    map k | k in threads :: if k in rest then threads[k] else RotateThread(threads[k])
  }

  lemma RotateEnds(threads: map<ThreadKey, ThreadStats>)
    ensures RotateExcept(threads, threads.Keys) == threads
    ensures RotateExcept(threads, {}) == RotateAll(threads)
  {
  }

  lemma RotateOneMore(threads: map<ThreadKey, ThreadStats>, rest: set<ThreadKey>, k: ThreadKey)
    requires k in rest && rest <= threads.Keys
    ensures k in RotateExcept(threads, rest)
    ensures RotateExcept(threads, rest)[k := RotateThread(RotateExcept(threads, rest)[k])]
         == RotateExcept(threads, rest - {k})
  {
  }

  predicate RotationDue(s: State, check: Instant) {
    Elapsed(s.lastRotation, check) >= SECOND
  }

  /** The bandwidth is summed with an unchecked `+`. */
  function RaisePeak(peak: U64, tx: U64, rx: U64): U64 {
    var bandwidth := WrappingAdd(tx, rx);
    if bandwidth > peak then bandwidth else peak
  }

  function RotateIfDue(s: State, check: Instant, stamp: Instant): State {
    if !RotationDue(s, check) then s
    else
      State(RotateAll(s.threads), s.conns, Rotate(s.ifTx), Rotate(s.ifRx),
            RaisePeak(s.peak, s.ifTx.current, s.ifRx.current), stamp, s.cache, s.lastScan)
  }

  /** One pass of the main loop, up to publication. */
  function Iterate(s: State, i: Inputs): State {
    var s1 := Drain(RefreshCacheIfDue(s, i.scanCheck, i.scanned, i.scanStamp), i.arrivals);
    var s2 := EvictStale(MarkExited(s1, i.alive), i.threadClock);
    RotateIfDue(PruneConnections(s2, i.connClock), i.rotateCheck, i.rotateStamp)
  }

  function Run(s: State, inputs: seq<Inputs>): State
    decreases |inputs|
  {
    if |inputs| == 0 then s else Iterate(Run(s, inputs[..|inputs| - 1]), inputs[|inputs| - 1])
  }

  // ---- Averages ----

  function TwoSecondAvg(h: History): U64 {
    WrappingAdd(h[0], h[1]) / 2
  }

  /** The first `n` samples, summed with an unchecked `+`. */
  function WrappingSum(h: History, n: nat): U64
    requires n <= HISTORY_SLOTS
  {
    if n == 0 then 0 else WrappingAdd(WrappingSum(h, n - 1), h[n - 1])
  }

  function TenSecondAvg(h: History): U64 {
    WrappingSum(h, 10) / 10
  }
}
