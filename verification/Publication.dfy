/** The snapshots handed to the GUI: one row per thread with its connections, and the interface. */
module Publication {
  import opened Net
  import opened TrafficLog
  import opened AggregatorModel

  datatype ConnectionEntry = ConnectionEntry(
    localAddr: SocketAddr, remoteAddr: SocketAddr, protocol: Protocol, state: string, pid: U32, tid: U32,
    process: string, threadName: string, username: string, txBytes: U64, rxBytes: U64)

  datatype ProcessRow = ProcessRow(
    info: ProcessInfo, txBytes: U64, rxBytes: U64, lastSeen: Instant,
    txHistory: History, rxHistory: History, isBlocked: bool, connections: seq<ConnectionEntry>)
  {
    function Key(): ThreadKey { ThreadKeyOf(info) }
  }

  datatype InterfaceStats = InterfaceStats(
    txBytesTotal: U64, rxBytesTotal: U64, currentBandwidth: U64, peakBandwidth: U64,
    txHistory: History, rxHistory: History)

  type Conns = map<ConnectionKey, ConnectionStats>

  function ForwardKey(c: ResolvedConnection): ConnectionKey {
    ConnectionKey(c.pid, c.tid, c.localAddr, c.remoteAddr, c.protocol)
  }

  function ReverseKey(c: ResolvedConnection): ConnectionKey {
    ConnectionKey(c.pid, c.tid, c.remoteAddr, c.localAddr, c.protocol)
  }

  /** The counters of the connection, or those of its reverse with the two swapped. */
  function PublishedBytes(conns: Conns, c: ResolvedConnection): (U64, U64) {
    if ForwardKey(c) in conns then (conns[ForwardKey(c)].txBytes, conns[ForwardKey(c)].rxBytes)
    else if ReverseKey(c) in conns then (conns[ReverseKey(c)].rxBytes, conns[ReverseKey(c)].txBytes)
    else (0, 0)
  }

  function EntryOf(conns: Conns, c: ResolvedConnection): ConnectionEntry {
    var bytes := PublishedBytes(conns, c);
    ConnectionEntry(c.localAddr, c.remoteAddr, c.protocol, c.state, c.pid, c.tid,
                    c.process, c.threadName, c.username, bytes.0, bytes.1)
  }

  /** The entries of one thread, in cache order. */
  function EntriesOf(cache: seq<ResolvedConnection>, conns: Conns, k: ThreadKey): seq<ConnectionEntry>
    decreases |cache|
  {
    if |cache| == 0 then []
    else
      var last := cache[|cache| - 1];
      EntriesOf(cache[..|cache| - 1], conns, k)
      + if ThreadKey(last.pid, last.tid) == k then [EntryOf(conns, last)] else []
  }

  function RowOf(t: ThreadStats, k: ThreadKey, cache: seq<ResolvedConnection>, conns: Conns, blocked: set<U32>)
      : ProcessRow
  {
    ProcessRow(t.info, t.tx.total, t.rx.total, t.lastSeen, t.tx.history, t.rx.history, k.pid in blocked,
               EntriesOf(cache, conns, k))
  }

  function InterfaceOf(s: State): InterfaceStats {
    InterfaceStats(s.ifTx.total, s.ifRx.total, SaturatingAdd(s.ifTx.history[0], s.ifRx.history[0]), s.peak,
                   s.ifTx.history, s.ifRx.history)
  }

  // ---- What the rows are ----

  predicate KeyLess(a: ThreadKey, b: ThreadKey) {
    a.pid < b.pid || (a.pid == b.pid && a.tid < b.tid)
  }

  ghost predicate StrictlySorted(rows: seq<ProcessRow>) {
    forall i, j :: 0 <= i < j < |rows| ==> KeyLess(rows[i].Key(), rows[j].Key())
  }

  ghost predicate IsRow(r: ProcessRow, s: State, blocked: set<U32>) {
    r.Key() in s.threads && r == RowOf(s.threads[r.Key()], r.Key(), s.cache, s.conns, blocked)
  }

  ghost predicate HasRow(rows: seq<ProcessRow>, k: ThreadKey) {
    exists i :: 0 <= i < |rows| && rows[i].Key() == k
  }

  /** A faithful view of the threads: exactly one row each, strictly increasing by process and
      thread, with the cached connections of that thread in cache order. */
  ghost predicate FaithfulRows(rows: seq<ProcessRow>, s: State, blocked: set<U32>) {
    && StrictlySorted(rows)
    && (forall i :: 0 <= i < |rows| ==> IsRow(rows[i], s, blocked))
    && (forall k :: k in s.threads ==> HasRow(rows, k))
  }

  /** A row that only one of two sorted lists could have at a position is in neither. */
  lemma SamePlace(a: seq<ProcessRow>, b: seq<ProcessRow>, n: nat)
    requires StrictlySorted(a) && StrictlySorted(b)
    requires n < |a| && n <= |b| && a[..n] == b[..n] && HasRow(b, a[n].Key())
    ensures n < |b| && (b[n].Key() == a[n].Key() || KeyLess(b[n].Key(), a[n].Key()))
  {
    forall j | 0 <= j < n ensures b[j].Key() != a[n].Key() {
      assert b[j] == b[..n][j] == a[..n][j] == a[j];
    }
  }

  lemma {:induction false} SortedPrefix(a: seq<ProcessRow>, b: seq<ProcessRow>, s: State, blocked: set<U32>, n: nat)
    requires FaithfulRows(a, s, blocked) && FaithfulRows(b, s, blocked) && n <= |a|
    ensures n <= |b| && a[..n] == b[..n]
    decreases n
  {
    if n > 0 {
      SortedPrefix(a, b, s, blocked, n - 1);
      assert IsRow(a[n - 1], s, blocked);
      SamePlace(a, b, n - 1);
      assert IsRow(b[n - 1], s, blocked);
      SamePlace(b, a, n - 1);
      assert a[..n] == a[..n - 1] + [a[n - 1]];
      assert b[..n] == b[..n - 1] + [b[n - 1]];
    }
  }

  /** There is only one faithful view, so the order in which the maps were walked does not show. */
  lemma FaithfulRowsAreUnique(a: seq<ProcessRow>, b: seq<ProcessRow>, s: State, blocked: set<U32>)
    requires FaithfulRows(a, s, blocked) && FaithfulRows(b, s, blocked)
    ensures a == b
  {
    SortedPrefix(a, b, s, blocked, |a|);
    SortedPrefix(b, a, s, blocked, |b|);
    assert a == a[..|a|] && b == b[..|b|];
  }

  // ---- Building them ----

  function Get(byThread: map<ThreadKey, seq<ConnectionEntry>>, k: ThreadKey): seq<ConnectionEntry> {
    if k in byThread then byThread[k] else []
  }

  lemma EntriesStep(cache: seq<ResolvedConnection>, n: nat, conns: Conns, k: ThreadKey)
    requires n < |cache|
    ensures EntriesOf(cache[..n + 1], conns, k)
         == EntriesOf(cache[..n], conns, k)
            + if ThreadKey(cache[n].pid, cache[n].tid) == k then [EntryOf(conns, cache[n])] else []
  {
    assert cache[..n + 1][..n] == cache[..n];
  }

  method ConnectionsByThread(cache: seq<ResolvedConnection>, conns: Conns)
      returns (byThread: map<ThreadKey, seq<ConnectionEntry>>)
    ensures forall k :: Get(byThread, k) == EntriesOf(cache, conns, k)
  {
    byThread := map[];
    for n := 0 to |cache|
      invariant forall k :: Get(byThread, k) == EntriesOf(cache[..n], conns, k)
    {
      var c := cache[n];
      var tx, rx := 0, 0;
      if ForwardKey(c) in conns {
        tx, rx := conns[ForwardKey(c)].txBytes, conns[ForwardKey(c)].rxBytes;
      } else if ReverseKey(c) in conns {
        tx, rx := conns[ReverseKey(c)].rxBytes, conns[ReverseKey(c)].txBytes;
      }
      var entry := ConnectionEntry(c.localAddr, c.remoteAddr, c.protocol, c.state, c.pid, c.tid,
                                   c.process, c.threadName, c.username, tx, rx);
      assert entry == EntryOf(conns, c);
      var key := ThreadKey(c.pid, c.tid);
      ghost var before := byThread;
      byThread := byThread[key := Get(byThread, key) + [entry]];
      forall k ensures Get(byThread, k) == EntriesOf(cache[..n + 1], conns, k) {
        EntriesStep(cache, n, conns, k);
        assert Get(before, k) == EntriesOf(cache[..n], conns, k);
      }
    }
    assert cache[..|cache|] == cache;
  }

  ghost predicate DistinctKeys(rows: seq<ProcessRow>) {
    forall i, j :: 0 <= i < j < |rows| ==> rows[i].Key() != rows[j].Key()
  }

  lemma Inserted(sorted: seq<ProcessRow>, at: nat, row: ProcessRow)
    requires StrictlySorted(sorted) && at <= |sorted|
    requires at == 0 || KeyLess(sorted[at - 1].Key(), row.Key())
    requires at == |sorted| || KeyLess(row.Key(), sorted[at].Key())
    ensures StrictlySorted(sorted[..at] + [row] + sorted[at..])
  {
    var out := sorted[..at] + [row] + sorted[at..];
    forall i, j | 0 <= i < j < |out| ensures KeyLess(out[i].Key(), out[j].Key()) {
      assert i < at ==> out[i] == sorted[i];
      assert i > at ==> out[i] == sorted[i - 1];
      assert j < at ==> out[j] == sorted[j];
      assert j > at ==> out[j] == sorted[j - 1];
    }
  }

  /** Stands for the library's sort by process and thread; no two rows have the same key. */
  method SortRows(rows: seq<ProcessRow>) returns (sorted: seq<ProcessRow>)
    requires DistinctKeys(rows)
    ensures StrictlySorted(sorted) && |sorted| == |rows|
    ensures forall r :: r in sorted <==> r in rows
  {
    sorted := [];
    for n := 0 to |rows|
      invariant StrictlySorted(sorted) && |sorted| == n
      invariant forall r :: r in sorted <==> r in rows[..n]
    {
      var row := rows[n];
      assert forall i :: 0 <= i < |sorted| ==> sorted[i].Key() != row.Key() by {
        forall i | 0 <= i < |sorted| ensures sorted[i].Key() != row.Key() {
          assert sorted[i] in rows[..n];
        }
      }
      var at := |sorted|;
      while at > 0 && KeyLess(row.Key(), sorted[at - 1].Key())
        invariant 0 <= at <= |sorted|
        invariant at == |sorted| || KeyLess(row.Key(), sorted[at].Key())
      {
        at := at - 1;
      }
      Inserted(sorted, at, row);
      assert rows[..n + 1] == rows[..n] + [row];
      assert sorted == sorted[..at] + sorted[at..];
      sorted := sorted[..at] + [row] + sorted[at..];
    }
    assert rows[..|rows|] == rows;
  }

  lemma HasRowAppend(rows: seq<ProcessRow>, row: ProcessRow, k: ThreadKey)
    requires HasRow(rows, k) || row.Key() == k
    ensures HasRow(rows + [row], k)
  {
    var all := rows + [row];
    if HasRow(rows, k) {
      var i :| 0 <= i < |rows| && rows[i].Key() == k;
      assert all[i].Key() == k;
    } else {
      assert all[|rows|].Key() == k;
    }
  }

  /** The rows built so far are those of all threads but `rest`. */
  ghost predicate Built(rows: seq<ProcessRow>, rest: set<ThreadKey>, s: State, blocked: set<U32>) {
    && DistinctKeys(rows)
    && (forall i :: 0 <= i < |rows| ==> IsRow(rows[i], s, blocked) && rows[i].Key() !in rest)
    && (forall k :: k in s.threads && k !in rest ==> HasRow(rows, k))
  }

  lemma BuiltStep(rows: seq<ProcessRow>, rest: set<ThreadKey>, row: ProcessRow, s: State, blocked: set<U32>)
    requires Built(rows, rest, s, blocked) && IsRow(row, s, blocked) && row.Key() in rest
    ensures Built(rows + [row], rest - {row.Key()}, s, blocked)
  {
    forall q | q in s.threads && q !in rest - {row.Key()} ensures HasRow(rows + [row], q) {
      HasRowAppend(rows, row, q);
    }
  }

  method BuildRows(s: State, blocked: set<U32>) returns (rows: seq<ProcessRow>)
    requires forall k :: k in s.threads ==> ThreadKeyOf(s.threads[k].info) == k
    ensures Built(rows, {}, s, blocked)
  {
    var byThread := ConnectionsByThread(s.cache, s.conns);
    rows := [];
    var rest := s.threads.Keys;
    while rest != {}
      invariant rest <= s.threads.Keys
      invariant forall k :: k in rest ==> Get(byThread, k) == EntriesOf(s.cache, s.conns, k)
      invariant Built(rows, rest, s, blocked)
      decreases rest
    {
      var k :| k in rest;
      var t := s.threads[k];
      var row := ProcessRow(t.info, t.tx.total, t.rx.total, t.lastSeen, t.tx.history, t.rx.history,
                            k.pid in blocked, Get(byThread, k));
      assert row == RowOf(t, k, s.cache, s.conns, blocked);
      BuiltStep(rows, rest, row, s, blocked);
      byThread := byThread - {k};
      rows := rows + [row];
      rest := rest - {k};
    }
  }

  lemma SortedIsFaithful(rows: seq<ProcessRow>, sorted: seq<ProcessRow>, s: State, blocked: set<U32>)
    requires Built(rows, {}, s, blocked)
    requires StrictlySorted(sorted) && forall r :: r in sorted <==> r in rows
    ensures FaithfulRows(sorted, s, blocked)
  {
    forall i | 0 <= i < |sorted| ensures IsRow(sorted[i], s, blocked) {
      assert sorted[i] in rows;
    }
    forall k | k in s.threads ensures HasRow(sorted, k) {
      var i :| 0 <= i < |rows| && rows[i].Key() == k;
      assert rows[i] in sorted;
    }
  }

  ghost predicate Publishes(rows: seq<ProcessRow>, iface: InterfaceStats, s: State, blocked: set<U32>) {
    FaithfulRows(rows, s, blocked) && iface == InterfaceOf(s)
  }

  /** Builds both snapshots from one state. */
  method PublishSnapshots(s: State, blocked: set<U32>) returns (rows: seq<ProcessRow>, iface: InterfaceStats)
    requires forall k :: k in s.threads ==> ThreadKeyOf(s.threads[k].info) == k
    ensures Publishes(rows, iface, s, blocked)
  {
    var built := BuildRows(s, blocked);
    rows := SortRows(built);
    SortedIsFaithful(built, rows, s, blocked);
    iface := InterfaceStats(s.ifTx.total, s.ifRx.total, SaturatingAdd(s.ifTx.history[0], s.ifRx.history[0]), s.peak,
                            s.ifTx.history, s.ifRx.history);
  }
}
