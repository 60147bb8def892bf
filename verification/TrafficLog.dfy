/** An unbounded record of everything the aggregator ever counted, and what its bounded
    counters ought to show, read off that record by position alone. */
module TrafficLog {
  import opened Net

  datatype ThreadKey = ThreadKey(pid: U32, tid: U32)

  datatype ConnectionKey = ConnectionKey(
    pid: U32, tid: U32, localAddr: SocketAddr, remoteAddr: SocketAddr, protocol: Protocol)
  {
    function Thread(): ThreadKey { ThreadKey(pid, tid) }
  }

  datatype LogEvent =
    | Flow(thread: ThreadKey, conn: ConnectionKey, dir: Direction, bytes: U32)
    | Tick                                                            // a second was closed
    | Drop(threads: set<ThreadKey>, conns: set<ConnectionKey>)        // rows were removed

  type Log = seq<LogEvent>

  /** Whose flows are counted. A row that was dropped and came back starts again from nothing. */
  datatype Scope = Everyone | OfThread(thread: ThreadKey) | OfConn(conn: ConnectionKey) | Retired

  ghost predicate ThreadDropped(log: Log, j: nat)
    requires j < |log| && log[j].Flow?
  {
    exists m :: j < m < |log| && log[m].Drop? && log[j].thread in log[m].threads
  }

  ghost predicate ConnDropped(log: Log, j: nat)
    requires j < |log| && log[j].Flow?
  {
    exists m :: j < m < |log| && log[m].Drop? && log[j].conn in log[m].conns
  }

  ghost predicate InScope(log: Log, j: nat, scope: Scope)
    requires j < |log| && log[j].Flow?
  {
    match scope
    case Everyone => true
    case OfThread(k) => log[j].thread == k && !ThreadDropped(log, j)
    case OfConn(c) => log[j].conn == c && !ConnDropped(log, j)
    case Retired => ThreadDropped(log, j)
  }

  /** The bytes that position `j` adds to a count. */
  ghost function BytesAt(log: Log, j: nat, dir: Direction, scope: Scope): nat
    requires j < |log|
  {
    if log[j].Flow? && log[j].dir == dir && InScope(log, j, scope) then log[j].bytes else 0
  }

  /** The bytes counted at positions `lo` (included) to `hi` (excluded). */
  ghost function Bytes(log: Log, lo: nat, hi: nat, dir: Direction, scope: Scope): nat
    requires hi <= |log|
    decreases hi
  {
    if hi <= lo then 0 else Bytes(log, lo, hi - 1, dir, scope) + BytesAt(log, hi - 1, dir, scope)
  }

  /** Where the interval that ends at `hi` begins: just after a tick, or at the very start. */
  ghost function IntervalStart(log: Log, hi: nat): (lo: nat)
    requires hi <= |log|
    ensures lo <= hi
    ensures forall j :: lo <= j < hi ==> !log[j].Tick?
  {
    if hi == 0 || log[hi - 1].Tick? then hi else IntervalStart(log, hi - 1)
  }

  /** Where the running interval (`i == 0`) or the one `i` ticks before it begins. */
  ghost function Start(log: Log, i: nat): (lo: nat)
    ensures lo <= |log|
  {
    if i == 0 then IntervalStart(log, |log|)
    else
      var s := Start(log, i - 1);
      if s == 0 then 0 else IntervalStart(log, s - 1)
  }

  ghost function Total(log: Log, dir: Direction, scope: Scope): nat {
    Bytes(log, 0, |log|, dir, scope)
  }

  ghost function Current(log: Log, dir: Direction, scope: Scope): nat {
    Bytes(log, Start(log, 0), |log|, dir, scope)
  }

  /** The bytes of the `i`-th most recent completed interval. */
  ghost function Slot(log: Log, i: nat, dir: Direction, scope: Scope): nat {
    Bytes(log, Start(log, i + 1), Start(log, i), dir, scope)
  }

  // ---- How the readings change when the log grows ----

  /** Appending `e` takes nothing out of `scope`. */
  ghost predicate Keeps(e: LogEvent, scope: Scope) {
    e.Drop? ==>
      match scope
      case Everyone => true
      case OfThread(k) => k !in e.threads
      case OfConn(c) => c !in e.conns
      case Retired => false
  }

  lemma AppendBytesAt(log: Log, e: LogEvent, j: nat, dir: Direction, scope: Scope)
    requires j < |log| && Keeps(e, scope)
    ensures BytesAt(log + [e], j, dir, scope) == BytesAt(log, j, dir, scope)
  {
    var log' := log + [e];
    if log[j].Flow? {
      assert forall m :: j < m < |log| ==> log'[m] == log[m];
      assert log'[|log|] == e;
      if scope.OfThread? && log[j].thread == scope.thread {
        assert ThreadDropped(log', j) <==> ThreadDropped(log, j);
      } else if scope.OfConn? && log[j].conn == scope.conn {
        assert ConnDropped(log', j) <==> ConnDropped(log, j);
      } else if scope.Retired? {
        assert ThreadDropped(log', j) <==> ThreadDropped(log, j);
      }
    }
  }

  lemma {:induction false} AppendBytes(log: Log, e: LogEvent, lo: nat, hi: nat, dir: Direction, scope: Scope)
    requires hi <= |log| && Keeps(e, scope)
    ensures Bytes(log + [e], lo, hi, dir, scope) == Bytes(log, lo, hi, dir, scope)
    decreases hi
  {
    if lo < hi {
      AppendBytes(log, e, lo, hi - 1, dir, scope);
      AppendBytesAt(log, e, hi - 1, dir, scope);
    }
  }

  lemma {:induction false} AppendIntervalStart(log: Log, e: LogEvent, hi: nat)
    requires hi <= |log|
    ensures IntervalStart(log + [e], hi) == IntervalStart(log, hi)
    decreases hi
  {
    if hi != 0 && !log[hi - 1].Tick? {
      AppendIntervalStart(log, e, hi - 1);
    }
  }

  lemma {:induction false} QuietStart(log: Log, e: LogEvent, i: nat)
    requires !e.Tick?
    ensures Start(log + [e], i) == Start(log, i)
    decreases i
  {
    if i == 0 {
      AppendIntervalStart(log, e, |log|);
    } else {
      QuietStart(log, e, i - 1);
      var s := Start(log, i - 1);
      if s != 0 { AppendIntervalStart(log, e, s - 1); }
    }
  }

  lemma {:induction false} TickStart(log: Log, i: nat)
    ensures Start(log + [Tick], i) == if i == 0 then |log| + 1 else Start(log, i - 1)
    decreases i
  {
    if i == 1 {
      AppendIntervalStart(log, Tick, |log|);
    } else if i > 1 {
      TickStart(log, i - 1);
      var s := Start(log, i - 2);
      if s != 0 { AppendIntervalStart(log, Tick, s - 1); }
    }
  }

  /** A tick closes the running interval and moves every older one back by one; nothing else
      moves a boundary. */
  lemma AppendStart(log: Log, e: LogEvent, i: nat)
    ensures !e.Tick? ==> Start(log + [e], i) == Start(log, i)
    ensures e.Tick? ==> Start(log + [e], i) == if i == 0 then |log| + 1 else Start(log, i - 1)
  {
    if e.Tick? { TickStart(log, i); } else { QuietStart(log, e, i); }
  }

  // ---- Windows add up ----

  lemma {:induction false} BytesSplit(log: Log, lo: nat, mid: nat, hi: nat, dir: Direction, scope: Scope)
    requires lo <= mid <= hi <= |log|
    ensures Bytes(log, lo, hi, dir, scope) == Bytes(log, lo, mid, dir, scope) + Bytes(log, mid, hi, dir, scope)
    decreases hi
  {
    if mid < hi {
      BytesSplit(log, lo, mid, hi - 1, dir, scope);
    }
  }

  lemma StartDescends(log: Log, i: nat)
    ensures Start(log, i + 1) <= Start(log, i)
  {
  }

  /** The sum of the `n` most recent completed intervals. */
  ghost function SlotSum(log: Log, n: nat, dir: Direction, scope: Scope): nat {
    if n == 0 then 0 else SlotSum(log, n - 1, dir, scope) + Slot(log, n - 1, dir, scope)
  }

  /** Everything counted is in the running interval, in one of the last `n` completed ones, or
      was counted before them. */
  lemma {:induction false} TotalSplits(log: Log, n: nat, dir: Direction, scope: Scope)
    ensures Total(log, dir, scope)
         == Current(log, dir, scope) + SlotSum(log, n, dir, scope) + Bytes(log, 0, Start(log, n), dir, scope)
    decreases n
  {
    if n == 0 {
      BytesSplit(log, 0, Start(log, 0), |log|, dir, scope);
    } else {
      TotalSplits(log, n - 1, dir, scope);
      StartDescends(log, n - 1);
      BytesSplit(log, 0, Start(log, n), Start(log, n - 1), dir, scope);
    }
  }

  lemma {:induction false} NothingCounted(log: Log, lo: nat, hi: nat, dir: Direction, scope: Scope)
    requires hi <= |log|
    requires forall j :: 0 <= j < hi && log[j].Flow? ==> !InScope(log, j, scope)
    ensures Bytes(log, lo, hi, dir, scope) == 0
    decreases hi
  {
    if lo < hi {
      NothingCounted(log, lo, hi - 1, dir, scope);
    }
  }

  // ---- Sums over rows ----

  /** The bytes that the rows in `rows` claim between two positions, added up. */
  ghost function SumRows(rows: set<Scope>, log: Log, lo: nat, hi: nat, dir: Direction): nat
    requires hi <= |log|
    decreases |rows|
  {
    if rows == {} then 0
    else
      var r :| r in rows;
      Bytes(log, lo, hi, dir, r) + SumRows(rows - {r}, log, lo, hi, dir)
  }

  /** The choice of row in the definition does not matter. */
  lemma {:induction false} SumRowsPick(rows: set<Scope>, r: Scope, log: Log, lo: nat, hi: nat, dir: Direction)
    requires hi <= |log| && r in rows
    ensures SumRows(rows, log, lo, hi, dir) == Bytes(log, lo, hi, dir, r) + SumRows(rows - {r}, log, lo, hi, dir)
    decreases |rows|
  {
    var q :| q in rows && SumRows(rows, log, lo, hi, dir)
                       == Bytes(log, lo, hi, dir, q) + SumRows(rows - {q}, log, lo, hi, dir);
    if q != r {
      SumRowsPick(rows - {q}, r, log, lo, hi, dir);
      SumRowsPick(rows - {r}, q, log, lo, hi, dir);
      assert rows - {q} - {r} == rows - {r} - {q};
    }
  }

  lemma {:induction false} SumRowsEmptyWindow(rows: set<Scope>, log: Log, lo: nat, hi: nat, dir: Direction)
    requires hi <= lo && hi <= |log|
    ensures SumRows(rows, log, lo, hi, dir) == 0
    decreases |rows|
  {
    if rows != {} {
      var r :| r in rows;
      SumRowsEmptyWindow(rows - {r}, log, lo, hi, dir);
      SumRowsPick(rows, r, log, lo, hi, dir);
    }
  }

  /** If one row at most claims a position, the sum over the rows grows by what that row claims. */
  lemma {:induction false} SumRowsExtend(rows: set<Scope>, owner: Scope, log: Log, lo: nat, hi: nat, dir: Direction)
    requires lo <= hi < |log|
    requires forall r :: r in rows && r != owner ==> BytesAt(log, hi, dir, r) == 0
    ensures SumRows(rows, log, lo, hi + 1, dir)
         == SumRows(rows, log, lo, hi, dir) + if owner in rows then BytesAt(log, hi, dir, owner) else 0
    decreases |rows|
  {
    if rows != {} {
      var r :| r in rows;
      SumRowsExtend(rows - {r}, owner, log, lo, hi, dir);
      SumRowsPick(rows, r, log, lo, hi + 1, dir);
      SumRowsPick(rows, r, log, lo, hi, dir);
    }
  }

  ghost function ThreadRows(threads: set<ThreadKey>): set<Scope> {
    set k | k in threads :: OfThread(k)
  }

  ghost function ConnRows(conns: set<ConnectionKey>, thread: ThreadKey): set<Scope> {
    set c | c in conns && c.Thread() == thread :: OfConn(c)
  }

  /** Every flow belongs to one of `threads`, or to a thread that was dropped since. */
  ghost predicate ThreadsCover(log: Log, threads: set<ThreadKey>) {
    forall j :: 0 <= j < |log| && log[j].Flow? && !ThreadDropped(log, j) ==> log[j].thread in threads
  }

  ghost predicate ConnsCover(log: Log, conns: set<ConnectionKey>) {
    forall j :: 0 <= j < |log| && log[j].Flow? && !ConnDropped(log, j) ==> log[j].conn in conns
  }

  /** A flow that a connection row still counts is still counted by its thread row. */
  ghost predicate ParentsOutlive(log: Log) {
    forall j :: 0 <= j < |log| && log[j].Flow? ==>
      && log[j].conn.Thread() == log[j].thread
      && (ThreadDropped(log, j) ==> ConnDropped(log, j))
  }

  /** Conservation: in any window, the live threads and the retired ones together claim every
      byte exactly once. */
  lemma {:induction false} Conservation(log: Log, threads: set<ThreadKey>, lo: nat, hi: nat, dir: Direction)
    requires hi <= |log| && ThreadsCover(log, threads)
    ensures SumRows(ThreadRows(threads), log, lo, hi, dir) + Bytes(log, lo, hi, dir, Retired)
         == Bytes(log, lo, hi, dir, Everyone)
    decreases hi
  {
    if hi <= lo {
      SumRowsEmptyWindow(ThreadRows(threads), log, lo, hi, dir);
    } else {
      var j := hi - 1;
      Conservation(log, threads, lo, j, dir);
      var owner := if log[j].Flow? then OfThread(log[j].thread) else Everyone;
      SumRowsExtend(ThreadRows(threads), owner, log, lo, j, dir);
    }
  }

  /** In any window, the connections of a thread claim no more than the thread does. */
  lemma {:induction false} ChildrenWithinParent(
      log: Log, conns: set<ConnectionKey>, thread: ThreadKey, lo: nat, hi: nat, dir: Direction)
    requires hi <= |log| && ParentsOutlive(log)
    ensures SumRows(ConnRows(conns, thread), log, lo, hi, dir) <= Bytes(log, lo, hi, dir, OfThread(thread))
    decreases hi
  {
    var rows := ConnRows(conns, thread);
    if hi <= lo {
      SumRowsEmptyWindow(rows, log, lo, hi, dir);
    } else {
      var j := hi - 1;
      ChildrenWithinParent(log, conns, thread, lo, j, dir);
      var owner := if log[j].Flow? then OfConn(log[j].conn) else Everyone;
      SumRowsExtend(rows, owner, log, lo, j, dir);
    }
  }

  // ---- How many flows a window holds bounds its bytes ----

  ghost function FlowCount(log: Log, lo: nat, hi: nat): nat
    requires hi <= |log|
    decreases hi
  {
    if hi <= lo then 0 else FlowCount(log, lo, hi - 1) + if log[hi - 1].Flow? then 1 else 0
  }

  lemma {:induction false} BytesWithinCount(log: Log, lo: nat, hi: nat, scope: Scope)
    requires hi <= |log|
    ensures Bytes(log, lo, hi, Tx, scope) + Bytes(log, lo, hi, Rx, scope) <= FlowCount(log, lo, hi) * U32_MAX
    decreases hi
  {
    if lo < hi {
      BytesWithinCount(log, lo, hi - 1, scope);
    }
  }

  lemma {:induction false} AppendFlowCount(log: Log, e: LogEvent, lo: nat, hi: nat)
    requires hi <= |log|
    ensures FlowCount(log + [e], lo, hi) == FlowCount(log, lo, hi)
    decreases hi
  {
    if lo < hi { AppendFlowCount(log, e, lo, hi - 1); }
  }
}
