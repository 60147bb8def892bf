/** What every pass of the loop does besides counting, in plain times, names and fields: which rows
    stay and which go, which threads are marked, when the cache is replaced, when seconds are closed. */
module AggregatorUpkeep {
  import opened Net
  import opened TrafficLog
  import opened AggregatorModel
  import opened AggregatorTheorems
  import opened AggregatorEvictions

  // ---- Last records ----

  /** The last of some records that a thread owns. */
  ghost function LastOwned(arrivals: seq<Arrival>, cache: seq<ResolvedConnection>, k: ThreadKey): Option<Arrival>
    decreases |arrivals|
  {
    if |arrivals| == 0 then None
    else
      var last := arrivals[|arrivals| - 1];
      var owner := OwnerOf(last, cache);
      if owner.pid == k.pid && owner.tid == k.tid then Some(last)
      else LastOwned(arrivals[..|arrivals| - 1], cache, k)
  }

  /** The last of some records that are counted for a connection. */
  ghost function LastCarried(arrivals: seq<Arrival>, cache: seq<ResolvedConnection>, c: ConnectionKey): Option<Arrival>
    decreases |arrivals|
  {
    if |arrivals| == 0 then None
    else
      var last := arrivals[|arrivals| - 1];
      if ConnKeyOf(last.record.key, OwnerOf(last, cache), last.record.direction) == c then Some(last)
      else LastCarried(arrivals[..|arrivals| - 1], cache, c)
  }

  lemma {:induction false} DrainKeepsCache(s: State, arrivals: seq<Arrival>)
    ensures Drain(s, arrivals).cache == s.cache && Drain(s, arrivals).lastScan == s.lastScan
    decreases |arrivals|
  {
    if arrivals != [] { DrainKeepsCache(s, arrivals[..|arrivals| - 1]); }
  }

  /** After some records a thread is there if it was before or owns one of them; its identity and the
      time it was seen are those of the last one. */
  lemma {:induction false} DrainSeesThreads(s: State, arrivals: seq<Arrival>, k: ThreadKey)
    ensures var t, last := Drain(s, arrivals).threads, LastOwned(arrivals, s.cache, k);
            && (k in t <==> k in s.threads || last.Some?)
            && (last.Some? ==> t[k].lastSeen == last.value.threadSeen && t[k].info == OwnerOf(last.value, s.cache))
            && (last.None? && k in s.threads ==>
                  t[k].lastSeen == s.threads[k].lastSeen && t[k].info == s.threads[k].info)
    decreases |arrivals|
  {
    if arrivals != [] {
      DrainSeesThreads(s, arrivals[..|arrivals| - 1], k);
      DrainKeepsCache(s, arrivals[..|arrivals| - 1]);
    }
  }

  lemma {:induction false} DrainSeesConns(s: State, arrivals: seq<Arrival>, c: ConnectionKey)
    ensures var d, last := Drain(s, arrivals).conns, LastCarried(arrivals, s.cache, c);
            && (c in d <==> c in s.conns || last.Some?)
            && (last.Some? ==> d[c].lastSeen == last.value.connSeen)
            && (last.None? && c in s.conns ==> d[c].lastSeen == s.conns[c].lastSeen)
    decreases |arrivals|
  {
    if arrivals != [] {
      DrainSeesConns(s, arrivals[..|arrivals| - 1], c);
      DrainKeepsCache(s, arrivals[..|arrivals| - 1]);
    }
  }

  // ---- One pass ----

  /** The state of a pass when its records have been counted. */
  ghost function Drained(s: State, i: Inputs): State {
    Drain(RefreshCacheIfDue(s, i.scanCheck, i.scanned, i.scanStamp), i.arrivals)
  }

  /** A thread row stays if and only if its clock reading is at most 30 seconds after it was last
      seen; a connection row, if that holds of it and its thread stays. */
  lemma PassKeepsRecent(s: State, i: Inputs)
    ensures var before, after := Drained(s, i), Iterate(s, i);
            && (forall k :: k in after.threads <==>
                  k in before.threads && i.threadClock(k) <= before.threads[k].lastSeen + 30_000_000_000)
            && (forall c :: c in after.conns <==>
                  && c in before.conns && i.connClock(c) <= before.conns[c].lastSeen + 30_000_000_000
                  && ThreadKey(c.pid, c.tid) in after.threads)
  {
  }

  ghost predicate SaysExited(name: string) {
    |name| >= 9 && name[|name| - 9..] == " [exited]"
  }

  /** Rows that stay are as they were but for the mark: the name of a dead process says so once, every
      other name and every other field is left. */
  lemma PassMarksDead(s: State, i: Inputs, k: ThreadKey)
    requires k in Iterate(s, i).threads
    ensures k in Drained(s, i).threads
    ensures var was, now := Drained(s, i).threads[k].info, Iterate(s, i).threads[k].info;
            && now.name == was.name + (if k.pid != 0 && !i.alive(k) && !SaysExited(was.name) then " [exited]" else "")
            && now.pid == was.pid && now.tid == was.tid && now.threadName == was.threadName
            && now.uid == was.uid && now.username == was.username
    ensures k.pid != 0 && !i.alive(k) ==> SaysExited(Iterate(s, i).threads[k].info.name)
    ensures Iterate(s, i).threads[k].lastSeen == Drained(s, i).threads[k].lastSeen
  {
  }

  // ---- Which rows there are after a run ----

  /** Pass by pass: when the last record of the pass was seen, if it had one; what the clock read when
      rows were filtered; and whether the row was allowed to stay besides. */
  datatype Passes = Passes(seen: seq<Option<Instant>>, clock: seq<Instant>, allowed: seq<bool>) {
    predicate Valid() { |seen| == |clock| == |allowed| }
  }

  /** The last record came in pass `n`, and at no pass since was it more than 30 seconds old. */
  ghost predicate RecentSince(h: Passes, n: nat)
    requires h.Valid()
  {
    && n < |h.seen| && h.seen[n].Some?
    && (forall m :: n < m < |h.seen| ==> h.seen[m].None?)
    && (forall m :: n <= m < |h.seen| ==> h.clock[m] <= h.seen[n].value + 30_000_000_000 && h.allowed[m])
  }

  function OneMore(h: Passes, seen: Option<Instant>, clock: Instant, allowed: bool): Passes {
    Passes(h.seen + [seen], h.clock + [clock], h.allowed + [allowed])
  }

  lemma RecentStep(h: Passes, seen: Option<Instant>, clock: Instant, allowed: bool, n: nat)
    requires h.Valid()
    ensures RecentSince(OneMore(h, seen, clock, allowed), n)
       <==> (if seen.Some? then n == |h.seen| && clock <= seen.value + 30_000_000_000 && allowed
             else RecentSince(h, n) && clock <= h.seen[n].value + 30_000_000_000 && allowed)
  {
    var g := OneMore(h, seen, clock, allowed);
    assert g.seen[|h.seen|] == seen && g.clock[|h.seen|] == clock && g.allowed[|h.seen|] == allowed;
    assert forall m :: 0 <= m < |h.seen| ==>
             g.seen[m] == h.seen[m] && g.clock[m] == h.clock[m] && g.allowed[m] == h.allowed[m];
  }

  /** A row that is there says when it was last seen; one that is not says nothing. */
  ghost predicate Tells(row: Option<Instant>, h: Passes)
    requires h.Valid()
  {
    && (row.Some? <==> exists n: nat :: RecentSince(h, n))
    && (forall n: nat :: RecentSince(h, n) ==> row == h.seen[n])
  }

  lemma TellsStep(row: Option<Instant>, h: Passes, row': Option<Instant>, seen: Option<Instant>, clock: Instant,
                  allowed: bool)
    requires h.Valid() && Tells(row, h)
    requires var last := if seen.Some? then seen else row;
             row' == if last.Some? && clock <= last.value + 30_000_000_000 && allowed then last else None
    ensures Tells(row', OneMore(h, seen, clock, allowed))
  {
    var g := OneMore(h, seen, clock, allowed);
    forall n: nat ensures RecentSince(g, n)
                <==> (if seen.Some? then n == |h.seen| && clock <= seen.value + 30_000_000_000 && allowed
                      else RecentSince(h, n) && clock <= h.seen[n].value + 30_000_000_000 && allowed)
    {
      RecentStep(h, seen, clock, allowed, n);
    }
    if seen.Some? {
      if row'.Some? { assert RecentSince(g, |h.seen|); }
    } else if row.Some? {
      var n: nat :| RecentSince(h, n);
      assert row == h.seen[n];
      if row'.Some? { assert RecentSince(g, n); }
    }
  }

  /** The last record of a thread in one pass. */
  ghost function OwnedIn(s: State, i: Inputs, k: ThreadKey): Option<Arrival> {
    LastOwned(i.arrivals, RefreshCacheIfDue(s, i.scanCheck, i.scanned, i.scanStamp).cache, k)
  }

  ghost function CarriedIn(s: State, i: Inputs, c: ConnectionKey): Option<Arrival> {
    LastCarried(i.arrivals, RefreshCacheIfDue(s, i.scanCheck, i.scanned, i.scanStamp).cache, c)
  }

  ghost function ThreadPasses(s: State, inputs: seq<Inputs>, k: ThreadKey): (h: Passes)
    ensures h.Valid() && |h.seen| == |inputs|
    decreases |inputs|
  {
    if |inputs| == 0 then Passes([], [], [])
    else
      var prefix, i := inputs[..|inputs| - 1], inputs[|inputs| - 1];
      var last := OwnedIn(Run(s, prefix), i, k);
      OneMore(ThreadPasses(s, prefix, k), if last.None? then None else Some(last.value.threadSeen),
              i.threadClock(k), true)
  }

  /** A connection is allowed to stay while its thread is there. */
  ghost function ConnPasses(s: State, inputs: seq<Inputs>, c: ConnectionKey): (h: Passes)
    ensures h.Valid() && |h.seen| == |inputs|
    decreases |inputs|
  {
    if |inputs| == 0 then Passes([], [], [])
    else
      var prefix, i := inputs[..|inputs| - 1], inputs[|inputs| - 1];
      var last := CarriedIn(Run(s, prefix), i, c);
      OneMore(ConnPasses(s, prefix, c), if last.None? then None else Some(last.value.connSeen), i.connClock(c),
              ThreadKey(c.pid, c.tid) in Run(s, inputs).threads)
  }

  ghost function ThreadSeen(s: State, k: ThreadKey): Option<Instant> {
    if k in s.threads then Some(s.threads[k].lastSeen) else None
  }

  ghost function ConnSeen(s: State, c: ConnectionKey): Option<Instant> {
    if c in s.conns then Some(s.conns[c].lastSeen) else None
  }

  lemma PassSeesThread(s: State, i: Inputs, k: ThreadKey)
    ensures var heard := OwnedIn(s, i, k);
            var last := if heard.Some? then Some(heard.value.threadSeen) else ThreadSeen(s, k);
            ThreadSeen(Iterate(s, i), k)
            == if last.Some? && i.threadClock(k) <= last.value + 30_000_000_000 then last else None
  {
    DrainSeesThreads(RefreshCacheIfDue(s, i.scanCheck, i.scanned, i.scanStamp), i.arrivals, k);
    PassKeepsRecent(s, i);
    if k in Iterate(s, i).threads { PassMarksDead(s, i, k); }
  }

  lemma PassKeepsConn(s: State, i: Inputs, c: ConnectionKey)
    requires c in Iterate(s, i).conns
    ensures c in Drained(s, i).conns && Iterate(s, i).conns[c] == Drained(s, i).conns[c]
  {
  }

  lemma PassSeesConn(s: State, i: Inputs, c: ConnectionKey)
    ensures var used := CarriedIn(s, i, c);
            var last := if used.Some? then Some(used.value.connSeen) else ConnSeen(s, c);
            ConnSeen(Iterate(s, i), c)
            == if last.Some? && i.connClock(c) <= last.value + 30_000_000_000
                  && ThreadKey(c.pid, c.tid) in Iterate(s, i).threads then last else None
  {
    DrainSeesConns(RefreshCacheIfDue(s, i.scanCheck, i.scanned, i.scanStamp), i.arrivals, c);
    PassKeepsRecent(s, i);
    if c in Iterate(s, i).conns { PassKeepsConn(s, i, c); }
  }

  /** On every run, a thread has a row if and only if its last record was at no pass since more than
      30 seconds old; the row then says when that record was seen. */
  lemma {:induction false} ThreadsAreRecent(start: Instant, firstScan: Instant, inputs: seq<Inputs>, k: ThreadKey)
    ensures Tells(ThreadSeen(RunFrom(start, firstScan, inputs), k), ThreadPasses(Initial(start, firstScan), inputs, k))
    decreases |inputs|
  {
    if |inputs| > 0 {
      var prefix, i := inputs[..|inputs| - 1], inputs[|inputs| - 1];
      var s := RunFrom(start, firstScan, prefix);
      var heard := OwnedIn(s, i, k);
      ThreadsAreRecent(start, firstScan, prefix, k);
      PassSeesThread(s, i, k);
      TellsStep(ThreadSeen(s, k), ThreadPasses(Initial(start, firstScan), prefix, k), ThreadSeen(Iterate(s, i), k),
                if heard.None? then None else Some(heard.value.threadSeen), i.threadClock(k), true);
    }
  }

  /** The same of connections, as long as the thread was there too. */
  lemma {:induction false} ConnectionsAreRecent(start: Instant, firstScan: Instant, inputs: seq<Inputs>,
                                                c: ConnectionKey)
    ensures Tells(ConnSeen(RunFrom(start, firstScan, inputs), c), ConnPasses(Initial(start, firstScan), inputs, c))
    decreases |inputs|
  {
    if |inputs| > 0 {
      var prefix, i := inputs[..|inputs| - 1], inputs[|inputs| - 1];
      var s := RunFrom(start, firstScan, prefix);
      var used := CarriedIn(s, i, c);
      ConnectionsAreRecent(start, firstScan, prefix, c);
      PassSeesConn(s, i, c);
      TellsStep(ConnSeen(s, c), ConnPasses(Initial(start, firstScan), prefix, c), ConnSeen(Iterate(s, i), c),
                if used.None? then None else Some(used.value.connSeen), i.connClock(c),
                ThreadKey(c.pid, c.tid) in Iterate(s, i).threads);
    }
  }

  // ---- Scans and seconds ----

  /** The newest scan that was due, and when it was taken: the first one 800 milliseconds after the
      start of the clock, each other one 800 milliseconds after the one before. */
  datatype Newest = Newest(taken: Instant, scan: seq<ResolvedConnection>)

  ghost function NewestScan(firstScan: Instant, inputs: seq<Inputs>): Newest
    decreases |inputs|
  {
    if |inputs| == 0 then Newest(firstScan, [])
    else
      var before, i := NewestScan(firstScan, inputs[..|inputs| - 1]), inputs[|inputs| - 1];
      if i.scanCheck >= before.taken + 800_000_000 then Newest(i.scanStamp, i.scanned) else before
  }

  lemma PassScans(s: State, i: Inputs)
    ensures var after := Iterate(s, i);
            if i.scanCheck >= s.lastScan + 800_000_000
            then after.cache == i.scanned && after.lastScan == i.scanStamp
            else after.cache == s.cache && after.lastScan == s.lastScan
  {
    DrainKeepsCache(RefreshCacheIfDue(s, i.scanCheck, i.scanned, i.scanStamp), i.arrivals);
  }

  /** On every run the cached connections are those of the newest scan. */
  lemma {:induction false} CacheIsNewest(start: Instant, firstScan: Instant, inputs: seq<Inputs>)
    ensures var s := RunFrom(start, firstScan, inputs);
            NewestScan(firstScan, inputs) == Newest(s.lastScan, s.cache)
    decreases |inputs|
  {
    if |inputs| > 0 {
      CacheIsNewest(start, firstScan, inputs[..|inputs| - 1]);
      PassScans(RunFrom(start, firstScan, inputs[..|inputs| - 1]), inputs[|inputs| - 1]);
    }
  }

  /** When the running second was opened. */
  ghost function SecondOpened(start: Instant, inputs: seq<Inputs>): Instant
    decreases |inputs|
  {
    if |inputs| == 0 then start
    else
      var before, i := SecondOpened(start, inputs[..|inputs| - 1]), inputs[|inputs| - 1];
      if i.rotateCheck >= before + 1_000_000_000 then i.rotateStamp else before
  }

  lemma {:induction false} DrainCountsInterface(s: State, arrivals: seq<Arrival>, dir: Direction)
    ensures Drain(s, arrivals).Interface(dir).current == Sat(s.Interface(dir).current + ArrivedBytes(arrivals, dir))
    ensures Drain(s, arrivals).Interface(dir).history == s.Interface(dir).history
    decreases |arrivals|
  {
    if arrivals != [] { DrainCountsInterface(s, arrivals[..|arrivals| - 1], dir); }
  }

  /** A pass closes the running second, with its own records in it, if and only if a second has passed
      since it was opened; else it adds them to it. */
  lemma PassClosesSeconds(s: State, i: Inputs, dir: Direction)
    ensures var after := Iterate(s, i); var second := Sat(s.Interface(dir).current + ArrivedBytes(i.arrivals, dir));
            if i.rotateCheck >= s.lastRotation + 1_000_000_000
            then && after.Interface(dir).history == [second] + s.Interface(dir).history[..299]
                 && after.Interface(dir).current == 0 && after.lastRotation == i.rotateStamp
            else && after.Interface(dir).history == s.Interface(dir).history
                 && after.Interface(dir).current == second && after.lastRotation == s.lastRotation
  {
    var refreshed := RefreshCacheIfDue(s, i.scanCheck, i.scanned, i.scanStamp);
    DrainCountsInterface(refreshed, i.arrivals, dir);
    DrainKeepsTime(refreshed, i.arrivals);
  }

  lemma {:induction false} SecondsAreOnTime(start: Instant, firstScan: Instant, inputs: seq<Inputs>)
    ensures RunFrom(start, firstScan, inputs).lastRotation == SecondOpened(start, inputs)
    decreases |inputs|
  {
    if |inputs| > 0 {
      SecondsAreOnTime(start, firstScan, inputs[..|inputs| - 1]);
      PassClosesSeconds(RunFrom(start, firstScan, inputs[..|inputs| - 1]), inputs[|inputs| - 1], Tx);
    }
  }
}
