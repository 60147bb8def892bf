/** Runs on which the unchecked sums of the aggregator go wrong: their bounds are tight. */
module AggregatorLimits {
  import opened Net
  import opened TrafficLog
  import opened AggregatorModel
  import opened AggregatorTheorems
  import opened AggregatorRates

  const FLOW := FlowKey(V4([10, 0, 0, 1]), V4([10, 0, 0, 2]), 1024, 80, Tcp)

  /** A record of the largest size, processed at time `t`. */
  function Largest(dir: Direction, t: Instant): Arrival {
    Arrival(FlowRecord(FLOW, U32_MAX, dir), None, t, t)
  }

  /** One pass at time `t` that takes in `n` such records. */
  function Burst(n: nat, dir: Direction, t: Instant): Inputs {
    Inputs(t, [], t, seq(n, _ => Largest(dir, t)), _ => true, _ => t, _ => t, t, t)
  }

  function Raised(m: Meter, bytes: nat): Meter {
    Meter(Sat(m.total + bytes), Sat(m.current + bytes), m.history)
  }

  /** What a pass changes besides the two meters of the interface, or leaves as it is. */
  predicate SameRest(s: State, s': State) {
    s'.peak == s.peak && s'.lastRotation == s.lastRotation
  }

  lemma {:induction false} BurstCounts(s: State, n: nat, dir: Direction, t: Instant)
    ensures var s' := Drain(s, seq(n, _ => Largest(dir, t)));
            && s'.ifTx == (if dir.Tx? then Raised(s.ifTx, n * U32_MAX) else s.ifTx)
            && s'.ifRx == (if dir.Rx? then Raised(s.ifRx, n * U32_MAX) else s.ifRx)
            && SameRest(s, s')
    decreases n
  {
    if n > 0 {
      var all := seq(n, _ => Largest(dir, t));
      assert all[..n - 1] == seq(n - 1, _ => Largest(dir, t));
      BurstCounts(s, n - 1, dir, t);
    }
  }

  /** A pass that is not due only counts; one that is due also rotates. */
  lemma BurstPasses(s: State, n: nat, dir: Direction, t: Instant)
    ensures var s' := Iterate(s, Burst(n, dir, t));
            var tx := if dir.Tx? then Raised(s.ifTx, n * U32_MAX) else s.ifTx;
            var rx := if dir.Rx? then Raised(s.ifRx, n * U32_MAX) else s.ifRx;
            if Elapsed(s.lastRotation, t) < SECOND then s'.ifTx == tx && s'.ifRx == rx && SameRest(s, s')
            else
              && s'.ifTx == Rotate(tx) && s'.ifRx == Rotate(rx)
              && s'.peak == RaisePeak(s.peak, tx.current, rx.current) && s'.lastRotation == t
  {
    BurstCounts(RefreshCacheIfDue(s, t, [], t), n, dir, t);
  }

  // ---- Ten seconds of one thread ----

  /** Nobody is known to hold the connection, so all records are this thread's. */
  const NOBODY := ThreadKey(0, 0)

  /** There is at most this one thread, and it sent all that the interface did. */
  ghost predicate Sole(s: State) {
    && s.cache == []
    && s.threads.Keys <= {NOBODY}
    && s.ifTx == if NOBODY in s.threads then s.threads[NOBODY].tx else ZeroMeter()
  }

  ghost predicate SeenAt(s: State, t: Instant) {
    NOBODY in s.threads && s.threads[NOBODY].lastSeen == t
  }

  lemma {:induction false} BurstOfOne(s: State, n: nat, t: Instant)
    requires Sole(s)
    ensures var s' := Drain(s, seq(n, _ => Largest(Tx, t))); Sole(s') && (n > 0 ==> SeenAt(s', t))
    decreases n
  {
    if n > 0 {
      var all := seq(n, _ => Largest(Tx, t));
      assert all[..n - 1] == seq(n - 1, _ => Largest(Tx, t));
      BurstOfOne(s, n - 1, t);
      assert ThreadKeyOf(UNKNOWN_PROCESS) == NOBODY;
    }
  }

  lemma PassOfOne(s: State, n: nat, t: Instant)
    requires Sole(s) && n > 0
    ensures var s' := Iterate(s, Burst(n, Tx, t)); Sole(s') && NOBODY in s'.threads
  {
    BurstOfOne(RefreshCacheIfDue(s, t, [], t), n, t);
  }

  /** One such pass each second. */
  function Bursts(k: nat, n: nat): seq<Inputs> {
    if k == 0 then [] else Bursts(k - 1, n) + [Burst(n, Tx, k * SECOND)]
  }

  /** After `k` such passes the `k` newest slots are full, and they are the thread's. */
  ghost predicate Filled(s: State, k: nat, n: nat)
    requires k <= 10
  {
    && Sole(s) && (k > 0 ==> NOBODY in s.threads)
    && s.ifTx.current == 0 && s.lastRotation == k * SECOND
    && forall i :: 0 <= i < k ==> s.ifTx.history[i] == Sat(n * U32_MAX)
  }

  lemma FillsOneMore(s: State, k: nat, n: nat)
    requires 0 < n && k < 10 && Filled(s, k, n)
    ensures Filled(Iterate(s, Burst(n, Tx, (k + 1) * SECOND)), k + 1, n)
  {
    PassOfOne(s, n, (k + 1) * SECOND);
    BurstPasses(s, n, Tx, (k + 1) * SECOND);
    var m := Raised(s.ifTx, n * U32_MAX);
    assert forall i :: 0 < i < k + 1 ==> Rotate(m).history[i] == s.ifTx.history[i - 1];
  }

  lemma {:induction false} BurstsFill(k: nat, n: nat)
    requires 0 < n && k <= 10
    ensures Filled(Run(Initial(0, 0), Bursts(k, n)), k, n)
  {
    if k > 0 {
      var before, all := Bursts(k - 1, n), Bursts(k, n);
      BurstsFill(k - 1, n);
      assert all[..|all| - 1] == before;
      FillsOneMore(Run(Initial(0, 0), before), k - 1, n);
    }
  }

  lemma {:induction false} EvenSum(h: History, k: nat, x: nat)
    requires k <= HISTORY_SLOTS && forall i :: 0 <= i < k ==> h[i] == x
    ensures HistorySum(h, k) == k * x
  {
    if k > 0 { EvenSum(h, k - 1, x); }
  }

  /** Ten seconds of `n` largest records each, all of one thread: its ten-second average is right if
      and only if `n` is within the bound. */
  lemma TenSecondBoundIsTight(n: nat)
    requires 0 < n
    ensures var s := RunFrom(0, 0, Bursts(10, n));
            && NOBODY in s.threads
            && (TenSecondAvg(s.threads[NOBODY].tx.history) == n * U32_MAX <==> n <= MAX_FLOWS_PER_INTERVAL)
  {
    BurstsFill(10, n);
    EvenAverage(RunFrom(0, 0, Bursts(10, n)).threads[NOBODY].tx.history, n);
  }

  lemma EvenAverage(h: History, n: nat)
    requires forall i :: 0 <= i < 10 ==> h[i] == Sat(n * U32_MAX)
    ensures TenSecondAvg(h) == n * U32_MAX <==> n <= MAX_FLOWS_PER_INTERVAL
  {
    if n * U32_MAX <= U64_MAX {
      EvenSum(h, 10, n * U32_MAX);
      AveragesExact(h);
      assert 10 * (n * U32_MAX) / 10 == n * U32_MAX;
      assert 10 * (n * U32_MAX) <= U64_MAX <==> n <= MAX_FLOWS_PER_INTERVAL;
    } else {
      assert TenSecondAvg(h) <= U64_MAX;
    }
  }

  // ---- One second ----

  /** This many of the largest records are more than half of what 64 bits count. */
  const HALF: nat := 0x1_0000_0000

  /** As many sent as received, all in the first second. */
  const FLOOD: seq<Inputs> := [Burst(HALF, Tx, 0), Burst(HALF, Rx, SECOND)]

  lemma TwoPasses(s: State, i: Inputs, j: Inputs)
    ensures Run(s, [i, j]) == Iterate(Iterate(s, i), j)
  {
    assert [i, j][..1] == [i] && [i][..0] == [];
    assert Run(s, [i]) == Iterate(Run(s, []), i);
  }

  lemma FirstHalf()
    ensures var s := Iterate(Initial(0, 0), Burst(HALF, Tx, 0));
            && s.ifTx.current == HALF * U32_MAX && s.ifRx.current == 0
            && s.peak == 0 && s.lastRotation == 0
  {
    BurstPasses(Initial(0, 0), HALF, Tx, 0);
  }

  lemma SecondHalf(s: State)
    requires s.ifTx.current == HALF * U32_MAX && s.ifRx.current == 0 && s.peak == 0 && s.lastRotation == 0
    ensures var s' := Iterate(s, Burst(HALF, Rx, SECOND));
            && s'.ifTx.history[0] == s'.ifRx.history[0] == HALF * U32_MAX
            && s'.peak == RaisePeak(0, HALF * U32_MAX, HALF * U32_MAX)
  {
    BurstPasses(s, HALF, Rx, SECOND);
  }

  /** A run that publishes a current bandwidth above the peak. */
  lemma CurrentAbovePeak()
    ensures CurrentBandwidth(RunFrom(0, 0, FLOOD)) > RunFrom(0, 0, FLOOD).peak
  {
    TwoPasses(Initial(0, 0), FLOOD[0], FLOOD[1]);
    FirstHalf();
    SecondHalf(Iterate(Initial(0, 0), FLOOD[0]));
  }
}
