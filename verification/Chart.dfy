/** The aggregate chart of the GUI, drawn from the published rows. */
module Chart {
  import opened Net
  import opened TrafficLog
  import opened AggregatorModel
  import opened AggregatorTheorems
  import opened Publication

  function SlotOf(row: ProcessRow, i: nat, dir: Direction): U64
    requires i < HISTORY_SLOTS
  {
    if dir.Tx? then row.txHistory[i] else row.rxHistory[i]
  }

  /** What the first `n` rows show for one second, added without bound. */
  function RowSum(rows: seq<ProcessRow>, n: nat, i: nat, dir: Direction): nat
    requires n <= |rows| && i < HISTORY_SLOTS
  {
    if n == 0 then 0 else RowSum(rows, n - 1, i, dir) + SlotOf(rows[n - 1], i, dir)
  }

  method AggregateHistory(rows: seq<ProcessRow>) returns (tx: array<U64>, rx: array<U64>)
    ensures fresh(tx) && fresh(rx) && tx.Length == rx.Length == HISTORY_SLOTS
    ensures forall i :: 0 <= i < HISTORY_SLOTS ==>
              tx[i] == Sat(RowSum(rows, |rows|, i, Tx)) && rx[i] == Sat(RowSum(rows, |rows|, i, Rx))
  {
    tx := new U64[HISTORY_SLOTS](_ => 0);
    rx := new U64[HISTORY_SLOTS](_ => 0);
    for n := 0 to |rows|
      invariant forall i :: 0 <= i < HISTORY_SLOTS ==>
                  tx[i] == Sat(RowSum(rows, n, i, Tx)) && rx[i] == Sat(RowSum(rows, n, i, Rx))
    {
      for idx := 0 to HISTORY_SLOTS
        invariant forall i :: 0 <= i < HISTORY_SLOTS ==>
                    && tx[i] == Sat(RowSum(rows, if i < idx then n + 1 else n, i, Tx))
                    && rx[i] == Sat(RowSum(rows, if i < idx then n + 1 else n, i, Rx))
      {
        tx[idx] := SaturatingAdd(tx[idx], rows[n].txHistory[idx]);
        rx[idx] := SaturatingAdd(rx[idx], rows[n].rxHistory[idx]);
      }
    }
  }

  /** The threads of the first `n` rows. */
  ghost function Keys(rows: seq<ProcessRow>, n: nat): set<ThreadKey>
    requires n <= |rows|
  {
    set i | 0 <= i < n :: rows[i].Key()
  }

  /** What some of the threads show for one second. */
  ghost function SlotsOf(s: State, keys: set<ThreadKey>, i: nat, dir: Direction): Shown
    requires i < HISTORY_SLOTS && keys <= s.threads.Keys
  {
    map k | k in keys :: OfThread(k) := s.threads[k].Meter(dir).history[i]
  }

  lemma SlotsOfMinus(s: State, keys: set<ThreadKey>, k: ThreadKey, i: nat, dir: Direction)
    requires i < HISTORY_SLOTS && keys <= s.threads.Keys && k in keys
    ensures Sum(SlotsOf(s, keys, i, dir)) == s.threads[k].Meter(dir).history[i] + Sum(SlotsOf(s, keys - {k}, i, dir))
  {
    assert SlotsOf(s, keys, i, dir) - {OfThread(k)} == SlotsOf(s, keys - {k}, i, dir);
    SumPick(SlotsOf(s, keys, i, dir), OfThread(k));
  }

  lemma KeysStep(rows: seq<ProcessRow>, n: nat, s: State, blocked: set<U32>)
    requires FaithfulRows(rows, s, blocked) && 0 < n <= |rows|
    ensures Keys(rows, n) <= s.threads.Keys
    ensures rows[n - 1].Key() in Keys(rows, n)
    ensures Keys(rows, n) - {rows[n - 1].Key()} == Keys(rows, n - 1)
  {
    forall i | 0 <= i < n ensures rows[i].Key() in s.threads {
      assert IsRow(rows[i], s, blocked);
    }
  }

  lemma SlotOfThread(rows: seq<ProcessRow>, n: nat, s: State, blocked: set<U32>, i: nat, dir: Direction)
    requires FaithfulRows(rows, s, blocked) && n < |rows| && i < HISTORY_SLOTS
    ensures rows[n].Key() in s.threads
    ensures SlotOf(rows[n], i, dir) == s.threads[rows[n].Key()].Meter(dir).history[i]
  {
    assert IsRow(rows[n], s, blocked);
  }

  /** The first `n` rows add up to what their threads show. */
  ghost predicate AddsUp(rows: seq<ProcessRow>, n: nat, s: State, i: nat, dir: Direction)
    requires n <= |rows| && i < HISTORY_SLOTS
  {
    Keys(rows, n) <= s.threads.Keys && RowSum(rows, n, i, dir) == Sum(SlotsOf(s, Keys(rows, n), i, dir))
  }

  lemma NoRows(rows: seq<ProcessRow>, s: State, i: nat, dir: Direction)
    requires i < HISTORY_SLOTS
    ensures AddsUp(rows, 0, s, i, dir)
  {
    assert Keys(rows, 0) == {} && SlotsOf(s, {}, i, dir) == map[];
  }

  lemma OneMoreRow(rows: seq<ProcessRow>, n: nat, s: State, blocked: set<U32>, i: nat, dir: Direction)
    requires FaithfulRows(rows, s, blocked) && 0 < n <= |rows| && i < HISTORY_SLOTS
    requires AddsUp(rows, n - 1, s, i, dir)
    ensures AddsUp(rows, n, s, i, dir)
  {
    KeysStep(rows, n, s, blocked);
    SlotOfThread(rows, n - 1, s, blocked, i, dir);
    SlotsOfMinus(s, Keys(rows, n), rows[n - 1].Key(), i, dir);
  }

  lemma {:induction false} RowSumIsSum(rows: seq<ProcessRow>, n: nat, s: State, blocked: set<U32>, i: nat,
                                       dir: Direction)
    requires FaithfulRows(rows, s, blocked) && n <= |rows| && i < HISTORY_SLOTS
    ensures AddsUp(rows, n, s, i, dir)
    decreases n
  {
    if n == 0 {
      NoRows(rows, s, i, dir);
    } else {
      RowSumIsSum(rows, n - 1, s, blocked, i, dir);
      OneMoreRow(rows, n, s, blocked, i, dir);
    }
  }

  lemma AllKeys(rows: seq<ProcessRow>, s: State, blocked: set<U32>)
    requires FaithfulRows(rows, s, blocked)
    ensures Keys(rows, |rows|) == s.threads.Keys
  {
    forall k | k in s.threads ensures k in Keys(rows, |rows|) {
      assert HasRow(rows, k);
    }
    forall i | 0 <= i < |rows| ensures rows[i].Key() in s.threads {
      assert IsRow(rows[i], s, blocked);
    }
  }

  lemma RowsSumToSlots(rows: seq<ProcessRow>, s: State, blocked: set<U32>, i: nat, dir: Direction)
    requires FaithfulRows(rows, s, blocked) && i < HISTORY_SLOTS
    ensures RowSum(rows, |rows|, i, dir) == Sum(ShownBy(s.threads, OfSlot(i), dir))
  {
    RowSumIsSum(rows, |rows|, s, blocked, i, dir);
    AllKeys(rows, s, blocked);
    AllSlots(s, i, dir);
  }

  lemma AllSlots(s: State, i: nat, dir: Direction)
    requires i < HISTORY_SLOTS
    ensures SlotsOf(s, s.threads.Keys, i, dir) == ShownBy(s.threads, OfSlot(i), dir)
  {
  }

  /** On every run, the chart drawn from the published rows falls short of the interface history
      by exactly what evicted threads had carried in that second; it never exceeds it. */
  lemma ChartWithinInterface(start: Instant, firstScan: Instant, inputs: seq<Inputs>,
                             rows: seq<ProcessRow>, blocked: set<U32>, i: nat, dir: Direction)
    requires FaithfulRows(rows, RunFrom(start, firstScan, inputs), blocked) && i < HISTORY_SLOTS
    ensures ChartAgrees(rows, RunFrom(start, firstScan, inputs), LogOf(start, firstScan, inputs), i, dir)
  {
    BytesConserved(start, firstScan, inputs, dir);
    assert ReadingConserved(RunFrom(start, firstScan, inputs), LogOf(start, firstScan, inputs), OfSlot(i), dir);
    ConservedChart(rows, RunFrom(start, firstScan, inputs), LogOf(start, firstScan, inputs), blocked, i, dir);
  }

  ghost predicate ChartAgrees(rows: seq<ProcessRow>, s: State, log: Log, i: nat, dir: Direction)
    requires i < HISTORY_SLOTS
  {
    && s.Interface(dir).history[i] == Sat(RowSum(rows, |rows|, i, dir) + Slot(log, i, dir, Retired))
    && Sat(RowSum(rows, |rows|, i, dir)) <= s.Interface(dir).history[i]
  }

  lemma ConservedChart(rows: seq<ProcessRow>, s: State, log: Log, blocked: set<U32>, i: nat, dir: Direction)
    requires FaithfulRows(rows, s, blocked) && i < HISTORY_SLOTS && ReadingConserved(s, log, OfSlot(i), dir)
    ensures ChartAgrees(rows, s, log, i, dir)
  {
    RowsSumToSlots(rows, s, blocked, i, dir);
  }
}
