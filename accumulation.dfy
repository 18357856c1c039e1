/**
 * The loop every scheduler ends with: it walks the processes in the given order, keeps a
 * running service time and a waiting time that persists from one process to the next, and
 * emits one table row and one Gantt entry per process.
 */
module Accumulation {
  import opened Processes

  /**
   * The waiting time reported for ps[i]. It is recomputed as the service time so far minus the
   * arrival only when the arrival is positive, without clamping at zero; otherwise the value of
   * the previous process is carried over (0 before the first process).
   */
  function WaitAt(ps: seq<Process>, i: int): int
    requires 0 <= i < |ps|
  {
    if ps[i].arrival > 0 then BurstBefore(ps, i) - ps[i].arrival
    else if i == 0 then 0
    else WaitAt(ps, i - 1)
  }

  function RowAt(ps: seq<Process>, i: int): Row
    requires 0 <= i < |ps|
  {
    var p, w := ps[i], WaitAt(ps, i);
    Row(p.id, p.priority, p.burst, p.arrival, w, p.burst + w, p.burst + p.arrival + w)
  }

  function SliceAt(ps: seq<Process>, i: int): TimeSlice
    requires 0 <= i < |ps|
  {
    TimeSlice(ps[i].id, WaitAt(ps, i) + ps[i].arrival, BurstBefore(ps, i + 1))
  }

  function WaitTotal(rows: seq<Row>): int
  {
    if rows == [] then 0 else WaitTotal(rows[..|rows| - 1]) + rows[|rows| - 1].wait
  }

  function TurnaroundTotal(rows: seq<Row>): int
  {
    if rows == [] then 0 else TurnaroundTotal(rows[..|rows| - 1]) + rows[|rows| - 1].turnaround
  }

  function BurstTotal(rows: seq<Row>): int
  {
    if rows == [] then 0 else BurstTotal(rows[..|rows| - 1]) + rows[|rows| - 1].burst
  }

  /** The completion time of the last row emitted, 0 when nothing was emitted. */
  function LastCompletion(rows: seq<Row>): int
  {
    if rows == [] then 0 else rows[|rows| - 1].completion
  }

  /** Summed over rows whose turnaround is burst plus wait, turnaround is wait plus burst. */
  lemma {:induction false} TotalsAdd(rows: seq<Row>)
    requires forall i :: 0 <= i < |rows| ==> rows[i].turnaround == rows[i].burst + rows[i].wait
    ensures TurnaroundTotal(rows) == WaitTotal(rows) + BurstTotal(rows)
  {
    if rows != [] {
      TotalsAdd(rows[..|rows| - 1]);
    }
  }

  /**
   * Once a process with positive arrival has fixed the waiting time, every later process with
   * arrival at most 0 reports that same waiting time.
   */
  lemma {:induction false} WaitCarried(ps: seq<Process>, j: int, i: int)
    requires 0 <= j <= i < |ps|
    requires ps[j].arrival > 0
    requires forall k :: j < k <= i ==> ps[k].arrival <= 0
    ensures WaitAt(ps, i) == BurstBefore(ps, j) - ps[j].arrival
  {
    if i > j {
      WaitCarried(ps, j, i - 1);
    }
  }

  /** While no process so far has had a positive arrival, the reported waiting time is 0. */
  lemma {:induction false} WaitStaysZero(ps: seq<Process>, i: int)
    requires 0 <= i < |ps|
    requires forall k :: 0 <= k <= i ==> ps[k].arrival <= 0
    ensures WaitAt(ps, i) == 0
  {
    if i > 0 {
      WaitStaysZero(ps, i - 1);
    }
  }

  function Rows(ps: seq<Process>): seq<Row>
  {
    seq(|ps|, i requires 0 <= i < |ps| => RowAt(ps, i))
  }

  function Gantt(ps: seq<Process>): seq<TimeSlice>
  {
    seq(|ps|, i requires 0 <= i < |ps| => SliceAt(ps, i))
  }

  /** The report the accumulation loop produces for the processes ps, in that order. */
  function Timeline(ps: seq<Process>): (r: Report)
    ensures |r.rows| == |ps| && |r.gantt| == |ps| && r.count == |ps|
    ensures r.totalTurnaround == r.totalWait + BurstBefore(ps, |ps|)
  {
    var rows := Rows(ps);
    TotalsAdd(rows);
    BurstTotalIsBurstBefore(ps, rows, |ps|);
    assert rows[..|ps|] == rows;
    Report(rows, Gantt(ps), WaitTotal(rows), TurnaroundTotal(rows), LastCompletion(rows), |ps|)
  }

  /** Each row echoes its process and obeys turnaround = burst + wait, completion = arrival + wait + burst. */
  lemma RowIdentities(ps: seq<Process>, i: int)
    requires 0 <= i < |ps|
    ensures var r := Timeline(ps);
      r.rows[i].id == ps[i].id && r.rows[i].priority == ps[i].priority &&
      r.rows[i].burst == ps[i].burst && r.rows[i].arrival == ps[i].arrival &&
      r.gantt[i].pid == ps[i].id &&
      r.rows[i].turnaround == r.rows[i].burst + r.rows[i].wait &&
      r.rows[i].completion == r.rows[i].arrival + r.rows[i].wait + r.rows[i].burst &&
      r.gantt[i].start == r.rows[i].wait + r.rows[i].arrival &&
      r.rows[i].completion - r.gantt[i].start == r.rows[i].burst
  {
  }

  /** The Gantt stops are the prefix sums of the bursts, in iteration order. */
  lemma StopsArePrefixSums(ps: seq<Process>, i: int)
    requires 0 <= i < |ps|
    ensures var r := Timeline(ps);
      r.gantt[i].stop == (if i == 0 then 0 else r.gantt[i - 1].stop) + ps[i].burst
  {
  }

  /**
   * A process with positive arrival starts where the previous one stopped (at 0 for the first)
   * and its slice is exactly as long as its burst.
   */
  lemma ArrivedStartsAtPreviousStop(ps: seq<Process>, i: int)
    requires 0 <= i < |ps| && ps[i].arrival > 0
    ensures var r := Timeline(ps);
      r.gantt[i].start == (if i == 0 then 0 else r.gantt[i - 1].stop) &&
      r.gantt[i].start == BurstBefore(ps, i) &&
      r.gantt[i].stop - r.gantt[i].start == ps[i].burst
  {
  }

  /** A process with arrival at most 0 reports the waiting time of the one before it (0 for the first). */
  lemma WaitCarriedOver(ps: seq<Process>, i: int)
    requires 0 <= i < |ps| && ps[i].arrival <= 0
    ensures var r := Timeline(ps);
      r.rows[i].wait == (if i == 0 then 0 else r.rows[i - 1].wait)
  {
  }

  /** The totals are the sums over the rows, and the last completion is the last row's. */
  lemma TotalsAreSums(ps: seq<Process>)
    ensures var r := Timeline(ps);
      r.totalWait == WaitTotal(r.rows) && r.totalTurnaround == TurnaroundTotal(r.rows) &&
      r.totalTurnaround == WaitTotal(r.rows) + BurstTotal(r.rows) &&
      r.lastCompletion == (if ps == [] then 0 else r.rows[|ps| - 1].completion)
  {
    TotalsAdd(Timeline(ps).rows);
  }

  lemma {:induction false} BurstTotalIsBurstBefore(ps: seq<Process>, rows: seq<Row>, n: int)
    requires 0 <= n <= |ps| == |rows|
    requires forall i :: 0 <= i < |ps| ==> rows[i].burst == ps[i].burst
    ensures BurstTotal(rows[..n]) == BurstBefore(ps, n)
  {
    if n == 0 {
      assert rows[..n] == [];
    } else {
      BurstTotalIsBurstBefore(ps, rows, n - 1);
      assert rows[..n][..n - 1] == rows[..n - 1];
    }
  }

  /** How the loop's persisting waiting time becomes the one reported for ps[i]. */
  lemma WaitStep(ps: seq<Process>, i: int)
    requires 0 <= i < |ps|
    ensures WaitAt(ps, i) ==
            if ps[i].arrival > 0 then BurstBefore(ps, i) - ps[i].arrival
            else if i == 0 then 0 else WaitAt(ps, i - 1)
    ensures BurstBefore(ps, i + 1) == BurstBefore(ps, i) + ps[i].burst
  {
  }

  /**
   * Extending the first i rows and Gantt entries by those of ps[i] adds its wait and turnaround
   * to the totals and makes its completion the last.
   */
  lemma TotalsStep(ps: seq<Process>, i: int)
    requires 0 <= i < |ps|
    ensures var rows, r := Rows(ps)[..i], RowAt(ps, i);
      Rows(ps)[..i + 1] == rows + [r] && Gantt(ps)[..i + 1] == Gantt(ps)[..i] + [SliceAt(ps, i)] &&
      WaitTotal(rows + [r]) == WaitTotal(rows) + r.wait &&
      TurnaroundTotal(rows + [r]) == TurnaroundTotal(rows) + r.turnaround &&
      LastCompletion(rows + [r]) == r.completion
  {
    var rows, r := Rows(ps)[..i], RowAt(ps, i);
    assert (rows + [r])[..i] == rows;
    assert Rows(ps)[..i + 1] == rows + [r];
    assert Gantt(ps)[..i + 1] == Gantt(ps)[..i] + [SliceAt(ps, i)];
  }

  /** The report, once the rows and Gantt entries are known. */
  lemma TimelineIs(ps: seq<Process>)
    ensures Timeline(ps) == Report(Rows(ps), Gantt(ps), WaitTotal(Rows(ps)), TurnaroundTotal(Rows(ps)),
                                   LastCompletion(Rows(ps)), |ps|)
  {
  }

  /**
   * The accumulation loop itself: running service time, persisting waiting time, one row and
   * one Gantt entry appended per process, and the running totals.
   */
  method Accumulate(ps: seq<Process>) returns (r: Report)
    ensures r == Timeline(ps)
  {
    var serviceTime, waitingTime := 0, 0;
    var totalWait, totalTurnaround, lastCompletion := 0, 0, 0;
    var rows: seq<Row> := [];
    var gantt: seq<TimeSlice> := [];
    ghost var allRows, allGantt := Rows(ps), Gantt(ps);
    for i := 0 to |ps|
      invariant rows == allRows[..i] && gantt == allGantt[..i]
      invariant serviceTime == BurstBefore(ps, i)
      invariant waitingTime == if i == 0 then 0 else WaitAt(ps, i - 1)
      invariant totalWait == WaitTotal(rows) && totalTurnaround == TurnaroundTotal(rows)
      invariant lastCompletion == LastCompletion(rows)
    {
      WaitStep(ps, i);
      TotalsStep(ps, i);
      if ps[i].arrival > 0 {
        waitingTime := serviceTime - ps[i].arrival;
      }
      totalWait := totalWait + waitingTime;
      var start := waitingTime + ps[i].arrival;
      var turnaround := ps[i].burst + waitingTime;
      totalTurnaround := totalTurnaround + turnaround;
      var completion := ps[i].burst + ps[i].arrival + waitingTime;
      lastCompletion := completion;
      rows := rows + [Row(ps[i].id, ps[i].priority, ps[i].burst, ps[i].arrival,
                          waitingTime, turnaround, completion)];
      serviceTime := serviceTime + ps[i].burst;
      gantt := gantt + [TimeSlice(ps[i].id, start, serviceTime)];
    }
    assert rows == allRows && gantt == allGantt;
    TimelineIs(ps);
    r := Report(rows, gantt, totalWait, totalTurnaround, lastCompletion, |ps|);
  }
}
