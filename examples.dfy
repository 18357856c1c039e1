/**
 * Concrete inputs on which the schedulers, as written, depart from what a textbook scheduler
 * reports. Each lemma pins down the exact outcome.
 */
module Examples {
  import opened Processes
  import opened Accumulation
  import opened ArrivalSort
  import opened Admission
  import opened Schedulers

  const P1 := Process(1, 0, 24, 0)
  const P2 := Process(2, 0, 3, 0)
  const P3 := Process(3, 0, 3, 0)

  /** A prefix already in arrival order comes out of the nested sorting loop unchanged. */
  lemma {:induction false} PassKeepsSorted(s: seq<Process>, n: int, i: int)
    requires 0 <= i && 0 <= n <= |s| && ArrivalSorted(s, n)
    ensures PassFrom(s, n, i) == s
    decreases n - i
  {
    if i < n - 1 {
      PassKeepsSorted(s, n, i + 1);
    }
  }

  lemma {:induction false} PassesKeepSorted(s: seq<Process>, n: int, j: int)
    requires 0 <= n <= |s| && ArrivalSorted(s, n)
    ensures PassesFrom(s, n, j) == s
    decreases n - j
  {
    if j < n {
      PassKeepsSorted(s, n, 0);
      PassesKeepSorted(s, n, j + 1);
    }
  }

  lemma SortKeepsSorted(s: seq<Process>, n: int)
    requires 0 <= n <= |s| && ArrivalSorted(s, n)
    ensures BubbleSorted(s, n) == s
  {
    PassesKeepSorted(s, n, 0);
  }

  /**
   * The textbook FCFS input with bursts 24, 3, 3, all arriving at 0: every waiting time is
   * reported as 0 (a textbook scheduler reports 0, 24 and 27), and the Gantt entries all start
   * at 0.
   */
  lemma FCFSTextbook()
    ensures var r := Timeline([P1, P2, P3]);
      r.rows[0].wait == 0 && r.rows[1].wait == 0 && r.rows[2].wait == 0 && r.totalWait == 0 &&
      r.gantt[0].start == 0 && r.gantt[1].start == 0 && r.gantt[2].start == 0 &&
      r.gantt[0].stop == 24 && r.gantt[1].stop == 27 && r.gantt[2].stop == 30
  {
    var ps := [P1, P2, P3];
    WaitStaysZero(ps, 2);
    WaitStaysZero(ps, 1);
    WaitStaysZero(ps, 0);
    StopsArePrefixSums(ps, 0);
    StopsArePrefixSums(ps, 1);
    StopsArePrefixSums(ps, 2);
    TotalsAreSums(ps);
    var rows := Timeline(ps).rows;
    assert rows[..2][..1] == rows[..1] && rows[..1][..0] == [];
    assert WaitTotal(rows[..1]) == 0;
    assert WaitTotal(rows[..2]) == 0;
    assert WaitTotal(rows) == WaitTotal(rows[..2]) + rows[2].wait;
  }

  /** A single process arriving at 5 with burst 10 is reported with waiting time -5. */
  lemma LateProcessWaitsNegative()
    ensures var r := Timeline([Process(1, 5, 10, 0)]);
      r.rows[0].wait == -5 && r.rows[0].turnaround == 5 && r.rows[0].completion == 10 &&
      r.gantt[0].start == 0 && r.gantt[0].stop == 10
  {
  }

  /** The same input makes SJF and Priority panic in their first round. */
  lemma LateProcessPanics()
    ensures SJFReport([Process(1, 5, 10, 0)]) == Err(IndexOutOfRange(-1))
    ensures PriorityReport([Process(1, 5, 10, 0)]) == Err(IndexOutOfRange(-1))
  {
    LateStartFails([Process(1, 5, 10, 0)], ByBurst, false);
    LateStartFails([Process(1, 5, 10, 0)], ByPriority, true);
  }

  /** A round of SJF, given what its sort, receive, select and run-next steps produce. */
  lemma SJFRoundIs(st: Simulation, adm: Admitted, w: seq<Process>, w': seq<Process>, ran: seq<Process>)
    requires Valid(st) && st.finished < |st.notArrived|
    requires BubbleSorted(st.notArrived, st.incoming) == st.notArrived
    requires Received(st.notArrived, st.waiting, st.incoming, st.arrived, st.timeSpent) == adm
    requires 0 < adm.arrived <= |adm.waiting|
    requires Selected(adm.waiting, ByBurst, adm.arrived) == Ok(w)
    requires w' == w[0 := w[adm.arrived - 1]][adm.arrived - 1 := w[0]]
    requires ran == st.alreadyRun[st.finished := w[0]]
    ensures Round(st, ByBurst, false) ==
            Ok(Simulation(st.notArrived, w', ran, adm.incoming, adm.arrived - 1, st.finished + 1,
                          st.timeSpent + w[0].burst))
  {
    ReceiveConserves(st.notArrived, st.waiting, st.incoming, st.arrived, st.timeSpent);
  }

  lemma TextbookSorted(a: Process, b: Process, c: Process)
    requires a == P1 && b == P2 && c == P3
    ensures BubbleSorted([a, b, c], 3) == [a, b, c]
  {
    SortKeepsSorted([a, b, c], 3);
  }

  /** Receiving at time 0 on the textbook input admits notArrived[0] three times. */
  lemma TextbookReceive(a: Process, b: Process, c: Process)
    requires a == P1 && b == P2 && c == P3
    ensures Received([a, b, c], [Zero, Zero, Zero], 3, 0, 0) == Admitted([a, Zero, a], 0, 3)
  {
    var z := [Zero, Zero, Zero];
    var w1 := ShiftToEnd(z[0 := a], 0, 2);
    assert w1 == [Zero, Zero, a];
    var w2 := ShiftToEnd(w1[1 := a], 0, 1);
    assert w2 == [a, Zero, a];
    assert ShiftToEnd(w2[2 := a], 0, 0) == [a, Zero, a];
  }

  /** Selection copies the larger burst over its neighbour. */
  lemma TextbookSelect(a: Process)
    requires a == P1
    ensures Selected([a, Zero, a], ByBurst, 3) == Ok([a, a, a])
  {
    var w := [a, Zero, a];
    SelectIsRunningMax(w, ByBurst, 3);
    assert Champion(w, ByBurst, 1) == a;
    assert Champion(w, ByBurst, 2) == a;
    assert RunningMax(w, ByBurst, 3) == [a, a, a];
  }

  lemma TextbookInit(a: Process, b: Process, c: Process)
    requires a == P1 && b == P2 && c == P3
    ensures Init([a, b, c]) == Simulation([a, b, c], [Zero, Zero, Zero], [Zero, Zero, Zero], 3, 0, 0, 0)
  {
    assert seq(3, _ => Zero) == [Zero, Zero, Zero];
  }

  lemma TextbookFirstRound(a: Process, b: Process, c: Process, st: Simulation)
    requires a == P1 && b == P2 && c == P3
    requires st == Simulation([a, b, c], [Zero, Zero, Zero], [Zero, Zero, Zero], 3, 0, 0, 0)
    ensures Round(st, ByBurst, false) == Ok(Simulation([a, b, c], [a, a, a], [a, Zero, Zero], 0, 2, 1, 24))
  {
    TextbookSorted(a, b, c);
    TextbookReceive(a, b, c);
    TextbookSelect(a);
    assert [a, a, a][0 := a][2 := a] == [a, a, a];
    assert [Zero, Zero, Zero][0 := a] == [a, Zero, Zero];
    SJFRoundIs(st, Admitted([a, Zero, a], 0, 3), [a, a, a], [a, a, a], [a, Zero, Zero]);
  }

  /** With nothing left to receive, a round dispatches the head of waiting. */
  lemma RepeatRound(st: Simulation)
    requires Valid(st) && st.finished < |st.notArrived| && st.incoming == 0 && 0 < st.arrived
    requires forall k :: 0 <= k < |st.waiting| ==> st.waiting[k] == st.waiting[0]
    ensures Round(st, ByBurst, false) ==
            Ok(st.(alreadyRun := st.alreadyRun[st.finished := st.waiting[0]], arrived := st.arrived - 1,
                   finished := st.finished + 1, timeSpent := st.timeSpent + st.waiting[0].burst))
  {
    SortKeepsSorted(st.notArrived, 0);
    var adm := Admitted(st.waiting, 0, st.arrived);
    assert Received(st.notArrived, st.waiting, 0, st.arrived, st.timeSpent) == adm;
    SelectIsRunningMax(st.waiting, ByBurst, st.arrived);
    var rm := RunningMax(st.waiting, ByBurst, st.arrived);
    forall k | 0 <= k < |rm|
      ensures rm[k] == st.waiting[k]
    {
      if k < st.arrived {
        ChampionIsMaximum(st.waiting, ByBurst, k);
        assert rm[k] in st.waiting[..k + 1];
      }
    }
    assert rm == st.waiting;
    var last := st.arrived - 1;
    assert st.waiting[0 := st.waiting[last]][last := st.waiting[0]] == st.waiting;
    SJFRoundIs(st, adm, rm, st.waiting, st.alreadyRun[st.finished := st.waiting[0]]);
  }

  lemma TextbookLaterRounds(a: Process, b: Process, c: Process)
    requires a == P1 && b == P2 && c == P3
    ensures Round(Simulation([a, b, c], [a, a, a], [a, Zero, Zero], 0, 2, 1, 24), ByBurst, false) ==
            Ok(Simulation([a, b, c], [a, a, a], [a, a, Zero], 0, 1, 2, 48))
    ensures Round(Simulation([a, b, c], [a, a, a], [a, a, Zero], 0, 1, 2, 48), ByBurst, false) ==
            Ok(Simulation([a, b, c], [a, a, a], [a, a, a], 0, 0, 3, 72))
  {
    RepeatRound(Simulation([a, b, c], [a, a, a], [a, Zero, Zero], 0, 2, 1, 24));
    assert [a, Zero, Zero][1 := a] == [a, a, Zero];
    RepeatRound(Simulation([a, b, c], [a, a, a], [a, a, Zero], 0, 1, 2, 48));
    assert [a, a, Zero][2 := a] == [a, a, a];
  }

  /** The outer loop after one successful round continues from that round's state. */
  lemma SimulateStep(st: Simulation, key: Key, aging: bool, next: Simulation)
    requires Valid(st) && st.finished < |st.notArrived| && Round(st, key, aging) == Ok(next)
    ensures Simulate(st, key, aging) == Simulate(next, key, aging)
  {
  }

  /**
   * On the textbook input SJF dispatches the first process three times: receiving copies
   * notArrived[0] into waiting once per process, and nothing removes it.
   */
  lemma SJFRepeatsFirst(a: Process, b: Process, c: Process)
    requires a == P1 && b == P2 && c == P3
    ensures RunOrder([a, b, c], ByBurst, false) == Ok([a, a, a])
  {
    var ps := [a, b, c];
    var st1 := Simulation(ps, [a, a, a], [a, Zero, Zero], 0, 2, 1, 24);
    var st2 := Simulation(ps, [a, a, a], [a, a, Zero], 0, 1, 2, 48);
    var st3 := Simulation(ps, [a, a, a], [a, a, a], 0, 0, 3, 72);
    TextbookInit(a, b, c);
    TextbookFirstRound(a, b, c, Init(ps));
    TextbookLaterRounds(a, b, c);
    SimulateStep(Init(ps), ByBurst, false, st1);
    SimulateStep(st1, ByBurst, false, st2);
    SimulateStep(st2, ByBurst, false, st3);
  }

  lemma PhantomFirstRound(a: Process, b: Process)
    requires a == Process(1, 0, 5, 0) && b == Process(2, 0, 3, 0)
    ensures Round(Init([a, b]), ByBurst, false) == Ok(Simulation([a, b], [a, Zero], [Zero, Zero], 0, 1, 1, 0))
  {
    var ps := [a, b];
    assert seq(2, _ => Zero) == [Zero, Zero];
    SortKeepsSorted(ps, 2);
    var w1 := ShiftToEnd([Zero, Zero][0 := a], 0, 1);
    assert w1 == [Zero, a];
    assert ShiftToEnd(w1[1 := a], 0, 0) == [Zero, a];
    var adm := Admitted([Zero, a], 0, 2);
    assert Received(ps, [Zero, Zero], 2, 0, 0) == adm;
    SelectIsRunningMax([Zero, a], ByBurst, 2);
    assert RunningMax([Zero, a], ByBurst, 2) == [Zero, a];
    assert [Zero, a][0 := a][1 := Zero] == [a, Zero];
    assert [Zero, Zero][0 := Zero] == [Zero, Zero];
    SJFRoundIs(Init(ps), adm, [Zero, a], [a, Zero], [Zero, Zero]);
  }

  lemma PhantomSecondRound(a: Process, b: Process)
    requires a == Process(1, 0, 5, 0) && b == Process(2, 0, 3, 0)
    ensures Round(Simulation([a, b], [a, Zero], [Zero, Zero], 0, 1, 1, 0), ByBurst, false) ==
            Ok(Simulation([a, b], [a, Zero], [Zero, a], 0, 0, 2, 5))
  {
    var ps := [a, b];
    var st1 := Simulation(ps, [a, Zero], [Zero, Zero], 0, 1, 1, 0);
    SortKeepsSorted(ps, 0);
    var adm := Admitted([a, Zero], 0, 1);
    assert Received(ps, [a, Zero], 0, 1, 0) == adm;
    SelectIsRunningMax([a, Zero], ByBurst, 1);
    assert RunningMax([a, Zero], ByBurst, 1) == [a, Zero];
    assert [Zero, Zero][1 := a] == [Zero, a];
    assert [a, Zero][0 := a][0 := a] == [a, Zero];
    SJFRoundIs(st1, adm, [a, Zero], [a, Zero], [Zero, a]);
  }

  /**
   * With bursts 5 and 3, both arriving at 0, SJF dispatches a zero-valued phantom process
   * first and then the first process; the second is never run.
   */
  lemma SJFRunsPhantom(a: Process, b: Process)
    requires a == Process(1, 0, 5, 0) && b == Process(2, 0, 3, 0)
    ensures RunOrder([a, b], ByBurst, false) == Ok([Zero, a])
  {
    var ps := [a, b];
    var st1 := Simulation(ps, [a, Zero], [Zero, Zero], 0, 1, 1, 0);
    var st2 := Simulation(ps, [a, Zero], [Zero, a], 0, 0, 2, 5);
    PhantomFirstRound(a, b);
    PhantomSecondRound(a, b);
    SimulateStep(Init(ps), ByBurst, false, st1);
    SimulateStep(st1, ByBurst, false, st2);
  }
}
