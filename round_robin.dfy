/**
 * The Round Robin scheduler: the not-arrived processes are sorted by arrival once; then, until
 * every process has finished, the process at the head of waiting runs for one time unit and
 * moves to the back together with its remaining-burst counter, and new arrivals are received.
 * The remaining-burst counters start at zero and are never set from the bursts.
 */
module RoundRobin {
  import opened Processes
  import opened Accumulation
  import opened ArrivalSort
  import opened Admission

  datatype Option<T> = None | Some(value: T)

  datatype RRState = RRState(notArrived: seq<Process>, waiting: seq<Process>, burstLeft: seq<int>,
                             alreadyRun: seq<Process>, incoming: int, arrived: int,
                             finished: int, timeSpent: int)

  predicate ValidRR(st: RRState)
  {
    |st.waiting| == |st.notArrived| && |st.burstLeft| == |st.notArrived| &&
    |st.alreadyRun| == |st.notArrived| &&
    0 <= st.incoming && 0 <= st.arrived && 0 <= st.finished &&
    st.incoming + st.arrived + st.finished == |st.notArrived|
  }

  /** The state before the main loop: the input copied and sorted by arrival, every counter zero. */
  function RRInit(ps: seq<Process>): (st: RRState)
    ensures ValidRR(st)
  {
    RRState(BubbleSorted(ps, |ps|), seq(|ps|, _ => Zero), seq(|ps|, _ => 0), seq(|ps|, _ => Zero),
            |ps|, 0, 0, 0)
  }

  /**
   * One time unit: when something is waiting, the head's counter drops by one, time advances,
   * waiting and the counters rotate left in lockstep over the arrived prefix, and the process
   * now at the back finishes if its counter reached exactly zero.
   */
  function Slice(st: RRState): (r: RRState)
    requires ValidRR(st)
    ensures ValidRR(r) && r.notArrived == st.notArrived && r.incoming == st.incoming
  {
    if st.arrived == 0 then st
    else
      var last := st.arrived - 1;
      var w := ShiftToEnd(st.waiting, 0, last);
      var b := ShiftToEnd(st.burstLeft[0 := st.burstLeft[0] - 1], 0, last);
      if b[last] == 0 then
        st.(waiting := w, burstLeft := b, timeSpent := st.timeSpent + 1, arrived := last,
            alreadyRun := st.alreadyRun[st.finished := w[last]], finished := st.finished + 1)
      else st.(waiting := w, burstLeft := b, timeSpent := st.timeSpent + 1)
  }

  /** One iteration of the main loop: a slice, then the receive step. */
  function Turn(st: RRState): (r: RRState)
    requires ValidRR(st)
    ensures ValidRR(r) && r.burstLeft == Slice(st).burstLeft && r.finished == Slice(st).finished
  {
    var s := Slice(st);
    var adm := Received(s.notArrived, s.waiting, s.incoming, s.arrived, s.timeSpent);
    ReceiveConserves(s.notArrived, s.waiting, s.incoming, s.arrived, s.timeSpent);
    s.(waiting := adm.waiting, incoming := adm.incoming, arrived := adm.arrived)
  }

  /**
   * The main loop, cut off after fuel iterations: None when the loop has not ended by then,
   * otherwise the final state.
   */
  function RRRun(st: RRState, fuel: nat): (r: Option<RRState>)
    requires ValidRR(st)
    ensures r.Some? ==> ValidRR(r.value) && r.value.finished >= |st.notArrived|
    decreases fuel
  {
    if st.finished >= |st.notArrived| then Some(st)
    else if fuel == 0 then None
    else RRRun(Turn(st), fuel - 1)
  }

  /** One iteration of the main loop while work remains and fuel is left. */
  lemma RRRunStep(st: RRState, fuel: nat)
    requires ValidRR(st) && st.finished < |st.notArrived| && fuel > 0
    ensures ValidRR(Turn(st)) && RRRun(st, fuel) == RRRun(Turn(st), fuel - 1)
  {
  }

  /** Round Robin reports the timeline of the input order once its loop has ended. */
  function RRReport(ps: seq<Process>, fuel: nat): Option<Report>
  {
    if RRRun(RRInit(ps), fuel).Some? then Some(Timeline(ps)) else None
  }

  /**
   * A slice moves the head to the back of the arrived prefix with its counter one lower, moves
   * every other arrived process forward one place together with its counter, advances time by
   * one, and leaves everything from arrived on alone.
   */
  lemma SliceRotates(st: RRState)
    requires ValidRR(st) && st.arrived > 0
    ensures var r := Slice(st); var last := st.arrived - 1;
      r.timeSpent == st.timeSpent + 1 &&
      r.waiting[last] == st.waiting[0] && r.burstLeft[last] == st.burstLeft[0] - 1 &&
      (forall k :: 0 <= k < last ==> r.waiting[k] == st.waiting[k + 1] && r.burstLeft[k] == st.burstLeft[k + 1]) &&
      (forall k :: st.arrived <= k < |st.waiting| ==> r.waiting[k] == st.waiting[k] && r.burstLeft[k] == st.burstLeft[k])
  {
    var last := st.arrived - 1;
    ShiftIsRotation(st.waiting, 0, last);
    ShiftIsRotation(st.burstLeft[0 := st.burstLeft[0] - 1], 0, last);
  }

  /**
   * A slice finishes the process that just ran exactly when its counter was 1 before the slice;
   * nothing finishes when nothing has arrived.
   */
  lemma SliceFinishesIff(st: RRState)
    requires ValidRR(st)
    ensures var r := Slice(st);
      (r.finished == st.finished + 1 <==> st.arrived > 0 && st.burstLeft[0] == 1) &&
      (r.finished == st.finished + 1 ==> r.alreadyRun == st.alreadyRun[st.finished := st.waiting[0]]) &&
      (r.finished != st.finished + 1 ==> r.finished == st.finished && r.alreadyRun == st.alreadyRun)
  {
    if st.arrived > 0 {
      SliceRotates(st);
    }
  }

  /** No process has finished and no counter is positive: the state the loop starts in and never leaves. */
  predicate Stuck(st: RRState)
  {
    ValidRR(st) && st.finished == 0 && forall k :: 0 <= k < |st.burstLeft| ==> st.burstLeft[k] <= 0
  }

  lemma TurnStaysStuck(st: RRState)
    requires Stuck(st)
    ensures Stuck(Turn(st))
  {
    SliceFinishesIff(st);
    if st.arrived > 0 {
      SliceRotates(st);
      var r := Slice(st);
      forall k | 0 <= k < |r.burstLeft|
        ensures r.burstLeft[k] <= 0
      {
        if k < st.arrived - 1 {
          assert r.burstLeft[k] == st.burstLeft[k + 1];
        }
      }
    }
  }

  lemma {:induction false} StuckRunsForever(st: RRState, fuel: nat)
    requires Stuck(st) && |st.notArrived| > 0
    ensures RRRun(st, fuel) == None
    decreases fuel
  {
    if fuel > 0 {
      TurnStaysStuck(st);
      StuckRunsForever(Turn(st), fuel - 1);
    }
  }

  /**
   * The counters start at zero, so the only counter ever tested is one just lowered below zero:
   * for any non-empty input the loop does not end within any number of iterations, and the
   * report is never produced. An empty input ends at once.
   */
  lemma RRNeverReports(ps: seq<Process>, fuel: nat)
    ensures |ps| > 0 ==> RRReport(ps, fuel) == None
    ensures |ps| == 0 ==> RRReport(ps, fuel) == Some(Timeline(ps))
  {
    if |ps| > 0 {
      StuckRunsForever(RRInit(ps), fuel);
    }
  }

  /** One iteration of the main loop, in place; notArrived is only read. */
  method TakeTurn(notArrived: array<Process>, waiting: array<Process>, burstLeft: array<int>,
                  alreadyRun: array<Process>, incoming0: int, arrived0: int, finished0: int, timeSpent0: int)
    returns (incoming: int, arrived: int, finished: int, timeSpent: int)
    requires notArrived != waiting && notArrived != alreadyRun && waiting != alreadyRun
    requires ValidRR(RRState(notArrived[..], waiting[..], burstLeft[..], alreadyRun[..],
                             incoming0, arrived0, finished0, timeSpent0))
    modifies waiting, burstLeft, alreadyRun
    ensures RRState(notArrived[..], waiting[..], burstLeft[..], alreadyRun[..], incoming, arrived, finished, timeSpent)
            == Turn(old(RRState(notArrived[..], waiting[..], burstLeft[..], alreadyRun[..],
                                incoming0, arrived0, finished0, timeSpent0)))
  {
    ghost var st0 := RRState(notArrived[..], waiting[..], burstLeft[..], alreadyRun[..],
                             incoming0, arrived0, finished0, timeSpent0);
    incoming, arrived, finished, timeSpent := incoming0, arrived0, finished0, timeSpent0;
    if arrived != 0 {
      burstLeft[0] := burstLeft[0] - 1;
      timeSpent := timeSpent + 1;
      ghost var w0, b0 := waiting[..], burstLeft[..];
      assert b0 == st0.burstLeft[0 := st0.burstLeft[0] - 1];
      for i := 0 to arrived - 1
        modifies waiting, burstLeft
        invariant ShiftToEnd(waiting[..], i, arrived - 1) == ShiftToEnd(w0, 0, arrived - 1)
        invariant ShiftToEnd(burstLeft[..], i, arrived - 1) == ShiftToEnd(b0, 0, arrived - 1)
      {
        waiting[i], waiting[i + 1] := waiting[i + 1], waiting[i];
        burstLeft[i], burstLeft[i + 1] := burstLeft[i + 1], burstLeft[i];
      }
      assert waiting[..] == ShiftToEnd(w0, 0, arrived - 1);
      assert burstLeft[..] == ShiftToEnd(b0, 0, arrived - 1);
      if burstLeft[arrived - 1] == 0 {
        arrived := arrived - 1;
        alreadyRun[finished] := waiting[arrived];
        finished := finished + 1;
      }
    }
    assert RRState(notArrived[..], waiting[..], burstLeft[..], alreadyRun[..], incoming, arrived, finished, timeSpent)
           == Slice(st0);
    ReceiveConserves(notArrived[..], waiting[..], incoming, arrived, timeSpent);
    incoming, arrived := Receive(notArrived, waiting, incoming, arrived, timeSpent);
  }

  /** The arrays the source makes before its main loop: the input copied and sorted, the rest zero. */
  method RRSetup(processes: array<Process>)
    returns (notArrived: array<Process>, waiting: array<Process>, burstLeft: array<int>, alreadyRun: array<Process>)
    ensures fresh(notArrived) && fresh(waiting) && fresh(burstLeft) && fresh(alreadyRun)
    ensures notArrived != waiting && notArrived != alreadyRun && waiting != alreadyRun
    ensures RRState(notArrived[..], waiting[..], burstLeft[..], alreadyRun[..], processes.Length, 0, 0, 0)
            == RRInit(processes[..])
  {
    var n := processes.Length;
    notArrived := new Process[n](_ => Zero);
    waiting := new Process[n](_ => Zero);
    burstLeft := new int[n](_ => 0);
    alreadyRun := new Process[n](_ => Zero);
    forall i | 0 <= i < n {
      notArrived[i] := processes[i];
    }
    assert notArrived[..] == processes[..];
    SortByArrival(notArrived, n);
    assert waiting[..] == seq(n, _ => Zero);
    assert alreadyRun[..] == seq(n, _ => Zero);
    assert burstLeft[..] == seq(n, _ => 0);
  }

  /**
   * Round Robin in place, with the main loop cut off after fuel iterations. The input array is
   * only read.
   */
  method RRSchedule(processes: array<Process>, fuel: nat) returns (r: Option<Report>)
    ensures r == RRReport(processes[..], fuel)
  {
    var n := processes.Length;
    var notArrived, waiting, burstLeft, alreadyRun := RRSetup(processes);
    var incoming, arrived, finished, timeSpent := n, 0, 0, 0;
    ghost var target := RRRun(RRInit(processes[..]), fuel);
    ghost var st := RRInit(processes[..]);
    var left := fuel;
    while finished < n
      invariant st == RRState(notArrived[..], waiting[..], burstLeft[..], alreadyRun[..],
                              incoming, arrived, finished, timeSpent)
      invariant ValidRR(st) && RRRun(st, left) == target
      decreases left
    {
      if left == 0 {
        return None;
      }
      RRRunStep(st, left);
      incoming, arrived, finished, timeSpent :=
        TakeTurn(notArrived, waiting, burstLeft, alreadyRun, incoming, arrived, finished, timeSpent);
      st, left := Turn(st), left - 1;
    }
    var report := Accumulate(processes[..]);
    r := Some(report);
  }
}
