/**
 * The three non-preemptive schedulers: FCFS, SJF and Priority. SJF and Priority run one
 * admission round per process (sort the not-arrived prefix, receive, select, run next, and for
 * Priority age) and then hand an order of processes to the accumulation loop.
 */
module Schedulers {
  import opened Processes
  import opened Accumulation
  import opened ArrivalSort
  import opened Admission

  /** The state right after the arrays are made and the input is copied into notArrived. */
  function Init(ps: seq<Process>): (st: Simulation)
    ensures Valid(st) && st.finished == 0 && st.arrived == 0 && st.incoming == |ps|
  {
    Simulation(ps, seq(|ps|, _ => Zero), seq(|ps|, _ => Zero), |ps|, 0, 0, 0)
  }

  /**
   * One iteration of the outer loop. It fails exactly where the run-next step indexes
   * waiting[-1]; otherwise one more process is dispatched.
   */
  function Round(st: Simulation, key: Key, aging: bool): (r: Result<Simulation>)
    requires Valid(st) && st.finished < |st.notArrived|
    ensures r.Err? ==> r.fault == IndexOutOfRange(-1)
    ensures r.Ok? ==> Valid(r.value) && r.value.finished == st.finished + 1 &&
                      |r.value.notArrived| == |st.notArrived|
  {
    var na := BubbleSorted(st.notArrived, st.incoming);
    var adm := Received(na, st.waiting, st.incoming, st.arrived, st.timeSpent);
    ReceiveConserves(na, st.waiting, st.incoming, st.arrived, st.timeSpent);
    SelectKeepsHead(adm.waiting, key, adm.arrived);
    var w := Selected(adm.waiting, key, adm.arrived).value;
    var r := RunNext(Simulation(na, w, st.alreadyRun, adm.incoming, adm.arrived, st.finished, st.timeSpent));
    if r.Err? then Err(r.fault)
    else if aging then Ok(r.value.(waiting := AgeFrom(r.value.waiting, r.value.arrived, 0)))
    else r
  }

  /** The outer loop from the current state until every process has been dispatched. */
  function Simulate(st: Simulation, key: Key, aging: bool): (r: Result<Simulation>)
    requires Valid(st)
    ensures r.Err? ==> r.fault == IndexOutOfRange(-1)
    ensures r.Ok? ==> Valid(r.value) && |r.value.notArrived| == |st.notArrived| &&
                      r.value.finished == |st.notArrived| && r.value.arrived == 0 && r.value.incoming == 0
    decreases |st.notArrived| - st.finished
  {
    if st.finished >= |st.notArrived| then Ok(st)
    else
      var r := Round(st, key, aging);
      if r.Err? then r else Simulate(r.value, key, aging)
  }

  /** The order in which SJF (ByBurst, no aging) or Priority (ByPriority, aging) dispatches ps. */
  function RunOrder(ps: seq<Process>, key: Key, aging: bool): Result<seq<Process>>
  {
    var r := Simulate(Init(ps), key, aging);
    if r.Err? then Err(r.fault) else Ok(r.value.alreadyRun)
  }

  /** SJF reports the timeline of the dispatch order. */
  function SJFReport(ps: seq<Process>): Result<Report>
  {
    var order := RunOrder(ps, ByBurst, false);
    if order.Err? then Err(order.fault) else Ok(Timeline(order.value))
  }

  /** Priority runs the simulation but reports the timeline of the input order. */
  function PriorityReport(ps: seq<Process>): Result<Report>
  {
    var order := RunOrder(ps, ByPriority, true);
    if order.Err? then Err(order.fault) else Ok(Timeline(ps))
  }

  // ---------------------------------------------------------------------------------------
  // When a round fails
  // ---------------------------------------------------------------------------------------

  lemma SameLateness(a: seq<Process>, b: seq<Process>, t: int)
    requires multiset(a) == multiset(b)
    ensures (forall k :: 0 <= k < |a| ==> a[k].arrival > t) <==> (forall k :: 0 <= k < |b| ==> b[k].arrival > t)
  {
    forall k | 0 <= k < |a|
      ensures a[k] in b
    {
      assert a[k] in multiset(a);
    }
    forall k | 0 <= k < |b|
      ensures b[k] in a
    {
      assert b[k] in multiset(b);
    }
  }

  /**
   * A round fails exactly when nothing is waiting and none of the processes not yet arrived
   * has arrived by the time spent so far.
   */
  lemma RoundFailsIffIdle(st: Simulation, key: Key, aging: bool)
    requires Valid(st) && st.finished < |st.notArrived|
    ensures Round(st, key, aging).Err? <==>
      st.arrived == 0 && forall k :: 0 <= k < st.incoming ==> st.notArrived[k].arrival > st.timeSpent
  {
    var na := BubbleSorted(st.notArrived, st.incoming);
    var adm := Received(na, st.waiting, st.incoming, st.arrived, st.timeSpent);
    ReceiveLeavesNoArrival(na, st.waiting, st.incoming, st.arrived, st.timeSpent);
    SelectKeepsHead(adm.waiting, key, adm.arrived);
    BubbleSortSorts(st.notArrived, st.incoming);
    SameLateness(na[..st.incoming], st.notArrived[..st.incoming], st.timeSpent);
    assert (forall k :: 0 <= k < st.incoming ==> na[k].arrival > st.timeSpent) <==> adm.incoming == st.incoming;
    assert Round(st, key, aging).Err? <==> adm.arrived == 0;
  }

  /** The round dispatches the head of waiting as the receive step left it: no key is consulted. */
  lemma RoundDispatchesHead(st: Simulation, key: Key, aging: bool)
    requires Valid(st) && st.finished < |st.notArrived|
    ensures var r := Round(st, key, aging);
      var adm := Received(BubbleSorted(st.notArrived, st.incoming), st.waiting, st.incoming, st.arrived, st.timeSpent);
      r.Ok? ==> r.value.alreadyRun == st.alreadyRun[st.finished := adm.waiting[0]] &&
                r.value.timeSpent == st.timeSpent + adm.waiting[0].burst
  {
    var na := BubbleSorted(st.notArrived, st.incoming);
    var adm := Received(na, st.waiting, st.incoming, st.arrived, st.timeSpent);
    ReceiveConserves(na, st.waiting, st.incoming, st.arrived, st.timeSpent);
    SelectKeepsHead(adm.waiting, key, adm.arrived);
  }

  /** If every process arrives after time 0, the very first round fails: SJF and Priority panic. */
  lemma LateStartFails(ps: seq<Process>, key: Key, aging: bool)
    requires |ps| > 0 && forall k :: 0 <= k < |ps| ==> ps[k].arrival > 0
    ensures RunOrder(ps, key, aging) == Err(IndexOutOfRange(-1))
  {
    var st := Init(ps);
    assert st.notArrived[..st.incoming] == ps;
    RoundFailsIffIdle(st, key, aging);
  }

  // ---------------------------------------------------------------------------------------
  // What the outer loop keeps
  // ---------------------------------------------------------------------------------------

  /** The time spent is the total burst of the processes dispatched so far. */
  predicate Accounted(st: Simulation)
  {
    0 <= st.finished <= |st.alreadyRun| && st.timeSpent == BurstBefore(st.alreadyRun, st.finished)
  }

  /** Every process in the three arrays is, up to its priority, one of o. */
  predicate DrawnFrom(st: Simulation, o: set<Process>)
  {
    AllFrom(st.notArrived, o) && AllFrom(st.waiting, o) && AllFrom(st.alreadyRun, o)
  }

  /** The inputs and the zero value the arrays start with, with priorities forgotten. */
  function Origins(ps: seq<Process>): set<Process>
  {
    (set k | 0 <= k < |ps| :: Stripped(ps[k])) + {Zero}
  }

  lemma {:induction false} BurstBeforeUpdate(s: seq<Process>, f: int, x: Process, i: int)
    requires 0 <= i <= f < |s|
    ensures BurstBefore(s[f := x], i) == BurstBefore(s, i)
  {
    if i > 0 {
      BurstBeforeUpdate(s, f, x, i - 1);
    }
  }

  lemma SortDrawsFrom(s: seq<Process>, n: int, o: set<Process>)
    requires 0 <= n <= |s|
    requires AllFrom(s, o)
    ensures AllFrom(BubbleSorted(s, n), o)
  {
    var r := BubbleSorted(s, n);
    BubbleSortSorts(s, n);
    forall k | 0 <= k < |s|
      ensures Stripped(r[k]) in o
    {
      if k < n {
        assert r[k] in multiset(r[..n]);
        assert r[k] in s[..n];
      } else {
        assert r[k] == r[n..][k - n];
      }
    }
  }

  /** A round keeps the time spent equal to the total burst dispatched. */
  lemma RoundAccounts(st: Simulation, key: Key, aging: bool)
    requires Valid(st) && st.finished < |st.notArrived| && Accounted(st)
    ensures Round(st, key, aging).Ok? ==> Accounted(Round(st, key, aging).value)
  {
    var adm := Received(BubbleSorted(st.notArrived, st.incoming), st.waiting, st.incoming, st.arrived, st.timeSpent);
    RoundDispatchesHead(st, key, aging);
    if Round(st, key, aging).Ok? {
      var s' := st.alreadyRun[st.finished := adm.waiting[0]];
      BurstBeforeUpdate(st.alreadyRun, st.finished, adm.waiting[0], st.finished);
      assert BurstBefore(s', st.finished + 1) == BurstBefore(s', st.finished) + adm.waiting[0].burst;
    }
  }

  /** The selected waiting array holds only what the received one held. */
  lemma SelectKeepsOrigins(w: seq<Process>, key: Key, arrived: int, o: set<Process>)
    requires 0 <= arrived <= |w| && AllFrom(w, o)
    ensures Selected(w, key, arrived).Ok? && AllFrom(Selected(w, key, arrived).value, o)
  {
    SelectDrawsFrom(w, key, arrived);
    var r := Selected(w, key, arrived).value;
    forall k | 0 <= k < |r|
      ensures Stripped(r[k]) in o
    {
      if k < arrived {
        var j :| 0 <= j < k + 1 && w[..k + 1][j] == r[k];
        assert r[k] == w[j];
      }
    }
  }

  /** A round draws nothing new into the arrays. */
  lemma RoundDraws(st: Simulation, key: Key, aging: bool, o: set<Process>)
    requires Valid(st) && st.finished < |st.notArrived| && DrawnFrom(st, o)
    ensures Round(st, key, aging).Ok? ==> DrawnFrom(Round(st, key, aging).value, o)
  {
    var na := BubbleSorted(st.notArrived, st.incoming);
    SortDrawsFrom(st.notArrived, st.incoming, o);
    var adm := Received(na, st.waiting, st.incoming, st.arrived, st.timeSpent);
    ReceiveConserves(na, st.waiting, st.incoming, st.arrived, st.timeSpent);
    ReceiveDrawsFrom(na, st.waiting, st.incoming, st.arrived, st.timeSpent, 0, o);
    SelectKeepsOrigins(adm.waiting, key, adm.arrived, o);
    var w := Selected(adm.waiting, key, adm.arrived).value;
    var r := RunNext(Simulation(na, w, st.alreadyRun, adm.incoming, adm.arrived, st.finished, st.timeSpent));
    if r.Ok? {
      var last := adm.arrived - 1;
      assert r.value.waiting == w[0 := w[last]][last := w[0]];
      assert AllFrom(r.value.waiting, o);
      if aging {
        AgingEffect(r.value.waiting, r.value.arrived, 0);
      }
    }
  }

  lemma {:induction false} SimulateKeeps(st: Simulation, key: Key, aging: bool, o: set<Process>)
    requires Valid(st) && Accounted(st) && DrawnFrom(st, o)
    ensures Simulate(st, key, aging).Ok? ==>
      Accounted(Simulate(st, key, aging).value) && DrawnFrom(Simulate(st, key, aging).value, o)
    decreases |st.notArrived| - st.finished
  {
    if st.finished < |st.notArrived| {
      RoundAccounts(st, key, aging);
      RoundDraws(st, key, aging, o);
      var r := Round(st, key, aging);
      if r.Ok? {
        SimulateKeeps(r.value, key, aging, o);
      }
    }
  }

  /**
   * When the simulation finishes, it has dispatched exactly n entries, the time spent is their
   * total burst, and each is one of the inputs or the zero value (up to aged priority).
   */
  lemma RunOrderFacts(ps: seq<Process>, key: Key, aging: bool)
    ensures var r := Simulate(Init(ps), key, aging);
      r.Ok? ==> |r.value.alreadyRun| == |ps| && r.value.timeSpent == BurstBefore(r.value.alreadyRun, |ps|) &&
                forall k :: 0 <= k < |ps| ==> Stripped(r.value.alreadyRun[k]) in Origins(ps)
  {
    var st := Init(ps);
    forall k | 0 <= k < |ps|
      ensures Stripped(st.notArrived[k]) in Origins(ps)
    {
      assert Stripped(ps[k]) in (set j | 0 <= j < |ps| :: Stripped(ps[j]));
    }
    SimulateKeeps(st, key, aging, Origins(ps));
  }

  // ---------------------------------------------------------------------------------------
  // The schedulers, in place
  // ---------------------------------------------------------------------------------------

  /** FCFS: the accumulation loop over the input order. */
  method FCFSSchedule(processes: array<Process>) returns (r: Report)
    ensures r == Timeline(processes[..])
  {
    r := Accumulate(processes[..]);
  }

  /** One iteration of the outer loop, in place on the three arrays; ok is false where the source panics. */
  method AdmissionRound(notArrived: array<Process>, waiting: array<Process>, alreadyRun: array<Process>,
                        key: Key, aging: bool, incoming0: int, arrived0: int, finished0: int, timeSpent0: int)
    returns (ok: bool, incoming: int, arrived: int, finished: int, timeSpent: int)
    requires notArrived != waiting && notArrived != alreadyRun && waiting != alreadyRun
    requires Valid(Simulation(notArrived[..], waiting[..], alreadyRun[..], incoming0, arrived0, finished0, timeSpent0))
    requires finished0 < notArrived.Length
    modifies notArrived, waiting, alreadyRun
    ensures var r := Round(old(Simulation(notArrived[..], waiting[..], alreadyRun[..], incoming0, arrived0,
                                          finished0, timeSpent0)), key, aging);
      if ok then r == Ok(Simulation(notArrived[..], waiting[..], alreadyRun[..], incoming, arrived, finished, timeSpent))
      else r.Err?
  {
    SortByArrival(notArrived, incoming0);
    ReceiveConserves(notArrived[..], waiting[..], incoming0, arrived0, timeSpent0);
    incoming, arrived := Receive(notArrived, waiting, incoming0, arrived0, timeSpent0);
    SelectKeepsHead(waiting[..], key, arrived);
    Select(waiting, arrived, key);
    ok, arrived, finished, timeSpent := RunNextStep(waiting, alreadyRun, arrived, finished0, timeSpent0);
    if ok && aging {
      AgeReady(waiting, arrived);
    }
  }

  /**
   * The outer loop shared by SJF and Priority: the input is copied, and one admission round
   * runs per process. The input array is only read.
   */
  method Admit(processes: array<Process>, key: Key, aging: bool) returns (r: Result<seq<Process>>)
    ensures r == RunOrder(processes[..], key, aging)
  {
    var n := processes.Length;
    var notArrived := new Process[n](_ => Zero);
    var waiting := new Process[n](_ => Zero);
    var alreadyRun := new Process[n](_ => Zero);
    forall i | 0 <= i < n {
      notArrived[i] := processes[i];
    }
    var incoming, arrived, finished, timeSpent := n, 0, 0, 0;
    ghost var target := Simulate(Init(processes[..]), key, aging);
    assert Simulation(notArrived[..], waiting[..], alreadyRun[..], incoming, arrived, finished, timeSpent)
           == Init(processes[..]);
    for k := 0 to n
      invariant finished == k
      invariant Valid(Simulation(notArrived[..], waiting[..], alreadyRun[..], incoming, arrived, finished, timeSpent))
      invariant Simulate(Simulation(notArrived[..], waiting[..], alreadyRun[..], incoming, arrived, finished, timeSpent),
                         key, aging) == target
    {
      var ok;
      ok, incoming, arrived, finished, timeSpent :=
        AdmissionRound(notArrived, waiting, alreadyRun, key, aging, incoming, arrived, finished, timeSpent);
      if !ok {
        return Err(IndexOutOfRange(-1));
      }
    }
    r := Ok(alreadyRun[..]);
  }

  /** SJF: admission by burst, then the accumulation loop over the dispatch order. */
  method SJFSchedule(processes: array<Process>) returns (r: Result<Report>)
    ensures r == SJFReport(processes[..])
  {
    var order := Admit(processes, ByBurst, false);
    if order.Err? {
      return Err(order.fault);
    }
    var report := Accumulate(order.value);
    r := Ok(report);
  }

  /** Priority: admission by priority with aging, then the accumulation loop over the input order. */
  method PrioritySchedule(processes: array<Process>) returns (r: Result<Report>)
    ensures r == PriorityReport(processes[..])
  {
    var order := Admit(processes, ByPriority, true);
    if order.Err? {
      return Err(order.fault);
    }
    var report := Accumulate(processes[..]);
    r := Ok(report);
  }
}
