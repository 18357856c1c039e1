/**
 * The steps of the admission simulation shared by SJF and Priority: receive, select,
 * run-next and aging, each as the source writes it. The simulation state is three arrays
 * of length n (not arrived, waiting, already run) and four counters.
 */
module Admission {
  import opened Processes

  datatype Simulation = Simulation(notArrived: seq<Process>, waiting: seq<Process>,
                                   alreadyRun: seq<Process>, incoming: int, arrived: int,
                                   finished: int, timeSpent: int)

  /** The shape the outer loop keeps: three arrays of length n and counters that add up to n. */
  predicate Valid(st: Simulation)
  {
    |st.waiting| == |st.notArrived| && |st.alreadyRun| == |st.notArrived| &&
    0 <= st.incoming && 0 <= st.arrived && 0 <= st.finished &&
    st.incoming + st.arrived + st.finished == |st.notArrived|
  }

  // ---------------------------------------------------------------------------------------
  // The adjacent-swap loop `for j := lo; j < hi; j++ { s[j], s[j+1] = s[j+1], s[j] }`
  // ---------------------------------------------------------------------------------------

  function ShiftToEnd<T>(s: seq<T>, lo: int, hi: int): (r: seq<T>)
    requires 0 <= lo && hi < |s|
    ensures |r| == |s|
    decreases hi - lo
  {
    if lo >= hi then s else ShiftToEnd(s[lo := s[lo + 1]][lo + 1 := s[lo]], lo + 1, hi)
  }

  /** The swaps rotate s[lo..hi] left by one place: the element at lo ends up at hi. */
  lemma {:induction false} ShiftIsRotation<T>(s: seq<T>, lo: int, hi: int)
    requires 0 <= lo <= hi < |s|
    ensures forall k {:trigger ShiftToEnd(s, lo, hi)[k]} :: 0 <= k < |s| ==>
      ShiftToEnd(s, lo, hi)[k] == (if lo <= k < hi then s[k + 1] else if k == hi then s[lo] else s[k])
    decreases hi - lo
  {
    if lo < hi {
      var s' := s[lo := s[lo + 1]][lo + 1 := s[lo]];
      var r := ShiftToEnd(s', lo + 1, hi);
      ShiftIsRotation(s', lo + 1, hi);
      assert ShiftToEnd(s, lo, hi) == r;
      forall k | 0 <= k < |s|
        ensures r[k] == (if lo <= k < hi then s[k + 1] else if k == hi then s[lo] else s[k])
      {
        assert r[k] == (if lo + 1 <= k < hi then s'[k + 1] else if k == hi then s'[lo + 1] else s'[k]);
      }
    }
  }

  // ---------------------------------------------------------------------------------------
  // Receive
  // ---------------------------------------------------------------------------------------

  datatype Admitted = Admitted(waiting: seq<Process>, incoming: int, arrived: int)

  /**
   * The receive loop from index i. An entry that has arrived by time t is copied into
   * waiting[arrived]; then incoming drops, waiting[i..incoming] is rotated, arrived grows and
   * the same index i is examined again. Nothing is removed from notArrived.
   */
  function ReceiveFrom(na: seq<Process>, w: seq<Process>, incoming: int, arrived: int,
                       t: int, i: int): (r: Admitted)
    requires 0 <= i && 0 <= incoming <= |na| && 0 <= arrived && arrived + incoming <= |w|
    ensures |r.waiting| == |w|
    decreases incoming - i
  {
    if i >= incoming then Admitted(w, incoming, arrived)
    else if na[i].arrival <= t then
      ReceiveFrom(na, ShiftToEnd(w[arrived := na[i]], i, incoming - 1), incoming - 1, arrived + 1, t, i)
    else ReceiveFrom(na, w, incoming, arrived, t, i + 1)
  }

  function Received(na: seq<Process>, w: seq<Process>, incoming: int, arrived: int, t: int): (r: Admitted)
    requires 0 <= incoming <= |na| && 0 <= arrived && arrived + incoming <= |w|
    ensures |r.waiting| == |w|
  {
    ReceiveFrom(na, w, incoming, arrived, t, 0)
  }

  /** The first index k in [i, incoming) whose process has arrived by t, or incoming if none has. */
  function FirstArrived(na: seq<Process>, incoming: int, t: int, i: int): (f: int)
    requires 0 <= i <= incoming <= |na|
    ensures i <= f <= incoming
    ensures forall k :: i <= k < f ==> na[k].arrival > t
    ensures f < incoming ==> na[f].arrival <= t
    decreases incoming - i
  {
    if i == incoming then incoming
    else if na[i].arrival <= t then i
    else FirstArrived(na, incoming, t, i + 1)
  }

  /**
   * The counters after the receive loop: incoming falls to the first arrived index f and
   * arrived grows by the same amount, so their sum is conserved.
   */
  lemma {:induction false} ReceiveCounts(na: seq<Process>, w: seq<Process>, incoming: int,
                                         arrived: int, t: int, i: int)
    requires 0 <= i <= incoming <= |na| && 0 <= arrived && arrived + incoming <= |w|
    ensures var r := ReceiveFrom(na, w, incoming, arrived, t, i);
      r.incoming == FirstArrived(na, incoming, t, i) &&
      r.arrived == arrived + incoming - r.incoming
    decreases incoming - i
  {
    if i < incoming {
      if na[i].arrival <= t {
        ReceiveCounts(na, ShiftToEnd(w[arrived := na[i]], i, incoming - 1), incoming - 1, arrived + 1, t, i);
        assert FirstArrived(na, incoming - 1, t, i) == i;
      } else {
        ReceiveCounts(na, w, incoming, arrived, t, i + 1);
      }
    }
  }

  /** Receiving moves processes from one count to the other and never adds any. */
  lemma ReceiveConserves(na: seq<Process>, w: seq<Process>, incoming: int, arrived: int, t: int)
    requires 0 <= incoming <= |na| && 0 <= arrived && arrived + incoming <= |w|
    ensures var r := Received(na, w, incoming, arrived, t);
      0 <= r.incoming <= incoming && r.arrived + r.incoming == arrived + incoming
  {
    ReceiveCounts(na, w, incoming, arrived, t, 0);
  }

  /**
   * After receiving, no process left in notArrived[0..incoming) has arrived, the entry just
   * past them has, and the sum of the counters is conserved.
   */
  lemma ReceiveLeavesNoArrival(na: seq<Process>, w: seq<Process>, incoming: int, arrived: int, t: int)
    requires 0 <= incoming <= |na| && 0 <= arrived && arrived + incoming <= |w|
    ensures var r := Received(na, w, incoming, arrived, t);
      0 <= r.incoming <= incoming && r.arrived + r.incoming == arrived + incoming &&
      (forall k :: 0 <= k < r.incoming ==> na[k].arrival > t) &&
      (r.incoming < incoming ==> na[r.incoming].arrival <= t)
  {
    ReceiveCounts(na, w, incoming, arrived, t, 0);
  }

  /** Every entry of s is one of the entries of w, or x. */
  predicate FromOr(s: seq<Process>, w: seq<Process>, x: Process)
  {
    forall k :: 0 <= k < |s| ==> s[k] in w || s[k] == x
  }

  /** Writing x at index a and rotating a range brings in nothing but x. */
  lemma AdmitOne(w: seq<Process>, a: int, x: Process, lo: int, hi: int)
    requires 0 <= a < |w| && 0 <= lo <= hi < |w|
    ensures FromOr(ShiftToEnd(w[a := x], lo, hi), w, x)
  {
    var w' := w[a := x];
    var r := ShiftToEnd(w', lo, hi);
    ShiftIsRotation(w', lo, hi);
    forall k | 0 <= k < |r|
      ensures r[k] in w || r[k] == x
    {
      var j := if lo <= k < hi then k + 1 else if k == hi then lo else k;
      assert r[k] == w'[j];
      if j != a {
        assert w'[j] == w[j];
      }
    }
  }

  /**
   * Receiving admits only copies of the first arrived entry f: every entry of waiting afterwards
   * was already in waiting or is notArrived[f]; when nothing has arrived, waiting is unchanged.
   */
  lemma {:induction false} ReceiveAdmitsFirst(na: seq<Process>, w: seq<Process>, incoming: int,
                                              arrived: int, t: int, i: int)
    requires 0 <= i <= incoming <= |na| && 0 <= arrived && arrived + incoming <= |w|
    ensures var r, f := ReceiveFrom(na, w, incoming, arrived, t, i), FirstArrived(na, incoming, t, i);
      (f == incoming ==> r.waiting == w) && (f < incoming ==> FromOr(r.waiting, w, na[f]))
    decreases incoming - i
  {
    if i < incoming {
      if na[i].arrival <= t {
        var r := ShiftToEnd(w[arrived := na[i]], i, incoming - 1);
        AdmitOne(w, arrived, na[i], i, incoming - 1);
        ReceiveAdmitsFirst(na, r, incoming - 1, arrived + 1, t, i);
        assert ReceiveFrom(na, w, incoming, arrived, t, i) == ReceiveFrom(na, r, incoming - 1, arrived + 1, t, i);
        var r' := ReceiveFrom(na, r, incoming - 1, arrived + 1, t, i).waiting;
        forall k | 0 <= k < |r'|
          ensures r'[k] in w || r'[k] == na[i]
        {
          if r'[k] in r {
            var j :| 0 <= j < |r| && r[j] == r'[k];
          }
        }
      } else {
        ReceiveAdmitsFirst(na, w, incoming, arrived, t, i + 1);
      }
    }
  }

  /** Every process in waiting after receiving was already in waiting or is in notArrived. */
  lemma {:induction false} ReceiveDrawsFrom(na: seq<Process>, w: seq<Process>, incoming: int,
                                            arrived: int, t: int, i: int, o: set<Process>)
    requires 0 <= i && 0 <= incoming <= |na| && 0 <= arrived && arrived + incoming <= |w|
    requires AllFrom(na, o) && AllFrom(w, o)
    ensures AllFrom(ReceiveFrom(na, w, incoming, arrived, t, i).waiting, o)
    decreases incoming - i
  {
    if i < incoming {
      if na[i].arrival <= t {
        var w' := w[arrived := na[i]];
        var r := ShiftToEnd(w', i, incoming - 1);
        ShiftIsRotation(w', i, incoming - 1);
        forall k | 0 <= k < |r|
          ensures Stripped(r[k]) in o
        {
          if i <= k < incoming - 1 {
            assert r[k] == w'[k + 1];
          } else if k == incoming - 1 {
            assert r[k] == w'[i];
          } else {
            assert r[k] == w'[k];
          }
        }
        ReceiveDrawsFrom(na, r, incoming - 1, arrived + 1, t, i, o);
        assert ReceiveFrom(na, w, incoming, arrived, t, i) == ReceiveFrom(na, r, incoming - 1, arrived + 1, t, i);
      } else {
        ReceiveDrawsFrom(na, w, incoming, arrived, t, i + 1, o);
      }
    }
  }

  /** The receive loop, in place on waiting; notArrived is only read. */
  method Receive(notArrived: array<Process>, waiting: array<Process>, incoming0: int,
                 arrived0: int, timeSpent: int) returns (incoming: int, arrived: int)
    requires notArrived != waiting
    requires 0 <= incoming0 <= notArrived.Length && 0 <= arrived0
    requires arrived0 + incoming0 <= waiting.Length
    modifies waiting
    ensures Admitted(waiting[..], incoming, arrived) ==
            Received(notArrived[..], old(waiting[..]), incoming0, arrived0, timeSpent)
  {
    ghost var target := Received(notArrived[..], waiting[..], incoming0, arrived0, timeSpent);
    incoming, arrived := incoming0, arrived0;
    var i := 0;
    while i < incoming
      invariant 0 <= i && 0 <= incoming <= incoming0 && 0 <= arrived
      invariant arrived + incoming == arrived0 + incoming0
      invariant ReceiveFrom(notArrived[..], waiting[..], incoming, arrived, timeSpent, i) == target
      decreases incoming - i
    {
      if notArrived[i].arrival <= timeSpent {
        waiting[arrived] := notArrived[i];
        incoming := incoming - 1;
        ghost var written := waiting[..];
        var j := i;
        while j < incoming
          invariant i <= j
          invariant ShiftToEnd(waiting[..], j, incoming) == ShiftToEnd(written, i, incoming)
        {
          waiting[j], waiting[j + 1] := waiting[j + 1], waiting[j];
          j := j + 1;
        }
        arrived := arrived + 1;
        // the same position is examined again
        i := i - 1;
      }
      i := i + 1;
    }
  }

  // ---------------------------------------------------------------------------------------
  // Select
  // ---------------------------------------------------------------------------------------

  /**
   * Inner loop j of pass i: when waiting[j] has the larger key, the source assigns the pair
   * (waiting[i+j], waiting[j]) to (waiting[j], waiting[j+1]). Reading waiting[i+j] past the
   * end is a panic.
   */
  function SelectInner(w: seq<Process>, key: Key, arrived: int, i: int, j: int): (r: Result<seq<Process>>)
    requires 0 <= i && 0 <= j && arrived <= |w|
    ensures r.Ok? ==> |r.value| == |w|
    decreases arrived - j
  {
    if j >= arrived - 1 then Ok(w)
    else if KeyOf(w[j], key) > KeyOf(w[j + 1], key) then
      if i + j < |w| then SelectInner(w[j := w[i + j]][j + 1 := w[j]], key, arrived, i, j + 1)
      else Err(IndexOutOfRange(i + j))
    else SelectInner(w, key, arrived, i, j + 1)
  }

  /** Passes i, i+1, ..., arrived-1 of the selection loop. */
  function SelectFrom(w: seq<Process>, key: Key, arrived: int, i: int): (r: Result<seq<Process>>)
    requires 0 <= i && arrived <= |w|
    ensures r.Ok? ==> |r.value| == |w|
    decreases arrived - i
  {
    if i >= arrived then Ok(w)
    else ThenSelect(SelectInner(w, key, arrived, i, 0), key, arrived, i + 1)
  }

  function ThenSelect(r: Result<seq<Process>>, key: Key, arrived: int, i: int): Result<seq<Process>>
    requires 0 <= i <= arrived && (r.Ok? ==> arrived <= |r.value|)
    decreases arrived - i + 1, 0
  {
    match r
    case Err(f) => Err(f)
    case Ok(w) => SelectFrom(w, key, arrived, i)
  }

  function Selected(w: seq<Process>, key: Key, arrived: int): Result<seq<Process>>
    requires arrived <= |w|
  {
    SelectFrom(w, key, arrived, 0)
  }

  /**
   * What the first pass leaves at index k: the latest entry of w[0..k] among those with the
   * largest key.
   */
  function Champion(w: seq<Process>, key: Key, k: int): Process
    requires 0 <= k < |w|
  {
    if k == 0 then w[0]
    else
      var c := Champion(w, key, k - 1);
      if KeyOf(c, key) > KeyOf(w[k], key) then c else w[k]
  }

  function RunningMax(w: seq<Process>, key: Key, arrived: int): (r: seq<Process>)
    requires 0 <= arrived <= |w|
    ensures |r| == |w|
  {
    seq(|w|, k requires 0 <= k < |w| => if k < arrived then Champion(w, key, k) else w[k])
  }

  /** The champion at k carries the largest key of w[0..k] and is one of w[0..k]. */
  lemma {:induction false} ChampionIsMaximum(w: seq<Process>, key: Key, k: int)
    requires 0 <= k < |w|
    ensures forall m :: 0 <= m <= k ==> KeyOf(w[m], key) <= KeyOf(Champion(w, key, k), key)
    ensures Champion(w, key, k) in w[..k + 1]
  {
    if k > 0 {
      ChampionIsMaximum(w, key, k - 1);
      assert w[..k] <= w[..k + 1];
    }
  }

  predicate Ascending(s: seq<Process>, key: Key, arrived: int)
    requires arrived <= |s|
  {
    forall k :: 0 <= k < arrived - 1 ==> KeyOf(s[k], key) <= KeyOf(s[k + 1], key)
  }

  lemma {:induction false} PassZero(w: seq<Process>, s: seq<Process>, key: Key, arrived: int, j: int)
    requires 0 <= j < arrived <= |w| == |s|
    requires forall k :: 0 <= k <= j ==> s[k] == Champion(w, key, k)
    requires forall k :: j < k < |s| ==> s[k] == w[k]
    ensures SelectInner(s, key, arrived, 0, j) == Ok(RunningMax(w, key, arrived))
    decreases arrived - j
  {
    if j >= arrived - 1 {
      assert s == RunningMax(w, key, arrived);
    } else {
      var s' := if KeyOf(s[j], key) > KeyOf(s[j + 1], key) then s[j := s[j]][j + 1 := s[j]] else s;
      assert Champion(w, key, j + 1) == s'[j + 1];
      PassZero(w, s', key, arrived, j + 1);
    }
  }

  lemma {:induction false} NoSwapInner(s: seq<Process>, key: Key, arrived: int, i: int, j: int)
    requires 0 <= i && 0 <= j && arrived <= |s| && Ascending(s, key, arrived)
    ensures SelectInner(s, key, arrived, i, j) == Ok(s)
    decreases arrived - j
  {
    if j < arrived - 1 {
      NoSwapInner(s, key, arrived, i, j + 1);
    }
  }

  lemma {:induction false} NoSwapOuter(s: seq<Process>, key: Key, arrived: int, i: int)
    requires 0 <= i && arrived <= |s| && Ascending(s, key, arrived)
    ensures SelectFrom(s, key, arrived, i) == Ok(s)
    decreases arrived - i
  {
    if i < arrived {
      NoSwapInner(s, key, arrived, i, 0);
      NoSwapOuter(s, key, arrived, i + 1);
    }
  }

  /**
   * The selection loop as written never fails and never sorts: its first pass copies each
   * larger key over its right neighbour, leaving the running maximum, and every later pass
   * finds nothing to exchange, so waiting[i+j] is never read past the first pass.
   */
  lemma SelectIsRunningMax(w: seq<Process>, key: Key, arrived: int)
    requires 0 <= arrived <= |w|
    ensures Selected(w, key, arrived) == Ok(RunningMax(w, key, arrived))
  {
    var rm := RunningMax(w, key, arrived);
    if arrived == 0 {
      assert rm == w;
    } else {
      PassZero(w, w, key, arrived, 0);
      assert Ascending(rm, key, arrived);
      NoSwapOuter(rm, key, arrived, 1);
      assert Selected(w, key, arrived) == ThenSelect(Ok(rm), key, arrived, 1);
    }
  }

  /** Consequences: selection never fails and leaves the head of waiting where it was. */
  lemma SelectKeepsHead(w: seq<Process>, key: Key, arrived: int)
    requires 0 <= arrived <= |w|
    ensures var r := Selected(w, key, arrived);
      r.Ok? && |r.value| == |w| && (arrived > 0 ==> r.value[0] == w[0])
  {
    SelectIsRunningMax(w, key, arrived);
  }

  /**
   * Entries from arrived on are untouched, every ready entry is one of the ready processes at
   * or before its index, and the keys of the ready prefix end up non-decreasing.
   */
  lemma SelectDrawsFrom(w: seq<Process>, key: Key, arrived: int)
    requires 0 <= arrived <= |w|
    ensures var r := Selected(w, key, arrived);
      r.Ok? && |r.value| == |w| &&
      (forall k :: arrived <= k < |w| ==> r.value[k] == w[k]) &&
      (forall k :: 0 <= k < arrived ==> r.value[k] in w[..k + 1]) &&
      Ascending(r.value, key, arrived)
  {
    SelectIsRunningMax(w, key, arrived);
    var rm := RunningMax(w, key, arrived);
    forall k | 0 <= k < arrived
      ensures rm[k] in w[..k + 1]
    {
      ChampionIsMaximum(w, key, k);
    }
    forall k | 0 <= k < arrived - 1
      ensures KeyOf(rm[k], key) <= KeyOf(rm[k + 1], key)
    {
      assert rm[k] == Champion(w, key, k) && rm[k + 1] == Champion(w, key, k + 1);
    }
  }

  /** The selection loop, in place on waiting. */
  method Select(waiting: array<Process>, arrived: int, key: Key)
    requires 0 <= arrived <= waiting.Length
    modifies waiting
    ensures Ok(waiting[..]) == Selected(old(waiting[..]), key, arrived)
  {
    ghost var target := Selected(waiting[..], key, arrived);
    SelectIsRunningMax(waiting[..], key, arrived);
    for i := 0 to arrived
      invariant SelectFrom(waiting[..], key, arrived, i) == target
    {
      ghost var before := waiting[..];
      for j := 0 to arrived - 1
        invariant ThenSelect(SelectInner(waiting[..], key, arrived, i, j), key, arrived, i + 1) == target
      {
        if KeyOf(waiting[j], key) > KeyOf(waiting[j + 1], key) {
          waiting[j], waiting[j + 1] := waiting[i + j], waiting[j];
        }
      }
    }
  }

  // ---------------------------------------------------------------------------------------
  // Run next
  // ---------------------------------------------------------------------------------------

  /**
   * Copies waiting[0] into alreadyRun[finished], adds its burst to the time spent, moves the
   * counters, and exchanges waiting[0] with waiting[arrived - 1]: a panic when nothing has
   * arrived, since that index is then -1.
   */
  function RunNext(st: Simulation): (r: Result<Simulation>)
    requires 0 <= st.finished < |st.alreadyRun| && 0 <= st.arrived <= |st.waiting| && 0 < |st.waiting|
    ensures r.Ok? <==> st.arrived > 0
    ensures r.Err? ==> r.fault == IndexOutOfRange(-1)
    ensures r.Ok? ==> r.value.alreadyRun == st.alreadyRun[st.finished := st.waiting[0]] &&
                      r.value.timeSpent == st.timeSpent + st.waiting[0].burst &&
                      r.value.finished == st.finished + 1 && r.value.arrived == st.arrived - 1 &&
                      r.value.incoming == st.incoming && r.value.notArrived == st.notArrived &&
                      multiset(r.value.waiting) == multiset(st.waiting)
  {
    var p := st.waiting[0];
    var last := st.arrived - 1;
    if last < 0 then Err(IndexOutOfRange(last))
    else
      var w := st.waiting[0 := st.waiting[last]][last := p];
      SwapPermutes(st.waiting, 0, last);
      Ok(st.(waiting := w, alreadyRun := st.alreadyRun[st.finished := p],
             finished := st.finished + 1, arrived := last, timeSpent := st.timeSpent + p.burst))
  }

  /** The run-next step in place; ok is false where the source panics. */
  method RunNextStep(waiting: array<Process>, alreadyRun: array<Process>, arrived0: int,
                     finished0: int, timeSpent0: int)
    returns (ok: bool, arrived: int, finished: int, timeSpent: int)
    requires waiting != alreadyRun
    requires 0 <= finished0 < alreadyRun.Length && 0 <= arrived0 <= waiting.Length && 0 < waiting.Length
    modifies waiting, alreadyRun
    ensures ok <==> arrived0 > 0
    ensures alreadyRun[..] == old(alreadyRun[..])[finished0 := old(waiting[0])]
    ensures timeSpent == timeSpent0 + old(waiting[0]).burst
    ensures finished == finished0 + 1 && arrived == arrived0 - 1
    ensures ok ==> waiting[..] == old(waiting[..])[0 := old(waiting[arrived0 - 1])][arrived0 - 1 := old(waiting[0])]
  {
    alreadyRun[finished0] := waiting[0];
    timeSpent := timeSpent0 + alreadyRun[finished0].burst;
    finished := finished0 + 1;
    arrived := arrived0 - 1;
    if arrived < 0 {
      // waiting[-1]: the source panics here
      ok := false;
      return;
    }
    waiting[0], waiting[arrived] := waiting[arrived], waiting[0];
    ok := true;
  }

  // ---------------------------------------------------------------------------------------
  // Aging (Priority only)
  // ---------------------------------------------------------------------------------------

  function Aged(p: Process): Process
  {
    if p.priority > 1 then p.(priority := p.priority - 1) else p
  }

  /** The aging loop from index i: `if waiting[i].Priority > 1 { waiting[i].Priority-- }`. */
  function AgeFrom(w: seq<Process>, arrived: int, i: int): (r: seq<Process>)
    requires 0 <= i && arrived <= |w|
    ensures |r| == |w|
    decreases arrived - i
  {
    if i >= arrived then w else AgeFrom(w[i := Aged(w[i])], arrived, i + 1)
  }

  /**
   * Aging lowers each priority above 1 among the first arrived entries by exactly one, leaves
   * every other priority and every other field alone, and touches nothing from arrived on.
   */
  lemma {:induction false} AgingEffect(w: seq<Process>, arrived: int, i: int)
    requires 0 <= i <= arrived <= |w|
    ensures var r := AgeFrom(w, arrived, i);
      (forall k :: 0 <= k < |w| && (k < i || k >= arrived) ==> r[k] == w[k]) &&
      (forall k :: i <= k < arrived ==>
         Stripped(r[k]) == Stripped(w[k]) &&
         r[k].priority == (if w[k].priority > 1 then w[k].priority - 1 else w[k].priority))
    decreases arrived - i
  {
    if i < arrived {
      AgingEffect(w[i := Aged(w[i])], arrived, i + 1);
    }
  }

  /** No priority that was at least 1 ends below 1, and none rises. */
  lemma AgingFloor(w: seq<Process>, arrived: int)
    requires 0 <= arrived <= |w|
    ensures var r := AgeFrom(w, arrived, 0);
      forall k :: 0 <= k < |w| ==>
        r[k].priority <= w[k].priority && w[k].priority - 1 <= r[k].priority &&
        (w[k].priority >= 1 ==> r[k].priority >= 1)
  {
    AgingEffect(w, arrived, 0);
  }

  /** The aging loop, in place on waiting. */
  method AgeReady(waiting: array<Process>, arrived: int)
    requires 0 <= arrived <= waiting.Length
    modifies waiting
    ensures waiting[..] == AgeFrom(old(waiting[..]), arrived, 0)
  {
    ghost var target := AgeFrom(waiting[..], arrived, 0);
    for i := 0 to arrived
      invariant AgeFrom(waiting[..], arrived, i) == target
    {
      ghost var cur := waiting[..];
      if waiting[i].priority > 1 {
        waiting[i] := waiting[i].(priority := waiting[i].priority - 1);
      }
      assert waiting[..] == cur[i := Aged(cur[i])];
    }
  }
}
