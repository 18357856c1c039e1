/** The records the schedulers consume and produce. */
module Processes {

  /** One input record: the four 64-bit fields of the source's Process struct, as unbounded integers. */
  datatype Process = Process(id: int, arrival: int, burst: int, priority: int)

  /** The zero value every freshly made slice of processes holds before anything is written to it. */
  const Zero := Process(0, 0, 0, 0)

  /** One Gantt entry. */
  datatype TimeSlice = TimeSlice(pid: int, start: int, stop: int)

  /** One table row, as integers: id, priority, burst, arrival, wait, turnaround, completion. */
  datatype Row = Row(id: int, priority: int, burst: int, arrival: int,
                     wait: int, turnaround: int, completion: int)

  /**
   * What a scheduler hands to the display code: the rows, the Gantt entries, and the integer
   * sums the averages are divided from (the averages themselves are left out).
   */
  datatype Report = Report(rows: seq<Row>, gantt: seq<TimeSlice>,
                           totalWait: int, totalTurnaround: int, lastCompletion: int, count: int)

  /** The field the selection step compares: SJF compares bursts, Priority compares priorities. */
  datatype Key = ByBurst | ByPriority

  function KeyOf(p: Process, key: Key): int
  {
    match key
    case ByBurst => p.burst
    case ByPriority => p.priority
  }

  /** A run-time panic of the source: an index outside its slice. */
  datatype Fault = IndexOutOfRange(index: int)

  datatype Result<T> = Ok(value: T) | Err(fault: Fault)

  /** The total burst of ps[0..i). */
  function BurstBefore(ps: seq<Process>, i: int): int
    requires 0 <= i <= |ps|
  {
    if i == 0 then 0 else BurstBefore(ps, i - 1) + ps[i - 1].burst
  }

  /** The same process with its priority forgotten: what aging can never change. */
  function Stripped(p: Process): Process
  {
    p.(priority := 0)
  }

  /** Every process of s is, up to its priority, one of o. */
  predicate AllFrom(s: seq<Process>, o: set<Process>)
  {
    forall k :: 0 <= k < |s| ==> Stripped(s[k]) in o
  }

  /** Exchanging two entries, as the helpers swap and swapInt do, only permutes. */
  lemma SwapPermutes<T>(s: seq<T>, i: int, j: int)
    requires 0 <= i < |s| && 0 <= j < |s|
    ensures multiset(s[i := s[j]][j := s[i]]) == multiset(s)
  {
    var t := s[i := s[j]];
    assert multiset(t) == multiset(s) - multiset{s[i]} + multiset{s[j]};
    assert multiset(t[j := s[i]]) == multiset(t) - multiset{t[j]} + multiset{s[i]};
  }
}
