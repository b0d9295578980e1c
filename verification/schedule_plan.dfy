/**
  What the greedy slot scheduler produces, stated without its loops. The
  working day is cut into slots of equal length; the matches are put in one
  global order (priority, then label in the category-first mode, then group,
  round and input position); the p-th match of that order is played in slot
  p / courts on the courts of that slot in turn, for as many matches as
  there are (slot, court) cells. The result is then sorted by start time and court.
 */
module SchedulePlan {
  import opened Domain
  import opened Ordering

  /** Why a call to the scheduler fails instead of returning a schedule. */
  datatype Fault =
    | PriorityMapUnbound   // interleaved mode reads a priority map that was never built
    | DivisionByZero       // the utilisation figure divides by slots * courts, which is zero

  function Min(a: nat, b: nat): nat
  {
    if a < b then a else b
  }

  // ---------------------------------------------------------------------
  // Time slots (times are minutes since midnight)

  /** How many whole matches of length d fit between start and end. */
  function SlotCount(start: int, end: int, d: nat): nat
    requires d > 0
  {
    if end >= start then (end - start) / d else 0
  }

  /** The slot start times: start, start + d, start + 2d, ... */
  function SlotTimes(start: int, end: int, d: nat): (slots: seq<int>)
    requires d > 0
    ensures |slots| == SlotCount(start, end, d)
  {
    seq(SlotCount(start, end, d), k requires 0 <= k < SlotCount(start, end, d) => start + k * d)
  }

  /** Slot k exists exactly when a match started at start + k*d ends by `end`. */
  lemma SlotFits(start: int, end: int, d: nat, k: nat)
    requires d > 0
    ensures k < SlotCount(start, end, d) <==> start + (k + 1) * d <= end
  {
    if end >= start {
      var q, r := (end - start) / d, (end - start) % d;
      assert end - start == q * d + r;
      if k < q {
        MulMonotone(k + 1, q, d);
      } else {
        MulMonotone(q + 1, k + 1, d);
        assert (q + 1) * d == q * d + d;
      }
    } else {
      MulMonotone(1, k + 1, d);
    }
  }

  lemma MulMonotone(a: int, b: int, d: nat)
    requires a <= b
    ensures a * d <= b * d
  {
    assert b * d == a * d + (b - a) * d;
  }

  /** Slot times increase strictly. */
  lemma SlotTimesIncrease(start: int, end: int, d: nat, a: nat, b: nat)
    requires d > 0 && a < b < SlotCount(start, end, d)
    ensures SlotTimes(start, end, d)[a] < SlotTimes(start, end, d)[b]
  {
    assert b * d == a * d + (b - a) * d;
  }

  /** The number of (slot, court) cells, counted slot by slot; no courts means no cells. */
  function Capacity(slotCount: nat, courts: int): nat
  {
    if slotCount == 0 || courts <= 0 then 0 else Capacity(slotCount - 1, courts) + courts
  }

  /** The cells are slots times courts. */
  lemma {:induction false} CapacityProduct(slotCount: nat, courts: int)
    ensures Capacity(slotCount, courts) == if courts > 0 then slotCount * courts else 0
  {
    if slotCount > 0 && courts > 0 {
      CapacityProduct(slotCount - 1, courts);
      assert slotCount * courts == (slotCount - 1) * courts + courts;
    }
  }

  /** More slots, at least as many cells; each further slot adds a whole window of courts. */
  lemma {:induction false} CapacityMonotone(a: nat, b: nat, courts: int)
    requires a <= b
    ensures Capacity(a, courts) <= Capacity(b, courts)
    ensures courts > 0 && a < b ==> Capacity(a, courts) + courts <= Capacity(b, courts)
  {
    if a < b {
      CapacityMonotone(a, b - 1, courts);
    }
  }

  // ---------------------------------------------------------------------
  // The global order

  /** A category's priority: the configured number, 999 when it has none; lower goes first. */
  function Prio(c: Category, priority: map<Category, int>): int
  {
    if c in priority then priority[c] else 999
  }

  /**
    The sort key of each match: priority, then (category-first mode only) the
    rank of the category's label, then group, round and input position.
   */
  function MatchKeys(matches: seq<Match>, priority: map<Category, int>, separate: bool): (keys: seq<SortKey>)
    ensures |keys| == |matches| && Positional(keys)
  {
    seq(|matches|, i requires 0 <= i < |matches| =>
      SortKey(Prio(matches[i].category, priority),
              if separate then LabelRank(matches[i].category) else 0,
              matches[i].groupId, matches[i].roundNum, i))
  }

  /** All match indices in the order the scheduler takes them. */
  function Order(matches: seq<Match>, priority: map<Category, int>, separate: bool): (order: seq<nat>)
    ensures |order| == |matches| && Indexes(order, MatchKeys(matches, priority, separate))
  {
    SortBy(Range(0, |matches|), MatchKeys(matches, priority, separate))
  }

  lemma RangeNoDups(lo: nat, hi: nat)
    requires lo <= hi
    ensures NoDups(Range(lo, hi))
  {
  }

  /** The order lists every match exactly once, strictly ascending by key. */
  lemma OrderIsPermutation(matches: seq<Match>, priority: map<Category, int>, separate: bool)
    ensures SortedBy(Order(matches, priority, separate), MatchKeys(matches, priority, separate))
    ensures NoDups(Order(matches, priority, separate))
    ensures forall i :: i in Order(matches, priority, separate) <==> 0 <= i < |matches|
  {
    var keys := MatchKeys(matches, priority, separate);
    var all := Range(0, |matches|);
    var order := SortBy(all, keys);
    RangeNoDups(0, |matches|);
    assert SortedBy(order, keys);
    SortedNoDups(order, keys);
    forall i ensures i in order <==> 0 <= i < |matches| {
      MembersOfPermutation(order, all, i);
      if 0 <= i < |matches| {
        assert all[i] == i;
      }
    }
  }

  lemma MembersOfPermutation(a: seq<nat>, b: seq<nat>, x: int)
    requires multiset(a) == multiset(b)
    ensures x in a <==> x in b
  {
    assert x in a <==> x in multiset(a);
    assert x in b <==> x in multiset(b);
  }

  // ---------------------------------------------------------------------
  // Placement

  /** The slot of the p-th placed match: the one whose window of cells holds p. */
  function SlotOf(p: nat, courts: int, slotCount: nat): (k: nat)
    requires p < Capacity(slotCount, courts)
    ensures courts > 0 && k < slotCount
    ensures Capacity(k, courts) <= p < Capacity(k, courts) + courts
  {
    if p < courts then 0
    else
      1 + SlotOf(p - courts, courts, slotCount - 1)
  }

  /** The p-th match of the order, in slot SlotOf(p) on the next court of that slot's window. */
  function Placement(m: Match, p: nat, slots: seq<int>, courts: int): Match
    requires p < Capacity(|slots|, courts)
  {
    var k := SlotOf(p, courts, |slots|);
    m.(court := Some(p - Capacity(k, courts) + 1), startTime := Some(slots[k]))
  }

  /** The first n matches of the order, placed one after the other. */
  function Placed(matches: seq<Match>, order: seq<nat>, slots: seq<int>, courts: int, n: nat): (ms: seq<Match>)
    requires n <= |order| && n <= Capacity(|slots|, courts)
    requires forall p :: 0 <= p < |order| ==> order[p] < |matches|
    ensures |ms| == n
  {
    seq(n, p requires 0 <= p < n => Placement(matches[order[p]], p, slots, courts))
  }

  // ---------------------------------------------------------------------
  // The final sort by (start time, court)

  function TimeOf(m: Match): int
  {
    if m.startTime.Some? then m.startTime.value else 0
  }

  function CourtOf(m: Match): int
  {
    if m.court.Some? then m.court.value else 0
  }

  function TimeCourtKeys(ms: seq<Match>): (keys: seq<SortKey>)
    ensures |keys| == |ms| && Positional(keys)
  {
    seq(|ms|, i requires 0 <= i < |ms| => SortKey(TimeOf(ms[i]), CourtOf(ms[i]), 0, 0, i))
  }

  /** The matches stably sorted by start time, then court. */
  function ByTimeAndCourt(ms: seq<Match>): (r: seq<Match>)
    ensures |r| == |ms|
  {
    var keys := TimeCourtKeys(ms);
    var idx := SortBy(Range(0, |ms|), keys);
    assert |idx| == |ms| by {
      assert |multiset(idx)| == |multiset(Range(0, |ms|))|;
    }
    seq(|idx|, i requires 0 <= i < |idx| => ms[idx[i]])
  }

  // ---------------------------------------------------------------------
  // The whole scheduler

  /**
    The outcome of scheduling: no matches give an empty schedule; the
    interleaved mode without a priority map fails as soon as there is a
    slot; no cells at all fail at the utilisation figure; otherwise the
    first min(matches, cells) matches of the order are placed and sorted by
    time and court.
   */
  function Schedule(matches: seq<Match>, start: int, end: int, d: nat, courts: int,
                    separate: bool, priority: map<Category, int>): Result<seq<Match>, Fault>
    requires d > 0
  {
    var slots := SlotTimes(start, end, d);
    if matches == [] then Success([])
    else if !separate && |priority| == 0 && |slots| > 0 then Failure(PriorityMapUnbound)
    else if |slots| == 0 || courts == 0 then Failure(DivisionByZero)
    else
      var order := Order(matches, priority, separate);
      Success(ByTimeAndCourt(Placed(matches, order, slots, courts, Min(|matches|, Capacity(|slots|, courts)))))
  }
}
