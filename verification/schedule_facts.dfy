/**
  Properties of the schedule the greedy scheduler produces: every placed
  match gets a court in 1..courts and one of the slot times, no two share a
  (court, slot) cell, a slot holds at most `courts` matches, as many matches
  are placed as there are matches or cells, a match earlier in the order is
  never placed after a later one, and the final sort by (start time, court)
  leaves the placement as it is.
 */
module ScheduleFacts {
  import opened Domain
  import opened Ordering
  import opened SchedulePlan

  predicate Increasing(slots: seq<int>)
  {
    forall a, b :: 0 <= a < b < |slots| ==> slots[a] < slots[b]
  }

  lemma SlotTimesIncreasing(start: int, end: int, d: nat)
    requires d > 0
    ensures Increasing(SlotTimes(start, end, d))
  {
    forall a, b | 0 <= a < b < SlotCount(start, end, d)
      ensures SlotTimes(start, end, d)[a] < SlotTimes(start, end, d)[b]
    {
      SlotTimesIncrease(start, end, d, a, b);
    }
  }

  /** Slot and court are recovered from the position: p is the (j+1)-th cell of slot k. */
  lemma PositionOfCell(p: nat, courts: int, slotCount: nat, k: nat, j: nat)
    requires p < Capacity(slotCount, courts)
    requires j < courts && p == Capacity(k, courts) + j
    ensures SlotOf(p, courts, slotCount) == k
  {
    var s := SlotOf(p, courts, slotCount);
    if s < k {
      CapacityMonotone(s, k, courts);
    } else if k < s {
      CapacityMonotone(k, s, courts);
    }
  }

  /** The p-th placed match is the p-th match of the order with a court in 1..courts and the time of
      the slot whose window holds p. */
  lemma PlacedAt(matches: seq<Match>, order: seq<nat>, slots: seq<int>, courts: int, n: nat, p: nat)
    requires n <= |order| && n <= Capacity(|slots|, courts)
    requires forall q :: 0 <= q < |order| ==> order[q] < |matches|
    requires p < n
    ensures var m := Placed(matches, order, slots, courts, n)[p];
      var k := SlotOf(p, courts, |slots|);
      m == matches[order[p]].(court := m.court, startTime := m.startTime) &&
      m.court.Some? && 1 <= m.court.value <= courts &&
      Capacity(k, courts) + m.court.value - 1 == p &&
      m.startTime == Some(slots[k])
  {
  }

  /** No two placed matches share a (court, slot) cell. */
  lemma PlacedCellsDistinct(matches: seq<Match>, order: seq<nat>, slots: seq<int>, courts: int, n: nat,
                            p: nat, q: nat)
    requires n <= |order| && n <= Capacity(|slots|, courts)
    requires forall r :: 0 <= r < |order| ==> order[r] < |matches|
    requires Increasing(slots) && p < q < n
    ensures Placed(matches, order, slots, courts, n)[p].court != Placed(matches, order, slots, courts, n)[q].court ||
            Placed(matches, order, slots, courts, n)[p].startTime != Placed(matches, order, slots, courts, n)[q].startTime
  {
    PlacedAt(matches, order, slots, courts, n, p);
    PlacedAt(matches, order, slots, courts, n, q);
    var kp, kq := SlotOf(p, courts, |slots|), SlotOf(q, courts, |slots|);
    if kp != kq {
      assert slots[kp] != slots[kq];
    }
  }

  /** The matches placed at the time of slot k are those in its window of `courts` positions: at most
      `courts` of them. */
  lemma SlotWindow(matches: seq<Match>, order: seq<nat>, slots: seq<int>, courts: int, n: nat, p: nat, k: nat)
    requires n <= |order| && n <= Capacity(|slots|, courts)
    requires forall r :: 0 <= r < |order| ==> order[r] < |matches|
    requires Increasing(slots) && p < n && k < |slots|
    ensures Placed(matches, order, slots, courts, n)[p].startTime == Some(slots[k]) <==>
            Capacity(k, courts) <= p < Capacity(k, courts) + courts
  {
    PlacedAt(matches, order, slots, courts, n, p);
    var s := SlotOf(p, courts, |slots|);
    if s != k {
      assert slots[s] != slots[k];
      if s < k {
        CapacityMonotone(s, k, courts);
      } else {
        CapacityMonotone(k, s, courts);
      }
    }
  }

  /** Placed matches come in ascending (time, court) order. */
  lemma PlacedSortedByTimeAndCourt(matches: seq<Match>, order: seq<nat>, slots: seq<int>, courts: int, n: nat)
    requires n <= |order| && n <= Capacity(|slots|, courts)
    requires forall r :: 0 <= r < |order| ==> order[r] < |matches|
    requires Increasing(slots)
    ensures var ms := Placed(matches, order, slots, courts, n);
      SortedBy(Range(0, n), TimeCourtKeys(ms))
  {
    var ms := Placed(matches, order, slots, courts, n);
    var keys := TimeCourtKeys(ms);
    forall p, q | 0 <= p < q < n ensures KeyLess(keys[Range(0, n)[p]], keys[Range(0, n)[q]]) {
      PlacedAt(matches, order, slots, courts, n, p);
      PlacedAt(matches, order, slots, courts, n, q);
      var kp, kq := SlotOf(p, courts, |slots|), SlotOf(q, courts, |slots|);
      if kq < kp {
        CapacityMonotone(kq, kp, courts);
      }
      if kp < kq {
        assert slots[kp] < slots[kq];
      }
    }
  }

  /** The final sort by (start time, court) changes nothing. */
  lemma FinalSortKeepsPlacement(matches: seq<Match>, order: seq<nat>, slots: seq<int>, courts: int, n: nat)
    requires n <= |order| && n <= Capacity(|slots|, courts)
    requires forall r :: 0 <= r < |order| ==> order[r] < |matches|
    requires Increasing(slots)
    ensures ByTimeAndCourt(Placed(matches, order, slots, courts, n)) == Placed(matches, order, slots, courts, n)
  {
    var ms := Placed(matches, order, slots, courts, n);
    var keys := TimeCourtKeys(ms);
    PlacedSortedByTimeAndCourt(matches, order, slots, courts, n);
    SortOfSorted(Range(0, n), keys);
  }

  /** A match whose key is smaller than that of a placed match is placed too, in the same slot or an
      earlier one. */
  lemma EarlierNeverLater(matches: seq<Match>, priority: map<Category, int>, separate: bool,
                          slots: seq<int>, courts: int, n: nat, a: nat, q: nat)
    requires n <= |matches| && n <= Capacity(|slots|, courts)
    requires q < n && a < |matches|
    requires KeyLess(MatchKeys(matches, priority, separate)[a],
                     MatchKeys(matches, priority, separate)[Order(matches, priority, separate)[q]])
    ensures exists p :: 0 <= p < q && Order(matches, priority, separate)[p] == a &&
                        SlotOf(p, courts, |slots|) <= SlotOf(q, courts, |slots|)
  {
    var p := EarlierInOrder(matches, priority, separate, a, q);
    SlotOfMonotone(p, q, courts, |slots|);
  }

  /** A match whose key is smaller than that of the q-th of the order comes before it in the order. */
  lemma EarlierInOrder(matches: seq<Match>, priority: map<Category, int>, separate: bool, a: nat, q: nat)
    returns (p: nat)
    requires q < |matches| && a < |matches|
    requires KeyLess(MatchKeys(matches, priority, separate)[a],
                     MatchKeys(matches, priority, separate)[Order(matches, priority, separate)[q]])
    ensures p < q && Order(matches, priority, separate)[p] == a
  {
    OrderIsPermutation(matches, priority, separate);
    var order := Order(matches, priority, separate);
    assert a in order;
    p :| 0 <= p < |order| && order[p] == a;
    SortedPosition(order, MatchKeys(matches, priority, separate), p, q);
  }

  /** A later position never lies in an earlier slot. */
  lemma SlotOfMonotone(p: nat, q: nat, courts: int, slotCount: nat)
    requires p <= q < Capacity(slotCount, courts)
    ensures SlotOf(p, courts, slotCount) <= SlotOf(q, courts, slotCount)
  {
    var kp, kq := SlotOf(p, courts, slotCount), SlotOf(q, courts, slotCount);
    if kq < kp {
      CapacityMonotone(kq, kp, courts);
    }
  }

  /** On success the schedule holds min(matches, cells) matches, each the match it was made from with a
      court in 1..courts and one of the slot times, no two in the same cell. */
  lemma ScheduleShape(matches: seq<Match>, start: int, end: int, d: nat, courts: int,
                      separate: bool, priority: map<Category, int>)
    requires d > 0
    requires Schedule(matches, start, end, d, courts, separate, priority).Success?
    ensures var ms := Schedule(matches, start, end, d, courts, separate, priority).value;
      var slots := SlotTimes(start, end, d);
      |ms| == Min(|matches|, Capacity(|slots|, courts)) &&
      (forall p :: 0 <= p < |ms| ==>
         ms[p].court.Some? && 1 <= ms[p].court.value <= courts &&
         ms[p].startTime.Some? && ms[p].startTime.value in slots &&
         ms[p] == matches[Order(matches, priority, separate)[p]].(court := ms[p].court, startTime := ms[p].startTime)) &&
      (forall p, q :: 0 <= p < q < |ms| ==> ms[p].court != ms[q].court || ms[p].startTime != ms[q].startTime)
  {
    var slots := SlotTimes(start, end, d);
    if matches != [] {
      var order := Order(matches, priority, separate);
      var n := Min(|matches|, Capacity(|slots|, courts));
      var ms := Placed(matches, order, slots, courts, n);
      SlotTimesIncreasing(start, end, d);
      FinalSortKeepsPlacement(matches, order, slots, courts, n);
      forall p | 0 <= p < n
        ensures ms[p].court.Some? && 1 <= ms[p].court.value <= courts &&
                ms[p].startTime.Some? && ms[p].startTime.value in slots &&
                ms[p] == matches[order[p]].(court := ms[p].court, startTime := ms[p].startTime)
      {
        PlacedAt(matches, order, slots, courts, n, p);
      }
      forall p, q | 0 <= p < q < n ensures ms[p].court != ms[q].court || ms[p].startTime != ms[q].startTime {
        PlacedCellsDistinct(matches, order, slots, courts, n, p, q);
      }
    }
  }
}
