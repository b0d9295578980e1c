/**
  The greedy slot scheduler. It cuts the day into slots, then walks the
  slots in order; in each slot it hands out courts 1, 2, ... to pending
  matches, taken category after category (each by group and round) in the
  category-first mode, or all together by (priority, group, round) in the
  interleaved mode. Scheduled matches are finally sorted by start time and
  court. Each method is proved to compute the closed form of SchedulePlan.
 */
module Scheduler {
  import opened Domain
  import opened Ordering
  import opened SchedulePlan
  import opened ScheduleLists
  import opened ScheduleFacts

  /** Slots start every d minutes from `start` for as long as a match started there ends by `end`. */
  method TimeSlots(start: int, end: int, d: nat) returns (slots: seq<int>)
    requires d > 0
    ensures slots == SlotTimes(start, end, d)
  {
    slots := [];
    var current := start;
    while current + d <= end
      invariant current == start + |slots| * d
      invariant |slots| <= SlotCount(start, end, d)
      invariant forall k :: 0 <= k < |slots| ==> slots[k] == start + k * d
      decreases end - current
    {
      SlotFits(start, end, d, |slots|);
      assert current + d == start + (|slots| + 1) * d;
      slots := slots + [current];
      current := current + d;
    }
    SlotFits(start, end, d, |slots|);
  }

  /** The head of a suffix of the order that starts with a[t..], and what follows it. */
  lemma SuffixNext(order: seq<nat>, q: nat, a: seq<nat>, b: seq<nat>, t: nat)
    requires t < |a| && q <= |order| && order[q..] == a[t..] + b
    ensures q < |order| && order[q] == a[t] && order[q + 1..] == a[t + 1..] + b
  {
    assert order[q..][0] == (a[t..] + b)[0];
    assert order[q + 1..] == order[q..][1..];
    assert (a[t..] + b)[1..] == a[t + 1..] + b;
  }

  /** The courts still free in a slot once `used` of them are taken: used + 1, ..., courts in turn. The
      full list, FreeCourts(0, courts), is 1, ..., courts, and empty when there are no courts. */
  function FreeCourts(used: nat, courts: int): (cs: seq<nat>)
    ensures cs == [] <==> courts <= used
    decreases courts - used
  {
    if used < courts then [used + 1] + FreeCourts(used + 1, courts) else []
  }

  // ---------------------------------------------------------------------
  // Step lemmas

  /** Placing the next match of the order on the next free court of slot k extends the placement by one. */
  lemma PlaceNext(matches: seq<Match>, order: seq<nat>, slots: seq<int>, courts: int, k: nat, p: nat, j: nat,
                  scheduled: seq<Match>, x: nat, m: Match)
    requires forall r :: 0 <= r < |order| ==> order[r] < |matches|
    requires courts >= 1 && k < |slots| && p == Capacity(k, courts) && j < courts && p + j < |order|
    requires p + j <= Capacity(|slots|, courts)
    requires scheduled == Placed(matches, order, slots, courts, p + j)
    requires x == order[p + j] && m == matches[x].(court := Some(j + 1), startTime := Some(slots[k]))
    ensures p + j + 1 <= Capacity(|slots|, courts)
    ensures scheduled + [m] == Placed(matches, order, slots, courts, |scheduled + [m]|)
  {
    CapacityMonotone(k + 1, |slots|, courts);
    PositionOfCell(p + j, courts, |slots|, k, j);
  }

  /** The matches still pending once the first q of the order are placed: the input positions without
      order[..q], in input order. */
  function Unplaced(n: nat, order: seq<nat>, q: nat): seq<nat>
    requires q <= |order|
  {
    Without(Range(0, n), order[..q])
  }

  lemma UnplacedStart(n: nat, order: seq<nat>)
    ensures Unplaced(n, order, 0) == Range(0, n)
  {
    assert order[..0] == [];
    WithoutNothing(Range(0, n));
  }

  lemma UnplacedBounds(n: nat, order: seq<nat>, q: nat)
    requires q <= |order|
    ensures forall i :: 0 <= i < |Unplaced(n, order, q)| ==> Unplaced(n, order, q)[i] < n
  {
    RangeNoDups(0, n);
    WithoutMembers(Range(0, n), order[..q]);
    var u := Unplaced(n, order, q);
    forall i | 0 <= i < |u| ensures u[i] < n {
      assert u[i] in u;
    }
  }

  lemma UnplacedNoDups(n: nat, order: seq<nat>, q: nat)
    requires q <= |order|
    ensures NoDups(Unplaced(n, order, q))
  {
    RangeNoDups(0, n);
    WithoutMembers(Range(0, n), order[..q]);
  }

  /** The pending matches are exactly the rest of the order, once each. */
  lemma UnplacedMembers(matches: seq<Match>, priority: map<Category, int>, separate: bool, q: nat)
    requires q <= |matches|
    ensures var u := Unplaced(|matches|, Order(matches, priority, separate), q);
      NoDups(u) && forall y :: y in u <==> y in Order(matches, priority, separate)[q..]
  {
    var order := Order(matches, priority, separate);
    var all := Range(0, |matches|);
    OrderIsPermutation(matches, priority, separate);
    RangeNoDups(0, |matches|);
    WithoutMembers(all, order[..q]);
    forall y ensures y in Unplaced(|matches|, order, q) <==> y in order[q..] {
      assert y in order <==> y in order[..q] || y in order[q..] by {
        assert order == order[..q] + order[q..];
      }
      assert y in all <==> 0 <= y < |matches| by {
        if 0 <= y < |matches| {
          assert all[y] == y;
        }
      }
    }
  }

  /** Placing the next match of the order takes it out of the pending list. */
  lemma UnplacedStep(n: nat, order: seq<nat>, q: nat)
    requires NoDups(order) && q < |order|
    ensures Remove(Unplaced(n, order, q), order[q]) == Unplaced(n, order, q + 1)
  {
    RangeNoDups(0, n);
    assert order[..q + 1] == order[..q] + [order[q]];
    assert order[q] !in order[..q] by {
      forall a | 0 <= a < q ensures order[..q][a] != order[q] {
        assert order[..q][a] == order[a];
      }
    }
    RemoveWithout(Range(0, n), order[..q], order[q]);
  }

  /** The loops below work on any order that lists the match indices once each. */
  predicate OrderOver(order: seq<nat>, n: nat)
  {
    |order| == n && NoDups(order) && forall r :: 0 <= r < |order| ==> order[r] < n
  }

  /**
    The state while slot k is being filled: the first |placed| matches of
    the order are placed, p == Capacity(k) of them before this slot; the rest
    are pending, in input order; `available` holds the courts of slot k not
    handed out yet.
   */
  predicate Filling(matches: seq<Match>, order: seq<nat>, slots: seq<int>, k: nat, courts: int, p: nat,
                    placed: seq<Match>, pending: seq<nat>, available: seq<nat>)
  {
    OrderOver(order, |matches|) && k < |slots| && p == Capacity(k, courts) &&
    Capacity(k + 1, courts) <= Capacity(|slots|, courts) &&
    p <= |placed| <= |matches| && (|placed| == p || |placed| - p <= courts) &&
    available == FreeCourts(|placed| - p, courts) &&
    placed == Placed(matches, order, slots, courts, |placed|) &&
    pending == Unplaced(|matches|, order, |placed|) &&
    forall i :: 0 <= i < |pending| ==> pending[i] < |matches|
  }

  /**
    Hands the next free court of slot k to match x, the next match of the
    order: x is scheduled there, leaves the pending list, and the court
    leaves the free list.
   */
  method AssignCourt(matches: seq<Match>, slots: seq<int>, k: nat, courts: int, x: nat,
                     placed: seq<Match>, pending: seq<nat>, available: seq<nat>, ghost order: seq<nat>, ghost p: nat)
    returns (placed': seq<Match>, pending': seq<nat>, available': seq<nat>)
    requires Filling(matches, order, slots, k, courts, p, placed, pending, available)
    requires available != [] && |placed| < |matches| && x == order[|placed|]
    ensures placed' == placed + [matches[x].(court := Some(available[0]), startTime := Some(slots[k]))]
    ensures pending' == Remove(pending, x) && available' == available[1..]
    ensures Filling(matches, order, slots, k, courts, p, placed', pending', available')
  {
    var court := available[0];
    var m := matches[x].(court := Some(court), startTime := Some(slots[k]));
    PlaceNext(matches, order, slots, courts, k, p, |placed| - p, placed, x, m);
    UnplacedStep(|matches|, order, |placed|);
    UnplacedBounds(|matches|, order, |placed| + 1);
    placed' := placed + [m];
    pending' := Remove(pending, x);
    available' := available[1..];
  }

  /** Pending matches sorted by key are the rest of the order. */
  lemma SuffixSort(matches: seq<Match>, priority: map<Category, int>, separate: bool, p: nat)
    requires p <= |matches|
    ensures Indexes(Unplaced(|matches|, Order(matches, priority, separate), p), MatchKeys(matches, priority, separate))
    ensures SortBy(Unplaced(|matches|, Order(matches, priority, separate), p), MatchKeys(matches, priority, separate))
         == Order(matches, priority, separate)[p..]
  {
    var keys := MatchKeys(matches, priority, separate);
    var order := Order(matches, priority, separate);
    var u := Unplaced(|matches|, order, p);
    var rest := order[p..];
    UnplacedBounds(|matches|, order, p);
    UnplacedMembers(matches, priority, separate, p);
    OrderIsPermutation(matches, priority, separate);
    assert SortedBy(rest, keys) by {
      forall i, j | 0 <= i < j < |rest| ensures KeyLess(keys[rest[i]], keys[rest[j]]) {
        assert rest[i] == order[p + i] && rest[j] == order[p + j];
      }
    }
    SortedNoDups(rest, keys);
    SortBySameElements(u, rest, keys);
    SortOfSorted(rest, keys);
  }

  // ---------------------------------------------------------------------
  // One slot

  /** Interleaved mode, one slot: all pending matches by (priority, group, round), one per free court. */
  method FillSlotInterleaved(matches: seq<Match>, priority: map<Category, int>, slots: seq<int>, k: nat,
                             courts: int, unscheduled: seq<nat>, scheduled: seq<Match>, ghost order: seq<nat>)
    returns (pending: seq<nat>, placed: seq<Match>, scheduledThisSlot: bool, available: seq<nat>)
    requires Filling(matches, order, slots, k, courts, |scheduled|, scheduled, unscheduled, FreeCourts(0, courts))
    requires |scheduled| < |matches|
    requires Indexes(unscheduled, MatchKeys(matches, priority, false))
    requires SortBy(unscheduled, MatchKeys(matches, priority, false)) == order[|scheduled|..]
    ensures Filling(matches, order, slots, k, courts, |scheduled|, placed, pending, available)
    ensures |placed| == Min(|matches|, Capacity(k + 1, courts))
    ensures scheduledThisSlot || available == []
  {
    ghost var p := |scheduled|;
    pending, placed := unscheduled, scheduled;
    available := FreeCourts(0, courts);
    scheduledThisSlot := false;
    var sortedMatches := SortBy(unscheduled, MatchKeys(matches, priority, false));
    var i := 0;
    while i < |sortedMatches|
      invariant 0 <= i <= |sortedMatches| && |placed| == p + i && scheduledThisSlot == (i > 0)
      invariant Filling(matches, order, slots, k, courts, p, placed, pending, available)
    {
      if available == [] {
        break;
      }
      var x := sortedMatches[i];
      assert x == order[|placed|];
      placed, pending, available := AssignCourt(matches, slots, k, courts, x, placed, pending, available, order, p);
      scheduledThisSlot := true;
      i := i + 1;
    }
    if available != [] {
      assert |sortedMatches| == |order[p..]|;
    }
    SlotFilled(matches, order, slots, k, courts, p, placed, pending, available);
  }

  /** Category-first mode, one slot: the categories in order, each category's pending matches by
      (group, round), one per free court, until the courts run out. */
  method FillSlotSeparate(matches: seq<Match>, priority: map<Category, int>, categories: seq<nat>,
                          slots: seq<int>, k: nat, courts: int, unscheduled: seq<nat>, scheduled: seq<Match>,
                          ghost order: seq<nat>)
    returns (pending: seq<nat>, placed: seq<Match>, scheduledThisSlot: bool, available: seq<nat>)
    requires Filling(matches, order, slots, k, courts, |scheduled|, scheduled, unscheduled, FreeCourts(0, courts))
    requires |scheduled| < |matches|
    requires NoDups(categories) && forall i :: 0 <= i < |categories| ==> categories[i] < 6
    requires order[|scheduled|..] == CatConcat(categories, unscheduled, matches, MatchKeys(matches, priority, true))
    ensures Filling(matches, order, slots, k, courts, |scheduled|, placed, pending, available)
    ensures |placed| == Min(|matches|, Capacity(k + 1, courts))
    ensures scheduledThisSlot || available == []
  {
    var keys := MatchKeys(matches, priority, true);
    ghost var p := |scheduled|;
    pending, placed := unscheduled, scheduled;
    available := FreeCourts(0, courts);
    scheduledThisSlot := false;
    var ci := 0;
    while ci < |categories|
      invariant 0 <= ci <= |categories| && scheduledThisSlot == (|placed| > p)
      invariant Filling(matches, order, slots, k, courts, p, placed, pending, available)
      invariant available != [] ==> order[|placed|..] == CatConcat(categories[ci..], pending, matches, keys)
    {
      if available == [] {
        break;
      }
      var scheduledHere;
      pending, placed, available, scheduledHere :=
        FillCategory(matches, keys, categories, ci, slots, k, courts, pending, placed, available, order, p);
      scheduledThisSlot := scheduledThisSlot || scheduledHere;
      ci := ci + 1;
    }
    SeparateSlotDone(matches, order, slots, k, courts, p, placed, pending, available, keys, categories, ci);
  }

  /** The category loop of a slot stops when its courts or its categories run out: in the second case
      nothing is left of the order, and either way the slot is as full as it can be. */
  lemma SeparateSlotDone(matches: seq<Match>, order: seq<nat>, slots: seq<int>, k: nat, courts: int, p: nat,
                         placed: seq<Match>, pending: seq<nat>, available: seq<nat>, keys: seq<SortKey>,
                         categories: seq<nat>, ci: nat)
    requires Filling(matches, order, slots, k, courts, p, placed, pending, available)
    requires |keys| == |matches| && ci <= |categories| && forall i :: 0 <= i < |categories| ==> categories[i] < 6
    requires ci == |categories| || available == []
    requires available != [] ==> order[|placed|..] == CatConcat(categories[ci..], pending, matches, keys)
    ensures |placed| == Min(|matches|, Capacity(k + 1, courts))
  {
    if available != [] {
      assert categories[ci..] == [];
      assert order[|placed|..] == [];
    }
    SlotFilled(matches, order, slots, k, courts, p, placed, pending, available);
  }

  /** A slot whose courts are all taken, or after which nothing of the order is left, holds the first
      min(matches, Capacity(k + 1)) matches of the order. */
  lemma SlotFilled(matches: seq<Match>, order: seq<nat>, slots: seq<int>, k: nat, courts: int, p: nat,
                   placed: seq<Match>, pending: seq<nat>, available: seq<nat>)
    requires Filling(matches, order, slots, k, courts, p, placed, pending, available)
    requires available == [] || |placed| == |matches|
    ensures |placed| == Min(|matches|, Capacity(k + 1, courts))
  {
  }

  /** Category-first mode, one category of one slot: its pending matches by (group, round), one per free
      court, until they or the courts run out. */
  method FillCategory(matches: seq<Match>, keys: seq<SortKey>, categories: seq<nat>, ci: nat,
                      slots: seq<int>, k: nat, courts: int, pending: seq<nat>, placed: seq<Match>,
                      available: seq<nat>, ghost order: seq<nat>, ghost p: nat)
    returns (pending': seq<nat>, placed': seq<Match>, available': seq<nat>, scheduledAny: bool)
    requires Filling(matches, order, slots, k, courts, p, placed, pending, available)
    requires |keys| == |matches| && Positional(keys)
    requires NoDups(categories) && forall i :: 0 <= i < |categories| ==> categories[i] < 6
    requires ci < |categories|
    requires available != [] ==> order[|placed|..] == CatConcat(categories[ci..], pending, matches, keys)
    ensures Filling(matches, order, slots, k, courts, p, placed', pending', available')
    ensures |placed| <= |placed'| && scheduledAny == (|placed'| > |placed|)
    ensures available' != [] ==> order[|placed'|..] == CatConcat(categories[ci + 1..], pending', matches, keys)
  {
    var category := CategoryOfRank(categories[ci]);
    var categoryMatches := SortBy(Filter(pending, matches, category), keys);
    ghost var restCats := CatConcat(categories[ci + 1..], pending, matches, keys);
    assert categories[ci..][1..] == categories[ci + 1..];
    assert forall y :: y in categoryMatches ==> y < |matches| && matches[y].category == category by {
      forall y | y in categoryMatches ensures y < |matches| && matches[y].category == category {
        MembersOfPermutation(categoryMatches, Filter(pending, matches, category), y);
      }
    }
    assert available != [] ==> order[|placed|..] == categoryMatches + restCats;
    pending', placed', available', scheduledAny :=
      PlaceCategory(matches, keys, categories, ci, slots, k, courts, categoryMatches, pending, placed, available,
                    order, p, restCats);
  }

  /** The loop over one category's matches, sorted: each takes the next free court while there is one. */
  method PlaceCategory(matches: seq<Match>, keys: seq<SortKey>, categories: seq<nat>, ci: nat,
                       slots: seq<int>, k: nat, courts: int, categoryMatches: seq<nat>,
                       pending: seq<nat>, placed: seq<Match>, available: seq<nat>,
                       ghost order: seq<nat>, ghost p: nat, ghost restCats: seq<nat>)
    returns (pending': seq<nat>, placed': seq<Match>, available': seq<nat>, scheduledAny: bool)
    requires Filling(matches, order, slots, k, courts, p, placed, pending, available)
    requires |keys| == |matches| && Positional(keys)
    requires NoDups(categories) && forall i :: 0 <= i < |categories| ==> categories[i] < 6
    requires ci < |categories|
    requires forall y :: y in categoryMatches ==> y < |matches| && matches[y].category == CategoryOfRank(categories[ci])
    requires available != [] ==> order[|placed|..] == categoryMatches + restCats
    requires CatConcat(categories[ci + 1..], pending, matches, keys) == restCats
    ensures Filling(matches, order, slots, k, courts, p, placed', pending', available')
    ensures |placed| <= |placed'| && scheduledAny == (|placed'| > |placed|)
    ensures available' != [] ==> order[|placed'|..] == restCats
    ensures CatConcat(categories[ci + 1..], pending', matches, keys) == restCats
  {
    pending', placed', available' := pending, placed, available;
    scheduledAny := false;
    var t := 0;
    assert categoryMatches[0..] == categoryMatches;
    while t < |categoryMatches| && available' != []
      invariant 0 <= t <= |categoryMatches| && |placed'| == |placed| + t && scheduledAny == (t > 0)
      invariant Filling(matches, order, slots, k, courts, p, placed', pending', available')
      invariant CatConcat(categories[ci + 1..], pending', matches, keys) == restCats
      invariant available' != [] ==> order[|placed'|..] == categoryMatches[t..] + restCats
    {
      var x := categoryMatches[t];
      SuffixNext(order, |placed'|, categoryMatches, restCats, t);
      assert x in categoryMatches;
      ghost var next := |placed'| + 1;
      placed', pending', available' :=
        TakeCourt(matches, keys, categories, ci, slots, k, courts, x, placed', pending', available', order, p, restCats);
      assert |placed'| == next;
      scheduledAny := true;
      t := t + 1;
    }
    if available' != [] {
      assert categoryMatches[t..] == [];
    }
  }

  /** One turn of the category loop: the category's next match takes the next free court, which leaves
      the later categories' matches as they were. */
  method TakeCourt(matches: seq<Match>, keys: seq<SortKey>, categories: seq<nat>, ci: nat,
                   slots: seq<int>, k: nat, courts: int, x: nat, placed: seq<Match>, pending: seq<nat>,
                   available: seq<nat>, ghost order: seq<nat>, ghost p: nat, ghost restCats: seq<nat>)
    returns (placed': seq<Match>, pending': seq<nat>, available': seq<nat>)
    requires Filling(matches, order, slots, k, courts, p, placed, pending, available)
    requires |keys| == |matches| && Positional(keys)
    requires NoDups(categories) && forall i :: 0 <= i < |categories| ==> categories[i] < 6
    requires ci < |categories|
    requires available != [] && |placed| < |matches| && x == order[|placed|]
    requires matches[x].category == CategoryOfRank(categories[ci])
    requires CatConcat(categories[ci + 1..], pending, matches, keys) == restCats
    ensures placed' == placed + [matches[x].(court := Some(available[0]), startTime := Some(slots[k]))]
    ensures pending' == Remove(pending, x) && available' == available[1..]
    ensures Filling(matches, order, slots, k, courts, p, placed', pending', available')
    ensures |placed'| == |placed| + 1
    ensures CatConcat(categories[ci + 1..], pending', matches, keys) == restCats
  {
    UnplacedNoDups(|matches|, order, |placed|);
    SkipOtherCategories(matches, keys, categories, ci, pending, x);
    placed', pending', available' := AssignCourt(matches, slots, k, courts, x, placed, pending, available, order, p);
  }

  /** Removing a match of category categories[ci] leaves the later categories' concatenation unchanged. */
  lemma {:induction false} SkipOtherCategories(matches: seq<Match>, keys: seq<SortKey>, categories: seq<nat>, ci: nat,
                            pending: seq<nat>, x: nat)
    requires |keys| == |matches| && Positional(keys)
    requires NoDups(categories) && forall i :: 0 <= i < |categories| ==> categories[i] < 6
    requires ci < |categories|
    requires NoDups(pending) && forall i :: 0 <= i < |pending| ==> pending[i] < |matches|
    requires x < |matches| && matches[x].category == CategoryOfRank(categories[ci])
    ensures forall i :: 0 <= i < |Remove(pending, x)| ==> Remove(pending, x)[i] < |matches|
    ensures CatConcat(categories[ci + 1..], Remove(pending, x), matches, keys)
         == CatConcat(categories[ci + 1..], pending, matches, keys)
  {
    var rest := Remove(pending, x);
    RemoveMembers(pending, x);
    assert forall i :: 0 <= i < |rest| ==> rest[i] < |matches| by {
      forall i | 0 <= i < |rest| ensures rest[i] < |matches| {
        assert rest[i] in pending;
      }
    }
    assert categories[ci] !in categories[ci + 1..] by {
      forall i | ci < i < |categories| ensures categories[i] != categories[ci] {
      }
    }
    assert LabelRank(matches[x].category) == categories[ci];
    CatConcatSameMembers(categories[ci + 1..], rest, pending, matches, keys);
  }

  /** Nothing is pending exactly when the whole order is placed. */
  lemma {:induction false} UnplacedDone(n: nat, order: seq<nat>, q: nat)
    requires OrderOver(order, n) && q <= n && forall y :: 0 <= y < n ==> y in order
    ensures Unplaced(n, order, q) == [] <==> q == n
  {
    RangeNoDups(0, n);
    WithoutMembers(Range(0, n), order[..q]);
    if q < n {
      assert order[q] < n && Range(0, n)[order[q]] == order[q];
      assert order[q] !in order[..q] by {
        forall a | 0 <= a < q ensures order[..q][a] != order[q] {
          assert order[..q][a] == order[a];
        }
      }
      assert order[q] in Unplaced(n, order, q);
    } else {
      assert order[..q] == order;
      WithoutEverything(Range(0, n), order);
    }
  }

  /**
    The state between two slots: the first min(matches, Capacity(idx)) matches
    of the order are placed on the first idx slots, and the rest are pending in
    input order.
   */
  predicate SlotLoop(matches: seq<Match>, order: seq<nat>, slots: seq<int>, courts: int, idx: nat,
                     scheduled: seq<Match>, unscheduled: seq<nat>)
  {
    OrderOver(order, |matches|) && (forall y :: 0 <= y < |matches| ==> y in order) && idx <= |slots| &&
    |scheduled| == Min(|matches|, Capacity(idx, courts)) && |scheduled| <= Capacity(|slots|, courts) &&
    scheduled == Placed(matches, order, slots, courts, |scheduled|) &&
    unscheduled == Unplaced(|matches|, order, |scheduled|)
  }

  /** Before any slot nothing is placed and every match is pending. */
  lemma SlotLoopStart(matches: seq<Match>, priority: map<Category, int>, separate: bool, slots: seq<int>,
                      courts: int)
    ensures SlotLoop(matches, Order(matches, priority, separate), slots, courts, 0, [], Range(0, |matches|))
  {
    var order := Order(matches, priority, separate);
    OrderIsPermutation(matches, priority, separate);
    UnplacedStart(|matches|, order);
    CapacityMonotone(0, |slots|, courts);
    assert Placed(matches, order, slots, courts, 0) == [];
  }

  /** A slot about to be filled: the placed matches fill exactly the slots before it, some are pending,
      and all of its courts are free. */
  lemma SlotStart(matches: seq<Match>, order: seq<nat>, slots: seq<int>, k: nat, courts: int,
                  scheduled: seq<Match>, unscheduled: seq<nat>)
    requires SlotLoop(matches, order, slots, courts, k, scheduled, unscheduled)
    requires unscheduled != [] && k < |slots|
    ensures |scheduled| == Capacity(k, courts) && |scheduled| < |matches|
    ensures Filling(matches, order, slots, k, courts, |scheduled|, scheduled, unscheduled, FreeCourts(0, courts))
  {
    UnplacedDone(|matches|, order, |scheduled|);
    CapacityMonotone(k + 1, |slots|, courts);
    UnplacedBounds(|matches|, order, |scheduled|);
  }

  /** When the slot loop stops, every match is placed or every slot is used: either way the first
      min(matches, cells) matches of the order are placed. */
  lemma SlotLoopEnd(matches: seq<Match>, order: seq<nat>, slots: seq<int>, courts: int, idx: nat,
                    scheduled: seq<Match>, unscheduled: seq<nat>)
    requires SlotLoop(matches, order, slots, courts, idx, scheduled, unscheduled)
    requires unscheduled == [] || idx == |slots|
    ensures |scheduled| == Min(|matches|, Capacity(|slots|, courts))
  {
    UnplacedDone(|matches|, order, |scheduled|);
    CapacityMonotone(idx, |slots|, courts);
  }

  /** The category order lists each label rank below 6 at most once. */
  lemma CategoryOrderRanks(matches: seq<Match>, priority: map<Category, int>)
    ensures var categories := CategoryOrder(matches, priority);
      NoDups(categories) && forall i :: 0 <= i < |categories| ==> categories[i] < 6
  {
    CategoryOrderSorted(matches, priority);
    SortedNoDups(CategoryOrder(matches, priority), CategoryKeys(priority));
  }

  /** Every pending match belongs to a category of the category order. */
  lemma PendingCategoriesListed(matches: seq<Match>, priority: map<Category, int>, q: nat, unscheduled: seq<nat>)
    requires q <= |matches| && unscheduled == Unplaced(|matches|, Order(matches, priority, true), q)
    requires forall i :: 0 <= i < |unscheduled| ==> unscheduled[i] < |matches|
    ensures NoDups(unscheduled)
    ensures forall y :: y in unscheduled ==> LabelRank(matches[y].category) in CategoryOrder(matches, priority)
  {
    UnplacedMembers(matches, priority, true, q);
    forall y | y in unscheduled ensures LabelRank(matches[y].category) in CategoryOrder(matches, priority) {
      MatchCategoryListed(matches, priority, y);
    }
  }

  /** The category of every match is in the category order. */
  lemma MatchCategoryListed(matches: seq<Match>, priority: map<Category, int>, y: nat)
    requires y < |matches|
    ensures LabelRank(matches[y].category) in CategoryOrder(matches, priority)
  {
    CategoryOrderSorted(matches, priority);
    CategoryRoundTrip(matches[y].category);
    assert Present(matches, CategoryOfRank(LabelRank(matches[y].category)));
  }

  /** In category-first mode the pending matches, category by category and each category sorted, are
      the rest of the order. */
  lemma SeparateRest(matches: seq<Match>, priority: map<Category, int>, categories: seq<nat>, q: nat,
                     unscheduled: seq<nat>)
    requires categories == CategoryOrder(matches, priority) && q <= |matches|
    requires unscheduled == Unplaced(|matches|, Order(matches, priority, true), q)
    requires forall i :: 0 <= i < |unscheduled| ==> unscheduled[i] < |matches|
    ensures NoDups(categories) && forall i :: 0 <= i < |categories| ==> categories[i] < 6
    ensures Order(matches, priority, true)[q..] == CatConcat(categories, unscheduled, matches, MatchKeys(matches, priority, true))
  {
    CategoryOrderRanks(matches, priority);
    CategoryOrderSorted(matches, priority);
    PendingCategoriesListed(matches, priority, q, unscheduled);
    CatConcatIsSort(categories, unscheduled, matches, priority);
    SuffixSort(matches, priority, true, q);
  }

  /** Category-first mode, one turn of the slot loop: fill the slot, then move to the next one. */
  method SeparateSlot(matches: seq<Match>, priority: map<Category, int>, categories: seq<nat>,
                      timeSlots: seq<int>, courts: int, currentSlotIdx: nat, scheduled: seq<Match>,
                      unscheduled: seq<nat>, ghost order: seq<nat>)
    returns (nextSlotIdx: nat, scheduled': seq<Match>, unscheduled': seq<nat>)
    requires categories == CategoryOrder(matches, priority) && order == Order(matches, priority, true)
    requires SlotLoop(matches, order, timeSlots, courts, currentSlotIdx, scheduled, unscheduled)
    requires unscheduled != [] && currentSlotIdx < |timeSlots|
    ensures SlotLoop(matches, order, timeSlots, courts, nextSlotIdx, scheduled', unscheduled')
    ensures nextSlotIdx == currentSlotIdx + 1
  {
    SlotStart(matches, order, timeSlots, currentSlotIdx, courts, scheduled, unscheduled);
    SeparateRest(matches, priority, categories, |scheduled|, unscheduled);
    var matchesScheduledThisSlot, availableCourts;
    unscheduled', scheduled', matchesScheduledThisSlot, availableCourts :=
      FillSlotSeparate(matches, priority, categories, timeSlots, currentSlotIdx, courts, unscheduled, scheduled, order);
    nextSlotIdx := currentSlotIdx;
    if matchesScheduledThisSlot || availableCourts == [] {
      nextSlotIdx := currentSlotIdx + 1;
    }
  }

  /** Interleaved mode, one turn of the slot loop: fill the slot, then move to the next one. */
  method InterleavedSlot(matches: seq<Match>, priority: map<Category, int>, timeSlots: seq<int>, courts: int,
                         currentSlotIdx: nat, scheduled: seq<Match>, unscheduled: seq<nat>, ghost order: seq<nat>)
    returns (nextSlotIdx: nat, scheduled': seq<Match>, unscheduled': seq<nat>)
    requires order == Order(matches, priority, false)
    requires SlotLoop(matches, order, timeSlots, courts, currentSlotIdx, scheduled, unscheduled)
    requires unscheduled != [] && currentSlotIdx < |timeSlots|
    ensures SlotLoop(matches, order, timeSlots, courts, nextSlotIdx, scheduled', unscheduled')
    ensures nextSlotIdx == currentSlotIdx + 1
  {
    SlotStart(matches, order, timeSlots, currentSlotIdx, courts, scheduled, unscheduled);
    SuffixSort(matches, priority, false, |scheduled|);
    var matchesScheduledThisSlot, availableCourts;
    unscheduled', scheduled', matchesScheduledThisSlot, availableCourts :=
      FillSlotInterleaved(matches, priority, timeSlots, currentSlotIdx, courts, unscheduled, scheduled, order);
    nextSlotIdx := currentSlotIdx;
    if matchesScheduledThisSlot || availableCourts == [] {
      nextSlotIdx := currentSlotIdx + 1;
    }
  }

  // ---------------------------------------------------------------------
  // The scheduler

  /** Category-first mode: slot after slot while matches are pending. */
  method ScheduleSeparate(matches: seq<Match>, priority: map<Category, int>, categories: seq<nat>,
                          timeSlots: seq<int>, courts: int)
    returns (scheduled: seq<Match>)
    requires categories == CategoryOrder(matches, priority)
    ensures |scheduled| == Min(|matches|, Capacity(|timeSlots|, courts)) && |scheduled| <= Capacity(|timeSlots|, courts)
    ensures scheduled == Placed(matches, Order(matches, priority, true), timeSlots, courts, |scheduled|)
  {
    ghost var order := Order(matches, priority, true);
    scheduled := [];
    var unscheduled := Range(0, |matches|);
    var currentSlotIdx := 0;
    SlotLoopStart(matches, priority, true, timeSlots, courts);
    while unscheduled != [] && currentSlotIdx < |timeSlots|
      invariant SlotLoop(matches, order, timeSlots, courts, currentSlotIdx, scheduled, unscheduled)
      decreases |timeSlots| - currentSlotIdx
    {
      currentSlotIdx, scheduled, unscheduled :=
        SeparateSlot(matches, priority, categories, timeSlots, courts, currentSlotIdx, scheduled, unscheduled, order);
    }
    SlotLoopEnd(matches, order, timeSlots, courts, currentSlotIdx, scheduled, unscheduled);
  }

  /**
    Interleaved mode: slot after slot while matches are pending. The sort
    key reads the priority map, which exists only when a non-empty category
    priority was given: without one the first sort fails.
   */
  method ScheduleInterleaved(matches: seq<Match>, priority: map<Category, int>, timeSlots: seq<int>, courts: int)
    returns (r: Result<seq<Match>, Fault>)
    requires matches != []
    ensures r.Failure? <==> |priority| == 0 && |timeSlots| > 0
    ensures r.Failure? ==> r.error == PriorityMapUnbound
    ensures r.Success? ==>
              |r.value| == Min(|matches|, Capacity(|timeSlots|, courts)) &&
              |r.value| <= Capacity(|timeSlots|, courts) &&
              r.value == Placed(matches, Order(matches, priority, false), timeSlots, courts, |r.value|)
  {
    ghost var order := Order(matches, priority, false);
    var scheduled := [];
    var unscheduled := Range(0, |matches|);
    var currentSlotIdx := 0;
    SlotLoopStart(matches, priority, false, timeSlots, courts);
    while unscheduled != [] && currentSlotIdx < |timeSlots|
      invariant SlotLoop(matches, order, timeSlots, courts, currentSlotIdx, scheduled, unscheduled)
      invariant |priority| == 0 ==> currentSlotIdx == 0
      decreases |timeSlots| - currentSlotIdx
    {
      if |priority| == 0 {
        return Failure(PriorityMapUnbound);
      }
      currentSlotIdx, scheduled, unscheduled :=
        InterleavedSlot(matches, priority, timeSlots, courts, currentSlotIdx, scheduled, unscheduled, order);
    }
    SlotLoopEnd(matches, order, timeSlots, courts, currentSlotIdx, scheduled, unscheduled);
    return Success(scheduled);
  }

  /**
    Schedules the matches (times in minutes since midnight). The category
    priority map is empty when none is given; the interleaved mode then
    fails when it first sorts, and no slots or no courts make the final
    utilisation figure fail.
   */
  method ScheduleMatches(matches: seq<Match>, start: int, end: int, matchDuration: nat, courtsAvailable: int,
                         keepCategoriesSeparate: bool, categoryPriority: map<Category, int>)
    returns (r: Result<seq<Match>, Fault>)
    requires matchDuration > 0
    ensures r == Schedule(matches, start, end, matchDuration, courtsAvailable, keepCategoriesSeparate, categoryPriority)
  {
    if matches == [] {
      return Success([]);
    }
    var timeSlots := TimeSlots(start, end, matchDuration);
    var categories := CategoryOrder(matches, categoryPriority);
    var scheduled;
    if keepCategoriesSeparate {
      scheduled := ScheduleSeparate(matches, categoryPriority, categories, timeSlots, courtsAvailable);
    } else {
      var outcome := ScheduleInterleaved(matches, categoryPriority, timeSlots, courtsAvailable);
      if outcome.Failure? {
        return Failure(outcome.error);
      }
      scheduled := outcome.value;
    }
    if |timeSlots| == 0 || courtsAvailable == 0 {
      return Failure(DivisionByZero);
    }
    scheduled := ByTimeAndCourt(scheduled);
    return Success(scheduled);
  }
}
