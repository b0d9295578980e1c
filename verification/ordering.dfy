/**
  Sorting by a composite key. Every `sorted(..., key=...)` of the engine is a
  stable sort of a list that is already in input order; sorting by the key
  with the input position as the last component gives the same order, and
  makes all keys distinct. Sequences to sort are sequences of indices into a
  table of keys.
 */
module Ordering {

  /** A composite sort key, compared component by component; `pos` breaks every tie. */
  datatype SortKey = SortKey(first: int, second: int, third: int, fourth: int, pos: int)

  predicate KeyLess(a: SortKey, b: SortKey)
  {
    a.first < b.first || (a.first == b.first &&
    (a.second < b.second || (a.second == b.second &&
    (a.third < b.third || (a.third == b.third &&
    (a.fourth < b.fourth || (a.fourth == b.fourth && a.pos < b.pos)))))))
  }

  /** Every element of `s` has a key. */
  predicate Indexes(s: seq<nat>, keys: seq<SortKey>)
  {
    forall i :: 0 <= i < |s| ==> s[i] < |keys|
  }

  /** The key of index i carries i as its tie breaker. */
  predicate Positional(keys: seq<SortKey>)
  {
    forall i :: 0 <= i < |keys| ==> keys[i].pos == i
  }

  predicate NoDups(s: seq<nat>)
  {
    forall i, j :: 0 <= i < j < |s| ==> s[i] != s[j]
  }

  /** Strictly ascending by key. */
  predicate SortedBy(s: seq<nat>, keys: seq<SortKey>)
    requires Indexes(s, keys)
  {
    forall i, j :: 0 <= i < j < |s| ==> KeyLess(keys[s[i]], keys[s[j]])
  }

  /** The indices lo, lo+1, ..., hi-1. */
  function Range(lo: nat, hi: nat): (r: seq<nat>)
    requires lo <= hi
    ensures |r| == hi - lo
    ensures forall i :: 0 <= i < |r| ==> r[i] == lo + i
  {
    seq(hi - lo, i requires 0 <= i < hi - lo => lo + i)
  }

  lemma KeyLessTotal(a: SortKey, b: SortKey)
    requires a.pos != b.pos
    ensures KeyLess(a, b) || KeyLess(b, a)
  {
  }

  lemma KeyLessAsymmetric(a: SortKey, b: SortKey)
    ensures !(KeyLess(a, b) && KeyLess(b, a))
  {
  }

  /** Inserts x in front of the first element whose key is larger. */
  function Insert(x: nat, s: seq<nat>, keys: seq<SortKey>): (r: seq<nat>)
    requires x < |keys| && Indexes(s, keys)
    ensures |r| == |s| + 1 && Indexes(r, keys) && multiset(r) == multiset(s) + multiset{x}
  {
    if s == [] then [x]
    else if KeyLess(keys[x], keys[s[0]]) then [x] + s
    else
      assert s == [s[0]] + s[1..];
      [s[0]] + Insert(x, s[1..], keys)
  }

  /** A sorted sequence with a smaller element in front is sorted. */
  lemma SortedCons(h: nat, t: seq<nat>, keys: seq<SortKey>)
    requires h < |keys| && Indexes(t, keys) && SortedBy(t, keys)
    requires forall y :: y in t ==> KeyLess(keys[h], keys[y])
    ensures Indexes([h] + t, keys) && SortedBy([h] + t, keys)
  {
    var r := [h] + t;
    forall i, j | 0 <= i < j < |r| ensures KeyLess(keys[r[i]], keys[r[j]]) {
      assert r[j] == t[j - 1];
      if i > 0 {
        assert r[i] == t[i - 1];
      } else {
        assert t[j - 1] in t;
      }
    }
  }

  /** Inserting a new element into a sorted sequence keeps it sorted. */
  lemma {:induction false} InsertSorted(x: nat, s: seq<nat>, keys: seq<SortKey>)
    requires x < |keys| && Indexes(s, keys) && Positional(keys)
    requires SortedBy(s, keys) && x !in s
    ensures SortedBy(Insert(x, s, keys), keys)
  {
    if s == [] {
    } else if KeyLess(keys[x], keys[s[0]]) {
      forall y | y in s ensures KeyLess(keys[x], keys[y]) {
        var j :| 0 <= j < |s| && s[j] == y;
        if j > 0 {
          assert KeyLess(keys[s[0]], keys[s[j]]);
        }
      }
      SortedCons(x, s, keys);
    } else {
      var tail := s[1..];
      assert s == [s[0]] + tail;
      assert SortedBy(tail, keys) by {
        forall i, j | 0 <= i < j < |tail| ensures KeyLess(keys[tail[i]], keys[tail[j]]) {
          assert tail[i] == s[i + 1] && tail[j] == s[j + 1];
        }
      }
      var rest := Insert(x, tail, keys);
      InsertSorted(x, tail, keys);
      KeyLessTotal(keys[x], keys[s[0]]);
      forall y | y in rest ensures KeyLess(keys[s[0]], keys[y]) {
        assert y in multiset(rest);
        if y != x {
          assert y in multiset(tail);
          var j :| 0 <= j < |tail| && tail[j] == y;
          assert s[j + 1] == y;
        }
      }
      SortedCons(s[0], rest, keys);
    }
  }

  /** Insertion sort by key. */
  function SortBy(s: seq<nat>, keys: seq<SortKey>): (r: seq<nat>)
    requires Indexes(s, keys)
    ensures |r| == |s| && Indexes(r, keys) && multiset(r) == multiset(s)
    ensures Positional(keys) && NoDups(s) ==> SortedBy(r, keys)
  {
    if s == [] then []
    else
      var rest := SortBy(s[1..], keys);
      SortByStep(s, rest, keys);
      Insert(s[0], rest, keys)
  }

  /** Inserting the head into the sorted tail sorts the whole sequence. */
  lemma SortByStep(s: seq<nat>, rest: seq<nat>, keys: seq<SortKey>)
    requires s != [] && Indexes(s, keys) && Indexes(rest, keys) && multiset(rest) == multiset(s[1..])
    requires Positional(keys) && NoDups(s) ==> SortedBy(rest, keys)
    ensures multiset(Insert(s[0], rest, keys)) == multiset(s)
    ensures Positional(keys) && NoDups(s) ==> SortedBy(Insert(s[0], rest, keys), keys)
  {
    assert s == [s[0]] + s[1..];
    if Positional(keys) && NoDups(s) {
      assert s[0] !in s[1..] by {
        forall j | 0 <= j < |s[1..]| ensures s[1..][j] != s[0] {
          assert s[1..][j] == s[j + 1];
        }
      }
      assert s[0] !in rest by {
        assert s[0] in rest <==> s[0] in multiset(rest);
        assert s[0] in s[1..] <==> s[0] in multiset(s[1..]);
      }
      InsertSorted(s[0], rest, keys);
    }
  }

  /** A strictly sorted sequence has no duplicates. */
  lemma SortedNoDups(s: seq<nat>, keys: seq<SortKey>)
    requires Indexes(s, keys) && SortedBy(s, keys)
    ensures NoDups(s)
  {
    forall i, j | 0 <= i < j < |s| ensures s[i] != s[j] {
      KeyLessAsymmetric(keys[s[i]], keys[s[j]]);
    }
  }

  /** Two strictly sorted sequences with the same elements are the same sequence. */
  lemma {:induction false} SortedUnique(a: seq<nat>, b: seq<nat>, keys: seq<SortKey>)
    requires Indexes(a, keys) && Indexes(b, keys)
    requires SortedBy(a, keys) && SortedBy(b, keys)
    requires multiset(a) == multiset(b)
    ensures a == b
  {
    if a != [] && b != [] {
      SortedSameHead(a, b, keys);
      TailMultiset(a, b);
      SortedTail(a, keys);
      SortedTail(b, keys);
      SortedUnique(a[1..], b[1..], keys);
      SameHeadAndTail(a, b);
    }
  }

  /** Equal multisets with equal heads have equal multisets of tails. */
  lemma TailMultiset(a: seq<nat>, b: seq<nat>)
    requires a != [] && b != [] && a[0] == b[0] && multiset(a) == multiset(b)
    ensures multiset(a[1..]) == multiset(b[1..])
  {
    assert a == [a[0]] + a[1..] && b == [b[0]] + b[1..];
    assert multiset(a) == multiset{a[0]} + multiset(a[1..]);
    assert multiset(b) == multiset{b[0]} + multiset(b[1..]);
    assert multiset(a[1..]) == multiset(a) - multiset{a[0]};
    assert multiset(b[1..]) == multiset(b) - multiset{b[0]};
  }

  lemma SameHeadAndTail(a: seq<nat>, b: seq<nat>)
    requires a != [] && b != [] && a[0] == b[0] && a[1..] == b[1..]
    ensures a == b
  {
    assert a == [a[0]] + a[1..] && b == [b[0]] + b[1..];
  }

  /** The least element comes first in both. */
  lemma SortedSameHead(a: seq<nat>, b: seq<nat>, keys: seq<SortKey>)
    requires a != [] && b != []
    requires Indexes(a, keys) && Indexes(b, keys)
    requires SortedBy(a, keys) && SortedBy(b, keys)
    requires multiset(a) == multiset(b)
    ensures a[0] == b[0]
  {
    assert a[0] in multiset(b) && b[0] in multiset(a);
    var j :| 0 <= j < |b| && b[j] == a[0];
    var i :| 0 <= i < |a| && a[i] == b[0];
    var ka, kb := keys[a[0]], keys[b[0]];
    assert j != 0 ==> KeyLess(kb, ka);
    assert i != 0 ==> KeyLess(ka, kb);
    KeyLessAsymmetric(ka, kb);
  }

  /** In a strictly sorted sequence, an element with a smaller key comes earlier. */
  lemma SortedPosition(s: seq<nat>, keys: seq<SortKey>, p: nat, q: nat)
    requires Indexes(s, keys) && SortedBy(s, keys) && p < |s| && q < |s|
    requires KeyLess(keys[s[p]], keys[s[q]])
    ensures p < q
  {
    if q < p {
      KeyLessAsymmetric(keys[s[p]], keys[s[q]]);
    }
  }

  lemma SortedTail(s: seq<nat>, keys: seq<SortKey>)
    requires s != [] && Indexes(s, keys) && SortedBy(s, keys)
    ensures Indexes(s[1..], keys) && SortedBy(s[1..], keys)
  {
    var t := s[1..];
    forall i, j | 0 <= i < j < |t| ensures KeyLess(keys[t[i]], keys[t[j]]) {
      assert t[i] == s[i + 1] && t[j] == s[j + 1];
    }
  }

  /** Without duplicates, an element occurs once or not at all. */
  lemma {:induction false} NoDupsCount(s: seq<nat>, x: nat)
    requires NoDups(s)
    ensures multiset(s)[x] == if x in s then 1 else 0
  {
    if s != [] {
      var t := s[1..];
      assert s == [s[0]] + t;
      assert NoDups(t) by {
        forall i, j | 0 <= i < j < |t| ensures t[i] != t[j] {
          assert t[i] == s[i + 1] && t[j] == s[j + 1];
        }
      }
      assert s[0] !in t by {
        forall j | 0 <= j < |t| ensures t[j] != s[0] {
          assert t[j] == s[j + 1];
        }
      }
      NoDupsCount(t, x);
    }
  }

  /** Sequences without duplicates and with the same members have the same multiset. */
  lemma NoDupsSameMultiset(s: seq<nat>, t: seq<nat>)
    requires NoDups(s) && NoDups(t)
    requires forall x :: x in s <==> x in t
    ensures multiset(s) == multiset(t)
  {
    forall x ensures multiset(s)[x] == multiset(t)[x] {
      NoDupsCount(s, x);
      NoDupsCount(t, x);
    }
  }

  /** Sorting a sequence that is already sorted leaves it as it is. */
  lemma SortOfSorted(s: seq<nat>, keys: seq<SortKey>)
    requires Indexes(s, keys) && Positional(keys) && SortedBy(s, keys)
    ensures SortBy(s, keys) == s
  {
    SortedNoDups(s, keys);
    SortedUnique(SortBy(s, keys), s, keys);
  }

  /** The sort depends only on which elements are being sorted. */
  lemma SortBySameElements(s: seq<nat>, t: seq<nat>, keys: seq<SortKey>)
    requires Indexes(s, keys) && Indexes(t, keys) && Positional(keys)
    requires NoDups(s) && NoDups(t)
    requires forall x :: x in s <==> x in t
    ensures SortBy(s, keys) == SortBy(t, keys)
  {
    NoDupsSameMultiset(s, t);
    SortedUnique(SortBy(s, keys), SortBy(t, keys), keys);
  }
}
