/**
  The list operations the scheduler performs on its pending matches (as
  indices into the input list): filtering by category, removing a match,
  the category order of the category-first mode, and the proof that taking
  the categories one after the other, each in key order, is the same as
  taking all pending matches in key order.
 */
module ScheduleLists {
  import opened Domain
  import opened Ordering
  import opened SchedulePlan

  /** The pending matches of category c, in list order. */
  function Filter(u: seq<nat>, matches: seq<Match>, c: Category): (r: seq<nat>)
    requires forall i :: 0 <= i < |u| ==> u[i] < |matches|
    ensures forall i :: 0 <= i < |r| ==> r[i] < |matches|
    ensures forall y :: y in r <==> y in u && matches[y].category == c
  {
    if u == [] then []
    else (if matches[u[0]].category == c then [u[0]] else []) + Filter(u[1..], matches, c)
  }

  /** The list without the first occurrence of x. */
  function Remove(u: seq<nat>, x: nat): seq<nat>
  {
    if u == [] then []
    else if u[0] == x then u[1..]
    else [u[0]] + Remove(u[1..], x)
  }

  lemma {:induction false} FilterNoDups(u: seq<nat>, matches: seq<Match>, c: Category)
    requires forall i :: 0 <= i < |u| ==> u[i] < |matches|
    requires NoDups(u)
    ensures NoDups(Filter(u, matches, c))
  {
    if u != [] {
      assert NoDups(u[1..]) by {
        forall i, j | 0 <= i < j < |u[1..]| ensures u[1..][i] != u[1..][j] {
          assert u[1..][i] == u[i + 1] && u[1..][j] == u[j + 1];
        }
      }
      FilterNoDups(u[1..], matches, c);
      assert u[0] !in u[1..] by {
        forall j | 0 <= j < |u[1..]| ensures u[1..][j] != u[0] {
          assert u[1..][j] == u[j + 1];
        }
      }
    }
  }

  /** Removing x from a list without duplicates leaves exactly the other members, still without duplicates. */
  lemma {:induction false} RemoveMembers(u: seq<nat>, x: nat)
    requires NoDups(u)
    ensures NoDups(Remove(u, x)) && |Remove(u, x)| <= |u|
    ensures forall y :: y in Remove(u, x) <==> y in u && y != x
  {
    if u != [] {
      var t := u[1..];
      assert NoDups(t) by {
        forall i, j | 0 <= i < j < |t| ensures t[i] != t[j] {
          assert t[i] == u[i + 1] && t[j] == u[j + 1];
        }
      }
      assert u[0] !in t by {
        forall j | 0 <= j < |t| ensures t[j] != u[0] {
          assert t[j] == u[j + 1];
        }
      }
      assert forall y :: y in u <==> y == u[0] || y in t by {
        assert u == [u[0]] + t;
      }
      if u[0] != x {
        RemoveMembers(t, x);
        var r := Remove(t, x);
        assert NoDups([u[0]] + r) by {
          forall i, j | 0 <= i < j < |[u[0]] + r| ensures ([u[0]] + r)[i] != ([u[0]] + r)[j] {
            assert ([u[0]] + r)[j] == r[j - 1];
            if i > 0 {
              assert ([u[0]] + r)[i] == r[i - 1];
            } else {
              assert r[j - 1] in r;
            }
          }
        }
      }
    }
  }

  /** The list u without the members of gone, in list order. */
  function Without(u: seq<nat>, gone: seq<nat>): (r: seq<nat>)
    ensures |r| <= |u|
  {
    if u == [] then []
    else (if u[0] in gone then [] else [u[0]]) + Without(u[1..], gone)
  }

  lemma NoDupsTail(u: seq<nat>)
    requires NoDups(u) && u != []
    ensures NoDups(u[1..]) && u[0] !in u[1..]
  {
    assert forall i :: 0 <= i < |u[1..]| ==> u[1..][i] == u[i + 1];
  }

  /** Without keeps exactly the members of u that are not gone, without duplicates. */
  lemma {:induction false} WithoutMembers(u: seq<nat>, gone: seq<nat>)
    requires NoDups(u)
    ensures NoDups(Without(u, gone))
    ensures forall y :: y in Without(u, gone) <==> y in u && y !in gone
  {
    if u != [] {
      NoDupsTail(u);
      WithoutMembers(u[1..], gone);
      var h := if u[0] in gone then [] else [u[0]];
      var r := Without(u[1..], gone);
      assert u == [u[0]] + u[1..];
      assert NoDups(h + r) by {
        forall i, j | 0 <= i < j < |h + r| ensures (h + r)[i] != (h + r)[j] {
          assert (h + r)[j] == r[j - |h|];
          if i >= |h| {
            assert (h + r)[i] == r[i - |h|];
          } else {
            assert r[j - |h|] in r;
          }
        }
      }
    }
  }

  /** Removing from u what was never in it changes nothing. */
  lemma {:induction false} WithoutIgnores(u: seq<nat>, gone: seq<nat>, x: nat)
    requires x !in u
    ensures Without(u, gone + [x]) == Without(u, gone)
  {
    if u != [] {
      assert u[0] != x;
      assert u[0] in gone + [x] <==> u[0] in gone;
      assert x !in u[1..] by {
        assert u == [u[0]] + u[1..];
      }
      WithoutIgnores(u[1..], gone, x);
    }
  }

  /** Removing one more member x from the list u without gone is taking x out of gone's complement. */
  lemma {:induction false} RemoveWithout(u: seq<nat>, gone: seq<nat>, x: nat)
    requires NoDups(u) && x !in gone
    ensures Remove(Without(u, gone), x) == Without(u, gone + [x])
  {
    if u != [] {
      NoDupsTail(u);
      var t := u[1..];
      if u[0] in gone {
        assert u[0] in gone + [x];
        assert Without(u, gone) == Without(t, gone);
        assert Without(u, gone + [x]) == Without(t, gone + [x]);
        RemoveWithout(t, gone, x);
      } else if u[0] == x {
        assert u[0] in gone + [x];
        WithoutIgnores(t, gone, x);
      } else {
        assert u[0] !in gone + [x];
        RemoveWithout(t, gone, x);
      }
    }
  }

  /** Taking away everything leaves nothing. */
  lemma {:induction false} WithoutEverything(u: seq<nat>, gone: seq<nat>)
    requires forall i :: 0 <= i < |u| ==> u[i] in gone
    ensures Without(u, gone) == []
  {
    if u != [] {
      WithoutEverything(u[1..], gone);
    }
  }

  /** Nothing gone leaves the list as it is. */
  lemma {:induction false} WithoutNothing(u: seq<nat>)
    ensures Without(u, []) == u
  {
    if u != [] {
      WithoutNothing(u[1..]);
      assert u == [u[0]] + u[1..];
    }
  }

  // ---------------------------------------------------------------------
  // Category order of the category-first mode

  /** Some match is of category c. */
  predicate Present(matches: seq<Match>, c: Category)
  {
    exists i :: 0 <= i < |matches| && matches[i].category == c
  }

  /** For each label rank, whether a match of that category occurs. */
  function Occurring(matches: seq<Match>): (present: seq<bool>)
    ensures |present| == 6
  {
    seq(6, x requires 0 <= x < 6 => Present(matches, CategoryOfRank(x)))
  }

  /** The ranks r, r+1, ..., 5 marked present, ascending. */
  function RanksFrom(present: seq<bool>, r: nat): seq<nat>
    requires r <= 6 == |present|
    decreases 6 - r
  {
    if r == 6 then []
    else (if present[r] then [r] else []) + RanksFrom(present, r + 1)
  }

  /** RanksFrom lists ranks from r to 5, strictly ascending. */
  lemma {:induction false} RanksFromSorted(present: seq<bool>, r: nat)
    requires r <= 6 == |present|
    ensures forall i :: 0 <= i < |RanksFrom(present, r)| ==> r <= RanksFrom(present, r)[i] < 6
    ensures forall i, j :: 0 <= i < j < |RanksFrom(present, r)| ==> RanksFrom(present, r)[i] < RanksFrom(present, r)[j]
    decreases 6 - r
  {
    if r < 6 {
      var head: seq<nat> := if present[r] then [r] else [];
      var rest := RanksFrom(present, r + 1);
      RanksFromSorted(present, r + 1);
      assert RanksFrom(present, r) == head + rest;
    }
  }

  /** RanksFrom lists exactly the ranks from r on that are marked present. */
  lemma {:induction false} RanksFromMember(present: seq<bool>, r: nat, x: int)
    requires r <= 6 == |present|
    ensures x in RanksFrom(present, r) <==> r <= x < 6 && present[x]
    decreases 6 - r
  {
    if r < 6 {
      RanksFromMember(present, r + 1, x);
    }
  }

  /** RanksFrom lists, strictly ascending, exactly the ranks from r on that are marked present. */
  lemma RanksFromFacts(present: seq<bool>, r: nat)
    requires r <= 6 == |present|
    ensures var rs := RanksFrom(present, r);
      (forall i :: 0 <= i < |rs| ==> r <= rs[i] < 6) &&
      (forall i, j :: 0 <= i < j < |rs| ==> rs[i] < rs[j]) &&
      (forall x :: x in rs <==> r <= x < 6 && present[x])
  {
    RanksFromSorted(present, r);
    forall x ensures x in RanksFrom(present, r) <==> r <= x < 6 && present[x] {
      RanksFromMember(present, r, x);
    }
  }

  /** The distinct categories of the matches in ascending label order, as label ranks. */
  function ByName(matches: seq<Match>): (rs: seq<nat>)
    ensures forall i :: 0 <= i < |rs| ==> rs[i] < 6
    ensures forall i, j :: 0 <= i < j < |rs| ==> rs[i] < rs[j]
    ensures forall x :: x in rs <==> x < 6 && Present(matches, CategoryOfRank(x))
  {
    RanksFromFacts(Occurring(matches), 0);
    RanksFrom(Occurring(matches), 0)
  }

  /** The key of a category in the category order: its priority, then its label rank. */
  function CategoryKeys(priority: map<Category, int>): (keys: seq<SortKey>)
    ensures |keys| == 6 && Positional(keys)
  {
    seq(6, r requires 0 <= r < 6 => SortKey(Prio(CategoryOfRank(r), priority), 0, 0, 0, r))
  }

  /** The categories by name, then stably re-sorted by priority when a priority map is given. */
  function CategoryOrder(matches: seq<Match>, priority: map<Category, int>): (cats: seq<nat>)
    ensures Indexes(cats, CategoryKeys(priority))
  {
    if |priority| > 0 then SortBy(ByName(matches), CategoryKeys(priority)) else ByName(matches)
  }

  /** The category order lists every category that occurs, once, ascending by (priority, label). */
  lemma CategoryOrderSorted(matches: seq<Match>, priority: map<Category, int>)
    ensures SortedBy(CategoryOrder(matches, priority), CategoryKeys(priority))
    ensures forall x :: x in CategoryOrder(matches, priority) <==> x < 6 && Present(matches, CategoryOfRank(x))
  {
    var names := ByName(matches);
    var keys := CategoryKeys(priority);
    assert NoDups(names);
    if |priority| > 0 {
      var cats := SortBy(names, keys);
      forall x ensures x in cats <==> x in names {
        MembersOfPermutation(cats, names, x);
      }
    } else {
      forall i, j | 0 <= i < j < |names| ensures KeyLess(keys[names[i]], keys[names[j]]) {
      }
    }
  }

  // ---------------------------------------------------------------------
  // Category by category equals all at once

  /** The pending matches of the categories in cats, category after category, each in key order. */
  function CatConcat(cats: seq<nat>, u: seq<nat>, matches: seq<Match>, keys: seq<SortKey>): (r: seq<nat>)
    requires forall i :: 0 <= i < |cats| ==> cats[i] < 6
    requires forall i :: 0 <= i < |u| ==> u[i] < |matches|
    requires |keys| == |matches|
    ensures Indexes(r, keys)
  {
    if cats == [] then []
    else
      var block := Filter(u, matches, CategoryOfRank(cats[0]));
      SortBy(block, keys) + CatConcat(cats[1..], u, matches, keys)
  }

  lemma SortedAppend(a: seq<nat>, b: seq<nat>, keys: seq<SortKey>)
    requires Indexes(a, keys) && Indexes(b, keys) && SortedBy(a, keys) && SortedBy(b, keys)
    requires forall x, y :: x in a && y in b ==> KeyLess(keys[x], keys[y])
    ensures Indexes(a + b, keys) && SortedBy(a + b, keys)
  {
    var s := a + b;
    forall i, j | 0 <= i < j < |s| ensures KeyLess(keys[s[i]], keys[s[j]]) {
      if j < |a| {
        assert s[i] == a[i] && s[j] == a[j];
      } else if i >= |a| {
        assert s[i] == b[i - |a|] && s[j] == b[j - |a|];
      } else {
        assert s[i] == a[i] && s[j] == b[j - |a|];
        assert a[i] in a && b[j - |a|] in b;
      }
    }
  }

  /** Matches of a category earlier in the category order come first in the category-first key order. */
  lemma CategoryKeyOrdersMatches(matches: seq<Match>, priority: map<Category, int>, x: nat, y: nat)
    requires x < |matches| && y < |matches|
    requires KeyLess(CategoryKeys(priority)[LabelRank(matches[x].category)],
                     CategoryKeys(priority)[LabelRank(matches[y].category)])
    ensures KeyLess(MatchKeys(matches, priority, true)[x], MatchKeys(matches, priority, true)[y])
  {
    CategoryRoundTrip(matches[x].category);
    CategoryRoundTrip(matches[y].category);
  }

  lemma CategoryRoundTrip(c: Category)
    ensures CategoryOfRank(LabelRank(c)) == c
  {
  }

  /** The concatenation holds exactly the pending matches whose categories are listed. */
  lemma {:induction false} CatConcatMembers(cats: seq<nat>, u: seq<nat>, matches: seq<Match>, keys: seq<SortKey>)
    requires forall i :: 0 <= i < |cats| ==> cats[i] < 6
    requires forall i :: 0 <= i < |u| ==> u[i] < |matches|
    requires |keys| == |matches|
    ensures forall y :: y in CatConcat(cats, u, matches, keys) <==> y in u && LabelRank(matches[y].category) in cats
  {
    if cats != [] {
      var filtered := Filter(u, matches, CategoryOfRank(cats[0]));
      var block := SortBy(filtered, keys);
      CatConcatMembers(cats[1..], u, matches, keys);
      forall y ensures y in CatConcat(cats, u, matches, keys) <==> y in u && LabelRank(matches[y].category) in cats {
        MembersOfPermutation(block, filtered, y);
        assert cats == [cats[0]] + cats[1..];
        if y in u {
          CategoryRoundTrip(matches[y].category);
        }
      }
    }
  }

  /** With the categories in key order, the concatenation is sorted by match key. */
  lemma {:induction false} CatConcatSorted(cats: seq<nat>, u: seq<nat>, matches: seq<Match>, priority: map<Category, int>)
    requires forall i :: 0 <= i < |cats| ==> cats[i] < 6
    requires forall i :: 0 <= i < |u| ==> u[i] < |matches|
    requires NoDups(u) && SortedBy(cats, CategoryKeys(priority))
    ensures SortedBy(CatConcat(cats, u, matches, MatchKeys(matches, priority, true)), MatchKeys(matches, priority, true))
  {
    var keys := MatchKeys(matches, priority, true);
    var catKeys := CategoryKeys(priority);
    if cats != [] {
      var c := CategoryOfRank(cats[0]);
      var filtered := Filter(u, matches, c);
      var block := SortBy(filtered, keys);
      var rest := CatConcat(cats[1..], u, matches, keys);
      assert SortedBy(cats[1..], catKeys) by {
        forall i, j | 0 <= i < j < |cats[1..]| ensures KeyLess(catKeys[cats[1..][i]], catKeys[cats[1..][j]]) {
          assert cats[1..][i] == cats[i + 1] && cats[1..][j] == cats[j + 1];
        }
      }
      CatConcatSorted(cats[1..], u, matches, priority);
      CatConcatMembers(cats[1..], u, matches, keys);
      FilterNoDups(u, matches, c);
      forall x, y | x in block && y in rest ensures KeyLess(keys[x], keys[y]) {
        MembersOfPermutation(block, filtered, x);
        BlockBeforeRest(cats, matches, priority, x, y);
      }
      SortedAppend(block, rest, keys);
    }
  }

  /** A match of the first listed category sorts before a match of a later one. */
  lemma BlockBeforeRest(cats: seq<nat>, matches: seq<Match>, priority: map<Category, int>, x: nat, y: nat)
    requires forall i :: 0 <= i < |cats| ==> cats[i] < 6
    requires SortedBy(cats, CategoryKeys(priority)) && cats != []
    requires x < |matches| && matches[x].category == CategoryOfRank(cats[0])
    requires y < |matches| && LabelRank(matches[y].category) in cats[1..]
    ensures KeyLess(MatchKeys(matches, priority, true)[x], MatchKeys(matches, priority, true)[y])
  {
    var ry := LabelRank(matches[y].category);
    var j :| 0 <= j < |cats[1..]| && cats[1..][j] == ry;
    assert cats[j + 1] == ry;
    assert KeyLess(CategoryKeys(priority)[cats[0]], CategoryKeys(priority)[cats[j + 1]]);
    CategoryRoundTrip(matches[x].category);
    CategoryKeyOrdersMatches(matches, priority, x, y);
  }

  /** Taking the categories one after the other, each in key order, is taking all pending matches in key
      order, when every pending match's category is listed. */
  lemma CatConcatIsSort(cats: seq<nat>, u: seq<nat>, matches: seq<Match>, priority: map<Category, int>)
    requires forall i :: 0 <= i < |cats| ==> cats[i] < 6
    requires forall i :: 0 <= i < |u| ==> u[i] < |matches|
    requires NoDups(u) && SortedBy(cats, CategoryKeys(priority))
    requires forall y :: y in u ==> LabelRank(matches[y].category) in cats
    ensures var keys := MatchKeys(matches, priority, true);
      CatConcat(cats, u, matches, keys) == SortBy(u, keys)
  {
    var keys := MatchKeys(matches, priority, true);
    var cc := CatConcat(cats, u, matches, keys);
    var sorted := SortBy(u, keys);
    CatConcatSorted(cats, u, matches, priority);
    CatConcatMembers(cats, u, matches, keys);
    SortedNoDups(cc, keys);
    SortedNoDups(sorted, keys);
    forall y ensures y in cc <==> y in sorted {
      MembersOfPermutation(sorted, u, y);
    }
    NoDupsSameMultiset(cc, sorted);
    SortedUnique(cc, sorted, keys);
  }

  /** The concatenation depends only on which matches of the listed categories are pending. */
  lemma {:induction false} CatConcatSameMembers(cats: seq<nat>, u: seq<nat>, v: seq<nat>, matches: seq<Match>,
                                                keys: seq<SortKey>)
    requires |keys| == |matches| && Positional(keys)
    requires forall i :: 0 <= i < |cats| ==> cats[i] < 6
    requires forall i :: 0 <= i < |u| ==> u[i] < |matches|
    requires forall i :: 0 <= i < |v| ==> v[i] < |matches|
    requires NoDups(u) && NoDups(v)
    requires forall y :: 0 <= y < |matches| && LabelRank(matches[y].category) in cats ==> (y in u <==> y in v)
    ensures CatConcat(cats, u, matches, keys) == CatConcat(cats, v, matches, keys)
  {
    if cats != [] {
      var c := CategoryOfRank(cats[0]);
      FilterNoDups(u, matches, c);
      FilterNoDups(v, matches, c);
      forall y ensures y in Filter(u, matches, c) <==> y in Filter(v, matches, c) {
        if y in Filter(u, matches, c) || y in Filter(v, matches, c) {
          CategoryRoundTrip(matches[y].category);
          assert cats[0] in cats;
        }
      }
      SortBySameElements(Filter(u, matches, c), Filter(v, matches, c), keys);
      forall y | 0 <= y < |matches| && LabelRank(matches[y].category) in cats[1..] ensures y in u <==> y in v {
        assert LabelRank(matches[y].category) in cats;
      }
      CatConcatSameMembers(cats[1..], u, v, matches, keys);
    }
  }
}
