/**
  What the circle method guarantees about the fixtures of one group: every
  pair of teams meets exactly once, nobody meets themselves or the bye, every
  round has floor(n/2) matches and nobody plays twice in a round, rounds come
  in order, and there are n(n-1)/2 matches in all.
 */
module RoundRobinFacts {
  import opened Domain
  import opened RoundRobin

  /** Team ids are pairwise distinct (teams are numbered 1..T when created). */
  predicate DistinctIds(teams: seq<Team>)
  {
    forall i, j :: 0 <= i < j < |teams| ==> teams[i].id != teams[j].id
  }

  /** What is being counted in a list of matches. */
  datatype Query =
    | Meeting(x: nat, y: nat)          // a match between x and y, either way round
    | Playing(x: nat, roundNum: nat)   // a match of x in the given round
    | InRound(roundNum: nat)           // a match of the given round

  predicate Hits(q: Query, mt: Match)
  {
    match q
    case Meeting(x, y) => (mt.team1 == x && mt.team2 == y) || (mt.team1 == y && mt.team2 == x)
    case Playing(x, rn) => mt.roundNum == rn && (mt.team1 == x || mt.team2 == x)
    case InRound(rn) => mt.roundNum == rn
  }

  /** The number of matches in ms that the query picks out. */
  function Count(ms: seq<Match>, q: Query): (c: nat)
    ensures c <= |ms|
  {
    if ms == [] then 0 else Count(ms[..|ms| - 1], q) + (if Hits(q, ms[|ms| - 1]) then 1 else 0)
  }

  lemma {:induction false} CountAppend(a: seq<Match>, b: seq<Match>, q: Query)
    ensures Count(a + b, q) == Count(a, q) + Count(b, q)
  {
    if b == [] {
      assert a + b == a;
    } else {
      assert (a + b)[..|a + b| - 1] == a + b[..|b| - 1];
      CountAppend(a, b[..|b| - 1], q);
    }
  }

  lemma {:induction false} CountNone(ms: seq<Match>, q: Query)
    requires forall k :: 0 <= k < |ms| ==> !Hits(q, ms[k])
    ensures Count(ms, q) == 0
  {
    if ms != [] {
      CountNone(ms[..|ms| - 1], q);
    }
  }

  lemma {:induction false} CountAll(ms: seq<Match>, q: Query)
    requires forall k :: 0 <= k < |ms| ==> Hits(q, ms[k])
    ensures Count(ms, q) == |ms|
  {
    if ms != [] {
      CountAll(ms[..|ms| - 1], q);
    }
  }

  // ---------------------------------------------------------------------
  // Where each team sits in each round

  /** In round r (0-based) the list holds at position j the entry that started at Src(m, r, j). */
  lemma EntryAt(teams: seq<Team>, r: nat, j: nat)
    requires 2 <= |teams| && r < |Pad(teams)| - 1 && j < |Pad(teams)|
    ensures Rotated(Pad(teams), r)[j] == Pad(teams)[Src(|Pad(teams)|, r, j)]
  {
  }

  /** With distinct ids, team a is found in round r exactly at position Pos(m, r, a). */
  lemma IdAt(teams: seq<Team>, r: nat, j: nat, a: nat)
    requires 2 <= |teams| && DistinctIds(teams) && a < |teams|
    requires r < |Pad(teams)| - 1 && j < |Pad(teams)|
    ensures var e := Rotated(Pad(teams), r)[j];
      (e.Some? && e.value.id == teams[a].id) <==> j == Pos(|Pad(teams)|, r, a)
  {
    var p := Pad(teams);
    var m := |p|;
    EntryAt(teams, r, j);
    var s := Src(m, r, j);
    if s < |teams| {
      assert p[s] == Some(teams[s]);
      assert teams[s].id == teams[a].id <==> s == a by {
        if s < a {
          assert teams[s].id != teams[a].id;
        } else if a < s {
          assert teams[a].id != teams[s].id;
        }
      }
    } else {
      assert p[s] == None;
    }
    PosSrcInverse(m, r, a, j);
  }

  /** The bye (present only for an odd count) sits in round r at position Pos(m, r, m-1). */
  lemma ByeAt(teams: seq<Team>, r: nat, j: nat)
    requires 2 <= |teams| && r < |Pad(teams)| - 1 && j < |Pad(teams)|
    ensures var m := |Pad(teams)|;
      Rotated(Pad(teams), r)[j].None? <==> (|teams| % 2 == 1 && j == Pos(m, r, m - 1))
  {
    var p := Pad(teams);
    var m := |p|;
    EntryAt(teams, r, j);
    var s := Src(m, r, j);
    if s < |teams| {
      assert p[s] == Some(teams[s]);
    } else {
      assert p[s] == None;
    }
    PosSrcInverse(m, r, m - 1, j);
  }

  /** Distinct starting positions stay distinct in every round. */
  lemma PosInjective(m: nat, r: nat, a: nat, b: nat)
    requires 1 <= m && r <= m - 1 && a < m && b < m && a != b
    ensures Pos(m, r, a) != Pos(m, r, b)
  {
    PosSrcInverse(m, r, a, Pos(m, r, a));
    PosSrcInverse(m, r, b, Pos(m, r, a));
  }

  // ---------------------------------------------------------------------
  // The round in which two starting positions meet

  /** Positions a and b face each other in round r. */
  predicate Facing(m: nat, r: nat, a: nat, b: nat)
    requires 1 <= m && r <= m - 1 && a < m && b < m
  {
    Pos(m, r, a) + Pos(m, r, b) == m - 1
  }

  /** The one round (0-based) in which starting positions a and b face each other. */
  function MeetingRound(m: nat, a: nat, b: nat): (r: nat)
    requires 2 <= m && m % 2 == 0 && a < m && b < m && a != b
    ensures r < m - 1
  {
    var k := m - 1;
    if a == 0 then k - b
    else if b == 0 then k - a
    else
      var s := (a - 1) + (b - 1);
      if s % 2 == 1 then
        if s <= k - 2 then (k - 2 - s) / 2 else (3 * k - 2 - s) / 2
      else (2 * k - 2 - s) / 2
  }

  /** Two different starting positions face each other in their meeting round and in no other. */
  lemma FacingIffMeetingRound(m: nat, r: nat, a: nat, b: nat)
    requires 2 <= m && m % 2 == 0 && a < m && b < m && a != b && r < m - 1
    ensures Facing(m, r, a, b) <==> r == MeetingRound(m, a, b)
  {
    if a == 0 {
      FacingFixed(m, r, b);
    } else if b == 0 {
      FacingFixed(m, r, a);
    } else {
      FacingOnRing(m, r, a, b);
    }
  }

  /** The fixed entry faces position b in round m - 1 - b only. */
  lemma FacingFixed(m: nat, r: nat, b: nat)
    requires 2 <= m && 0 < b < m && r < m - 1
    ensures Pos(m, r, 0) + Pos(m, r, b) == m - 1 <==> r == m - 1 - b
  {
  }

  /** Two ring positions a and b, each moved r steps (less m - 1 for every wrap), sum to m - 1 exactly in
      their meeting round. */
  lemma FacingOnRing(m: nat, r: nat, a: nat, b: nat)
    requires 2 <= m && m % 2 == 0 && 0 < a < m && 0 < b < m && a != b && r < m - 1
    ensures Facing(m, r, a, b) <==> r == MeetingRound(m, a, b)
  {
    var k := m - 1;
    var s := (a - 1) + (b - 1);
    var twice := MeetingRoundTwice(m, a, b);
    var pa, pb := Pos(m, r, a), Pos(m, r, b);
    if a + r < m && b + r < m {
      assert pa + pb == s + 2 + 2 * r;
    } else if a + r >= m && b + r >= m {
      assert pa + pb == s + 2 + 2 * r - 2 * k;
    } else {
      assert pa + pb == s + 2 + 2 * r - k;
    }
  }

  /** Twice the meeting round of ring positions a and b, by the parity of (a - 1) + (b - 1). */
  lemma MeetingRoundTwice(m: nat, a: nat, b: nat) returns (twice: int)
    requires 2 <= m && m % 2 == 0 && 0 < a < m && 0 < b < m && a != b
    ensures twice == 2 * MeetingRound(m, a, b)
    ensures var k, s := m - 1, (a - 1) + (b - 1);
      if s % 2 == 1 then
        if s <= k - 2 then twice == k - 2 - s else twice == 3 * k - 2 - s
      else twice == 2 * k - 2 - s
  {
    twice := 2 * MeetingRound(m, a, b);
  }

  // ---------------------------------------------------------------------
  // One round

  /** A pairing counts once exactly when both entries are teams and their match is picked out. */
  lemma CountPairing(e1: Option<Team>, e2: Option<Team>, g: nat, rn: nat, q: Query)
    ensures Count(Pairing(e1, e2, g, rn), q) ==
      if e1.Some? && e2.Some? && Hits(q, Match(e1.value.id, e2.value.id, g, rn, e1.value.category, None, None))
      then 1 else 0
  {
    var pr := Pairing(e1, e2, g, rn);
    if pr != [] {
      assert pr[..0] == [];
    }
  }

  /** The pairing of positions j1 and j2 is the meeting of x and y when those sit at exactly those positions. */
  lemma PairingMeets(e1: Option<Team>, e2: Option<Team>, g: nat, rn: nat, x: nat, y: nat,
                     j1: nat, j2: nat, u: nat, v: nat)
    requires (e1.Some? && e1.value.id == x) <==> j1 == u
    requires (e2.Some? && e2.value.id == x) <==> j2 == u
    requires (e1.Some? && e1.value.id == y) <==> j1 == v
    requires (e2.Some? && e2.value.id == y) <==> j2 == v
    ensures Count(Pairing(e1, e2, g, rn), Meeting(x, y)) ==
      if (u == j1 && v == j2) || (v == j1 && u == j2) then 1 else 0
  {
    CountPairing(e1, e2, g, rn, Meeting(x, y));
  }

  /** Pair i - 1 adds nothing to the count of x's matches when x sits elsewhere. */
  lemma PrefixStepNone(t: seq<Option<Team>>, g: nat, rn: nat, i: nat, x: nat, rn': nat)
    requires 0 < i <= |t| / 2 && !InPair(t, x, i)
    ensures Count(RoundPrefix(t, g, rn, i), Playing(x, rn')) == Count(RoundPrefix(t, g, rn, i - 1), Playing(x, rn'))
  {
    PairingNone(t[i - 1], t[|t| - i], g, rn, x, rn');
    CountAppend(RoundPrefix(t, g, rn, i - 1), Pairing(t[i - 1], t[|t| - i], g, rn), Playing(x, rn'));
  }

  /** Pair i - 1 adds at most one match to any count. */
  lemma PrefixStepAtMostOne(t: seq<Option<Team>>, g: nat, rn: nat, i: nat, q: Query)
    requires 0 < i <= |t| / 2
    ensures Count(RoundPrefix(t, g, rn, i), q) <= Count(RoundPrefix(t, g, rn, i - 1), q) + 1
  {
    CountPairing(t[i - 1], t[|t| - i], g, rn, q);
    CountAppend(RoundPrefix(t, g, rn, i - 1), Pairing(t[i - 1], t[|t| - i], g, rn), q);
  }

  /** A pair without x holds no match of x. */
  lemma PairingNone(e1: Option<Team>, e2: Option<Team>, g: nat, rn: nat, x: nat, rn': nat)
    requires !Holds(e1, x) && !Holds(e2, x)
    ensures Count(Pairing(e1, e2, g, rn), Playing(x, rn')) == 0
  {
    CountPairing(e1, e2, g, rn, Playing(x, rn'));
  }

  /** Team x sits at position u of the working list t and nowhere else. */
  predicate PlacedAt(t: seq<Option<Team>>, x: nat, u: nat)
  {
    forall j :: 0 <= j < |t| ==> ((t[j].Some? && t[j].value.id == x) <==> j == u)
  }

  /** The bye sits at position z of t when there is one, and every other entry is a team. */
  predicate ByePlacedAt(t: seq<Option<Team>>, hasBye: bool, z: nat)
  {
    forall j :: 0 <= j < |t| ==> (t[j].None? <==> (hasBye && j == z))
  }

  /** With distinct ids, each team of the group is placed at its position in every round. */
  lemma Placed(teams: seq<Team>, r: nat, a: nat)
    requires 2 <= |teams| && DistinctIds(teams) && a < |teams| && r < |Pad(teams)| - 1
    ensures PlacedAt(Rotated(Pad(teams), r), teams[a].id, Pos(|Pad(teams)|, r, a))
  {
    forall j | 0 <= j < |Pad(teams)| {
      IdAt(teams, r, j, a);
    }
  }

  lemma ByePlaced(teams: seq<Team>, r: nat)
    requires 2 <= |teams| && r < |Pad(teams)| - 1
    ensures ByePlacedAt(Rotated(Pad(teams), r), |teams| % 2 == 1, Pos(|Pad(teams)|, r, |Pad(teams)| - 1))
  {
    forall j | 0 <= j < |Pad(teams)| {
      ByeAt(teams, r, j);
    }
  }

  /** The pairs up to i contain the meeting of x and y once if they face each other there, else not at all. */
  lemma {:induction false} RoundMeetings(t: seq<Option<Team>>, g: nat, rn: nat, i: nat,
                                         x: nat, y: nat, u: nat, v: nat)
    requires i <= |t| / 2 && PlacedAt(t, x, u) && PlacedAt(t, y, v)
    ensures Count(RoundPrefix(t, g, rn, i), Meeting(x, y))
      == if u + v == |t| - 1 && (u < i || v < i) then 1 else 0
  {
    if i > 0 {
      var m := |t|;
      var prev, pair := RoundPrefix(t, g, rn, i - 1), Pairing(t[i - 1], t[m - i], g, rn);
      var before := if u + v == m - 1 && (u < i - 1 || v < i - 1) then 1 else 0;
      var here := if (u == i - 1 && v == m - i) || (v == i - 1 && u == m - i) then 1 else 0;
      assert Count(prev, Meeting(x, y)) == before by {
        RoundMeetings(t, g, rn, i - 1, x, y, u, v);
      }
      assert Count(pair, Meeting(x, y)) == here by {
        PairingMeets(t[i - 1], t[m - i], g, rn, x, y, i - 1, m - i, u, v);
      }
      assert Count(prev + pair, Meeting(x, y)) == before + here by {
        CountAppend(prev, pair, Meeting(x, y));
      }
      assert before + here == if u + v == m - 1 && (u < i || v < i) then 1 else 0;
    }
  }

  /** Entry e is team x. */
  predicate Holds(e: Option<Team>, x: nat)
  {
    e.Some? && e.value.id == x
  }

  /** Pair i - 1 of t holds team x. */
  predicate InPair(t: seq<Option<Team>>, x: nat, i: nat)
    requires 0 < i <= |t| / 2
  {
    Holds(t[i - 1], x) || Holds(t[|t| - i], x)
  }

  /** No pair among 0..i-1 holds team x. */
  predicate Absent(t: seq<Option<Team>>, x: nat, i: nat)
    requires i <= |t| / 2
  {
    i == 0 || (!InPair(t, x, i) && Absent(t, x, i - 1))
  }

  /** At most one pair among 0..i-1 holds team x. */
  predicate AtMostOnce(t: seq<Option<Team>>, x: nat, i: nat)
    requires i <= |t| / 2
  {
    i == 0 || (if InPair(t, x, i) then Absent(t, x, i - 1) else AtMostOnce(t, x, i - 1))
  }

  /** A team that sits at one position of the list is in at most one pair, and in none
      before the pair of its position. */
  lemma {:induction false} PlacedOnce(t: seq<Option<Team>>, x: nat, u: nat, i: nat)
    requires i <= |t| / 2 && PlacedAt(t, x, u)
    ensures AtMostOnce(t, x, i)
    ensures u >= i && |t| - 1 - u >= i ==> Absent(t, x, i)
  {
    if i > 0 {
      PlacedOnce(t, x, u, i - 1);
      assert Holds(t[i - 1], x) <==> i - 1 == u;
      assert Holds(t[|t| - i], x) <==> |t| - i == u;
    }
  }

  /** The pairs up to i hold no match of x when x sits in none of them. */
  lemma {:induction false} RoundPlaysNone(t: seq<Option<Team>>, g: nat, rn: nat, i: nat, x: nat, rn': nat)
    requires i <= |t| / 2 && Absent(t, x, i)
    ensures Count(RoundPrefix(t, g, rn, i), Playing(x, rn')) == 0
  {
    if i > 0 {
      PrefixStepNone(t, g, rn, i, x, rn');
      RoundPlaysNone(t, g, rn, i - 1, x, rn');
    }
  }

  /** The pairs up to i hold at most one match of x in any round when x sits in at most one of them. */
  lemma {:induction false} RoundPlays(t: seq<Option<Team>>, g: nat, rn: nat, i: nat, x: nat, rn': nat)
    requires i <= |t| / 2 && AtMostOnce(t, x, i)
    ensures Count(RoundPrefix(t, g, rn, i), Playing(x, rn')) <= 1
    decreases i, 1
  {
    if i > 0 {
      if InPair(t, x, i) {
        RoundPlaysHere(t, g, rn, i, x, rn');
      } else {
        RoundPlaysLater(t, g, rn, i, x, rn');
      }
    }
  }

  /** When pair i - 1 holds x, the earlier pairs do not. */
  lemma RoundPlaysHere(t: seq<Option<Team>>, g: nat, rn: nat, i: nat, x: nat, rn': nat)
    requires 0 < i <= |t| / 2 && InPair(t, x, i) && Absent(t, x, i - 1)
    ensures Count(RoundPrefix(t, g, rn, i), Playing(x, rn')) <= 1
  {
    PrefixStepAtMostOne(t, g, rn, i, Playing(x, rn'));
    RoundPlaysNone(t, g, rn, i - 1, x, rn');
  }

  /** When pair i - 1 does not hold x, it adds nothing. */
  lemma {:induction false} RoundPlaysLater(t: seq<Option<Team>>, g: nat, rn: nat, i: nat, x: nat, rn': nat)
    requires 0 < i <= |t| / 2 && !InPair(t, x, i) && AtMostOnce(t, x, i - 1)
    ensures Count(RoundPrefix(t, g, rn, i), Playing(x, rn')) <= 1
    decreases i, 0
  {
    PrefixStepNone(t, g, rn, i, x, rn');
    RoundPlays(t, g, rn, i - 1, x, rn');
  }

  /** A whole round holds at most one match of a team that sits at one position. */
  lemma WholeRoundPlays(t: seq<Option<Team>>, g: nat, rn: nat, x: nat, u: nat, rn': nat)
    requires PlacedAt(t, x, u)
    ensures Count(RoundPrefix(t, g, rn, |t| / 2), Playing(x, rn')) <= 1
  {
    PlacedOnce(t, x, u, |t| / 2);
    RoundPlays(t, g, rn, |t| / 2, x, rn');
  }

  /** The pairs up to i give i matches, less one if the bye sits in one of them. */
  lemma {:induction false} RoundLength(t: seq<Option<Team>>, g: nat, rn: nat, i: nat, hasBye: bool, z: nat)
    requires i <= |t| / 2 && z < |t| && ByePlacedAt(t, hasBye, z)
    ensures |RoundPrefix(t, g, rn, i)| == i - (if hasBye && (z < i || |t| - 1 - z < i) then 1 else 0)
  {
    if i > 0 {
      RoundLength(t, g, rn, i - 1, hasBye, z);
      assert t[i - 1].None? <==> (hasBye && i - 1 == z);
      assert t[|t| - i].None? <==> (hasBye && |t| - i == z);
    }
  }

  /** A match of the group: between two different entries of the list, with the first one's category,
      stamped with the group and a round, not yet given a court or a time. */
  predicate Fixture(mt: Match, teams: seq<Team>, g: nat)
  {
    mt.groupId == g && mt.court.None? && mt.startTime.None? && 1 <= mt.roundNum &&
    exists a, b :: 0 <= a < |teams| && 0 <= b < |teams| && a != b &&
      mt.team1 == teams[a].id && mt.team2 == teams[b].id && mt.category == teams[a].category
  }

  /** Every match of a round is a fixture of the group with that round number, when the working
      list holds distinct entries of the group (entry j being team src[j]). */
  lemma {:induction false} RoundShape(t: seq<Option<Team>>, src: seq<nat>, teams: seq<Team>, g: nat, rn: nat, i: nat)
    requires 1 <= rn && i <= |t| / 2 && |src| == |t|
    requires forall j :: 0 <= j < |t| && t[j].Some? ==> src[j] < |teams| && t[j].value == teams[src[j]]
    requires forall j1, j2 :: 0 <= j1 < j2 < |t| ==> src[j1] != src[j2]
    ensures forall k :: 0 <= k < |RoundPrefix(t, g, rn, i)| ==>
      RoundPrefix(t, g, rn, i)[k].roundNum == rn && Fixture(RoundPrefix(t, g, rn, i)[k], teams, g)
  {
    if i > 0 {
      RoundShape(t, src, teams, g, rn, i - 1);
      var e1, e2 := t[i - 1], t[|t| - i];
      if e1.Some? && e2.Some? {
        var a, b := src[i - 1], src[|t| - i];
        var mt := Match(e1.value.id, e2.value.id, g, rn, e1.value.category, None, None);
        assert mt.team1 == teams[a].id && mt.team2 == teams[b].id && mt.category == teams[a].category;
        assert Fixture(mt, teams, g);
      }
    }
  }

  /** Round r of the group: every match is a fixture of the group numbered r + 1. */
  lemma RoundShapeOf(teams: seq<Team>, g: nat, r: nat)
    requires 2 <= |teams| && r < |Pad(teams)| - 1
    ensures forall k :: 0 <= k < |Round(Pad(teams), g, r)| ==>
      Round(Pad(teams), g, r)[k].roundNum == r + 1 && Fixture(Round(Pad(teams), g, r)[k], teams, g)
  {
    var p := Pad(teams);
    var m := |p|;
    var t := Rotated(p, r);
    var src := seq(m, j requires 0 <= j < m => Src(m, r, j));
    forall j | 0 <= j < m && t[j].Some?
      ensures src[j] < |teams| && t[j].value == teams[src[j]]
    {
      EntryAt(teams, r, j);
    }
    forall j1, j2 | 0 <= j1 < j2 < m
      ensures src[j1] != src[j2]
    {
      PosSrcInverse(m, r, src[j1], j1);
      PosSrcInverse(m, r, src[j1], j2);
    }
    RoundShape(t, src, teams, g, r + 1, m / 2);
  }

  /** All of ms are fixtures of the group numbered at most R, in non-decreasing round order. */
  predicate FixturesUpTo(ms: seq<Match>, teams: seq<Team>, g: nat, R: nat)
  {
    (forall k :: 0 <= k < |ms| ==> Fixture(ms[k], teams, g) && ms[k].roundNum <= R) &&
    (forall k1, k2 :: 0 <= k1 < k2 < |ms| ==> ms[k1].roundNum <= ms[k2].roundNum)
  }

  // ---------------------------------------------------------------------
  // Lists of matches laid end to end

  /** No list but the k-th holds a match the query picks out. */
  predicate OnlyList(rs: seq<seq<Match>>, q: Query, k: int)
  {
    forall r :: 0 <= r < |rs| && r != k ==> Count(rs[r], q) == 0
  }

  /** When no list but the k-th holds a match the query picks out, the whole holds as many as that list. */
  lemma {:induction false} CountConcat(rs: seq<seq<Match>>, q: Query, k: int)
    requires OnlyList(rs, q, k)
    ensures Count(Concat(rs), q) == if 0 <= k < |rs| then Count(rs[k], q) else 0
  {
    if rs != [] {
      var init := rs[..|rs| - 1];
      assert OnlyList(init, q, k);
      CountConcat(init, q, k);
      CountAppend(Concat(init), rs[|rs| - 1], q);
    }
  }

  /** Every list has the given size. */
  predicate SizedList(rs: seq<seq<Match>>, size: nat)
  {
    forall r :: 0 <= r < |rs| ==> |rs[r]| == size
  }

  /** Lists of equal size laid end to end. */
  lemma {:induction false} ConcatLength(rs: seq<seq<Match>>, size: nat)
    requires SizedList(rs, size)
    ensures |Concat(rs)| == |rs| * size
  {
    if rs != [] {
      assert SizedList(rs[..|rs| - 1], size);
      ConcatLength(rs[..|rs| - 1], size);
      assert |rs| * size == (|rs| - 1) * size + size;
    }
  }

  /** List r holds fixtures of the group numbered r + 1. */
  predicate ShapedList(rs: seq<seq<Match>>, teams: seq<Team>, g: nat)
  {
    forall r, k :: 0 <= r < |rs| && 0 <= k < |rs[r]| ==> rs[r][k].roundNum == r + 1 && Fixture(rs[r][k], teams, g)
  }

  /** Appending a round numbered R + 1 to fixtures numbered at most R keeps them in round order. */
  lemma UpToAppend(ms: seq<Match>, block: seq<Match>, teams: seq<Team>, g: nat, R: nat)
    requires FixturesUpTo(ms, teams, g, R)
    requires forall k :: 0 <= k < |block| ==> block[k].roundNum == R + 1 && Fixture(block[k], teams, g)
    ensures FixturesUpTo(ms + block, teams, g, R + 1)
  {
    var all := ms + block;
    forall k | 0 <= k < |all| ensures Fixture(all[k], teams, g) && all[k].roundNum <= R + 1 {
      if k >= |ms| {
        assert all[k] == block[k - |ms|];
      } else {
        assert all[k] == ms[k];
      }
    }
    forall k1, k2 | 0 <= k1 < k2 < |all| ensures all[k1].roundNum <= all[k2].roundNum {
      if k2 >= |ms| {
        assert all[k2] == block[k2 - |ms|];
        if k1 >= |ms| {
          assert all[k1] == block[k1 - |ms|];
        } else {
          assert all[k1] == ms[k1];
        }
      } else {
        assert all[k1] == ms[k1] && all[k2] == ms[k2];
      }
    }
  }

  /** Lists numbered 1, 2, ... laid end to end are fixtures in non-decreasing round order. */
  lemma {:induction false} ConcatUpTo(rs: seq<seq<Match>>, teams: seq<Team>, g: nat)
    requires ShapedList(rs, teams, g)
    ensures FixturesUpTo(Concat(rs), teams, g, |rs|)
  {
    if rs != [] {
      var init := rs[..|rs| - 1];
      assert ShapedList(init, teams, g);
      ConcatUpTo(init, teams, g);
      UpToAppend(Concat(init), rs[|rs| - 1], teams, g, |rs| - 1);
    }
  }

  // ---------------------------------------------------------------------
  // From the rounds to the list of rounds

  /** No round among the first R but the k-th holds a match the query picks out. */
  predicate OnlyRound(p: seq<Option<Team>>, g: nat, R: nat, q: Query, k: int)
    requires 2 <= |p| && R <= |p| - 1
  {
    forall r :: 0 <= r < R && r != k ==> Count(Round(p, g, r), q) == 0
  }

  /** Each of the first R rounds has the given size. */
  predicate SizedRounds(p: seq<Option<Team>>, g: nat, R: nat, size: nat)
    requires 2 <= |p| && R <= |p| - 1
  {
    forall r :: 0 <= r < R ==> |Round(p, g, r)| == size
  }

  /** Each of the first R rounds holds fixtures of the group numbered with that round. */
  predicate ShapedRounds(p: seq<Option<Team>>, g: nat, R: nat, teams: seq<Team>)
    requires 2 <= |p| && R <= |p| - 1
  {
    forall r, k :: 0 <= r < R && 0 <= k < |Round(p, g, r)| ==>
      Round(p, g, r)[k].roundNum == r + 1 && Fixture(Round(p, g, r)[k], teams, g)
  }

  /** The list of the first R rounds has R entries, entry k being round k. */
  lemma RoundsOfAt(p: seq<Option<Team>>, g: nat, R: nat, k: int)
    requires 2 <= |p| && R <= |p| - 1
    ensures |RoundsOf(p, g, R)| == R && (0 <= k < R ==> RoundsOf(p, g, R)[k] == Round(p, g, k))
  {
  }

  /** When no round but the k-th holds a match the query picks out, all rounds together hold as many as that one. */
  lemma CountFixtures(p: seq<Option<Team>>, g: nat, q: Query, k: nat)
    requires 2 <= |p| && |p| % 2 == 0 && k < |p| - 1 && OnlyRound(p, g, |p| - 1, q, k)
    ensures Count(Fixtures(p, g, |p| - 1), q) == Count(Round(p, g, k), q)
  {
    OnlyRoundList(p, g, |p| - 1, q, k);
    CountConcat(RoundsOf(p, g, |p| - 1), q, k);
    RoundsOfAt(p, g, |p| - 1, k);
  }

  /** When no round among them is numbered k, no match of all rounds is picked out. */
  lemma CountFixturesNone(p: seq<Option<Team>>, g: nat, q: Query, k: int)
    requires 2 <= |p| && |p| % 2 == 0 && !(0 <= k < |p| - 1) && OnlyRound(p, g, |p| - 1, q, k)
    ensures Count(Fixtures(p, g, |p| - 1), q) == 0
  {
    OnlyRoundList(p, g, |p| - 1, q, k);
    CountConcat(RoundsOf(p, g, |p| - 1), q, k);
    RoundsOfAt(p, g, |p| - 1, k);
  }


  /** Rounds of equal size laid end to end. */
  lemma FixturesLength(p: seq<Option<Team>>, g: nat, size: nat)
    requires 2 <= |p| && |p| % 2 == 0 && SizedRounds(p, g, |p| - 1, size)
    ensures |Fixtures(p, g, |p| - 1)| == (|p| - 1) * size
  {
    SizedRoundList(p, g, |p| - 1, size);
    ConcatLength(RoundsOf(p, g, |p| - 1), size);
    RoundsOfAt(p, g, |p| - 1, 0);
  }

  lemma OnlyRoundList(p: seq<Option<Team>>, g: nat, R: nat, q: Query, k: int)
    requires 2 <= |p| && R <= |p| - 1 && OnlyRound(p, g, R, q, k)
    ensures OnlyList(RoundsOf(p, g, R), q, k)
  {
  }

  lemma SizedRoundList(p: seq<Option<Team>>, g: nat, R: nat, size: nat)
    requires 2 <= |p| && R <= |p| - 1 && SizedRounds(p, g, R, size)
    ensures SizedList(RoundsOf(p, g, R), size)
  {
  }

  lemma ShapedRoundList(p: seq<Option<Team>>, g: nat, R: nat, teams: seq<Team>)
    requires 2 <= |p| && R <= |p| - 1 && ShapedRounds(p, g, R, teams)
    ensures ShapedList(RoundsOf(p, g, R), teams, g)
  {
  }

  /** A whole round holds the meeting of x and y once if their positions face each other, else not at all. */
  lemma WholeRoundMeetings(t: seq<Option<Team>>, g: nat, rn: nat, x: nat, y: nat, u: nat, v: nat)
    requires |t| % 2 == 0 && PlacedAt(t, x, u) && PlacedAt(t, y, v) && u != v
    ensures Count(RoundPrefix(t, g, rn, |t| / 2), Meeting(x, y)) == if u + v == |t| - 1 then 1 else 0
  {
    RoundMeetings(t, g, rn, |t| / 2, x, y, u, v);
  }

  /** Two different teams of the group sit at their two different positions in round r. */
  lemma PlacedPair(teams: seq<Team>, r: nat, a: nat, b: nat)
    requires 2 <= |teams| && DistinctIds(teams) && a < |teams| && b < |teams| && a != b
    requires r < |Pad(teams)| - 1
    ensures var t, m := Rotated(Pad(teams), r), |Pad(teams)|;
      PlacedAt(t, teams[a].id, Pos(m, r, a)) && PlacedAt(t, teams[b].id, Pos(m, r, b)) &&
      Pos(m, r, a) != Pos(m, r, b)
  {
    Placed(teams, r, a);
    Placed(teams, r, b);
    PosInjective(|Pad(teams)|, r, a, b);
  }

  /** Round r holds the meeting of teams a and b once if they face each other in it, else not at all. */
  lemma RoundMeetingCount(teams: seq<Team>, g: nat, r: nat, a: nat, b: nat)
    requires 2 <= |teams| && DistinctIds(teams) && a < |teams| && b < |teams| && a != b
    requires r < |Pad(teams)| - 1
    ensures Count(Round(Pad(teams), g, r), Meeting(teams[a].id, teams[b].id))
      == if Facing(|Pad(teams)|, r, a, b) then 1 else 0
  {
    PlacedPair(teams, r, a, b);
    if Facing(|Pad(teams)|, r, a, b) {
      RoundMeetingsFacing(Pad(teams), g, r, teams[a].id, teams[b].id, a, b);
    } else {
      RoundMeetingsApart(Pad(teams), g, r, teams[a].id, teams[b].id, a, b);
    }
  }

  /** Round r holds the meeting of x and y once when their starting positions a and b face each other then. */
  lemma RoundMeetingsFacing(p: seq<Option<Team>>, g: nat, r: nat, x: nat, y: nat, a: nat, b: nat)
    requires 2 <= |p| && |p| % 2 == 0 && r < |p| - 1 && a < |p| && b < |p| && Facing(|p|, r, a, b)
    requires PlacedAt(Rotated(p, r), x, Pos(|p|, r, a)) && PlacedAt(Rotated(p, r), y, Pos(|p|, r, b))
    requires Pos(|p|, r, a) != Pos(|p|, r, b)
    ensures Count(Round(p, g, r), Meeting(x, y)) == 1
  {
    WholeRoundMeetings(Rotated(p, r), g, r + 1, x, y, Pos(|p|, r, a), Pos(|p|, r, b));
  }

  /** Round r holds no meeting of x and y when their starting positions a and b do not face each other then. */
  lemma RoundMeetingsApart(p: seq<Option<Team>>, g: nat, r: nat, x: nat, y: nat, a: nat, b: nat)
    requires 2 <= |p| && |p| % 2 == 0 && r < |p| - 1 && a < |p| && b < |p| && !Facing(|p|, r, a, b)
    requires PlacedAt(Rotated(p, r), x, Pos(|p|, r, a)) && PlacedAt(Rotated(p, r), y, Pos(|p|, r, b))
    requires Pos(|p|, r, a) != Pos(|p|, r, b)
    ensures Count(Round(p, g, r), Meeting(x, y)) == 0
  {
    WholeRoundMeetings(Rotated(p, r), g, r + 1, x, y, Pos(|p|, r, a), Pos(|p|, r, b));
  }

  /** A round holds no match of another round. */
  lemma OtherRoundCount(teams: seq<Team>, g: nat, r: nat, q: Query)
    requires 2 <= |teams| && r < |Pad(teams)| - 1
    requires (q.Playing? || q.InRound?) && q.roundNum != r + 1
    ensures Count(Round(Pad(teams), g, r), q) == 0
  {
    RoundShapeOf(teams, g, r);
    CountNone(Round(Pad(teams), g, r), q);
  }

  /** Round r holds floor(n/2) matches numbered r + 1. */
  lemma RoundCountAll(teams: seq<Team>, g: nat, r: nat, rn: nat)
    requires 2 <= |teams| && r < |Pad(teams)| - 1 && rn == r + 1
    ensures Count(Round(Pad(teams), g, r), InRound(rn)) == |teams| / 2
  {
    RoundShapeOf(teams, g, r);
    CountAll(Round(Pad(teams), g, r), InRound(rn));
    RoundSize(teams, g, r);
  }

  /** Teams a and b meet once in their meeting round and in no other round. */
  lemma RoundMeetingOnce(teams: seq<Team>, g: nat, r: nat, a: nat, b: nat)
    requires 2 <= |teams| && DistinctIds(teams) && a < |teams| && b < |teams| && a != b
    requires r < |Pad(teams)| - 1
    ensures Count(Round(Pad(teams), g, r), Meeting(teams[a].id, teams[b].id))
      == if r == MeetingRound(|Pad(teams)|, a, b) then 1 else 0
  {
    RoundMeetingCount(teams, g, r, a, b);
    FacingIffMeetingRound(|Pad(teams)|, r, a, b);
  }

  /** Round r holds at most one match of team a. */
  lemma RoundPlayCount(teams: seq<Team>, g: nat, r: nat, a: nat, rn: nat)
    requires 2 <= |teams| && DistinctIds(teams) && a < |teams| && r < |Pad(teams)| - 1
    ensures Count(Round(Pad(teams), g, r), Playing(teams[a].id, rn)) <= 1
  {
    Placed(teams, r, a);
    RoundPlaysAt(Pad(teams), g, r, teams[a].id, a, rn);
  }

  /** Round r holds at most one match of x when x sits at one position of the list. */
  lemma RoundPlaysAt(p: seq<Option<Team>>, g: nat, r: nat, x: nat, a: nat, rn: nat)
    requires 2 <= |p| && r < |p| - 1 && a < |p| && PlacedAt(Rotated(p, r), x, Pos(|p|, r, a))
    ensures Count(Round(p, g, r), Playing(x, rn)) <= 1
  {
    WholeRoundPlays(Rotated(p, r), g, r + 1, x, Pos(|p|, r, a), rn);
  }

  /** A complete round has floor(n/2) matches: n/2 pairs, less the one holding the bye. */
  lemma RoundSize(teams: seq<Team>, g: nat, r: nat)
    requires 2 <= |teams| && r < |Pad(teams)| - 1
    ensures |Round(Pad(teams), g, r)| == |teams| / 2
  {
    var m := |Pad(teams)|;
    ByePlaced(teams, r);
    RoundLength(Rotated(Pad(teams), r), g, r + 1, m / 2, |teams| % 2 == 1, Pos(m, r, m - 1));
  }

  // ---------------------------------------------------------------------
  // The fixtures of a group

  /** A group of two or more teams plays the |padded| - 1 rounds of its padded list. */
  lemma GroupFixturesRounds(teams: seq<Team>, g: nat)
    requires 2 <= |teams|
    ensures GroupFixtures(teams, g) == Fixtures(Pad(teams), g, |Pad(teams)| - 1)
  {
  }

  /** The number of rounds played by a group: |padded| - 1, or none for fewer than two teams. */
  function Rounds(teams: seq<Team>): (r: nat)
    ensures |teams| >= 2 ==> r == if |teams| % 2 == 0 then |teams| - 1 else |teams|
  {
    if |teams| < 2 then 0 else |Pad(teams)| - 1
  }

  /** A group of n teams has n(n-1)/2 matches (none when n < 2). */
  lemma MatchCount(teams: seq<Team>, g: nat)
    ensures |GroupFixtures(teams, g)| == |teams| * (|teams| - 1) / 2
  {
    if |teams| >= 2 {
      RoundsLength(teams, g);
      GroupFixturesRounds(teams, g);
    } else {
      assert |teams| * (|teams| - 1) == 0;
    }
  }

  /** The rounds of a group of n teams hold n(n-1)/2 matches. */
  lemma RoundsLength(teams: seq<Team>, g: nat)
    requires 2 <= |teams|
    ensures |Fixtures(Pad(teams), g, |Pad(teams)| - 1)| == |teams| * (|teams| - 1) / 2
  {
    SizesOfRounds(teams, g);
    FixturesLength(Pad(teams), g, |teams| / 2);
    HalfProduct(|teams|, |Pad(teams)|);
  }

  /** Every round has floor(n/2) matches. */
  lemma SizesOfRounds(teams: seq<Team>, g: nat)
    requires 2 <= |teams|
    ensures SizedRounds(Pad(teams), g, |Pad(teams)| - 1, |teams| / 2)
  {
    forall r: int | 0 <= r < |Pad(teams)| - 1 ensures |Round(Pad(teams), g, r)| == |teams| / 2 {
      RoundSize(teams, g, r);
    }
  }

  /** (|padded| - 1) * floor(n/2) is n(n-1)/2 for both parities of n. */
  lemma HalfProduct(n: nat, m: nat)
    requires 1 <= m && m % 2 == 0 && n <= m <= n + 1
    ensures (m - 1) * (n / 2) == n * (n - 1) / 2
  {
    var h := n / 2;
    if n == m {
      assert n == 2 * h;
      assert n * (n - 1) == 2 * (h * (n - 1));
    } else {
      assert n == 2 * h + 1;
      assert n * (n - 1) == 2 * (n * h);
    }
  }

  /** Every two different teams of the group meet exactly once. */
  lemma EveryPairMeetsOnce(teams: seq<Team>, g: nat, a: nat, b: nat)
    requires DistinctIds(teams) && a < |teams| && b < |teams| && a != b
    ensures Count(GroupFixtures(teams, g), Meeting(teams[a].id, teams[b].id)) == 1
  {
    MeetingsInRounds(teams, g, a, b);
    GroupFixturesRounds(teams, g);
  }

  /** The rounds of a group hold the meeting of two different teams once. */
  lemma MeetingsInRounds(teams: seq<Team>, g: nat, a: nat, b: nat)
    requires DistinctIds(teams) && a < |teams| && b < |teams| && a != b
    ensures 2 <= |teams|
    ensures Count(Fixtures(Pad(teams), g, |Pad(teams)| - 1), Meeting(teams[a].id, teams[b].id)) == 1
  {
    var k := MeetingsPerRound(teams, g, a, b);
    CountFixtures(Pad(teams), g, Meeting(teams[a].id, teams[b].id), k);
  }

  /** Teams a and b meet in their meeting round, once, and in no other round. */
  lemma MeetingsPerRound(teams: seq<Team>, g: nat, a: nat, b: nat) returns (k: nat)
    requires DistinctIds(teams) && a < |teams| && b < |teams| && a != b
    ensures 2 <= |teams| && k < |Pad(teams)| - 1
    ensures OnlyRound(Pad(teams), g, |Pad(teams)| - 1, Meeting(teams[a].id, teams[b].id), k)
    ensures Count(Round(Pad(teams), g, k), Meeting(teams[a].id, teams[b].id)) == 1
  {
    var m := |Pad(teams)|;
    k := MeetingRound(m, a, b);
    forall r: int | 0 <= r < m - 1
      ensures Count(Round(Pad(teams), g, r), Meeting(teams[a].id, teams[b].id)) == if r == MeetingRound(m, a, b) then 1 else 0
    {
      RoundMeetingOnce(teams, g, r, a, b);
    }
  }

  /** Every match is between two different teams of the group (never the bye), with the first
      team's category, the group id and no court or time yet; rounds are numbered from 1 to
      |padded| - 1 and never go down along the list. */
  lemma MatchShape(teams: seq<Team>, g: nat)
    ensures FixturesUpTo(GroupFixtures(teams, g), teams, g, Rounds(teams))
  {
    if |teams| >= 2 {
      ShapesInRounds(teams, g);
      GroupFixturesRounds(teams, g);
    }
  }

  /** The rounds of a group are its fixtures in non-decreasing round order. */
  lemma ShapesInRounds(teams: seq<Team>, g: nat)
    requires 2 <= |teams|
    ensures FixturesUpTo(Fixtures(Pad(teams), g, |Pad(teams)| - 1), teams, g, |Pad(teams)| - 1)
  {
    ShapesOfRounds(teams, g);
    ShapedRoundList(Pad(teams), g, |Pad(teams)| - 1, teams);
    ConcatUpTo(RoundsOf(Pad(teams), g, |Pad(teams)| - 1), teams, g);
    RoundsOfAt(Pad(teams), g, |Pad(teams)| - 1, 0);
  }

  /** Round r holds fixtures of the group numbered r + 1. */
  lemma ShapesOfRounds(teams: seq<Team>, g: nat)
    requires 2 <= |teams|
    ensures ShapedRounds(Pad(teams), g, |Pad(teams)| - 1, teams)
  {
    forall r: int | 0 <= r < |Pad(teams)| - 1
      ensures forall k :: 0 <= k < |Round(Pad(teams), g, r)| ==>
        Round(Pad(teams), g, r)[k].roundNum == r + 1 && Fixture(Round(Pad(teams), g, r)[k], teams, g)
    {
      RoundShapeOf(teams, g, r);
    }
  }

  /** With distinct ids no team is paired with itself. */
  lemma NoSelfMatch(teams: seq<Team>, g: nat, k: nat)
    requires DistinctIds(teams) && k < |GroupFixtures(teams, g)|
    ensures GroupFixtures(teams, g)[k].team1 != GroupFixtures(teams, g)[k].team2
  {
    MatchShape(teams, g);
    var mt := GroupFixtures(teams, g)[k];
    assert Fixture(mt, teams, g);
    var a, b :| 0 <= a < |teams| && 0 <= b < |teams| && a != b &&
      mt.team1 == teams[a].id && mt.team2 == teams[b].id && mt.category == teams[a].category;
    if a < b {
      assert teams[a].id != teams[b].id;
    } else {
      assert teams[b].id != teams[a].id;
    }
  }

  /** No team plays twice in one round. */
  lemma OncePerRound(teams: seq<Team>, g: nat, a: nat, rn: nat)
    requires DistinctIds(teams) && a < |teams|
    ensures Count(GroupFixtures(teams, g), Playing(teams[a].id, rn)) <= 1
  {
    if |teams| >= 2 {
      PlaysInRounds(teams, g, a, rn);
      GroupFixturesRounds(teams, g);
    }
  }

  /** The rounds of a group hold at most one match of a team numbered rn. */
  lemma PlaysInRounds(teams: seq<Team>, g: nat, a: nat, rn: nat)
    requires 2 <= |teams| && DistinctIds(teams) && a < |teams|
    ensures Count(Fixtures(Pad(teams), g, |Pad(teams)| - 1), Playing(teams[a].id, rn)) <= 1
  {
    if 1 <= rn <= |Pad(teams)| - 1 {
      PlaysInRound(teams, g, a, rn);
    } else {
      PlaysOutside(teams, g, a, rn);
    }
  }

  lemma PlaysInRound(teams: seq<Team>, g: nat, a: nat, rn: nat)
    requires 2 <= |teams| && DistinctIds(teams) && a < |teams| && 1 <= rn <= |Pad(teams)| - 1
    ensures Count(Fixtures(Pad(teams), g, |Pad(teams)| - 1), Playing(teams[a].id, rn)) <= 1
  {
    OtherRoundsEmpty(teams, g, Playing(teams[a].id, rn));
    CountFixtures(Pad(teams), g, Playing(teams[a].id, rn), rn - 1);
    RoundPlayCount(teams, g, rn - 1, a, rn);
  }

  lemma PlaysOutside(teams: seq<Team>, g: nat, a: nat, rn: nat)
    requires 2 <= |teams| && a < |teams| && !(1 <= rn <= |Pad(teams)| - 1)
    ensures Count(Fixtures(Pad(teams), g, |Pad(teams)| - 1), Playing(teams[a].id, rn)) == 0
  {
    OtherRoundsEmpty(teams, g, Playing(teams[a].id, rn));
    CountFixturesNone(Pad(teams), g, Playing(teams[a].id, rn), rn - 1);
  }

  /** Each of the rounds 1..Rounds(teams) has floor(n/2) matches, and there are no others. */
  lemma RoundSizes(teams: seq<Team>, g: nat, rn: nat)
    ensures Count(GroupFixtures(teams, g), InRound(rn)) == if 1 <= rn <= Rounds(teams) then |teams| / 2 else 0
  {
    if |teams| >= 2 {
      SizesInRounds(teams, g, rn);
      GroupFixturesRounds(teams, g);
    }
  }

  /** The rounds of a group hold floor(n/2) matches numbered rn when rn is one of theirs, else none. */
  lemma SizesInRounds(teams: seq<Team>, g: nat, rn: nat)
    requires 2 <= |teams|
    ensures Count(Fixtures(Pad(teams), g, |Pad(teams)| - 1), InRound(rn))
      == if 1 <= rn <= |Pad(teams)| - 1 then |teams| / 2 else 0
  {
    if 1 <= rn <= |Pad(teams)| - 1 {
      SizesInRound(teams, g, rn);
    } else {
      SizesOutside(teams, g, rn);
    }
  }

  lemma SizesInRound(teams: seq<Team>, g: nat, rn: nat)
    requires 2 <= |teams| && 1 <= rn <= |Pad(teams)| - 1
    ensures Count(Fixtures(Pad(teams), g, |Pad(teams)| - 1), InRound(rn)) == |teams| / 2
  {
    OtherRoundsEmpty(teams, g, InRound(rn));
    CountFixtures(Pad(teams), g, InRound(rn), rn - 1);
    RoundCountAll(teams, g, rn - 1, rn);
  }

  lemma SizesOutside(teams: seq<Team>, g: nat, rn: nat)
    requires 2 <= |teams| && !(1 <= rn <= |Pad(teams)| - 1)
    ensures Count(Fixtures(Pad(teams), g, |Pad(teams)| - 1), InRound(rn)) == 0
  {
    OtherRoundsEmpty(teams, g, InRound(rn));
    CountFixturesNone(Pad(teams), g, InRound(rn), rn - 1);
  }


  /** The rounds other than the queried one hold none of its matches. */
  lemma OtherRoundsEmpty(teams: seq<Team>, g: nat, q: Query)
    requires 2 <= |teams| && (q.Playing? || q.InRound?)
    ensures OnlyRound(Pad(teams), g, |Pad(teams)| - 1, q, q.roundNum - 1)
  {
    forall r: int | 0 <= r < |Pad(teams)| - 1 && r != q.roundNum - 1
      ensures Count(Round(Pad(teams), g, r), q) == 0
    {
      OtherRoundCount(teams, g, r, q);
    }
  }

  /** Every match of a round is stamped with that round and the group. */
  lemma {:induction false} RoundStamps(t: seq<Option<Team>>, g: nat, rn: nat, i: nat)
    requires i <= |t| / 2
    ensures forall k :: 0 <= k < |RoundPrefix(t, g, rn, i)| ==>
      RoundPrefix(t, g, rn, i)[k].roundNum == rn && RoundPrefix(t, g, rn, i)[k].groupId == g
  {
    if i > 0 {
      RoundStamps(t, g, rn, i - 1);
    }
  }
}
