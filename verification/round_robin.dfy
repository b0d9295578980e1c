/**
  Round-robin fixtures for one group, by the circle method: the working list
  is padded with a bye when the team count is odd; in each of the |list|-1
  rounds the entry at position i meets the one at position |list|-1-i, and
  between rounds every position except the first moves one step round the
  ring.
 */
module RoundRobin {
  import opened Domain

  /** The working list: every team in order, then a bye when the count is odd. */
  function Pad(teams: seq<Team>): (p: seq<Option<Team>>)
    ensures |p| % 2 == 0 && |teams| <= |p| <= |teams| + 1
    ensures forall i :: 0 <= i < |teams| ==> p[i] == Some(teams[i])
    ensures forall i :: |teams| <= i < |p| ==> p[i] == None
  {
    var some := seq(|teams|, i requires 0 <= i < |teams| => Some(teams[i]));
    if |teams| % 2 == 1 then some + [None] else some
  }

  /** One rotation: the first entry stays, the last entry moves to position 1. */
  function Rotate<T>(t: seq<T>): seq<T>
    requires |t| >= 2
  {
    [t[0]] + [t[|t| - 1]] + t[1..|t| - 1]
  }

  /** A rotation is a permutation that keeps the first entry in place. */
  lemma RotateIsPermutation<T>(t: seq<T>)
    requires |t| >= 2
    ensures |Rotate(t)| == |t| && Rotate(t)[0] == t[0]
    ensures multiset(Rotate(t)) == multiset(t)
  {
    var n := |t|;
    assert t == [t[0]] + t[1..n - 1] + [t[n - 1]];
  }

  /** Original position of the entry found at position j in round r (0-based) of a list of m entries. */
  function Src(m: nat, r: nat, j: nat): (s: nat)
    requires 1 <= m && r <= m - 1 && j < m
    ensures s < m
  {
    if j == 0 then 0 else if j - 1 >= r then j - r else j - r + (m - 1)
  }

  /** Position in round r of the entry that started at position p. */
  function Pos(m: nat, r: nat, p: nat): (j: nat)
    requires 1 <= m && r <= m - 1 && p < m
    ensures j < m
  {
    if p == 0 then 0 else if p + r < m then p + r else p + r - (m - 1)
  }

  /** Src and Pos are inverse: position j in round r holds the entry from p exactly when p moves to j. */
  lemma PosSrcInverse(m: nat, r: nat, p: nat, j: nat)
    requires 1 <= m && r <= m - 1 && p < m && j < m
    ensures Src(m, r, j) == p <==> Pos(m, r, p) == j
  {
  }

  /** The working list after r rotations, in closed form: the first entry stays and the ring
      of the others is turned r steps, so position j holds the entry from Src(|p|, r, j). */
  function Rotated<T>(p: seq<T>, r: nat): (t: seq<T>)
    requires 1 <= |p| && r <= |p| - 1
    ensures |t| == |p|
  {
    seq(|p|, j requires 0 <= j < |p| => p[Src(|p|, r, j)])
  }

  /** No rotation leaves the list as it is. */
  lemma RotatedZero<T>(p: seq<T>)
    requires 1 <= |p|
    ensures Rotated(p, 0) == p
  {
  }

  /** Rotating the list of round r once more gives the list of round r + 1. */
  lemma RotateStep<T>(p: seq<T>, r: nat)
    requires 2 <= |p| && r < |p| - 1
    ensures Rotate(Rotated(p, r)) == Rotated(p, r + 1)
  {
    var m := |p|;
    var t := Rotated(p, r);
    forall j | 0 <= j < m
      ensures Rotate(t)[j] == Rotated(p, r + 1)[j]
    {
      if j >= 2 {
        assert Rotate(t)[j] == t[j - 1];
      }
    }
  }

  /** The match of two entries, or nothing when either is the bye. */
  function Pairing(a: Option<Team>, b: Option<Team>, groupId: nat, roundNum: nat): seq<Match>
  {
    if a.Some? && b.Some? then
      [Match(a.value.id, b.value.id, groupId, roundNum, a.value.category, None, None)]
    else []
  }

  /** The matches of one round from the pairs at positions 0..i-1. */
  function RoundPrefix(t: seq<Option<Team>>, groupId: nat, roundNum: nat, i: nat): seq<Match>
    requires i <= |t| / 2
  {
    if i == 0 then []
    else RoundPrefix(t, groupId, roundNum, i - 1) + Pairing(t[i - 1], t[|t| - i], groupId, roundNum)
  }

  /** The matches of round r + 1, paired on the list after r rotations. */
  function Round(p: seq<Option<Team>>, groupId: nat, r: nat): seq<Match>
    requires 2 <= |p| && r <= |p| - 1
  {
    RoundPrefix(Rotated(p, r), groupId, r + 1, |p| / 2)
  }

  /** The lists of rs one after the other. */
  function Concat(rs: seq<seq<Match>>): seq<Match>
  {
    if rs == [] then [] else Concat(rs[..|rs| - 1]) + rs[|rs| - 1]
  }

  /** The first R rounds of a padded list, one list of matches each. */
  function RoundsOf(p: seq<Option<Team>>, groupId: nat, R: nat): seq<seq<Match>>
    requires 2 <= |p| && R <= |p|
  {
    seq(R, r requires 0 <= r < R => Round(p, groupId, r))
  }

  /** The matches of the first `rounds` rounds of a padded list, round after round. */
  function Fixtures(p: seq<Option<Team>>, groupId: nat, rounds: nat): seq<Match>
    requires 2 <= |p| && |p| % 2 == 0 && rounds <= |p| - 1
  {
    Concat(RoundsOf(p, groupId, rounds))
  }

  /** One more round appends that round's matches. */
  lemma FixturesStep(p: seq<Option<Team>>, groupId: nat, R: nat)
    requires 2 <= |p| && |p| % 2 == 0 && R < |p| - 1
    ensures Fixtures(p, groupId, R + 1) == Fixtures(p, groupId, R) + Round(p, groupId, R)
  {
    assert RoundsOf(p, groupId, R + 1)[..R] == RoundsOf(p, groupId, R);
  }

  /** All matches of a group. */
  function GroupFixtures(teams: seq<Team>, groupId: nat): seq<Match>
  {
    if |teams| < 2 then [] else var p := Pad(teams); Fixtures(p, groupId, |p| - 1)
  }

  /** The pairs of one round, position i against position |t|-1-i, skipping the bye. */
  method PairRound(t: seq<Option<Team>>, groupId: nat, roundNum: nat) returns (roundMatches: seq<Match>)
    ensures roundMatches == RoundPrefix(t, groupId, roundNum, |t| / 2)
  {
    roundMatches := [];
    var n := |t|;
    var i := 0;
    while i < n / 2
      invariant 0 <= i <= n / 2
      invariant roundMatches == RoundPrefix(t, groupId, roundNum, i)
    {
      var team1 := t[i];
      var team2 := t[n - 1 - i];
      if team1.Some? && team2.Some? {
        roundMatches := roundMatches + [Match(team1.value.id, team2.value.id, groupId, roundNum,
                                              team1.value.category, None, None)];
      }
      i := i + 1;
    }
  }

  /** Plays the rounds of a padded list, rotating the working list after each round. */
  method PlayRounds(p: seq<Option<Team>>, groupId: nat) returns (matches: seq<Match>)
    requires 2 <= |p| && |p| % 2 == 0
    ensures matches == Fixtures(p, groupId, |p| - 1)
  {
    matches := [];
    var n := |p|;
    var t := p;
    RotatedZero(p);
    var round := 0;
    while round < n - 1
      invariant 0 <= round <= n - 1
      invariant t == Rotated(p, round)
      invariant matches == Fixtures(p, groupId, round)
    {
      var roundMatches := PairRound(t, groupId, round + 1);
      PlayStep(p, groupId, round, t, matches, roundMatches);
      matches := matches + roundMatches;
      t := Rotate(t);
      round := round + 1;
    }
  }

  /** Appending round R, paired on the list rotated R times, to the first R rounds gives R + 1 rounds;
      one more rotation gives the list for the next round. */
  lemma PlayStep(p: seq<Option<Team>>, groupId: nat, R: nat, t: seq<Option<Team>>,
                 matches: seq<Match>, roundMatches: seq<Match>)
    requires 2 <= |p| && |p| % 2 == 0 && R < |p| - 1
    requires t == Rotated(p, R) && matches == Fixtures(p, groupId, R)
    requires roundMatches == RoundPrefix(t, groupId, R + 1, |t| / 2)
    ensures matches + roundMatches == Fixtures(p, groupId, R + 1)
    ensures Rotate(t) == Rotated(p, R + 1)
  {
    FixturesStep(p, groupId, R);
    RotateStep(p, R);
  }

  /** Round-robin generation: pad with a bye when the count is odd, then play |list|-1 rounds. */
  method GenerateRoundRobinMatches(teams: seq<Team>, groupId: nat) returns (matches: seq<Match>)
    ensures matches == GroupFixtures(teams, groupId)
  {
    if |teams| < 2 {
      return [];
    }
    var t := seq(|teams|, i requires 0 <= i < |teams| => Some(teams[i]));
    if |teams| % 2 == 1 {
      t := t + [None];
    }
    assert t == Pad(teams);
    matches := PlayRounds(t, groupId);
  }
}
