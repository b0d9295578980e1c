/**
  Team creation for one category: players are drawn from the population of
  the category, paired into teams numbered 1..T in creation order, and the
  teams are then spread over groups filled in order, the first T % g groups
  one team larger than the rest.
 */
module Teams {
  import opened Domain

  /**
    The head counts the engine derives from the participant total and its
    ratios: amateurs, advanced men and women, the advanced men and women
    old enough for 35+, and the number of children for Parent-Child.
   */
  datatype Population = Population(amateur: nat, advancedMen: nat, advancedWomen: nat,
                                   plus35Men: nat, plus35Women: nat, children: nat)

  // ---------------------------------------------------------------------
  // Player pools

  /** k advanced men, numbered from 1. */
  function Men(k: nat): (ps: seq<Player>)
    ensures |ps| == k
  {
    seq(k, i requires 0 <= i < k => Player(Male, AdvancedLevel, i + 1))
  }

  /** k advanced women, numbered from 1. */
  function Women(k: nat): (ps: seq<Player>)
    ensures |ps| == k
  {
    seq(k, i requires 0 <= i < k => Player(Female, AdvancedLevel, i + 1))
  }

  /** k players of one skill, numbered from 1, alternately a man and a woman starting with a man. */
  function Alternating(k: nat, skill: Skill): (ps: seq<Player>)
    ensures |ps| == k
  {
    seq(k, i requires 0 <= i < k => Player(if i % 2 == 0 then Male else Female, skill, i + 1))
  }

  /** The players a category pairs off in order (the categories that pair across two lists have none). */
  function SequentialPool(c: Category, pop: Population): seq<Player>
  {
    match c
    case MensDoubles => Men(pop.advancedMen)
    case Amateur => Alternating(pop.amateur, AmateurLevel)
    case Plus35 => Men(pop.plus35Men) + Women(pop.plus35Women)
    case Open => Men(pop.advancedMen) + Women(pop.advancedWomen)
    case MixedDoubles => []
    case ParentChild => []
  }

  // ---------------------------------------------------------------------
  // Pairing

  /** Players 2k and 2k+1 form team k+1; a trailing odd player is left out. */
  function Sequential(c: Category, players: seq<Player>): (ts: seq<Team>)
  {
    seq(|players| / 2, k requires 0 <= k < |players| / 2 =>
      Team(k + 1, c, [players[2 * k], players[2 * k + 1]], None, None))
  }

  /** The k-th of each list form team k+1, for as many teams as the shorter list allows. */
  function Across(c: Category, left: seq<Player>, right: seq<Player>): (ts: seq<Team>)
  {
    var count := if |left| < |right| then |left| else |right|;
    seq(count, k requires 0 <= k < count => Team(k + 1, c, [left[k], right[k]], None, None))
  }

  /** The teams of a category before grouping. */
  function Paired(c: Category, pop: Population): seq<Team>
  {
    match c
    case MixedDoubles => Across(c, Men(pop.advancedMen), Women(pop.advancedWomen))
    case ParentChild => Across(c, Alternating(pop.children, AdvancedLevel), Alternating(pop.children, AmateurLevel))
    case _ => Sequential(c, SequentialPool(c, pop))
  }

  /** Pairs the players off in order, as the loop stepping by two does. */
  method PairSequential(c: Category, players: seq<Player>) returns (teams: seq<Team>)
    ensures teams == Sequential(c, players)
  {
    teams := [];
    var i := 0;
    while i < |players|
      invariant 0 <= i <= |players| + 1 && i % 2 == 0
      invariant |teams| == (if i < |players| then i else |players|) / 2
      invariant forall k :: 0 <= k < |teams| ==>
        teams[k] == Team(k + 1, c, [players[2 * k], players[2 * k + 1]], None, None)
    {
      if i + 1 < |players| {
        teams := teams + [Team(|teams| + 1, c, [players[i], players[i + 1]], None, None)];
      }
      i := i + 2;
    }
  }

  /** Pairs the k-th player of one list with the k-th of the other. */
  method PairAcross(c: Category, left: seq<Player>, right: seq<Player>) returns (teams: seq<Team>)
    ensures teams == Across(c, left, right)
  {
    teams := [];
    var count := if |left| < |right| then |left| else |right|;
    var i := 0;
    while i < count
      invariant 0 <= i <= count && |teams| == i
      invariant forall k :: 0 <= k < i ==> teams[k] == Team(k + 1, c, [left[k], right[k]], None, None)
    {
      teams := teams + [Team(|teams| + 1, c, [left[i], right[i]], None, None)];
      i := i + 1;
    }
  }

  /** How many teams a category yields. */
  function TeamCount(c: Category, pop: Population): nat
  {
    match c
    case MensDoubles => pop.advancedMen / 2
    case MixedDoubles => if pop.advancedMen < pop.advancedWomen then pop.advancedMen else pop.advancedWomen
    case Amateur => pop.amateur / 2
    case Plus35 => (pop.plus35Men + pop.plus35Women) / 2
    case Open => (pop.advancedMen + pop.advancedWomen) / 2
    case ParentChild => pop.children
  }

  /** Each category yields its number of teams, numbered 1..T in order, each of two players. */
  lemma PairedShape(c: Category, pop: Population)
    ensures |Paired(c, pop)| == TeamCount(c, pop)
    ensures forall k :: 0 <= k < |Paired(c, pop)| ==>
      Paired(c, pop)[k].id == k + 1 && Paired(c, pop)[k].category == c &&
      |Paired(c, pop)[k].players| == 2 && Paired(c, pop)[k].groupId == None
  {
  }

  /** Mixed Doubles teams are one man and one woman; Parent-Child teams an advanced parent and an amateur child. */
  lemma PairedComposition(c: Category, pop: Population, k: nat)
    requires k < |Paired(c, pop)|
    ensures c == MixedDoubles ==>
      Paired(c, pop)[k].players[0].gender == Male && Paired(c, pop)[k].players[1].gender == Female
    ensures c == ParentChild ==>
      Paired(c, pop)[k].players[0].skill == AdvancedLevel && Paired(c, pop)[k].players[1].skill == AmateurLevel
    ensures c == MensDoubles ==>
      Paired(c, pop)[k].players[0].gender == Male && Paired(c, pop)[k].players[1].gender == Male
  {
  }

  // ---------------------------------------------------------------------
  // Grouping

  /** The smallest group the engine aims for: one less than requested above 3. */
  function MinPerGroup(teamsPerGroup: int): int
  {
    if teamsPerGroup > 3 then teamsPerGroup - 1 else teamsPerGroup
  }

  /** The ceiling of a / b, for b of either sign. */
  function CeilDiv(a: nat, b: int): (q: int)
    requires b != 0
    ensures b > 0 ==> (q - 1) * b < a <= q * b
    ensures b < 0 ==> q <= 0 && q * b <= a < (q - 1) * b
  {
    if b > 0 then (a + b - 1) / b else -(a / -b)
  }

  /** The group count the engine starts from. */
  function InitialGroups(total: nat, teamsPerGroup: int): (g: nat)
    requires teamsPerGroup != 0
    ensures g >= 1
  {
    var q := CeilDiv(total, teamsPerGroup);
    if q > 1 then q else 1
  }

  /** g groups would average fewer than minTpg teams. */
  predicate Undersized(total: nat, minTpg: int, g: nat)
  {
    total < minTpg * g
  }

  /** The group count after dropping groups while there are fewer than minTpg teams per group. */
  function FinalGroups(total: nat, minTpg: int, g: nat): (r: nat)
    requires g >= 1
    ensures 1 <= r <= g
  {
    if g > 1 && Undersized(total, minTpg, g) then FinalGroups(total, minTpg, g - 1) else g
  }

  /** The number of groups for `total` teams. */
  function GroupCount(total: nat, teamsPerGroup: int): (g: nat)
    requires teamsPerGroup != 0
    ensures g >= 1
  {
    FinalGroups(total, MinPerGroup(teamsPerGroup), InitialGroups(total, teamsPerGroup))
  }

  /** The size of group grp: `base` teams, one more for the first `extra` groups. */
  function GroupSize(base: nat, extra: nat, grp: nat): nat
  {
    base + (if grp <= extra then 1 else 0)
  }

  /** The first team index (0-based) of group grp: the sizes of the groups before it added up. */
  function GroupStart(base: nat, extra: nat, grp: nat): nat
    requires grp >= 1
  {
    if grp == 1 then 0 else GroupStart(base, extra, grp - 1) + GroupSize(base, extra, grp - 1)
  }

  /** The group holding team index j: the first group from grp on whose range reaches past j. */
  function GroupOf(base: nat, extra: nat, g: nat, j: nat, grp: nat): (r: nat)
    requires 1 <= grp <= g && GroupStart(base, extra, grp) <= j < GroupStart(base, extra, g + 1)
    ensures grp <= r <= g && GroupStart(base, extra, r) <= j < GroupStart(base, extra, r + 1)
    decreases g - grp
  {
    if j < GroupStart(base, extra, grp + 1) then grp else GroupOf(base, extra, g, j, grp + 1)
  }

  /** The teams spread over g groups of the given sizes, each with its group and its 1-based place in it. */
  function Spread(teams: seq<Team>, base: nat, extra: nat, g: nat): (ts: seq<Team>)
    requires g >= 1 && GroupStart(base, extra, g + 1) == |teams|
    ensures |ts| == |teams|
  {
    seq(|teams|, j requires 0 <= j < |teams| =>
      var grp := GroupOf(base, extra, g, j, 1);
      teams[j].(groupId := Some(grp), groupNumber := Some(j - GroupStart(base, extra, grp) + 1)))
  }

  /** The teams with their group and their 1-based position in it: total / g per group, one more in the
      first total % g groups. */
  function Grouped(teams: seq<Team>, teamsPerGroup: int): (ts: seq<Team>)
    requires teamsPerGroup != 0
    ensures |ts| == |teams|
  {
    var g := GroupCount(|teams|, teamsPerGroup);
    GroupStartEnd(|teams|, g);
    Spread(teams, |teams| / g, |teams| % g, g)
  }

  /** Teams start..start+size-1 given group grp and their 1-based place in it; the rest unchanged. */
  function Labelled(s: seq<Team>, start: nat, size: nat, grp: nat): (r: seq<Team>)
    requires start + size <= |s|
    ensures |r| == |s|
  {
    s[..start]
    + seq(size, k requires 0 <= k < size => s[start + k].(groupId := Some(grp), groupNumber := Some(k + 1)))
    + s[start + size..]
  }

  /** The teams of a category, grouped when there are any. */
  function TeamsFor(c: Category, pop: Population, teamsPerGroup: int): seq<Team>
    requires TeamCount(c, pop) > 0 ==> teamsPerGroup != 0
  {
    PairedShape(c, pop);
    var paired := Paired(c, pop);
    if paired == [] then [] else Grouped(paired, teamsPerGroup)
  }

  /** Closed form: group grp starts after grp - 1 groups of `base` teams and min(grp - 1, extra) extra ones. */
  lemma {:induction false} GroupStartClosedForm(base: nat, extra: nat, grp: nat)
    requires grp >= 1
    ensures GroupStart(base, extra, grp) == (grp - 1) * base + (if grp - 1 < extra then grp - 1 else extra)
  {
    if grp > 1 {
      GroupStartClosedForm(base, extra, grp - 1);
      assert (grp - 1) * base == (grp - 2) * base + base;
    }
  }

  /** Groups of total / g teams, one more in the first total % g, hold all the teams. */
  lemma GroupStartEnd(total: nat, g: nat)
    requires g >= 1
    ensures GroupStart(total / g, total % g, g + 1) == total
  {
    GroupStartClosedForm(total / g, total % g, g + 1);
    assert total == g * (total / g) + total % g;
  }

  /** Later groups start no earlier. */
  lemma {:induction false} GroupStartMonotone(base: nat, extra: nat, a: nat, b: nat)
    requires 1 <= a <= b
    ensures GroupStart(base, extra, a) <= GroupStart(base, extra, b)
    decreases b - a
  {
    if a < b {
      GroupStartMonotone(base, extra, a + 1, b);
    }
  }

  /** A team index lies in the range of one group only. */
  lemma GroupOfUnique(base: nat, extra: nat, g: nat, j: nat, grp: nat)
    requires 1 <= grp <= g && GroupStart(base, extra, grp) <= j < GroupStart(base, extra, grp + 1)
    ensures j < GroupStart(base, extra, g + 1) && GroupOf(base, extra, g, j, 1) == grp
  {
    GroupStartMonotone(base, extra, grp + 1, g + 1);
    GroupStartMonotone(base, extra, 1, grp);
    var r := GroupOf(base, extra, g, j, 1);
    if r < grp {
      GroupStartMonotone(base, extra, r + 1, grp);
    } else if grp < r {
      GroupStartMonotone(base, extra, grp + 1, r);
    }
  }

  /** One entry of a labelled range. */
  lemma LabelledAt(s: seq<Team>, start: nat, size: nat, grp: nat, j: nat)
    requires start + size <= |s| && j < |s|
    ensures start <= j < start + size ==>
      Labelled(s, start, size, grp)[j] == s[j].(groupId := Some(grp), groupNumber := Some(j - start + 1))
    ensures !(start <= j < start + size) ==> Labelled(s, start, size, grp)[j] == s[j]
  {
  }

  /** The team at index j inside the range of group grp gets group grp and its place in that range. */
  lemma SpreadAt(teams: seq<Team>, base: nat, extra: nat, g: nat, grp: nat, j: nat)
    requires g >= 1 && GroupStart(base, extra, g + 1) == |teams|
    requires 1 <= grp <= g && GroupStart(base, extra, grp) <= j < GroupStart(base, extra, grp + 1)
    ensures j < |teams|
    ensures Spread(teams, base, extra, g)[j]
         == teams[j].(groupId := Some(grp), groupNumber := Some(j - GroupStart(base, extra, grp) + 1))
  {
    GroupOfUnique(base, extra, g, j, grp);
  }

  /** spread gives each team in the range of group grp that group and its 1-based place in the range. */
  predicate SpreadOver(spread: seq<Team>, teams: seq<Team>, base: nat, extra: nat, g: nat)
  {
    |spread| == |teams| &&
    forall grp, k :: 1 <= grp <= g && GroupStart(base, extra, grp) <= k < GroupStart(base, extra, grp + 1) && k < |teams| ==>
      spread[k] == teams[k].(groupId := Some(grp), groupNumber := Some(k - GroupStart(base, extra, grp) + 1))
  }

  /** The teams before index `boundary` carry their place in the spread; the others are as given. */
  predicate FilledUpTo(s: seq<Team>, teams: seq<Team>, spread: seq<Team>, boundary: nat)
  {
    |s| == |teams| == |spread| && boundary <= |teams| &&
    (forall j :: 0 <= j < boundary ==> s[j] == spread[j]) &&
    (forall j :: boundary <= j < |teams| ==> s[j] == teams[j])
  }

  /** Labelling the range start..start+size-1 of group grp moves the boundary from start to
      start + size. */
  lemma FillStep(s: seq<Team>, r: seq<Team>, teams: seq<Team>, spread: seq<Team>, base: nat, extra: nat, g: nat,
                 grp: nat, start: nat, size: nat)
    requires 1 <= grp <= g && GroupStart(base, extra, g + 1) == |teams|
    requires start == GroupStart(base, extra, grp) && size == GroupSize(base, extra, grp)
    requires start + size <= |s| && r == Labelled(s, start, size, grp)
    requires SpreadOver(spread, teams, base, extra, g) && FilledUpTo(s, teams, spread, start)
    ensures FilledUpTo(r, teams, spread, start + size)
  {
    assert GroupStart(base, extra, grp + 1) == start + size;
    forall j | 0 <= j < |teams|
      ensures j < start + size ==> r[j] == spread[j]
      ensures start + size <= j ==> r[j] == teams[j]
    {
      LabelledAt(s, start, size, grp, j);
    }
  }

  /** The range of group grp ends where group grp + 1 starts, within the range of all g groups. */
  lemma GroupFits(base: nat, extra: nat, g: nat, grp: nat, start: nat, size: nat)
    requires 1 <= grp <= g && start == GroupStart(base, extra, grp)
    requires size == base + (if grp <= extra then 1 else 0)
    ensures size == GroupSize(base, extra, grp)
    ensures start + size == GroupStart(base, extra, grp + 1) <= GroupStart(base, extra, g + 1)
  {
    GroupStartMonotone(base, extra, grp + 1, g + 1);
  }

  /** With the boundary at the end, every team carries its place in the spread. */
  lemma FilledAll(s: seq<Team>, teams: seq<Team>, spread: seq<Team>)
    requires FilledUpTo(s, teams, spread, |teams|)
    ensures s == spread
  {
  }

  lemma SpreadIsSpreadOver(teams: seq<Team>, base: nat, extra: nat, g: nat)
    requires g >= 1 && GroupStart(base, extra, g + 1) == |teams|
    ensures SpreadOver(Spread(teams, base, extra, g), teams, base, extra, g)
  {
    forall grp, k | 1 <= grp <= g && GroupStart(base, extra, grp) <= k < GroupStart(base, extra, grp + 1) && k < |teams|
      ensures Spread(teams, base, extra, g)[k]
           == teams[k].(groupId := Some(grp), groupNumber := Some(k - GroupStart(base, extra, grp) + 1))
    {
      SpreadAt(teams, base, extra, g, grp, k);
    }
  }

  /** The number of groups: ceil(total / teamsPerGroup) but at least 1, lowered while a group would
      hold fewer than the minimum. */
  method CountGroups(total: nat, teamsPerGroup: int) returns (numGroups: nat)
    requires teamsPerGroup != 0
    ensures numGroups == GroupCount(total, teamsPerGroup)
  {
    var minTeamsPerGroup := if teamsPerGroup > 3 then teamsPerGroup - 1 else teamsPerGroup;
    var ceil := CeilDiv(total, teamsPerGroup);
    numGroups := if ceil > 1 then ceil else 1;
    ghost var initial := numGroups;
    while numGroups > 1 && total < minTeamsPerGroup * numGroups
      invariant 1 <= numGroups <= initial
      invariant FinalGroups(total, minTeamsPerGroup, numGroups) == FinalGroups(total, minTeamsPerGroup, initial)
      decreases numGroups
    {
      numGroups := numGroups - 1;
    }
  }

  /** Groups the teams of a category. */
  method GroupTeams(teams: seq<Team>, teamsPerGroup: int) returns (grouped: seq<Team>)
    requires teams != [] && teamsPerGroup != 0
    ensures grouped == Grouped(teams, teamsPerGroup)
  {
    var numGroups := CountGroups(|teams|, teamsPerGroup);
    grouped := Distribute(teams, numGroups);
  }

  /** Filling one group: the next `size` teams from `start` on get group `grp` and places 1..size. */
  method FillGroup(teams: seq<Team>, start: nat, size: nat, grp: nat) returns (grouped: seq<Team>)
    requires start + size <= |teams|
    ensures grouped == Labelled(teams, start, size, grp)
  {
    grouped := teams;
    var currentTeam := start;
    var k := 0;
    while k < size
      invariant 0 <= k <= size && currentTeam == start + k
      invariant |grouped| == |teams|
      invariant forall j :: 0 <= j < start ==> grouped[j] == teams[j]
      invariant forall j :: start <= j < currentTeam ==>
                  grouped[j] == teams[j].(groupId := Some(grp), groupNumber := Some(j - start + 1))
      invariant forall j :: currentTeam <= j < |teams| ==> grouped[j] == teams[j]
    {
      if currentTeam < |grouped| {
        grouped := grouped[currentTeam := grouped[currentTeam].(groupId := Some(grp), groupNumber := Some(k + 1))];
        currentTeam := currentTeam + 1;
      }
      k := k + 1;
    }
    assert grouped == Labelled(teams, start, size, grp);
  }

  /** The distribution loop: fills groups 1..numGroups in order, total / numGroups teams each and one
      more in the first total % numGroups. */
  method Distribute(teams: seq<Team>, numGroups: nat) returns (grouped: seq<Team>)
    requires numGroups >= 1
    ensures GroupStart(|teams| / numGroups, |teams| % numGroups, numGroups + 1) == |teams|
    ensures grouped == Spread(teams, |teams| / numGroups, |teams| % numGroups, numGroups)
  {
    var total := |teams|;
    var baseSize := total / numGroups;
    var extraTeams := total % numGroups;
    GroupStartEnd(total, numGroups);
    ghost var spread := Spread(teams, baseSize, extraTeams, numGroups);
    SpreadIsSpreadOver(teams, baseSize, extraTeams, numGroups);
    grouped := teams;
    var currentTeam := 0;
    var group := 1;
    while group <= numGroups
      invariant 1 <= group <= numGroups + 1
      invariant currentTeam == GroupStart(baseSize, extraTeams, group)
      invariant FilledUpTo(grouped, teams, spread, currentTeam)
    {
      var groupSize := baseSize + (if group <= extraTeams then 1 else 0);
      GroupFits(baseSize, extraTeams, numGroups, group, currentTeam, groupSize);
      var next := FillGroup(grouped, currentTeam, groupSize, group);
      FillStep(grouped, next, teams, spread, baseSize, extraTeams, numGroups, group, currentTeam, groupSize);
      grouped := next;
      currentTeam := currentTeam + groupSize;
      group := group + 1;
    }
    FilledAll(grouped, teams, spread);
  }

  /** Creates and groups the teams of one category. */
  method CreateTeamsForCategory(c: Category, pop: Population, teamsPerGroup: int) returns (teams: seq<Team>)
    requires TeamCount(c, pop) > 0 ==> teamsPerGroup != 0
    ensures teams == TeamsFor(c, pop, teamsPerGroup)
  {
    match c {
      case MensDoubles =>
        teams := PairSequential(c, Men(pop.advancedMen));
      case MixedDoubles =>
        teams := PairAcross(c, Men(pop.advancedMen), Women(pop.advancedWomen));
      case Amateur =>
        teams := PairSequential(c, Alternating(pop.amateur, AmateurLevel));
      case Plus35 =>
        teams := PairSequential(c, Men(pop.plus35Men) + Women(pop.plus35Women));
      case Open =>
        teams := PairSequential(c, Men(pop.advancedMen) + Women(pop.advancedWomen));
      case ParentChild =>
        var children := Alternating(pop.children, AmateurLevel);
        var parents := Alternating(|children|, AdvancedLevel);
        teams := PairAcross(c, parents, children);
    }
    PairedShape(c, pop);
    if teams != [] {
      teams := GroupTeams(teams, teamsPerGroup);
    }
  }

  // ---------------------------------------------------------------------
  // Properties of the grouping

  /** Dropping groups stops at the first count that is not undersized, or at one group. */
  lemma {:induction false} FinalGroupsChoice(total: nat, minTpg: int, g: nat)
    requires g >= 1
    ensures FinalGroups(total, minTpg, g) == 1 || !Undersized(total, minTpg, FinalGroups(total, minTpg, g))
    ensures forall h :: FinalGroups(total, minTpg, g) < h <= g ==> Undersized(total, minTpg, h)
    decreases g
  {
    if g > 1 && Undersized(total, minTpg, g) {
      FinalGroupsChoice(total, minTpg, g - 1);
    }
  }

  /** The group count is the largest count up to the initial one whose groups are not undersized
      (or 1 when every count is), and with at least one team it is at most the number of teams. */
  lemma GroupCountChoice(total: nat, teamsPerGroup: int)
    requires teamsPerGroup != 0
    ensures GroupCount(total, teamsPerGroup) <= InitialGroups(total, teamsPerGroup)
    ensures GroupCount(total, teamsPerGroup) == 1
         || !Undersized(total, MinPerGroup(teamsPerGroup), GroupCount(total, teamsPerGroup))
    ensures forall h :: GroupCount(total, teamsPerGroup) < h <= InitialGroups(total, teamsPerGroup) ==>
              Undersized(total, MinPerGroup(teamsPerGroup), h)
    ensures total >= 1 ==> GroupCount(total, teamsPerGroup) <= total
  {
    FinalGroupsChoice(total, MinPerGroup(teamsPerGroup), InitialGroups(total, teamsPerGroup));
    if total >= 1 {
      InitialGroupsAtMost(total, teamsPerGroup);
    }
  }

  /** Rounding up total / teamsPerGroup never gives more groups than teams. */
  lemma InitialGroupsAtMost(total: nat, teamsPerGroup: int)
    requires teamsPerGroup != 0 && total >= 1
    ensures InitialGroups(total, teamsPerGroup) <= total
  {
    if teamsPerGroup > 0 {
      var q := CeilDiv(total, teamsPerGroup);
      if q >= 1 {
        AtLeastFactor(q - 1, teamsPerGroup);
      }
    }
  }

  /** Multiplying by a positive whole number never makes a count smaller. */
  lemma {:induction false} AtLeastFactor(x: nat, y: int)
    requires y >= 1
    ensures x <= x * y
  {
    if x > 0 {
      AtLeastFactor(x - 1, y);
      assert x * y == (x - 1) * y + y;
    }
  }

  /** With at least minTpg * g teams, every group of the even spread holds at least minTpg. */
  lemma SpreadLargeEnough(total: nat, minTpg: int, g: nat)
    requires g >= 1 && !Undersized(total, minTpg, g)
    ensures total / g >= minTpg
  {
    var q := total / g;
    assert total == g * q + total % g;
    assert g * minTpg < g * (q + 1);
    MulCancel(g, minTpg, q + 1);
  }

  /** A count divided by a positive number no larger than it is at least one. */
  lemma QuotientPositive(a: nat, b: nat)
    requires 1 <= b <= a
    ensures a / b >= 1
  {
    var q := a / b;
    assert a == b * q + a % b && a % b < b;
    assert q <= 0 ==> b * q <= 0;
  }

  lemma MulCancel(g: nat, a: int, b: int)
    requires g >= 1 && g * a < g * b
    ensures a < b
  {
  }

  /** The groups: sizes total / g or one more, the larger ones first, all of them together holding every
      team, none empty, and, when there is more than one, none below the minimum. */
  lemma GroupSizes(total: nat, teamsPerGroup: int)
    requires teamsPerGroup != 0 && total >= 1
    ensures var g := GroupCount(total, teamsPerGroup);
      var base, extra := total / g, total % g;
      GroupStart(base, extra, g + 1) == total &&
      forall grp :: 1 <= grp <= g ==>
        (GroupSize(base, extra, grp) == base + 1 <==> grp <= extra) &&
        base <= GroupSize(base, extra, grp) <= base + 1 &&
        GroupSize(base, extra, grp) >= 1 &&
        (g > 1 ==> GroupSize(base, extra, grp) >= MinPerGroup(teamsPerGroup))
  {
    var g := GroupCount(total, teamsPerGroup);
    GroupStartEnd(total, g);
    GroupCountChoice(total, teamsPerGroup);
    QuotientPositive(total, g);
    if g > 1 {
      SpreadLargeEnough(total, MinPerGroup(teamsPerGroup), g);
    }
  }

  /** Team j lands in group grp exactly when j lies in the index range of that group, at the place it has in
      that range; its number, category and players are unchanged. */
  lemma GroupedAt(teams: seq<Team>, teamsPerGroup: int, j: nat, grp: nat)
    requires teamsPerGroup != 0 && j < |teams|
    ensures var g := GroupCount(|teams|, teamsPerGroup);
      var base, extra := |teams| / g, |teams| % g;
      Grouped(teams, teamsPerGroup)[j].id == teams[j].id &&
      Grouped(teams, teamsPerGroup)[j].category == teams[j].category &&
      Grouped(teams, teamsPerGroup)[j].players == teams[j].players &&
      (Grouped(teams, teamsPerGroup)[j].groupId == Some(grp) <==>
        1 <= grp <= g && GroupStart(base, extra, grp) <= j < GroupStart(base, extra, grp + 1)) &&
      (Grouped(teams, teamsPerGroup)[j].groupId == Some(grp) ==>
        Grouped(teams, teamsPerGroup)[j].groupNumber == Some(j - GroupStart(base, extra, grp) + 1))
  {
    var g := GroupCount(|teams|, teamsPerGroup);
    var base, extra := |teams| / g, |teams| % g;
    GroupStartEnd(|teams|, g);
    var r := GroupOf(base, extra, g, j, 1);
    if 1 <= grp <= g && GroupStart(base, extra, grp) <= j < GroupStart(base, extra, grp + 1) {
      GroupOfUnique(base, extra, g, j, grp);
    }
  }

  /** Group numbers never decrease along the team list, and every team is in one of groups 1..g. */
  lemma GroupedOrdered(teams: seq<Team>, teamsPerGroup: int, i: nat, j: nat)
    requires teamsPerGroup != 0 && i <= j < |teams|
    ensures Grouped(teams, teamsPerGroup)[i].groupId.Some? && Grouped(teams, teamsPerGroup)[j].groupId.Some?
    ensures 1 <= Grouped(teams, teamsPerGroup)[i].groupId.value
              <= Grouped(teams, teamsPerGroup)[j].groupId.value <= GroupCount(|teams|, teamsPerGroup)
  {
    var g := GroupCount(|teams|, teamsPerGroup);
    var base, extra := |teams| / g, |teams| % g;
    GroupStartEnd(|teams|, g);
    var a := GroupOf(base, extra, g, i, 1);
    var b := GroupOf(base, extra, g, j, 1);
    if b < a {
      GroupStartMonotone(base, extra, b + 1, a);
    }
  }
}
