/**
  The engine around the three pieces: which categories are played and with
  what priority, the teams and round-robin matches of every played
  category, the number of match slots the day offers, and the two early
  exits taken before the scheduler runs.
 */
module Tournament {
  import opened Domain
  import opened RoundRobin
  import RoundRobinFacts
  import opened Teams
  import opened SchedulePlan
  import ScheduleFacts
  import Scheduler

  // ---------------------------------------------------------------------
  // Category settings

  /** One category's settings: whether it is played, its teams per group and its priority. */
  datatype CategorySetting = CategorySetting(played: bool, teamsPerGroup: int, priority: int)

  /** The settings of the six categories. */
  datatype Settings = Settings(mensDoubles: CategorySetting, mixedDoubles: CategorySetting,
                               amateur: CategorySetting, plus35: CategorySetting,
                               openPlay: CategorySetting, parentChild: CategorySetting)

  function SettingOf(s: Settings, c: Category): CategorySetting
  {
    match c
    case MensDoubles => s.mensDoubles
    case MixedDoubles => s.mixedDoubles
    case Amateur => s.amateur
    case Plus35 => s.plus35
    case Open => s.openPlay
    case ParentChild => s.parentChild
  }

  /** The order in which the categories are offered and switched on. */
  function OfferIndex(c: Category): nat
  {
    match c
    case MensDoubles => 0
    case MixedDoubles => 1
    case Amateur => 2
    case Plus35 => 3
    case Open => 4
    case ParentChild => 5
  }

  /** The list of played categories after category c is looked at: c is added when it is played. */
  function Listed(s: Settings, c: Category, enabled: seq<Category>): seq<Category>
  {
    if SettingOf(s, c).played then enabled + [c] else enabled
  }

  /** The priority map after category c is looked at: c gets its priority when it is played. */
  function Prioritized(s: Settings, c: Category, priorities: map<Category, int>): map<Category, int>
  {
    if SettingOf(s, c).played then priorities[c := SettingOf(s, c).priority] else priorities
  }

  /** The played categories, the six looked at in the order they are offered. */
  function Enabled(s: Settings): seq<Category>
  {
    Listed(s, ParentChild, Listed(s, Open, Listed(s, Plus35,
      Listed(s, Amateur, Listed(s, MixedDoubles, Listed(s, MensDoubles, []))))))
  }

  /** The priority map of the played categories, built in the same order. */
  function Priorities(s: Settings): map<Category, int>
  {
    Prioritized(s, ParentChild, Prioritized(s, Open, Prioritized(s, Plus35,
      Prioritized(s, Amateur, Prioritized(s, MixedDoubles, Prioritized(s, MensDoubles, map[]))))))
  }

  /** Looks at one category: a played one joins the list and the priority map. */
  method Offer(s: Settings, c: Category, enabled: seq<Category>, priorities: map<Category, int>)
    returns (enabled': seq<Category>, priorities': map<Category, int>)
    ensures enabled' == Listed(s, c, enabled) && priorities' == Prioritized(s, c, priorities)
  {
    enabled', priorities' := enabled, priorities;
    if SettingOf(s, c).played {
      enabled' := enabled' + [c];
      priorities' := priorities'[c := SettingOf(s, c).priority];
    }
  }

  /** Goes through the six categories in turn, listing each one that is played and recording its priority. */
  method CollectEnabled(s: Settings) returns (enabled: seq<Category>, priorities: map<Category, int>)
    ensures enabled == Enabled(s) && priorities == Priorities(s)
  {
    enabled, priorities := [], map[];
    enabled, priorities := Offer(s, MensDoubles, enabled, priorities);
    enabled, priorities := Offer(s, MixedDoubles, enabled, priorities);
    enabled, priorities := Offer(s, Amateur, enabled, priorities);
    enabled, priorities := Offer(s, Plus35, enabled, priorities);
    enabled, priorities := Offer(s, Open, enabled, priorities);
    enabled, priorities := Offer(s, ParentChild, enabled, priorities);
  }

  /** The categories come in the order they are offered, none twice. */
  predicate Ascending(cs: seq<Category>)
  {
    forall i, j :: 0 <= i < j < |cs| ==> OfferIndex(cs[i]) < OfferIndex(cs[j])
  }

  /** Every category on the list comes before position k of the offer order. */
  predicate Before(cs: seq<Category>, k: nat)
  {
    forall i :: 0 <= i < |cs| ==> OfferIndex(cs[i]) < k
  }

  /** Looking at c adds x to the list exactly when x is c and c is played. */
  lemma ListedMember(s: Settings, c: Category, enabled: seq<Category>, x: Category)
    ensures x in Listed(s, c, enabled) <==> x in enabled || (x == c && SettingOf(s, c).played)
  {
  }

  /** Looking at c keeps the list in offer order when c comes after everything on it. */
  lemma ListedAscending(s: Settings, c: Category, enabled: seq<Category>)
    requires Ascending(enabled) && Before(enabled, OfferIndex(c))
    ensures Ascending(Listed(s, c, enabled)) && Before(Listed(s, c, enabled), OfferIndex(c) + 1)
  {
  }

  /** Looking at c gives x a priority exactly when x is c and c is played, and leaves the others alone. */
  lemma PrioritizedAt(s: Settings, c: Category, priorities: map<Category, int>, x: Category)
    ensures x in Prioritized(s, c, priorities) <==> x in priorities || (x == c && SettingOf(s, c).played)
    ensures x in Prioritized(s, c, priorities) ==>
              Prioritized(s, c, priorities)[x]
              == if x == c && SettingOf(s, c).played then SettingOf(s, c).priority else priorities[x]
  {
  }

  /** A category is played exactly when it is switched on, and the played categories come in the order
      they are offered, so none is listed twice. */
  lemma EnabledExactly(s: Settings)
    ensures forall c :: c in Enabled(s) <==> SettingOf(s, c).played
    ensures Ascending(Enabled(s))
  {
    var e0: seq<Category> := [];
    var e1 := Listed(s, MensDoubles, e0);
    var e2 := Listed(s, MixedDoubles, e1);
    var e3 := Listed(s, Amateur, e2);
    var e4 := Listed(s, Plus35, e3);
    var e5 := Listed(s, Open, e4);
    forall x ensures x in Enabled(s) <==> SettingOf(s, x).played {
      ListedMember(s, MensDoubles, e0, x);
      ListedMember(s, MixedDoubles, e1, x);
      ListedMember(s, Amateur, e2, x);
      ListedMember(s, Plus35, e3, x);
      ListedMember(s, Open, e4, x);
      ListedMember(s, ParentChild, e5, x);
    }
    ListedAscending(s, MensDoubles, e0);
    ListedAscending(s, MixedDoubles, e1);
    ListedAscending(s, Amateur, e2);
    ListedAscending(s, Plus35, e3);
    ListedAscending(s, Open, e4);
    ListedAscending(s, ParentChild, e5);
  }

  /** The priority map holds exactly the played categories, each with its own priority. */
  lemma PrioritiesExactly(s: Settings)
    ensures forall c :: c in Priorities(s) <==> SettingOf(s, c).played
    ensures forall c :: c in Priorities(s) ==> Priorities(s)[c] == SettingOf(s, c).priority
  {
    var p0: map<Category, int> := map[];
    var p1 := Prioritized(s, MensDoubles, p0);
    var p2 := Prioritized(s, MixedDoubles, p1);
    var p3 := Prioritized(s, Amateur, p2);
    var p4 := Prioritized(s, Plus35, p3);
    var p5 := Prioritized(s, Open, p4);
    forall x ensures (x in Priorities(s) <==> SettingOf(s, x).played) &&
                     (x in Priorities(s) ==> Priorities(s)[x] == SettingOf(s, x).priority) {
      PrioritizedAt(s, MensDoubles, p0, x);
      PrioritizedAt(s, MixedDoubles, p1, x);
      PrioritizedAt(s, Amateur, p2, x);
      PrioritizedAt(s, Plus35, p3, x);
      PrioritizedAt(s, Open, p4, x);
      PrioritizedAt(s, ParentChild, p5, x);
    }
  }

  // ---------------------------------------------------------------------
  // Groups and matches of a category

  /** The teams of a category, as its settings make them. */
  function CategoryTeams(s: Settings, pop: Population, c: Category): seq<Team>
    requires TeamCount(c, pop) > 0 ==> SettingOf(s, c).teamsPerGroup != 0
  {
    TeamsFor(c, pop, SettingOf(s, c).teamsPerGroup)
  }

  /** Every listed category with teams has a non-zero number of teams per group to divide by. */
  predicate Playable(s: Settings, pop: Population, cats: seq<Category>)
  {
    forall c :: c in cats && TeamCount(c, pop) > 0 ==> SettingOf(s, c).teamsPerGroup != 0
  }

  /** The teams of group grp, in list order. */
  function GroupMembers(teams: seq<Team>, grp: nat): seq<Team>
  {
    if teams == [] then []
    else (if teams[0].groupId == Some(grp) then [teams[0]] else []) + GroupMembers(teams[1..], grp)
  }

  /** The highest group number among the teams (0 when none has one). */
  function HighestGroup(teams: seq<Team>): nat
  {
    if teams == [] then 0
    else
      var rest := HighestGroup(teams[1..]);
      var here := if teams[0].groupId.Some? then teams[0].groupId.value else 0;
      if here > rest then here else rest
  }

  /** The highest group number is at least every team's group number, and some team has it unless it is 0. */
  lemma {:induction false} HighestGroupBounds(teams: seq<Team>)
    ensures forall j :: 0 <= j < |teams| && teams[j].groupId.Some? ==> teams[j].groupId.value <= HighestGroup(teams)
    ensures HighestGroup(teams) > 0 ==> exists j :: 0 <= j < |teams| && teams[j].groupId == Some(HighestGroup(teams))
  {
    if teams != [] {
      HighestGroupBounds(teams[1..]);
      forall j | 0 < j < |teams| ensures teams[j] == teams[1..][j - 1] {
      }
      if HighestGroup(teams) > 0 && HighestGroup(teams) == HighestGroup(teams[1..]) {
        var j :| 0 <= j < |teams[1..]| && teams[1..][j].groupId == Some(HighestGroup(teams));
        assert teams[j + 1] == teams[1..][j];
      }
    }
  }

  /** The matches of a group with the category written on each. */
  function Stamped(ms: seq<Match>, c: Category): (r: seq<Match>)
    ensures |r| == |ms|
  {
    seq(|ms|, k requires 0 <= k < |ms| => ms[k].(category := c))
  }

  /** The matches of groups 1..n of a category, group after group, each group's round robin stamped with
      the category. */
  function CategoryFixtures(teams: seq<Team>, c: Category, n: nat): seq<Match>
  {
    if n == 0 then [] else CategoryFixtures(teams, c, n - 1) + Stamped(GroupFixtures(GroupMembers(teams, n), n), c)
  }

  /** The matches of the listed categories that have teams, category after category. */
  function AllFixtures(s: Settings, pop: Population, cats: seq<Category>): seq<Match>
    requires Playable(s, pop, cats)
  {
    if cats == [] then []
    else
      var c := cats[|cats| - 1];
      var teams := CategoryTeams(s, pop, c);
      AllFixtures(s, pop, cats[..|cats| - 1]) + CategoryFixtures(teams, c, HighestGroup(teams))
  }

  /** The number of pairings in groups 1..n: n_g(n_g - 1)/2 for a group of n_g teams. */
  function GroupPairs(teams: seq<Team>, n: nat): nat
  {
    if n == 0 then 0
    else var m := |GroupMembers(teams, n)|; GroupPairs(teams, n - 1) + m * (m - 1) / 2
  }

  /** The number of pairings over every group of every listed category. */
  function TotalPairs(s: Settings, pop: Population, cats: seq<Category>): nat
    requires Playable(s, pop, cats)
  {
    if cats == [] then 0
    else
      var c := cats[|cats| - 1];
      var teams := CategoryTeams(s, pop, c);
      TotalPairs(s, pop, cats[..|cats| - 1]) + GroupPairs(teams, HighestGroup(teams))
  }

  /** Stamps the category on every match of a group. */
  method StampCategory(ms: seq<Match>, c: Category) returns (r: seq<Match>)
    ensures r == Stamped(ms, c)
  {
    r := [];
    var k := 0;
    while k < |ms|
      invariant 0 <= k <= |ms| && r == Stamped(ms[..k], c)
    {
      assert ms[..k + 1][..k] == ms[..k];
      r := r + [ms[k].(category := c)];
      k := k + 1;
    }
    assert ms[..|ms|] == ms;
  }

  /** Groups 1..numGroups of a category in turn: pick the group's teams, play their round robin, stamp the
      category on the matches and add them to the list. */
  method PlayGroups(teams: seq<Team>, c: Category, numGroups: nat, matches: seq<Match>) returns (all: seq<Match>)
    ensures all == matches + CategoryFixtures(teams, c, numGroups)
  {
    all := matches;
    assert CategoryFixtures(teams, c, 0) == [] && all == matches + [];
    var groupId := 1;
    while groupId <= numGroups
      invariant 1 <= groupId <= numGroups + 1
      invariant all == matches + CategoryFixtures(teams, c, groupId - 1)
    {
      var groupTeams := GroupMembers(teams, groupId);
      var groupMatches := GenerateRoundRobinMatches(groupTeams, groupId);
      groupMatches := StampCategory(groupMatches, c);
      PlayGroupStep(teams, c, groupId, matches, all, groupMatches);
      all := all + groupMatches;
      groupId := groupId + 1;
    }
    assert groupId - 1 == numGroups;
  }

  /** Adding group n's stamped matches to the matches of groups 1..n-1 gives those of groups 1..n. */
  lemma PlayGroupStep(teams: seq<Team>, c: Category, n: nat, matches: seq<Match>, all: seq<Match>,
                      groupMatches: seq<Match>)
    requires n >= 1 && all == matches + CategoryFixtures(teams, c, n - 1)
    requires groupMatches == Stamped(GroupFixtures(GroupMembers(teams, n), n), c)
    ensures all + groupMatches == matches + CategoryFixtures(teams, c, n)
  {
  }

  /** What the match assembly hands back: all matches, the teams of every category that has some, the
      number of groups of each category (0 for one without teams) and the match total. */
  datatype Assembly = Assembly(matches: seq<Match>, teams: map<Category, seq<Team>>,
                               groups: map<Category, nat>, totalMatches: nat)

  /** The teams made for each category; a category that has players but no number of teams per group to
      divide by cannot be listed (see Playable) and counts here as having none. */
  function TeamsOf(s: Settings, pop: Population): Category -> seq<Team>
  {
    c => if TeamCount(c, pop) > 0 && SettingOf(s, c).teamsPerGroup == 0 then [] else CategoryTeams(s, pop, c)
  }

  /** The teams recorded for the categories of cats, looked at in turn: each one whose teams, by f, are
      not empty, with those teams. */
  function TeamsTable(cats: seq<Category>, f: Category -> seq<Team>): map<Category, seq<Team>>
  {
    if cats == [] then map[]
    else
      var c := cats[|cats| - 1];
      var table := TeamsTable(cats[..|cats| - 1], f);
      if f(c) != [] then table[c := f(c)] else table
  }

  /** The number of groups recorded for each category: 0 to begin with, then the highest group number of
      each category of cats whose teams, by f, are not empty. */
  function GroupsTable(cats: seq<Category>, f: Category -> seq<Team>): map<Category, nat>
  {
    if cats == [] then map[MensDoubles := 0, MixedDoubles := 0, Amateur := 0, Plus35 := 0, Open := 0, ParentChild := 0]
    else
      var c := cats[|cats| - 1];
      var table := GroupsTable(cats[..|cats| - 1], f);
      if f(c) != [] then table[c := HighestGroup(f(c))] else table
  }

  /** The categories in turn: make the teams; skip a category without any; otherwise record its teams and
      its number of groups (the highest group number) and add the matches of its groups. */
  method CalculateGroupsAndMatches(s: Settings, pop: Population, cats: seq<Category>) returns (a: Assembly)
    requires Playable(s, pop, cats)
    ensures a.matches == AllFixtures(s, pop, cats) && a.totalMatches == |a.matches|
    ensures a.teams == TeamsTable(cats, TeamsOf(s, pop)) && a.groups == GroupsTable(cats, TeamsOf(s, pop))
  {
    var allTeams: map<Category, seq<Team>> := map[];
    var allMatches: seq<Match> := [];
    var groups: map<Category, nat> := map[MensDoubles := 0, MixedDoubles := 0, Amateur := 0, Plus35 := 0, Open := 0, ParentChild := 0];
    assert cats[..0] == [];
    var i := 0;
    while i < |cats|
      invariant 0 <= i <= |cats| && Playable(s, pop, cats[..i])
      invariant allMatches == AllFixtures(s, pop, cats[..i])
      invariant allTeams == TeamsTable(cats[..i], TeamsOf(s, pop))
      invariant groups == GroupsTable(cats[..i], TeamsOf(s, pop))
    {
      var c := cats[i];
      var teams := CreateTeamsForCategory(c, pop, SettingOf(s, c).teamsPerGroup);
      if teams != [] {
        TeamsOfListed(s, pop, cats, i);
        TablesStep(cats, i, TeamsOf(s, pop));
        allTeams := allTeams[c := teams];
        var numGroups := HighestGroup(teams);
        groups := groups[c := numGroups];
        var before := allMatches;
        allMatches := PlayGroups(teams, c, numGroups, allMatches);
        AssembleStep(s, pop, cats, i, before, teams, allMatches);
      } else {
        TeamsOfListed(s, pop, cats, i);
        TablesStep(cats, i, TeamsOf(s, pop));
        AssembleStep(s, pop, cats, i, allMatches, teams, allMatches);
      }
      i := i + 1;
    }
    assert cats[..i] == cats;
    a := Assembly(allMatches, allTeams, groups, |allMatches|);
  }

  /** Adding category cats[i]'s matches to those of the categories before it. */
  lemma AssembleStep(s: Settings, pop: Population, cats: seq<Category>, i: nat, before: seq<Match>,
                     teams: seq<Team>, after: seq<Match>)
    requires Playable(s, pop, cats) && i < |cats|
    requires before == AllFixtures(s, pop, cats[..i]) && teams == CategoryTeams(s, pop, cats[i])
    requires after == before + CategoryFixtures(teams, cats[i], HighestGroup(teams))
    ensures Playable(s, pop, cats[..i + 1]) && after == AllFixtures(s, pop, cats[..i + 1])
  {
    assert cats[..i + 1][..i] == cats[..i] && cats[..i + 1][i] == cats[i];
  }

  /** The teams made for a listed category are its teams by TeamsOf. */
  lemma TeamsOfListed(s: Settings, pop: Population, cats: seq<Category>, i: nat)
    requires Playable(s, pop, cats) && i < |cats|
    ensures TeamsOf(s, pop)(cats[i]) == CategoryTeams(s, pop, cats[i])
  {
    assert cats[i] in cats;
  }

  /** Looking at category cats[i] records its teams and its number of groups when it has teams, and
      leaves the tables as they are otherwise. */
  lemma TablesStep(cats: seq<Category>, i: nat, f: Category -> seq<Team>)
    requires i < |cats|
    ensures f(cats[i]) != [] ==> TeamsTable(cats[..i + 1], f) == TeamsTable(cats[..i], f)[cats[i] := f(cats[i])]
    ensures f(cats[i]) != [] ==> GroupsTable(cats[..i + 1], f) == GroupsTable(cats[..i], f)[cats[i] := HighestGroup(f(cats[i]))]
    ensures f(cats[i]) == [] ==> TeamsTable(cats[..i + 1], f) == TeamsTable(cats[..i], f)
    ensures f(cats[i]) == [] ==> GroupsTable(cats[..i + 1], f) == GroupsTable(cats[..i], f)
  {
    assert cats[..i + 1][..i] == cats[..i] && cats[..i + 1][i] == cats[i];
  }

  /** The table holds exactly the categories of cats whose teams are not empty, each with its teams. */
  lemma {:induction false} TeamsTableAt(cats: seq<Category>, f: Category -> seq<Team>, x: Category)
    ensures x in TeamsTable(cats, f) <==> x in cats && f(x) != []
    ensures x in TeamsTable(cats, f) ==> TeamsTable(cats, f)[x] == f(x)
  {
    if cats != [] {
      var init, c := cats[..|cats| - 1], cats[|cats| - 1];
      assert cats == init + [c];
      TeamsTableAt(init, f, x);
    }
  }

  /** Every category has a number of groups in the table: the highest group number of its recorded teams,
      or 0 when it has none. */
  lemma {:induction false} GroupsTableAt(cats: seq<Category>, f: Category -> seq<Team>, x: Category)
    ensures x in GroupsTable(cats, f)
    ensures GroupsTable(cats, f)[x] == if x in TeamsTable(cats, f) then HighestGroup(TeamsTable(cats, f)[x]) else 0
  {
    if cats == [] {
      assert x == MensDoubles || x == MixedDoubles || x == Amateur || x == Plus35 || x == Open || x == ParentChild;
    } else {
      GroupsTableAt(cats[..|cats| - 1], f, x);
    }
  }

  /** What the assembly records: exactly the listed categories that have teams, with the teams made for
      them, and for every category its number of groups, the highest group number of its teams, or 0
      when it has none. */
  lemma Recorded(s: Settings, pop: Population, cats: seq<Category>, x: Category)
    requires Playable(s, pop, cats)
    ensures x in TeamsTable(cats, TeamsOf(s, pop)) <==> x in cats && CategoryTeams(s, pop, x) != []
    ensures x in TeamsTable(cats, TeamsOf(s, pop)) ==> TeamsTable(cats, TeamsOf(s, pop))[x] == CategoryTeams(s, pop, x)
    ensures x in GroupsTable(cats, TeamsOf(s, pop))
    ensures GroupsTable(cats, TeamsOf(s, pop))[x]
            == if x in cats && CategoryTeams(s, pop, x) != [] then HighestGroup(CategoryTeams(s, pop, x)) else 0
  {
    TeamsTableAt(cats, TeamsOf(s, pop), x);
    GroupsTableAt(cats, TeamsOf(s, pop), x);
  }

  // ---------------------------------------------------------------------
  // Properties of the assembly

  /** A category's number of groups is the group count its grouping chose. */
  lemma HighestGroupIsGroupCount(c: Category, pop: Population, teamsPerGroup: int)
    requires TeamCount(c, pop) > 0 ==> teamsPerGroup != 0
    requires TeamsFor(c, pop, teamsPerGroup) != []
    ensures HighestGroup(TeamsFor(c, pop, teamsPerGroup)) == GroupCount(TeamCount(c, pop), teamsPerGroup)
  {
    PairedShape(c, pop);
    var paired := Paired(c, pop);
    var teams := TeamsFor(c, pop, teamsPerGroup);
    var total := |paired|;
    var g := GroupCount(total, teamsPerGroup);
    var base, extra := total / g, total % g;
    GroupSizes(total, teamsPerGroup);
    assert GroupStart(base, extra, g + 1) == GroupStart(base, extra, g) + GroupSize(base, extra, g);
    GroupedAt(paired, teamsPerGroup, total - 1, g);
    HighestGroupBounds(teams);
    var h := HighestGroup(teams);
    var j :| 0 <= j < |teams| && teams[j].groupId == Some(h);
    GroupedOrdered(paired, teamsPerGroup, j, total - 1);
  }

  /** Groups 1..n hold n_g(n_g - 1)/2 matches for a group of n_g teams. */
  lemma {:induction false} CategoryFixturesCount(teams: seq<Team>, c: Category, n: nat)
    ensures |CategoryFixtures(teams, c, n)| == GroupPairs(teams, n)
  {
    if n > 0 {
      CategoryFixturesCount(teams, c, n - 1);
      RoundRobinFacts.MatchCount(GroupMembers(teams, n), n);
    }
  }

  /** Every match of groups 1..n is stamped with the category and carries one of those group numbers. */
  lemma {:induction false} CategoryFixturesStamped(teams: seq<Team>, c: Category, n: nat)
    ensures forall m :: m in CategoryFixtures(teams, c, n) ==> m.category == c && 1 <= m.groupId <= n
  {
    if n > 0 {
      CategoryFixturesStamped(teams, c, n - 1);
      GroupStamped(GroupMembers(teams, n), c, n);
    }
  }

  /** Every stamped match of a group carries the category and the group number. */
  lemma GroupStamped(members: seq<Team>, c: Category, n: nat)
    ensures forall m :: m in Stamped(GroupFixtures(members, n), c) ==> m.category == c && m.groupId == n
  {
    var group := GroupFixtures(members, n);
    forall m | m in Stamped(group, c) ensures m.category == c && m.groupId == n {
      var k :| 0 <= k < |group| && Stamped(group, c)[k] == m;
      GroupFixtureGroup(members, n, k);
    }
  }

  /** Every match of a group's round robin carries the group number. */
  lemma GroupFixtureGroup(teams: seq<Team>, g: nat, k: nat)
    requires k < |GroupFixtures(teams, g)|
    ensures GroupFixtures(teams, g)[k].groupId == g
  {
    RoundRobinFacts.MatchShape(teams, g);
    assert RoundRobinFacts.Fixture(GroupFixtures(teams, g)[k], teams, g);
  }

  /** The assembly omits nothing and adds nothing: its size is the total of the groups' pairings, and each
      match is stamped with one of the listed categories that has teams. */
  lemma {:induction false} AllFixturesFacts(s: Settings, pop: Population, cats: seq<Category>)
    requires Playable(s, pop, cats)
    ensures |AllFixtures(s, pop, cats)| == TotalPairs(s, pop, cats)
    ensures forall m :: m in AllFixtures(s, pop, cats) ==> m.category in cats && CategoryTeams(s, pop, m.category) != []
  {
    if cats != [] {
      var init := cats[..|cats| - 1];
      var c := cats[|cats| - 1];
      var teams := CategoryTeams(s, pop, c);
      assert Playable(s, pop, init) by {
        forall x | x in init ensures x in cats {
        }
      }
      AllFixturesFacts(s, pop, init);
      CategoryFixturesCount(teams, c, HighestGroup(teams));
      CategoryFixturesStamped(teams, c, HighestGroup(teams));
      forall m | m in AllFixtures(s, pop, cats)
        ensures m.category in cats && CategoryTeams(s, pop, m.category) != []
      {
        if m in AllFixtures(s, pop, init) {
          assert m.category in init;
        } else {
          assert m in CategoryFixtures(teams, c, HighestGroup(teams));
        }
      }
    }
  }

  // ---------------------------------------------------------------------
  // Available match slots

  /** Python's int() of a quotient: the quotient truncated toward zero. */
  function TruncDiv(a: int, d: nat): (q: int)
    requires d > 0
    ensures a >= 0 ==> 0 <= q && q * d <= a < (q + 1) * d
    ensures a < 0 ==> q <= 0 && (q - 1) * d < a <= q * d
  {
    if a >= 0 then DivBounds(a, d); a / d
    else DivBounds(-a, d); NegatedBounds(-a, d, (-a) / d); -((-a) / d)
  }

  lemma DivBounds(a: nat, d: nat)
    requires d > 0
    ensures 0 <= a / d && (a / d) * d <= a < (a / d + 1) * d
  {
  }

  lemma NegatedBounds(b: int, d: int, q: int)
    requires d > 0 && q * d <= b < (q + 1) * d && b > 0
    ensures (-q - 1) * d < -b <= -q * d
  {
  }

  /** Whole matches that fit on one court between start and end, times the courts. */
  function AvailableMatchSlots(start: int, end: int, d: nat, courts: int): int
    requires d > 0
  {
    TruncDiv(end - start, d) * courts
  }

  /** When the day does not run backwards, the available match slots are the scheduler's slots times the
      courts, its number of (slot, court) cells when there are courts. */
  lemma AvailableSlotsAreCells(start: int, end: int, d: nat, courts: int)
    requires d > 0
    ensures end >= start ==> AvailableMatchSlots(start, end, d, courts) == |SlotTimes(start, end, d)| * courts
    ensures end >= start && courts > 0 ==>
              AvailableMatchSlots(start, end, d, courts) == Capacity(|SlotTimes(start, end, d)|, courts)
    ensures end < start && courts >= 0 ==> AvailableMatchSlots(start, end, d, courts) <= 0
  {
    CapacityProduct(|SlotTimes(start, end, d)|, courts);
    if end < start && courts >= 0 {
      var q := TruncDiv(end - start, d);
      assert q * courts <= 0 by {
        MulNonPositive(q, courts);
      }
    }
  }

  lemma MulNonPositive(q: int, c: int)
    requires q <= 0 && c >= 0
    ensures q * c <= 0
  {
  }

  // ---------------------------------------------------------------------
  // The whole run

  /** How a run ends: one of the two early exits, a schedule, or a failure inside the scheduler. */
  datatype Outcome =
    | NoCategoriesSelected
    | NoMatchesGenerated
    | Scheduled(schedule: seq<Match>, totalMatches: nat, totalSlots: int)
    | Crashed(fault: Fault)

  /** The outcome of a run, stated without its steps. */
  function RunOutcome(s: Settings, pop: Population, start: int, end: int, d: nat, courts: int,
                      separate: bool): Outcome
    requires d > 0 && Playable(s, pop, Enabled(s))
  {
    var cats := Enabled(s);
    if cats == [] then NoCategoriesSelected
    else
      var ms := AllFixtures(s, pop, cats);
      if ms == [] then NoMatchesGenerated
      else
        match Schedule(ms, start, end, d, courts, separate, Priorities(s))
        case Failure(e) => Crashed(e)
        case Success(v) => Scheduled(v, |ms|, AvailableMatchSlots(start, end, d, courts))
  }

  /** Lists the played categories; stops when there are none; counts the available slots; assembles the
      matches; stops when there are none; otherwise schedules them. */
  method CreateTournamentSchedule(s: Settings, pop: Population, start: int, end: int, d: nat, courts: int,
                                  separate: bool) returns (o: Outcome)
    requires d > 0 && Playable(s, pop, Enabled(s))
    ensures o == RunOutcome(s, pop, start, end, d, courts, separate)
  {
    var enabled, priorities := CollectEnabled(s);
    if enabled == [] {
      return NoCategoriesSelected;
    }
    var totalSlots := AvailableMatchSlots(start, end, d, courts);
    var a := CalculateGroupsAndMatches(s, pop, enabled);
    if a.matches == [] {
      return NoMatchesGenerated;
    }
    var r := Scheduler.ScheduleMatches(a.matches, start, end, d, courts, separate, priorities);
    if r.Failure? {
      return Crashed(r.error);
    }
    return Scheduled(r.value, a.totalMatches, totalSlots);
  }

  /** The early exits: no category switched on stops first; with one, no pairing in any group stops next. */
  lemma OutcomeExits(s: Settings, pop: Population, start: int, end: int, d: nat, courts: int, separate: bool)
    requires d > 0 && Playable(s, pop, Enabled(s))
    ensures var o := RunOutcome(s, pop, start, end, d, courts, separate);
      (o == NoCategoriesSelected <==> forall c :: !SettingOf(s, c).played) &&
      (o == NoMatchesGenerated <==>
         (exists c :: SettingOf(s, c).played) && TotalPairs(s, pop, Enabled(s)) == 0)
  {
    EnabledExactly(s);
    var cats := Enabled(s);
    if cats != [] {
      AllFixturesFacts(s, pop, cats);
    } else {
      forall c ensures !SettingOf(s, c).played {
        assert c !in cats;
      }
    }
  }

  /** The priority map is never missing a played category, so only slots or courts running out can make
      the scheduler fail, and it fails exactly then, with a division by zero. */
  lemma OutcomeCrash(s: Settings, pop: Population, start: int, end: int, d: nat, courts: int, separate: bool)
    requires d > 0 && Playable(s, pop, Enabled(s))
    ensures var o := RunOutcome(s, pop, start, end, d, courts, separate);
      (o.Crashed? <==>
         (exists c :: SettingOf(s, c).played) && TotalPairs(s, pop, Enabled(s)) > 0 &&
         (SlotCount(start, end, d) == 0 || courts == 0)) &&
      (o.Crashed? ==> o.fault == DivisionByZero)
  {
    EnabledExactly(s);
    var cats := Enabled(s);
    if cats != [] {
      PrioritiesExactly(s);
      AllFixturesFacts(s, pop, cats);
      assert cats[0] in Priorities(s);
    }
  }

  /** A schedule holds min(matches, cells) of the assembled matches, each of a played category, with a
      court in 1..courts and one of the slot times, no two in the same cell; the match total counts every
      pairing of every group. */
  lemma ScheduledShape(s: Settings, pop: Population, start: int, end: int, d: nat, courts: int, separate: bool)
    requires d > 0 && Playable(s, pop, Enabled(s))
    requires RunOutcome(s, pop, start, end, d, courts, separate).Scheduled?
    ensures var o := RunOutcome(s, pop, start, end, d, courts, separate);
      var slots := SlotTimes(start, end, d);
      o.totalMatches == TotalPairs(s, pop, Enabled(s)) &&
      |o.schedule| == Min(o.totalMatches, Capacity(|slots|, courts)) &&
      (forall p :: 0 <= p < |o.schedule| ==>
         SettingOf(s, o.schedule[p].category).played &&
         o.schedule[p].court.Some? && 1 <= o.schedule[p].court.value <= courts &&
         o.schedule[p].startTime.Some? && o.schedule[p].startTime.value in slots) &&
      (forall p, q :: 0 <= p < q < |o.schedule| ==>
         o.schedule[p].court != o.schedule[q].court || o.schedule[p].startTime != o.schedule[q].startTime)
  {
    var cats := Enabled(s);
    var ms := AllFixtures(s, pop, cats);
    EnabledExactly(s);
    AllFixturesFacts(s, pop, cats);
    ScheduleFacts.ScheduleShape(ms, start, end, d, courts, separate, Priorities(s));
    var v := Schedule(ms, start, end, d, courts, separate, Priorities(s)).value;
    var order := Order(ms, Priorities(s), separate);
    OrderIsPermutation(ms, Priorities(s), separate);
    forall p | 0 <= p < |v| ensures SettingOf(s, v[p].category).played {
      assert v[p].category == ms[order[p]].category;
      assert ms[order[p]] in ms;
    }
  }
}
