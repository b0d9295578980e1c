/**
  The entities of the tournament engine: categories, players, teams and
  matches. Times are minutes since midnight; teams are referred to by their
  id inside a match.
 */
module Domain {

  datatype Option<T> = None | Some(value: T)

  datatype Result<T, E> = Success(value: T) | Failure(error: E)

  /** The six competitive divisions the engine knows. */
  datatype Category = MensDoubles | MixedDoubles | Amateur | Plus35 | Open | ParentChild

  /** The label a category is known by (and sorted by). */
  function Label(c: Category): string
  {
    match c
    case MensDoubles => "Men's Doubles"
    case MixedDoubles => "Mixed Doubles"
    case Amateur => "Amateur"
    case Plus35 => "35+"
    case Open => "Open"
    case ParentChild => "Parent-Child"
  }

  /** Strict lexicographic order on strings, as string comparison orders them. */
  predicate LabelBefore(a: string, b: string)
  {
    if |a| == 0 then |b| > 0
    else |b| > 0 && (a[0] < b[0] || (a[0] == b[0] && LabelBefore(a[1..], b[1..])))
  }

  /** Position of a category's label among all six labels in ascending string order. */
  function LabelRank(c: Category): (r: nat)
    ensures r < 6
  {
    match c
    case Plus35 => 0
    case Amateur => 1
    case MensDoubles => 2
    case MixedDoubles => 3
    case Open => 4
    case ParentChild => 5
  }

  function CategoryOfRank(r: nat): (c: Category)
    requires r < 6
    ensures LabelRank(c) == r
  {
    if r == 0 then Plus35
    else if r == 1 then Amateur
    else if r == 2 then MensDoubles
    else if r == 3 then MixedDoubles
    else if r == 4 then Open
    else ParentChild
  }

  /** Ordering categories by rank is ordering them by label. */
  lemma LabelRankOrdersLabels(a: Category, b: Category)
    ensures LabelRank(a) < LabelRank(b) <==> LabelBefore(Label(a), Label(b))
  {
    var la, lb := Label(a), Label(b);
    assert |la| > 1 && |lb| > 1;
    if la[0] == lb[0] {
      if a != b {
        // Only the two labels starting with 'M' share a first character.
        assert {a, b} == {MensDoubles, MixedDoubles};
        assert la[1..][0] == la[1] && lb[1..][0] == lb[1];
        assert LabelBefore(la, lb) <==> la[1] < lb[1];
      } else {
        LabelBeforeIrreflexive(la);
      }
    } else {
      assert LabelBefore(la, lb) <==> la[0] < lb[0];
    }
  }

  lemma LabelBeforeIrreflexive(s: string)
    ensures !LabelBefore(s, s)
  {
    if |s| > 0 {
      LabelBeforeIrreflexive(s[1..]);
    }
  }

  datatype Gender = Male | Female

  datatype Skill = AmateurLevel | AdvancedLevel

  /** A player: the number is the one in the player's synthetic name. */
  datatype Player = Player(gender: Gender, skill: Skill, number: nat)

  /** A team: group id and the position in the group are unset until grouping. */
  datatype Team = Team(id: nat, category: Category, players: seq<Player>,
                       groupId: Option<nat>, groupNumber: Option<nat>)

  /** A fixture between two teams (by id); court and start time are set by the scheduler. */
  datatype Match = Match(team1: nat, team2: nat, groupId: nat, roundNum: nat,
                         category: Category, court: Option<nat>, startTime: Option<int>)
}
