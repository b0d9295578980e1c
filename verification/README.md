# Court allocation engine

This is a Dafny model of the allocation engine of the `court_allocation` tournament planner (`app.py`). The engine does four things:

1. It pairs players into teams for up to six categories: Men's Doubles, Mixed Doubles, Amateur, 35+, Open and Parent-Child.
2. It spreads each category's teams over groups of nearly equal size.
3. It plays a round robin inside each group, using the circle method.
4. A greedy scheduler puts the matches onto courts and fixed-length time slots. It works in one of two modes:
   - category-first ("keep categories separate");
   - interleaved by priority.

Around these sit the glue functions. They decide which categories are played and with what priority. They count the available match slots. They take the two early exits: no category selected, and no match generated.

Modules, following the program's structure:

- `Domain`: categories, players, teams, matches, and the label order of categories.
- `RoundRobin`: `generate_round_robin_matches`, as methods with loops proved against closed-form fixture functions.
- `RoundRobinFacts`: what the circle method guarantees: pair coverage, rounds and counts.
- `Teams`: `create_teams_for_category`. It covers the pairing loops, the group-count loop and the group-filling loops.
- `Ordering`: stable sorting, modelled as a sort by key with the input position as the last key.
- `SchedulePlan`: the closed form of the scheduler. Matches are taken in one global order and placed cell after cell: slot by slot, courts 1..C in each slot. The result is then sorted by time and court.
- `ScheduleLists`: the category-first mode, shown equal to one sort by (priority, label, group, round).
- `Scheduler`: `schedule_matches` as imperative methods. The slot loop, the court list and the unscheduled list are proved against `SchedulePlan`.
- `ScheduleFacts`: court and slot safety, ordering, and the final sort.
- `Tournament`: `calculate_groups_and_matches`, `calculate_available_match_slots` and `create_tournament_schedule`.

Modelling choices:

- Times are whole minutes since midnight.
- Player counts derived from ratios are natural-number inputs (`Teams.Population`).
- Matches refer to teams by id.
- The scheduler's lists hold indices into the input match list. An index stands for the identity of a Python match object, which `list.remove` relies on.
- The two crashes of `schedule_matches` are modelled as `Failure` results:
  - an unbound `priority_map` in interleaved mode;
  - the division by `len(time_slots) * courts_available` at line 173.

## Model

| member | source | states |
|---|---|---|
| Domain.CategoryOfRank | app.py:96 | every rank 0..5 names the category whose label sorts at that place |
| Domain.LabelRankOrdersLabels | app.py:96 | ranking categories by rank is exactly the string order of their labels used by `sorted(set(...))` |
| RoundRobin.Pad | app.py:49-52 | the working list holds every team in order, then one bye exactly when the count is odd, so its length is even |
| RoundRobin.RotateIsPermutation | app.py:66 | one rotation is a permutation of the working list that keeps position 0 fixed |
| RoundRobin.PosSrcInverse | app.py:66 | after r rotations, the entry at position j came from position p exactly when p has moved to j |
| RoundRobin.RotatedZero | app.py:54-66 | before the first rotation the working list is the padded list |
| RoundRobin.RotateStep | app.py:66 | rotating the list of round r gives the list of round r+1 in closed form |
| RoundRobin.FixturesStep | app.py:54-67 | one more round appends exactly that round's matches |
| RoundRobin.PairRound | app.py:55-63 | the round pairs position i with position n-1-i for i < n/2, skipping every pair with the bye |
| RoundRobin.PlayRounds | app.py:54-67 | n-1 rounds on the rotating list give the closed-form fixtures |
| RoundRobin.PlayStep | app.py:62-67 | appending round R and rotating keeps the loop state equal to the closed form for R+1 |
| RoundRobin.GenerateRoundRobinMatches | app.py:41-69 | returns the group's fixtures; none for fewer than two teams |
| RoundRobinFacts.Count | app.py:54-67 | the number of matches a query picks out never exceeds the list length |
| RoundRobinFacts.MeetingRound | app.py:56-66 | two positions of the padded list face each other in a round before n-1 |
| RoundRobinFacts.FacingIffMeetingRound | app.py:56-66 | two distinct positions face each other in round r exactly when r is their meeting round |
| RoundRobinFacts.Rounds | app.py:49-54 | a group of n >= 2 teams plays n-1 rounds when n is even and n rounds when n is odd |
| RoundRobinFacts.MatchCount | app.py:41-69 | a group of n teams yields exactly n(n-1)/2 matches, and none when n < 2 |
| RoundRobinFacts.EveryPairMeetsOnce | app.py:54-63 | every unordered pair of distinct teams of the group meets exactly once |
| RoundRobinFacts.NoSelfMatch | app.py:57-63 | no match pairs a team with itself |
| RoundRobinFacts.MatchShape | app.py:54-67 | every match is between two teams of the group (never the bye), carries the group id and the first team's category, is unplaced, has a round in 1..rounds, and rounds never decrease along the list |
| RoundRobinFacts.OncePerRound | app.py:54-63 | every team plays at most once in each round |
| RoundRobinFacts.RoundSizes | app.py:54-63 | round r has floor(n/2) matches when 1 <= r <= rounds, and no other round number occurs |
| RoundRobinFacts.RoundSize | app.py:56-63 | each round of the padded list yields floor(n/2) matches |
| RoundRobinFacts.RoundShapeOf | app.py:56-63 | every match of a round is a fixture of the group stamped with that round |
| RoundRobinFacts.GroupFixturesRounds | app.py:46-54 | with two or more teams, the fixtures are n-1 rounds of the padded list |
| RoundRobinFacts.MeetingsPerRound | app.py:54-66 | for each pair there is one round in which they meet once, and no other round holds their match |
| RoundRobinFacts.RoundStamps | app.py:61-62 | every match of a round carries that round number and the group id |
| Teams.Men | app.py:194 | the pool of advanced men has the requested size |
| Teams.Women | app.py:203 | the pool of advanced women has the requested size |
| Teams.Alternating | app.py:211 | the alternating-gender pool has the requested size |
| Teams.PairSequential | app.py:195-198 | players 2k and 2k+1 form team k+1, and a trailing odd player is dropped |
| Teams.PairAcross | app.py:204-207 | the k-th of each list form team k+1, for min(left, right) teams |
| Teams.PairedShape | app.py:191-244 | each category yields its count of teams (floor(k/2) for sequential pools, min(men, women) for Mixed Doubles, one per child for Parent-Child), numbered 1..T, of two players, ungrouped |
| Teams.PairedComposition | app.py:200-244 | Mixed Doubles teams are a man and a woman, Parent-Child teams an advanced parent and an amateur child, and Men's Doubles teams two men |
| Teams.CeilDiv | app.py:250 | the quotient rounded up (the least q with q·b >= a for b > 0, and the least q with q·b <= a for b < 0), as `math.ceil` gives it |
| Teams.InitialGroups | app.py:250 | the starting group count max(1, ceil(T/tpg)) is at least 1 |
| Teams.FinalGroups | app.py:252-254 | dropping groups never goes below 1 nor above the start |
| Teams.GroupCount | app.py:249-254 | the final group count is at least 1 |
| Teams.CountGroups | app.py:249-254 | the decrementing loop ends at the group count |
| Teams.FinalGroupsChoice | app.py:252-254 | the loop stops at 1 or at the first count that is not undersized, and every count it passed was undersized |
| Teams.GroupCountChoice | app.py:249-254 | the group count is at most max(1, ceil(T/tpg)) and at most T; it is 1 or not undersized; every larger count up to the start is undersized |
| Teams.InitialGroupsAtMost | app.py:250 | the starting group count never exceeds the number of teams |
| Teams.GroupStartClosedForm | app.py:256-263 | group grp starts after grp-1 groups of base teams and min(grp-1, extra) extra ones |
| Teams.GroupStartEnd | app.py:256-268 | the groups together hold exactly all teams |
| Teams.GroupStartMonotone | app.py:262-268 | later groups start no earlier |
| Teams.GroupOf | app.py:262-268 | the group found for team j is the one whose range holds j |
| Teams.GroupOfUnique | app.py:262-268 | a team index lies in exactly one group's range |
| Teams.Spread | app.py:262-268 | spreading labels teams without adding or dropping any |
| Teams.Grouped | app.py:247-268 | grouping keeps the number of teams |
| Teams.Labelled | app.py:264-268 | filling a group relabels exactly its slice and keeps the length |
| Teams.LabelledAt | app.py:264-268 | inside the slice a team gets the group and its 1-based place, outside it is unchanged |
| Teams.SpreadAt | app.py:262-268 | team j of group grp gets that group and place j - start + 1 |
| Teams.FillStep | app.py:262-268 | after filling group grp, every team up to the group's end holds its final label |
| Teams.GroupFits | app.py:263 | the size the loop uses is the group's size, and the group ends inside the team list |
| Teams.FilledAll | app.py:261-268 | when every team holds its final label, the list is the spread list |
| Teams.SpreadIsSpreadOver | app.py:262-268 | the spread list labels each team with its group and place |
| Teams.FillGroup | app.py:264-268 | the inner loop writes group and 1-based place on the group's teams only |
| Teams.Distribute | app.py:256-268 | the nested loop gives groups of base size, the first extra of them one larger, filled in order |
| Teams.GroupTeams | app.py:247-268 | counting groups and then distributing gives the grouped teams |
| Teams.CreateTeamsForCategory | app.py:183-270 | the teams of a category are its paired teams, grouped when there are any |
| Teams.SpreadLargeEnough | app.py:253-257 | a group count that is not undersized gives at least min_tpg teams per group on average |
| Teams.GroupSizes | app.py:256-263 | every group has T//g or T//g+1 teams, the larger ones being exactly groups 1..T%g; every group is non-empty, has at least min_tpg teams when there is more than one group, and all T teams are covered |
| Teams.GroupedAt | app.py:260-268 | grouping keeps each team's id, category and players; team j gets group grp exactly when j lies in grp's range, with its 1-based place |
| Teams.GroupedOrdered | app.py:260-268 | every team gets a group in 1..g, and group ids never decrease along the list |
| Ordering.Range | app.py:90 | the index list 0..n-1 of the matches |
| Ordering.KeyLessTotal | app.py:146 | keys at different positions are always ordered one way |
| Ordering.KeyLessAsymmetric | app.py:146 | no two keys are ordered both ways |
| Ordering.Insert | app.py:144-147 | insertion adds exactly the one index |
| Ordering.InsertSorted | app.py:144-147 | insertion keeps a list sorted |
| Ordering.SortBy | app.py:144-147 | a sort returns a permutation of its input, sorted by key when the keys are positional |
| Ordering.SortByStep | app.py:144-147 | inserting the head into the sorted tail gives a sorted permutation of the whole |
| Ordering.SortedNoDups | app.py:144-147 | a strictly sorted index list repeats nothing |
| Ordering.SortedUnique | app.py:168 | two sorted permutations of the same indices are equal, so a stable sort's result is determined |
| Ordering.SortedPosition | app.py:150 | an index with a smaller key comes earlier in a sorted list |
| Ordering.NoDupsSameMultiset | app.py:129 | two duplicate-free lists with the same members are permutations of each other |
| Ordering.SortOfSorted | app.py:168 | sorting a sorted list changes nothing |
| Ordering.SortBySameElements | app.py:144-147 | sorting two lists with the same members gives the same result |
| ScheduleLists.Filter | app.py:114-115 | the comprehension keeps exactly the unscheduled matches of the category |
| ScheduleLists.FilterNoDups | app.py:114-115 | filtering keeps a list free of duplicates |
| ScheduleLists.RemoveMembers | app.py:129 | `remove` drops exactly the one match and nothing else |
| ScheduleLists.Without | app.py:129 | removing several matches never lengthens the list |
| ScheduleLists.WithoutMembers | app.py:129 | after removing a set of matches, exactly the others remain |
| ScheduleLists.RemoveWithout | app.py:129 | removing one more match extends the removed set |
| ScheduleLists.WithoutNothing | app.py:90 | removing nothing leaves the copy of the input |
| ScheduleLists.Occurring | app.py:96 | one presence flag per category |
| ScheduleLists.RanksFromFacts | app.py:96 | the collected ranks are exactly those present, strictly ascending |
| ScheduleLists.ByName | app.py:96 | `sorted(set(...))` gives the present categories, in strictly ascending label order |
| ScheduleLists.CategoryKeys | app.py:99 | one positional key per category |
| ScheduleLists.CategoryOrder | app.py:96-99 | the category list indexes the category keys |
| ScheduleLists.CategoryOrderSorted | app.py:96-99 | categories come in (priority with default 999, label) order, exactly those present in the matches |
| ScheduleLists.CategoryKeyOrdersMatches | app.py:109-117 | a match of an earlier category sorts before any match of a later one |
| ScheduleLists.CategoryRoundTrip | app.py:96 | rank and category convert back and forth |
| ScheduleLists.CatConcat | app.py:109-117 | the category blocks index the matches |
| ScheduleLists.SortedAppend | app.py:109-117 | sorted blocks in key order concatenate to a sorted list |
| ScheduleLists.CatConcatMembers | app.py:109-117 | the category blocks hold exactly the unscheduled matches of the listed categories |
| ScheduleLists.CatConcatSorted | app.py:109-117 | the category blocks, each sorted by (group, round), form one list sorted by (priority, label, group, round) |
| ScheduleLists.BlockBeforeRest | app.py:109-117 | every match of the first category sorts before every match of a later one |
| ScheduleLists.CatConcatIsSort | app.py:109-117 | category-first order equals one sort of the unscheduled matches by (priority, label, group, round) |
| ScheduleLists.CatConcatSameMembers | app.py:109-117 | the blocks depend only on which matches of the listed categories are unscheduled |
| SchedulePlan.SlotTimes | app.py:83-87 | one slot per fitting step |
| SchedulePlan.SlotFits | app.py:83-87 | slot k exists exactly when start + (k+1)*d <= end |
| SchedulePlan.SlotTimesIncrease | app.py:83-87 | slot times strictly increase |
| SchedulePlan.CapacityProduct | app.py:171 | the number of cells is slots*courts, or 0 without courts |
| SchedulePlan.CapacityMonotone | app.py:103-165 | more slots never mean fewer cells, and each extra slot adds a full row of courts |
| SchedulePlan.MatchKeys | app.py:99-147 | one key per match: priority (999 when missing), label rank in separate mode, group, round, position |
| SchedulePlan.Order | app.py:144-147 | the global order indexes the matches, one entry per match |
| SchedulePlan.RangeNoDups | app.py:90 | the input indices are distinct |
| SchedulePlan.OrderIsPermutation | app.py:144-147 | the order is sorted by the keys and is a permutation of all match indices |
| SchedulePlan.MembersOfPermutation | app.py:90 | permutations have the same members |
| SchedulePlan.SlotOf | app.py:103-165 | cell p lies in slot p div courts, within the slot's row of courts |
| SchedulePlan.Placed | app.py:124-160 | the first n matches of the order, placed cell after cell, number n |
| SchedulePlan.TimeCourtKeys | app.py:168 | one positional (start time, court) key per scheduled match |
| SchedulePlan.ByTimeAndCourt | app.py:168 | the final sort keeps the number of scheduled matches |
| ScheduleFacts.SlotTimesIncreasing | app.py:83-87 | the slot list is strictly increasing |
| ScheduleFacts.PositionOfCell | app.py:124-126 | court j of slot k is cell k*courts + j |
| ScheduleFacts.PlacedAt | app.py:124-130 | the p-th placed match is the p-th match of the order, with court (p mod courts)+1 and the time of slot p div courts, and nothing else changed |
| ScheduleFacts.PlacedCellsDistinct | app.py:124-127 | no two placed matches share a court and a time |
| ScheduleFacts.SlotWindow | app.py:103-140 | a placed match has slot k's time exactly when it lies in slot k's row, so at most `courts` matches share a slot |
| ScheduleFacts.PlacedSortedByTimeAndCourt | app.py:168 | the placed matches already come in (start time, court) order |
| ScheduleFacts.FinalSortKeepsPlacement | app.py:168 | the final sort by (start time, court) returns the placements in placement order |
| ScheduleFacts.EarlierInOrder | app.py:144-150 | a match with a smaller key comes earlier in the order |
| ScheduleFacts.SlotOfMonotone | app.py:103-165 | later cells never lie in earlier slots |
| ScheduleFacts.EarlierNeverLater | app.py:101-165 | a match earlier in the applicable order is never placed in a later slot than a match after it |
| ScheduleFacts.ScheduleShape | app.py:71-181 | every scheduled match is an input match with a court in 1..courts and one of the slot times; min(matches, slots*courts) are scheduled; no two share a cell |
| Scheduler.TimeSlots | app.py:83-87 | the slot loop yields the closed-form slot times |
| Scheduler.FreeCourts | app.py:105 | the free court list is empty exactly when no court is left |
| Scheduler.PlaceNext | app.py:124-130 | placing the next match of the order on the next free court extends the placed prefix |
| Scheduler.UnplacedStart | app.py:90 | at the start every match is unscheduled |
| Scheduler.UnplacedBounds | app.py:90 | unscheduled entries are match indices |
| Scheduler.UnplacedNoDups | app.py:129 | the unscheduled list repeats nothing |
| Scheduler.UnplacedMembers | app.py:129 | the unscheduled matches are exactly those not yet taken from the order |
| Scheduler.UnplacedStep | app.py:129 | removing the match just placed gives the next unscheduled list |
| Scheduler.AssignCourt | app.py:124-130 | the match takes the first free court and the slot time, leaves the unscheduled list and uses up that court |
| Scheduler.SuffixSort | app.py:144-147 | sorting the unscheduled matches gives the rest of the global order |
| Scheduler.FillSlotInterleaved | app.py:144-161 | one slot fills until courts or matches run out, so min(matches, cells so far) are placed |
| Scheduler.FillSlotSeparate | app.py:109-131 | one slot visits the categories in order until courts run out, with the same fill count |
| Scheduler.SeparateSlotDone | app.py:109-111 | a slot that ran out of courts or categories holds min(matches, cells so far) |
| Scheduler.SlotFilled | app.py:150-152 | a slot that ran out of courts or matches holds min(matches, cells so far) |
| Scheduler.FillCategory | app.py:113-131 | a category's sorted matches take the free courts in turn and the rest of the order moves on to the next category |
| Scheduler.PlaceCategory | app.py:120-131 | the category's matches are placed in (group, round) order while courts remain |
| Scheduler.TakeCourt | app.py:124-131 | the category's match is placed on the first free court at the slot's time, it leaves the pending list, that court leaves the free list, and the later categories' blocks stay unchanged |
| Scheduler.SkipOtherCategories | app.py:114-115 | removing a match of this category does not change later categories' blocks |
| Scheduler.UnplacedDone | app.py:103 | nothing is unscheduled exactly when every match is placed |
| Scheduler.SlotLoopStart | app.py:89-103 | before the first slot nothing is scheduled and everything is unscheduled |
| Scheduler.SlotStart | app.py:103-106 | a new slot starts with every court free and k*courts matches placed |
| Scheduler.SlotLoopEnd | app.py:103-165 | when the slot loop ends, min(matches, slots*courts) are scheduled |
| Scheduler.CategoryOrderRanks | app.py:96-99 | the category list has distinct ranks |
| Scheduler.PendingCategoriesListed | app.py:96 | every unscheduled match's category is in the category list |
| Scheduler.MatchCategoryListed | app.py:96 | every match's category is in the category list |
| Scheduler.SeparateRest | app.py:109-117 | the category blocks of the unscheduled matches are the rest of the global order |
| Scheduler.SeparateSlot | app.py:103-135 | a category-first slot always advances the slot index and keeps the loop invariant |
| Scheduler.InterleavedSlot | app.py:138-165 | an interleaved slot always advances the slot index and keeps the loop invariant |
| Scheduler.ScheduleSeparate | app.py:101-135 | category-first mode places the first min(matches, cells) matches of the (priority, label, group, round) order |
| Scheduler.ScheduleInterleaved | app.py:136-165 | interleaved mode fails exactly when the priority map is unbound and a slot exists; otherwise it places the first min(matches, cells) matches of the (priority, group, round) order |
| Scheduler.ScheduleMatches | app.py:71-181 | the scheduler's result is the closed-form schedule, including both failures and the empty input |
| Tournament.Offer | app.py:512-514 | a switched-on category is appended and gets its priority |
| Tournament.CollectEnabled | app.py:508-529 | the six checks build the played list and the priority map |
| Tournament.ListedMember | app.py:512-529 | looking at a category adds it to the list exactly when it is played |
| Tournament.ListedAscending | app.py:512-529 | the list stays in offer order |
| Tournament.PrioritizedAt | app.py:512-529 | looking at a category records its priority exactly when it is played |
| Tournament.EnabledExactly | app.py:508-529 | a category is listed exactly when it is switched on; the list is in offer order, with no repeats |
| Tournament.PrioritiesExactly | app.py:510-529 | the priority map holds exactly the played categories, each with its own priority |
| Tournament.HighestGroupBounds | app.py:300 | no team's group exceeds the maximum, and some team has it |
| Tournament.Stamped | app.py:318-319 | stamping keeps the number of matches |
| Tournament.StampCategory | app.py:318-319 | every match of a group gets the category |
| Tournament.PlayGroups | app.py:315-320 | the matches of groups 1..num_groups are appended, group by group |
| Tournament.PlayGroupStep | app.py:315-320 | one more group appends its stamped round-robin matches |
| Tournament.CalculateGroupsAndMatches | app.py:272-324 | the matches are those of every listed category's groups in turn, and the total is their number; the team and group records are the tables |
| Tournament.AssembleStep | app.py:294-320 | one more category appends its matches |
| Tournament.TeamsOfListed | app.py:295 | a listed category's teams are made with its own teams-per-group setting |
| Tournament.TablesStep | app.py:296-312 | a category with teams is recorded with its teams and group count; one without is skipped |
| Tournament.TeamsTableAt | app.py:296-297 | the team record holds exactly the listed categories that have teams, with their teams |
| Tournament.GroupsTableAt | app.py:285-312 | every category has a group count: the highest group of its recorded teams, or 0 |
| Tournament.Recorded | app.py:294-312 | categories without teams are omitted; each recorded category holds its teams and its group count |
| Tournament.HighestGroupIsGroupCount | app.py:300 | the highest group id of a category's teams is the group count of `create_teams_for_category` |
| Tournament.CategoryFixturesCount | app.py:314-320 | a category's matches number the sum over its groups of n_g(n_g-1)/2 |
| Tournament.CategoryFixturesStamped | app.py:314-320 | every match of a category carries that category and a group in 1..num_groups |
| Tournament.GroupStamped | app.py:316-319 | every match of a group carries the category and the group id |
| Tournament.GroupFixtureGroup | app.py:62 | every round-robin match carries its group id |
| Tournament.AllFixturesFacts | app.py:294-322 | the total is the sum over every group of n_g(n_g-1)/2; every match belongs to a listed category that has teams |
| Tournament.TruncDiv | app.py:336 | `int(minutes / duration)` truncates toward zero for either sign |
| Tournament.AvailableSlotsAreCells | app.py:326-341 | when end >= start, the available slots are the slot count times the courts, which is the scheduler's cell count; when end < start and courts >= 0 they are never positive |
| Tournament.CreateTournamentSchedule | app.py:477-573 | the run's outcome is the closed-form outcome: an exit, a crash or a schedule |
| Tournament.OutcomeExits | app.py:531-562 | "no categories" happens exactly when none is switched on; "no matches" exactly when some is switched on but no group has a pairing |
| Tournament.OutcomeCrash | app.py:565-573 | the run never meets the unbound priority map; it crashes, dividing by zero, exactly when there are matches but no slot or no court |
| Tournament.ScheduledShape | app.py:565-577 | a schedule holds min(total matches, cells) matches of played categories, each with a court in 1..courts and a slot time, no two in one cell; the total counts every pairing of every group |

## Left out

- The Gradio interface (`create_interface`) and all HTML rendering (`create_schedule_display` and the configuration and statistics HTML of `create_tournament_schedule`). These are string templating only.
- Floating-point ratios. The converted counts (`int(total * ratio)`) are inputs (`Teams.Population`), not computed from ratios. The Player Distribution block of `group_info` is therefore not modelled.
- Utilisation and success-rate percentages, and the diagnostic `print`s. Only the division by zero at line 173 is kept, as the `DivisionByZero` failure.
- `datetime` parsing and `datetime.now()`. Times are integer minutes since midnight on one day.
- The `court_slots` map. It is written but never read except for the utilisation count. Each placed match's court and time carry the same information.
- Updates in place and object identity. Python mutates `match.court`, `match.start_time`, `team.group_id` and `team.group_number` on shared objects. The model returns new values, and the scheduler's lists hold match indices.
- Player names and the `qualifying_teams` argument. Players are numbered, and `qualifying_teams` is never used.
- Category labels outside the six known ones. `Category` is a closed type, so the "unknown category yields no teams" branch cannot arise.
- The `int()` conversion of the priority inputs. Priorities are integers.
- Tournament.CreateTournamentSchedule, Scheduler.ScheduleMatches and Scheduler.TimeSlots require a match duration above 0. In the source, a duration of 0 loops forever at line 85 when the start is not after the end, and divides by zero at line 336; the interface's minimum is 15.
- Teams.CreateTeamsForCategory requires a non-zero teams-per-group value whenever the category has teams. In the source, 0 divides by zero at line 250; the interface's minimum is 3.
- Tournament.RunOutcome requires `Playable`: every played category with teams has a non-zero teams-per-group value. This is the same requirement as above, for every category.
- The average test `total_teams / num_groups < min_teams_per_group` at line 253 uses float division. It is modelled as the exact integer comparison `T < min * g`, which is the same test in exact arithmetic; float rounding of the quotient is not modelled.

Behaviour of the code that differs from what one might expect, modelled as written:

- There is no per-slot collision check. A team can be booked twice in one slot; for example, 4 courts and one group of 4 teams put rounds 1 and 2 in the same slot. No "once per slot" property is stated.
- Category-first mode fills every free court from the first category before moving to the next. It does not give one court per category.
- Interleaved mode reads a priority map that is bound only when a non-empty priority map is passed. Without one it fails (`PriorityMapUnbound`) as soon as there is a slot. Tournament.OutcomeCrash shows that `create_tournament_schedule` never reaches this failure.
- With matches but zero slots (for example an end time before start plus one duration) or zero courts, line 173 divides by zero. The model gives the `Crashed(DivisionByZero)` outcome.
