# Football hub dashboard core in Dafny

This project models the data core of a small football-tournament dashboard
written in browser JavaScript. It proves properties of that model. The model
covers five parts:

- **Group standings** (js/standings.js). The roster is split into groups, and
  scheduled plus completed matches are folded into per-player counters. Each
  group is ranked and numbered 1..N. The model also covers the group and
  player-position lookups, and the test that decides whether a refresh brings
  new results.
- **The fixtures page** (js/fixtures.js):
  - the document defaults
  - grouping of matches into group/round buckets, with status normalisation
  - section visibility under the group and round filters
  - the score class of a match card
  - the round count of the round navigation
  - the five-minute refresh that diffs and swaps the completed results
- **Notifications** (js/notifications.js and the fixtures copy). This covers
  configuration and title selection, auto-removal, and the events derived from
  completed matches.
- **The player directory** (js/players.js). This covers the id-keyed map with
  its key order, `getPlayerId` and the top-six selection.
- **`getOrdinalSuffix`** (js/main.js), and its copy in js/players.js.

Modelling conventions:

- **Falsy fields.** A field that is missing, `undefined`, `null` or `""` is
  tested for truth by the code. It is written as `""`.
- **Missing document fields and rounds.** Both are `Option`. A missing round
  reads as NaN in `Math.max`, which is why it is not treated like round 0.
- **Scores.** A score is a pre-parsed pair of goal counts. A strict
  digits-dash-digits parser is proved to invert the text form.
- **Object key order.** The player directory is a map plus an explicit key
  sequence in JavaScript's own-key order (section 10.1.11.1 of ECMA-262):
  array-index keys such as "10" first, in ascending numeric order, then the
  other keys in the order they were created. The standings table keeps its
  ids in insertion order (see "Left out").
- **The `%` operator.** JavaScript's `%` truncates toward zero. It is written
  out as `Ordinal.JsRem`.
- **Outside calls.** Fetches, timers and the DOM become parameters and
  results:
  - a fetch is an `Option` (None for failure)
  - each call of `showNotification` is a `Request` value
  - a page is a value that one timer tick maps to the next

Modules: `Common`, `Domain`, `Ordinal`, `Sorting`, `Players`, `Notifications`,
`Tally`, `Standings`, `Fixtures`.

## Model

| member | source | states |
|---|---|---|
| Ordinal.JsRem | js/main.js:104-105 | JavaScript's remainder: dividend = divisor·truncated quotient + r, with r carrying the sign of the dividend |
| Ordinal.Suffix | js/main.js:103-110 | the suffix is always one of st, nd, rd, th |
| Ordinal.SuffixFollowsEnglishRule | js/main.js:103-110 | for every n ≥ 0 the code agrees with the English rule stated independently on n mod 100: teens take th, otherwise the last digit 1/2/3 picks st/nd/rd |
| Ordinal.SuffixPeriodic | js/main.js:104-109 | for n ≥ 0 the suffix depends only on n mod 100 |
| Ordinal.NegativeTakesTh | js/main.js:104-109 | a negative number always takes th, because its remainder is never positive |
| Ordinal.SuffixExamples | js/main.js:103-110 | 1st, 2nd, 3rd, 4th, 11th, 12th, 13th, 22nd, 103rd, 112th, 0th |
| Players.OrdinalSuffixCopyAgrees | js/players.js:377-384 | the copy in players.js returns the same suffix as main.js on every integer |
| Players.AddKey | js/players.js:22 | creating a key keeps the keys distinct and adds exactly that key; a non-index key goes last; an index key goes after the index keys of no greater value and before every other key |
| Players.AddKeyOrder | js/players.js:22 | creating a key keeps the key order JavaScript's (indices ascending, then the rest), and the non-index part grows by the key exactly when it is not an index |
| Players.Set | js/players.js:22 | `acc[k] = v` stores v under k and changes no other entry; an existing key keeps the order unchanged; a new key is placed as `AddKey` says |
| Players.SetOrder | js/players.js:22 | assigning a key keeps JavaScript's key order, and the non-index keys grow only by a new non-index key, at the end |
| Players.Collect | js/players.js:21-24 | the reduce holds a key exactly when some player has that id, and the value is the last such player |
| Players.CollectOrder | js/players.js:21-24 | the reduced object lists its index ids ascending, then the other ids in order of first appearance in the array |
| Players.AssignKeys | js/players.js:21 | `Object.assign` copies each source key over the target, keeps every other target entry, and adds no other key |
| Players.AssignOrder | js/players.js:21 | `Object.assign` keeps JavaScript's key order; the target's non-index keys stay first, in their order, followed by the source's new non-index keys in source order |
| Players.Load | js/players.js:21-24 | after loading, each id maps to the last player in the array with that id; ids absent from the array keep their old entry; no other key appears; the key order stays JavaScript's, with the old non-index keys first and the new non-index ids after them in array order |
| Players.NumericIdsComeFirst | js/players.js:364-372 | two players named Sam with ids "20" then "10": the loaded directory visits "10" first, so looking up "Sam" gives "10" |
| Players.PlayerById | js/fixtures.js:360-362 | the directory lookup finds a player exactly when the id is a key, and then returns that entry |
| Players.FirstNamed | js/players.js:367-371 | the first key in iteration order whose player has the name, and None exactly when no key's player has it |
| Players.GetPlayerId | js/players.js:362-374 | an id wins even over another player's name; otherwise the first key in key order whose player has that name; null exactly when the identifier is neither a key nor any player's name; a result is always a key |
| Players.Values | js/players.js:44 | `Object.values` lists the entries in key order |
| Players.ByPosition | js/players.js:44-45 | the directory's players as a permutation sorted ascending by position |
| Players.TopPlayers | js/players.js:44-46 | min(6, n) players, ascending by position, a sub-multiset of the directory's players (no entry shown twice), and every player left out, counted with multiplicity, has a position no smaller than any player shown |
| Players.Leaders | js/players.js:44-46 | the first n of a position-sorted permutation of a list are sorted, drawn from the list without repeats, and rank no lower than anything the cut leaves out |
| Sorting.Insert | js/standings.js:125 | inserting into a sorted list under a total preorder gives a sorted permutation of the list plus the element |
| Sorting.SortBy | js/standings.js:125 | the sort returns a permutation of its input that is sorted under the comparator |
| Notifications.Show | js/notifications.js:46-87 | no toast without a container; a type that is not one of the table's six own keys uses the info configuration; the title is options.title when set, else the type's title; the action block appears exactly when an action is given; auto-removal is scheduled exactly when duration > 0 |
| Notifications.UnknownKindShowsAsInfo | js/notifications.js:50 | a type that is not one of the table's six own keys is shown with the icon, colour and default title of 'info'; only the class name keeps the given type |
| Notifications.MatchRequest | js/notifications.js:111-137 | none when either player is unknown; otherwise a 6000 ms event that is 'draw' exactly for winnerId 'draw' (message "p1 score p2", draw title) and 'win' otherwise, naming player 1 as winner exactly when winnerId is player1Id, with the other player as loser and a View Winner action |
| Notifications.MatchRequests | js/notifications.js:111-138 | one event per match whose two players are known, in array order; at most one per match |
| Notifications.MatchRequestsAppend | js/notifications.js:111 | the events of two batches are the events of each, in order |
| Notifications.MatchNotifications | js/notifications.js:106-142 | a failed fetch shows nothing; otherwise at most one event per fetched match |
| Notifications.WindowLookupShowsNoMatch | js/notifications.js:185-189 | as written (the lookup goes through `window.playersData`, which none of the modelled files assigns), `showMatchNotifications` shows no event for any fetched list |
| Notifications.DirectoryLookupShowsKnownMatches | js/notifications.js:111-137 | with the player directory as lookup, every completed match whose two players are known yields its event |
| Notifications.ResultStep | js/fixtures.js:329-353 | a match is skipped exactly when a player is unknown, and throws exactly when both are known, the match is not a draw and the winner id names no player |
| Notifications.ResultRequests | js/fixtures.js:328-355 | the fixtures copy shows at most one event per match, and stops with a TypeError exactly when some match reaches an unresolvable winner |
| Notifications.ResultRequestsAppend | js/fixtures.js:328-355 | the batch runs in array order and stops at the first TypeError: on a concatenation it gives the first part's result when that part crashed, and otherwise the first part's events followed by the second part's |
| Notifications.ResultRequestsMirrorMatchRequests | js/fixtures.js:328-355 | when every decided match names one of its own players as winner, the fixtures copy shows exactly the events of `showMatchNotifications` and does not throw |
| Notifications.WindowLookupShowsNoResult | js/fixtures.js:359-362 | as written, `showNewResultNotifications` shows nothing and never throws |
| Tally.PlusLaws | js/standings.js:92-119 | adding counters is commutative and associative with the all-zero row as unit |
| Tally.MatchAwards | js/standings.js:92-119 | a match adds 2 to played overall; it keeps goals-for equal to goals-against and wins equal to losses; it awards 2 points for a draw, 3 for a decided result, and none (and no goals) without a result; each side keeps points = 3·wins + draws |
| Tally.SheetPlayed | js/standings.js:92-93 | every accepted match adds exactly one played game to each side, scheduled or completed |
| Tally.UpdatesTotal | js/standings.js:92-119 | the code's individual `++`/`+=` updates of a match add up to the two sides' sheets together |
| Tally.UpdatesShares | js/standings.js:92-119 | the updates give each player of the match its own sheet (both when a player meets itself) and nothing to anyone else |
| Tally.NotifiedWinnerIsCredited | js/notifications.js:125-136 | for a decided match between two different, known players, the player the win notification names as winner and links to from its button is the one the standings updates credit with the win and 3 points; the player named as beaten is credited with the loss |
| Tally.OwnShares | js/standings.js:100-119 | player 1 gains g1 for and g2 against, player 2 gains g2 for and g1 against; a non-draw winnerId other than player1Id credits player 2 |
| Tally.Record | js/standings.js:87-119 | recording a match keeps every row's key, id and name, changes only the two players' rows, and adds its sheet to each |
| Tally.TotalOfPermutation | js/standings.js:125 | reordering rows does not change the column sums |
| Tally.RecordTotal | js/standings.js:92-119 | the column sums of a table grow by exactly what the match adds |
| Standings.AddRow | js/standings.js:61-72 | a player's row is set to all-zero counters, replacing any earlier row with the same id |
| Standings.AddPlayer | js/standings.js:50-73 | a player without a group changes nothing; otherwise its group is created on first use and receives the fresh row |
| Standings.SeedGroups | js/standings.js:50-58 | the groups are exactly those named by some roster entry with a group, and start with no matches |
| Standings.SeedRows | js/standings.js:50-73 | each group's rows are exactly the ids of the roster entries of that group |
| Standings.SeedRowsFresh | js/standings.js:61-72 | each seeded row is the all-zero row of a roster entry of that group and id |
| Standings.FiledOf | js/standings.js:78-84 | a match is filed under group g exactly when its group is g and both player ids are set |
| Standings.FileMatch | js/standings.js:84-120 | the match is appended to the group's matches before the player check; counters change only when both players have rows, and then by exactly that match |
| Standings.ApplyMatch | js/standings.js:77-121 | a match without group or ids, or of an unknown group, changes no table; otherwise only its own group's table changes |
| Standings.SkippedMatchChangesNoCounter | js/standings.js:78-89 | a match with a missing group or player id, an unknown group, or a player absent from that group changes no counter |
| Standings.ApplyAllFiles | js/standings.js:46-84 | after the loop, a group's matches are exactly the matches of `matches ++ completedMatches` that pass the guard for it, in order, and a match present in both arrays is filed twice |
| Standings.ApplyAllKeepsRows | js/standings.js:77-121 | the match loop adds no row and removes none |
| Standings.FileKeepsBalance | js/standings.js:84-120 | filing a match preserves the table invariant: points = 3·wins + draws in each row, played = appearances in counted matches, goals-for = goals-against and wins = losses over the group, and the group's points = 2 per draw plus 3 per decided match |
| Standings.ApplyAllBalanced | js/standings.js:77-121 | the whole match loop preserves that invariant for every group |
| Standings.SeedBalanced | js/standings.js:50-73 | freshly seeded tables satisfy the invariant |
| Standings.RanksBeforeIsTotalPreorder | js/standings.js:125-139 | the comparator (points desc, goal difference desc, goals-for desc, name asc) is total and transitive |
| Standings.Number | js/standings.js:142-144 | positions are exactly 1..N in table order |
| Standings.RankFacts | js/standings.js:124-144 | a ranked table is a permutation of the group's rows, sorted by the comparator, with positions i+1 |
| Standings.RankIds | js/standings.js:125 | every row id of the group appears in its standings exactly once, and no other id does |
| Standings.Finish | js/standings.js:124-145 | every group is kept, with its table and its ranked standings, in the same key order |
| Standings.CalculateGroups | js/standings.js:45-151 | the result has one group per group named in the roster, and no other |
| Standings.CalculateTable | js/standings.js:45-121 | each group's table has a row for each roster entry of the group, and its matches are exactly the filed ones |
| Standings.CalculateBalanced | js/standings.js:45-121 | every computed group satisfies the table invariant (points identity, played counts, goal and win/loss conservation, points awarded) |
| Standings.CalculateStandings | js/standings.js:124-144 | each group's standings hold every member exactly once, as a permutation of its rows, sorted by the comparator, numbered 1..N |
| Standings.CalculateTotals | js/standings.js:96-125 | in every computed standings list, total goals-for = total goals-against, total wins = total losses, and the total points are 2 per drawn and 3 per decided counted match |
| Standings.StandingsDescend | js/standings.js:127-132 | going down a sorted list, points never increase, and on equal points the goal difference never increases |
| Standings.GroupStandings | js/standings.js:250-252 | an unknown group gives [], a known one its standings |
| Standings.GroupStandingsEmptyIff | js/standings.js:250-252 | on computed standings the list is empty exactly for a name that no roster entry carries as its group |
| Standings.FindId | js/standings.js:259 | `find` returns the first entry with the id, and nothing exactly when no entry has it |
| Standings.PositionFrom | js/standings.js:258-268 | the group walk stops at the first group in key order that lists the id, and returns null exactly when none does |
| Standings.PlayerPosition | js/standings.js:257-269 | null exactly when no group lists the id; otherwise the first group in key order that lists the id, with the position and points of the entry `find` picks there |
| Standings.PlayerPositionOfCalculate | js/standings.js:257-269 | on computed standings a player has a position exactly when some roster entry with that id has a group |
| Standings.PlayerPositionPlace | js/standings.js:257-269 | the reported position p lies in 1..N of its group, and entry p of that group's standings is the player |
| Standings.CalculateLists | js/standings.js:258-260 | a computed group lists an id exactly when the roster puts that id in that group |
| Standings.Unknown | js/standings.js:228-234 | the fetched completed matches that the stored group tables do not know, by group and (player1Id, player2Id, date) |
| Standings.NewCompletedCount | js/standings.js:228-236 | the count is at most the number fetched, and zero exactly when every fetched match is known |
| Standings.UnfileableCountsAsNew | js/standings.js:228-233 | a fetched match of a group the standings lack, or with a missing player id, always counts as new |
| Standings.CalculateKnowsFiled | js/standings.js:228-233 | a match the computation could file is known afterwards, even when a player is absent from the group |
| Standings.InitStandings | js/standings.js:14-40 | a failed load keeps the page and raises the load-failure alert; a successful one stores the recomputed standings and registers one more refresh interval |
| Standings.Tick | js/standings.js:222-244 | a firing requests something exactly when the fetch worked and found a new result; then it ends with "Standings updated"; without requests nothing changes; the standings change only to a recomputation; each reload adds an interval; a successful reload stores the recomputation and requests exactly "Standings updated"; a failed one keeps the page and requests the alert, then "Standings updated" |
| Standings.TickOnUnknownGroup | js/standings.js:228-239 | a fetched match of a group the page lacks triggers a reload and an update notice on every firing |
| Standings.OrphanTicks | js/standings.js:220-244 | when a completed match belongs to no roster group, k firings add k intervals and leave the standings unchanged |
| Standings.PeriodDoublesIntervals | js/standings.js:220-244 | as written, under such a match, one 15-minute period doubles the number of live intervals |
| Standings.InitStandingsOnce | js/standings.js:14-40 | corrected load: like js/fixtures.js:287-291 it clears the old interval before registering one, so the page holds exactly one interval |
| Standings.TickOnce | js/standings.js:222-244 | corrected firing: the same standings and requests as the firing as written |
| Standings.TicksOnceKeepOneInterval | js/standings.js:220-244 | with the correction, any number of firings keeps exactly one interval |
| Fixtures.Init | js/fixtures.js:19-46 | a failed fetch keeps empty data and raises only the alert; a loaded document is stored with missing lists read as [] and missing groups as A–D; the results already present are announced in order, followed by the alert exactly when that batch threw |
| Fixtures.NewCompleted | js/fixtures.js:297-303 | the fetched results whose (player1Id, player2Id, date) key is not stored, and only those |
| Fixtures.NewCompletedAppend | js/fixtures.js:297 | the diff keeps fetched order: it distributes over concatenation |
| Fixtures.NewCompletedEmptyIff | js/fixtures.js:297-305 | nothing is new exactly when every fetched key is already stored |
| Fixtures.CorrectedResultIsNotNew | js/fixtures.js:298-302 | re-fetching a stored match with another score or winner is not new |
| Fixtures.Refresh | js/fixtures.js:291-313 | groups and scheduled matches never change; a failed fetch, or a document without results, changes nothing; results stay or become exactly the fetched list; notifications follow a swap only, and they announce the new results |
| Fixtures.RefreshSwapsIffNew | js/fixtures.js:297-306 | the stored results change exactly when the document carries a result whose key is not stored |
| Fixtures.RefreshSettles | js/fixtures.js:291-313 | refreshing again with the same document changes and announces nothing |
| Fixtures.LoadThenRefreshIsQuiet | js/fixtures.js:291-313 | a refresh that fetches the document just loaded is silent |
| Fixtures.Normalise | js/fixtures.js:141-150 | the entry's status is 'completed' exactly when the input's is, else 'upcoming'; isCompleted agrees with it; every other field is copied |
| Fixtures.Bucket | js/fixtures.js:134-153 | a slot's bucket is not empty exactly when some match belongs to that slot |
| Fixtures.GroupAllBuckets | js/fixtures.js:134-153 | the grouped object has a group exactly when some match belongs to it (default 'Unknown'), a round under it exactly when that bucket is not empty (round default 1, round 0 also 1), holding the slot's matches in input order |
| Fixtures.BucketAppend | js/fixtures.js:135-151 | later matches land behind earlier ones in every bucket |
| Fixtures.EachMatchPlacedOnce | js/fixtures.js:134-153 | over any duplicate-free slot list covering the matches, the buckets together hold each match's entry exactly as often as it occurs |
| Fixtures.StripGroupWord | js/fixtures.js:162 | `replace('Group ', '')` cuts out exactly the first occurrence of "Group ", wherever it stands, and leaves a name without one unchanged |
| Fixtures.StripGroupWordPrefix | js/fixtures.js:162 | "Group X" becomes X |
| Fixtures.SectionOf | js/fixtures.js:159-164 | a section's status is 'completed' exactly when its group key is "Completed Matches" |
| Fixtures.FilterSelectsGroupAndRound | js/fixtures.js:242-246 | with plain group names, a named group filter shows a match's section exactly when the match is in that group and the round filter admits its round; 'all'/'all' shows it |
| Fixtures.RoundFilterNarrows | js/fixtures.js:242-246 | a round filter shows exactly what 'all' shows, restricted to that round |
| Fixtures.ResultsFilterHidesResults | js/fixtures.js:240-246 | as written, the 'completed' (Results) filter hides the section of a completed match unless its group is literally "Completed Matches" or "completed" |
| Fixtures.CorrectedSectionOf | js/fixtures.js:159-164 | corrected: a section's status is 'completed' exactly when its bucket holds a completed match |
| Fixtures.CorrectedResultsFilterShowsResults | js/fixtures.js:242-246 | with the corrected status, Results shows the section of every completed match, and any section exactly when it holds a result (or its group is named "completed") |
| Fixtures.ScoreClass | js/fixtures.js:277-281 | '' exactly when score or winner is missing; otherwise draw exactly when the winner is 'draw', win exactly when the winner is the given player, and loss for anybody else |
| Fixtures.ScoreClassesOfBothSides | js/fixtures.js:277-281 | for a decided match between two players the winner's card says win and the loser's loss, matching the side credited elsewhere; a drawn match is draw for both |
| Fixtures.MaxRound | js/fixtures.js:95 | `Math.max(..., 0)` is NaN when any round is missing; otherwise it is at least 0, bounds every round, and is 0 or some match's round |
| Fixtures.TotalRounds | js/fixtures.js:95 | at least 1; a single missing round collapses the navigation to one round; otherwise every scheduled round is covered; no button is made beyond the highest round played |
| Fixtures.RoundButtonsCoverScheduled | js/fixtures.js:95-96 | when every scheduled round is positive, each scheduled match's bucket round has a button |
| Domain.ScoreTextRoundTrip | js/standings.js:97 | parsing the stored text of a score yields the same two goal counts |
| Common.LexLeTotal | js/standings.js:138 | the name order standing in for `localeCompare` is total |

## Left out

- Fetching, JSON parsing, timers, the DOM, console logging and `Date`. A fetch is an `Option` result. A notification is a `Request` value. A timer firing is one call of `Tick` or `Refresh`. Rendering (`renderStandings`, `createMatchCard`, the navigation markup, modals, tabs, scroll and ripple effects) is not modelled.
- Ordering of the grouped fixtures object. JavaScript lists integer-like keys (the round numbers) in ascending order, before the other keys. The model keeps the grouped object as maps. Key order there only affects the order in which sections are drawn.
- Names that collide with `Object.prototype` properties, such as "constructor" or "toString". Every object the code indexes by a data value finds an inherited value for them. The model looks only at own keys, so it does not promise the code's behaviour for such names:
  - Fixtures.GroupAllBuckets: the grouping (js/fixtures.js:143) finds the inherited value for such a group name instead of creating a fresh bucket.
  - Standings.AddPlayer: for a roster group named "constructor", `groups[group]` (js/standings.js:52-61) finds `Object`, and storing the row into its missing `players` throws, so `initStandings` ends in its alert. The model seeds such a group normally.
  - Standings.ApplyMatch: for a match group named "constructor", `groups[match.group]` (js/standings.js:79-84) finds `Object`, and `matches.push` throws. The model files the match normally or skips it.
  - Standings.FileMatch: a player id such as "constructor" finds an inherited value in `group.players` (js/standings.js:87-89), so the real opponent's counters change. The model changes no counter when either id is not a row.
  - Standings.Unknown: for such a group, `standingsData.groups[cm.group]?.matches.some` (js/standings.js:228-229) throws inside the refresh. The model counts the match as new.
  - Notifications.Show: `notificationTypes[type]` (js/notifications.js:50) finds `Object` for a type such as "constructor" or "toString", so such a type does not fall back to the info configuration. The model treats every type other than win, loss, draw, info, update and alert as unknown. The same holds for Notifications.UnknownKindShowsAsInfo.
- `localeCompare`. Names are compared by code-unit lexicographic order (`Common.LexLe`), which is proved total. Locale collation is not modelled.
- Malformed scores. `split('-').map(Number)` can produce NaN. Scores are pre-parsed goal counts; `Domain.ParseScore` is the strict reading of the text form.
- Non-numeric and fractional rounds, and string rounds that `Math.max` would coerce. Rounds are integers or missing.
- Players.TopPlayers: `Array.prototype.sort` with a numeric comparator is stable in current engines. The model uses a stable insertion sort, so ties keep key order.
- The `img` field and `lastUpdated`, which are copied through and never inspected.
- `played` counts scheduled matches too. The code bumps it before the result check (js/standings.js:92-96).
- Standings.Tick: the firing and `initStandings` are awaited in sequence. The interleaving of two firings that overlap in time is not modelled.
- The proofs about counters are generic over the scoring scheme (`Tally.Scheme`). `Tally.Scoring` holds the code's constants (1 played; 3, 1, 0 points).
- `showSystemNotifications`, `removeNotification` and its animation delay, and the notification id taken from `Date.now()`.
- Players.GetPlayerId: `playersData[identifier]` also finds inherited `Object.prototype` members, so an identifier such as "constructor" is returned as it is. The model only looks at the directory's own keys and returns null for such a name.
- Standings table row order. The code keeps a group's rows in an object keyed by player id, so integer-like ids come first in ascending order. The model keeps them in insertion order. This matters only for players tied on points, goal difference, goals and name. Group names are taken the same way, in insertion order.
- The player-load failure alert of `initPlayers`. Only the merge of loaded players into the directory is modelled.

## Findings

| source | as written | input that shows it | evidently intended | confidence | as-written member | corrected member |
|---|---|---|---|---|---|---|
| js/notifications.js:185-189 | this lookup and the one in js/fixtures.js:359-362 read `window.playersData`, but js/players.js:6 declares `const playersData` at top level, which never becomes a property of `window`, and none of the modelled files assigns that property; every lookup is null | any completed match between two loaded players: no result notification is shown | look players up in the loaded directory | medium (js/main.js:82-92 calls setup code from files outside this model, which could assign it), not executed | Notifications.WindowLookupShowsNoMatch | Notifications.DirectoryLookupShowsKnownMatches |
| js/standings.js:220-244 | each reload calls `initStandings`, which registers one more 15-minute interval and never clears the old ones | a completed match of a group no player is in: it counts as new on every firing, so the live intervals double every period | keep a single refresh interval, clearing the old one as js/fixtures.js:287-288 does | high, not executed | Standings.PeriodDoublesIntervals | Standings.TicksOnceKeepOneInterval |
| js/fixtures.js:164 | a section's status is 'completed' only when its group key is "Completed Matches", which the grouping never produces from ordinary data | a completed match of group "A" under the Results filter: its section is hidden (`Fixtures.ResultsFilterExample`) | the Results filter shows the sections that hold completed matches | medium, not executed | Fixtures.ResultsFilterHidesResults | Fixtures.CorrectedResultsFilterShowsResults |
