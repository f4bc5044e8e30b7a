/** The fixtures page of js/fixtures.js: the fixture document and its
    defaults, the grouping of matches into group/round sections, the section
    filters, the score class of a match card, the round count of the round
    navigation, and the five-minute refresh that swaps in new results. */
module Fixtures {
  import opened Common
  import opened Domain
  import Players
  import Notifications

  /** The fields of `data/fixtures.json` the page reads; None when missing. */
  datatype Document = Document(
    groups: Option<seq<string>>,
    matches: Option<seq<Match>>,
    completedMatches: Option<seq<Match>>)

  /** `fixturesData`. */
  datatype State = State(groups: seq<string>, matches: seq<Match>, completed: seq<Match>)

  /** The value `fixturesData` starts with, kept when the first load fails. */
  const Unloaded := State([], [], [])

  const DefaultGroups: seq<string> := ["A", "B", "C", "D"]

  const LoadFailed := Notifications.Request("alert", "Failed to load fixture data", 5000, Notifications.NoOptions)

  /** The data after a load or a refresh, and the notifications it raised. */
  datatype Outcome = Outcome(state: State, requests: seq<Notifications.Request>)

  /** The defaults of `initFixtures`: `data.x || default`. */
  function FromDocument(doc: Document): State {
    State(
      if doc.groups.Some? then doc.groups.value else DefaultGroups,
      if doc.matches.Some? then doc.matches.value else [],
      if doc.completedMatches.Some? then doc.completedMatches.value else [])
  }

  /** `initFixtures`: the document is stored, then `checkForNewResults` shows a
      notification for every completed match already in it. A TypeError in
      that batch lands in the same `catch` as a failed fetch, so it ends with
      the load-failure alert although the data did load. `d` is the player
      directory the result notifications look players up in. */
  function Init(d: Players.Directory, fetched: Option<Document>): (r: Outcome)
    // a failed fetch keeps the empty fixtures and raises only the alert
    ensures fetched.None? ==> r == Outcome(Unloaded, [LoadFailed])
    // missing lists read as empty, missing groups as A to D
    ensures fetched.Some? && fetched.value.matches.None? ==> r.state.matches == []
    ensures fetched.Some? && fetched.value.completedMatches.None? ==> r.state.completed == []
    ensures fetched.Some? && fetched.value.groups.None? ==> r.state.groups == DefaultGroups
    ensures fetched.Some? && fetched.value.completedMatches.Some? ==>
              r.state.completed == fetched.value.completedMatches.value
    // no completed match, no notification
    ensures fetched.Some? && r.state.completed == [] ==> r.requests == []
    // the alert is raised exactly when the load or the result batch failed
    ensures LoadFailed in r.requests <==>
              fetched.None? || Notifications.ResultRequests(d, r.state.completed).crashed
    ensures |r.requests| <= |r.state.completed| + 1
    // a loaded document is stored with its defaults, and the results already
    // in it are announced, followed by the alert when that batch crashed
    ensures fetched.Some? ==> r.state == FromDocument(fetched.value)
    ensures fetched.Some? && r.state.completed != [] ==>
              r.requests == Notifications.ResultRequests(d, r.state.completed).requests
                            + (if Notifications.ResultRequests(d, r.state.completed).crashed then [LoadFailed] else [])
  {
    match fetched
    case None => Outcome(Unloaded, [LoadFailed])
    case Some(doc) =>
      var st := FromDocument(doc);
      if |st.completed| == 0 then Outcome(st, [])
      else
        var batch := Notifications.ResultRequests(d, st.completed);
        ResultsAreNotAlerts(d, st.completed);
        Outcome(st, batch.requests + if batch.crashed then [LoadFailed] else [])
  }

  /** Result notifications are draws or wins, never the alert. */
  lemma {:induction false} ResultsAreNotAlerts(d: Players.Directory, ms: seq<Match>)
    ensures LoadFailed !in Notifications.ResultRequests(d, ms).requests
    decreases |ms|
  {
    if |ms| > 0 {
      ResultsAreNotAlerts(d, ms[1..]);
    }
  }

  // ---------------------------------------------------------------------
  // Refresh
  // ---------------------------------------------------------------------

  /** The `filter` of the refresh: the fetched completed matches whose key
      (both player ids and the date) occurs nowhere among the stored ones, in
      fetched order. Score and winner play no part. */
  function NewCompleted(stored: seq<Match>, fetched: seq<Match>): (r: seq<Match>)
    ensures |r| <= |fetched|
    ensures forall m :: m in r <==> m in fetched && !HasKey(stored, KeyOf(m))
    decreases |fetched|
  {
    if |fetched| == 0 then []
    else
      SplitLast(fetched);
      var last := fetched[|fetched| - 1];
      NewCompleted(stored, fetched[..|fetched| - 1]) + if HasKey(stored, KeyOf(last)) then [] else [last]
  }

  /** The diff keeps relative order: it distributes over concatenation. */
  lemma {:induction false} NewCompletedAppend(stored: seq<Match>, a: seq<Match>, b: seq<Match>)
    ensures NewCompleted(stored, a + b) == NewCompleted(stored, a) + NewCompleted(stored, b)
    decreases |b|
  {
    if |b| > 0 {
      var b' := b[..|b| - 1];
      assert (a + b)[..|a + b| - 1] == a + b';
      assert (a + b)[|a + b| - 1] == b[|b| - 1];
      NewCompletedAppend(stored, a, b');
    } else {
      assert a + b == a;
    }
  }

  /** Nothing is new exactly when every fetched key is already stored. */
  lemma NewCompletedEmptyIff(stored: seq<Match>, fetched: seq<Match>)
    ensures NewCompleted(stored, fetched) == [] <==>
              forall i :: 0 <= i < |fetched| ==> HasKey(stored, KeyOf(fetched[i]))
  {
    var r := NewCompleted(stored, fetched);
    if r != [] {
      assert r[0] in r;
    }
    if exists i :: 0 <= i < |fetched| && !HasKey(stored, KeyOf(fetched[i])) {
      var i :| 0 <= i < |fetched| && !HasKey(stored, KeyOf(fetched[i]));
      assert fetched[i] in r;
    }
  }

  /** A list has nothing new against itself. */
  lemma NothingNewAgainstItself(ms: seq<Match>)
    ensures NewCompleted(ms, ms) == []
  {
    NewCompletedEmptyIff(ms, ms);
  }

  /** Re-fetching a stored match with a different score or winner is not a
      new result. */
  lemma CorrectedResultIsNotNew(stored: seq<Match>, i: nat, score: Option<Score>, winnerId: string)
    requires i < |stored|
    ensures NewCompleted(stored, [stored[i].(score := score, winnerId := winnerId)]) == []
  {
    var m := stored[i].(score := score, winnerId := winnerId);
    assert KeyOf(stored[i]) == KeyOf(m);
    NewCompletedEmptyIff(stored, [m]);
  }

  /** One tick of `setupAutoRefresh`. A failed fetch, or a document without
      `completedMatches` (the `filter` of undefined throws), is caught and
      changes nothing. Otherwise, when some fetched result is new, the stored
      results are replaced wholesale by the fetched list, the view is rebuilt
      and the new results are announced; a TypeError in that batch is caught
      after the swap. */
  function Refresh(d: Players.Directory, st: State, fetched: Option<Document>): (r: Outcome)
    // a refresh never touches the groups or the scheduled matches
    ensures r.state.groups == st.groups && r.state.matches == st.matches
    // the results either stay or become exactly the fetched list
    ensures r.state.completed == st.completed
            || (fetched.Some? && fetched.value.completedMatches == Some(r.state.completed))
    ensures fetched.None? || fetched.value.completedMatches.None? ==> r == Outcome(st, [])
    // notifications only follow a swap, and announce the new results only
    ensures r.state == st ==> r.requests == []
    ensures r.state != st ==>
              r.requests == Notifications.ResultRequests(d, NewCompleted(st.completed, r.state.completed)).requests
  {
    if fetched.None? || fetched.value.completedMatches.None? then Outcome(st, [])
    else
      var cms := fetched.value.completedMatches.value;
      var added := NewCompleted(st.completed, cms);
      if |added| == 0 then Outcome(st, [])
      else
        SwapChangesResults(st.completed, cms);
        Outcome(st.(completed := cms), Notifications.ResultRequests(d, added).requests)
  }

  /** A fetched list with a new result differs from the stored list. */
  lemma SwapChangesResults(stored: seq<Match>, fetched: seq<Match>)
    requires NewCompleted(stored, fetched) != []
    ensures fetched != stored
  {
    var r := NewCompleted(stored, fetched);
    assert r[0] in r;
  }

  /** The stored results change exactly when the fetched document carries a
      result whose key is not stored. */
  lemma RefreshSwapsIffNew(d: Players.Directory, st: State, doc: Document)
    ensures Refresh(d, st, Some(doc)).state != st <==>
              doc.completedMatches.Some? &&
              exists i :: 0 <= i < |doc.completedMatches.value| &&
                          !HasKey(st.completed, KeyOf(doc.completedMatches.value[i]))
  {
    if doc.completedMatches.Some? {
      NewCompletedEmptyIff(st.completed, doc.completedMatches.value);
    }
  }

  /** Refreshing again with the same document changes and announces nothing. */
  lemma RefreshSettles(d: Players.Directory, st: State, doc: Document)
    ensures Refresh(d, Refresh(d, st, Some(doc)).state, Some(doc)) == Outcome(Refresh(d, st, Some(doc)).state, [])
  {
    var once := Refresh(d, st, Some(doc));
    if once.state != st {
      NothingNewAgainstItself(doc.completedMatches.value);
    }
  }

  /** After a successful load, a refresh that fetches the same document
      is silent. */
  lemma LoadThenRefreshIsQuiet(d: Players.Directory, doc: Document)
    ensures Refresh(d, Init(d, Some(doc)).state, Some(doc)) == Outcome(Init(d, Some(doc)).state, [])
  {
    if doc.completedMatches.Some? {
      NothingNewAgainstItself(doc.completedMatches.value);
    }
  }

  // ---------------------------------------------------------------------
  // Grouping
  // ---------------------------------------------------------------------

  /** A grouped entry: the match with its status normalised, and
      `isCompleted`. */
  datatype Entry = Entry(fixture: Match, isCompleted: bool)

  /** `{...match, status, isCompleted}`. */
  function Normalise(m: Match): (r: Entry)
    ensures r.isCompleted <==> m.status == "completed"
    ensures r.fixture.status in {"completed", "upcoming"}
    ensures r.isCompleted <==> r.fixture.status == "completed"
    // every other field is copied
    ensures r.fixture.(status := m.status) == m
  {
    var status := if m.status == "completed" then "completed" else "upcoming";
    Entry(m.(status := status), status == "completed")
  }

  const UnknownGroup := "Unknown"

  /** `match.group || 'Unknown'`. */
  function GroupKey(m: Match): string {
    if m.group == "" then UnknownGroup else m.group
  }

  /** `match.round || 1`: a missing round and round 0 both land in round 1. */
  function RoundKey(m: Match): int {
    match m.round
    case None => 1
    case Some(n) => if n == 0 then 1 else n
  }

  /** A (group, round) bucket of the grouped object. */
  datatype Slot = Slot(group: string, round: int)

  function SlotOf(m: Match): Slot {
    Slot(GroupKey(m), RoundKey(m))
  }

  /** The grouped object: group key, then round key, then the entries. */
  type Grouped = map<string, map<int, seq<Entry>>>

  /** The reference: the entries of the matches that belong in slot `s`, in
      input order. */
  function Bucket(ms: seq<Match>, s: Slot): (b: seq<Entry>)
    ensures |b| <= |ms|
    ensures |b| > 0 <==> exists i :: 0 <= i < |ms| && SlotOf(ms[i]) == s
    decreases |ms|
  {
    if |ms| == 0 then []
    else
      var last := ms[|ms| - 1];
      var b := Bucket(ms[..|ms| - 1], s) + if SlotOf(last) == s then [Normalise(last)] else [];
      assert forall i :: 0 <= i < |ms| - 1 ==> ms[..|ms| - 1][i] == ms[i];
      b
  }

  /** One step of the `forEach`: create the group and round on first use,
      then push the normalised entry. */
  function Place(g: Grouped, m: Match): Grouped {
    var gk := GroupKey(m);
    var rk := RoundKey(m);
    var rounds := if gk in g then g[gk] else map[];
    var bucket := if rk in rounds then rounds[rk] else [];
    g[gk := rounds[rk := bucket + [Normalise(m)]]]
  }

  /** `groupMatchesByRoundAndGroup` over a list of matches. */
  function GroupAll(ms: seq<Match>): Grouped
    decreases |ms|
  {
    if |ms| == 0 then map[] else Place(GroupAll(ms[..|ms| - 1]), ms[|ms| - 1])
  }

  /** `g` is the grouping of `ms`: a group appears exactly when some match
      belongs to it, a round appears under it exactly when its bucket is not
      empty, and it holds exactly that bucket. */
  ghost predicate Represents(g: Grouped, ms: seq<Match>) {
    && (forall gk :: gk in g <==> exists i :: 0 <= i < |ms| && GroupKey(ms[i]) == gk)
    && (forall gk, rk :: gk in g ==> (rk in g[gk] <==> Bucket(ms, Slot(gk, rk)) != []))
    && (forall gk, rk :: gk in g && rk in g[gk] ==> g[gk][rk] == Bucket(ms, Slot(gk, rk)))
  }

  /** One more match extends its own bucket and no other. */
  lemma BucketSnoc(ms: seq<Match>, m: Match, s: Slot)
    ensures Bucket(ms + [m], s) == Bucket(ms, s) + if SlotOf(m) == s then [Normalise(m)] else []
  {
    assert (ms + [m])[..|ms|] == ms;
  }

  /** The groups of one more match are the old groups and the match's own. */
  lemma PlaceGroups(g: Grouped, ms: seq<Match>, m: Match)
    requires forall gk :: gk in g <==> exists i :: 0 <= i < |ms| && GroupKey(ms[i]) == gk
    ensures forall gk :: gk in Place(g, m) <==> exists i :: 0 <= i < |ms + [m]| && GroupKey((ms + [m])[i]) == gk
  {
    var ms' := ms + [m];
    assert GroupKey(ms'[|ms|]) == GroupKey(m);
    forall gk | gk in g
      ensures exists i :: 0 <= i < |ms'| && GroupKey(ms'[i]) == gk
    {
      var i :| 0 <= i < |ms| && GroupKey(ms[i]) == gk;
      assert ms'[i] == ms[i];
    }
    forall gk | (exists i :: 0 <= i < |ms'| && GroupKey(ms'[i]) == gk) && gk != GroupKey(m)
      ensures gk in g
    {
      var i :| 0 <= i < |ms'| && GroupKey(ms'[i]) == gk;
      assert i < |ms| && ms'[i] == ms[i];
    }
  }

  /** The rounds and buckets of one more match. */
  lemma PlaceBuckets(g: Grouped, ms: seq<Match>, m: Match)
    requires Represents(g, ms)
    ensures forall gk, rk :: gk in Place(g, m) ==>
              (rk in Place(g, m)[gk] <==> Bucket(ms + [m], Slot(gk, rk)) != [])
    ensures forall gk, rk :: gk in Place(g, m) && rk in Place(g, m)[gk] ==>
              Place(g, m)[gk][rk] == Bucket(ms + [m], Slot(gk, rk))
  {
    forall gk, rk | gk in Place(g, m)
      ensures rk in Place(g, m)[gk] <==> Bucket(ms + [m], Slot(gk, rk)) != []
      ensures rk in Place(g, m)[gk] ==> Place(g, m)[gk][rk] == Bucket(ms + [m], Slot(gk, rk))
    {
      BucketSnoc(ms, m, Slot(gk, rk));
      if gk != GroupKey(m) {
        assert Place(g, m)[gk] == g[gk];
      }
    }
  }

  /** The grouped object is the bucket reference. */
  lemma {:induction false} GroupAllRepresents(ms: seq<Match>)
    ensures Represents(GroupAll(ms), ms)
    decreases |ms|
  {
    if |ms| > 0 {
      var init := ms[..|ms| - 1];
      var m := ms[|ms| - 1];
      assert ms == init + [m];
      GroupAllRepresents(init);
      PlaceGroups(GroupAll(init), init, m);
      PlaceBuckets(GroupAll(init), init, m);
    }
  }

  /** `groupMatchesByRoundAndGroup`: every key of the grouped object comes
      from a match, and every bucket holds the matches of its slot, in input
      order and with their status normalised. */
  lemma GroupAllBuckets(ms: seq<Match>, gk: string, rk: int)
    ensures gk in GroupAll(ms) <==> exists i :: 0 <= i < |ms| && GroupKey(ms[i]) == gk
    ensures gk in GroupAll(ms) ==> (rk in GroupAll(ms)[gk] <==> Bucket(ms, Slot(gk, rk)) != [])
    ensures gk in GroupAll(ms) && rk in GroupAll(ms)[gk] ==> GroupAll(ms)[gk][rk] == Bucket(ms, Slot(gk, rk))
  {
    GroupAllRepresents(ms);
  }

  /** `groupMatchesByRoundAndGroup()`: scheduled matches, then results. */
  function GroupMatches(st: State): Grouped {
    GroupAll(st.matches + st.completed)
  }

  /** Grouping distributes over the input: a later batch lands behind an
      earlier one in every bucket. */
  lemma {:induction false} BucketAppend(a: seq<Match>, b: seq<Match>, s: Slot)
    ensures Bucket(a + b, s) == Bucket(a, s) + Bucket(b, s)
    decreases |b|
  {
    if |b| > 0 {
      var b' := b[..|b| - 1];
      assert (a + b)[..|a + b| - 1] == a + b';
      assert (a + b)[|a + b| - 1] == b[|b| - 1];
      BucketAppend(a, b', s);
    } else {
      assert a + b == a;
    }
  }

  /** The buckets of a list of slots, one after another. */
  function Flatten(ms: seq<Match>, slots: seq<Slot>): seq<Entry>
    decreases |slots|
  {
    if |slots| == 0 then [] else Bucket(ms, slots[0]) + Flatten(ms, slots[1..])
  }

  /** Adding one match adds its entry to the flattened buckets once, when its
      slot is listed, and not at all otherwise. */
  lemma {:induction false} FlattenSnoc(ms: seq<Match>, m: Match, slots: seq<Slot>)
    requires Distinct(slots)
    ensures multiset(Flatten(ms + [m], slots)) ==
              multiset(Flatten(ms, slots)) + if SlotOf(m) in slots then multiset{Normalise(m)} else multiset{}
    decreases |slots|
  {
    if |slots| > 0 {
      var rest := slots[1..];
      DistinctTail(slots);
      FlattenSnoc(ms, m, rest);
      BucketSnoc(ms, m, slots[0]);
      assert SlotOf(m) in slots <==> SlotOf(m) == slots[0] || SlotOf(m) in rest;
    }
  }

  /** Every match is placed exactly once: over any list of distinct slots
      that covers every match, the buckets together hold each match's entry
      as often as the match occurs. */
  lemma {:induction false} EachMatchPlacedOnce(ms: seq<Match>, slots: seq<Slot>)
    requires Distinct(slots)
    requires forall i :: 0 <= i < |ms| ==> SlotOf(ms[i]) in slots
    ensures multiset(Flatten(ms, slots)) == multiset(MapSeq(ms, Normalise))
    decreases |ms|
  {
    if |ms| == 0 {
      FlattenEmpty(slots);
    } else {
      var init := ms[..|ms| - 1];
      var m := ms[|ms| - 1];
      assert ms == init + [m];
      EachMatchPlacedOnce(init, slots);
      FlattenSnoc(init, m, slots);
      assert MapSeq(ms, Normalise) == MapSeq(init, Normalise) + [Normalise(m)];
    }
  }

  lemma {:induction false} FlattenEmpty(slots: seq<Slot>)
    ensures Flatten([], slots) == []
    decreases |slots|
  {
    if |slots| > 0 {
      FlattenEmpty(slots[1..]);
    }
  }

  // ---------------------------------------------------------------------
  // Sections and filters
  // ---------------------------------------------------------------------

  /** `pat` stands in `s` at index `i`. */
  predicate OccursAt(s: string, pat: string, i: nat) {
    i + |pat| <= |s| && s[i..i + |pat|] == pat
  }

  /** The first index of `pat` in `s` at or after `from`. */
  function IndexOf(s: string, pat: string, from: nat): (r: Option<nat>)
    ensures r.Some? ==> from <= r.value && OccursAt(s, pat, r.value)
    ensures forall j :: from <= j && (r.None? || j < r.value) ==> !OccursAt(s, pat, j)
    decreases |s| - from
  {
    if from + |pat| > |s| then None
    else if OccursAt(s, pat, from) then Some(from)
    else IndexOf(s, pat, from + 1)
  }

  const GroupWord := "Group "

  /** `group.replace('Group ', '')`: removes the FIRST occurrence, wherever it
      stands. */
  function StripGroupWord(g: string): (r: string)
    ensures (forall j :: !OccursAt(g, GroupWord, j)) ==> r == g
    ensures |r| == |g| || |r| + |GroupWord| == |g|
    // the first occurrence, and only that one, is cut out
    ensures forall i: nat :: OccursAt(g, GroupWord, i) && (forall j: nat :: j < i ==> !OccursAt(g, GroupWord, j)) ==>
              r == g[..i] + g[i + |GroupWord|..]
  {
    match IndexOf(g, GroupWord, 0)
    case None => g
    case Some(i) => g[..i] + g[i + |GroupWord|..]
  }

  /** The label prefix is taken off a group written "Group X". */
  lemma StripGroupWordPrefix(g: string)
    ensures StripGroupWord(GroupWord + g) == g
  {
    assert OccursAt(GroupWord + g, GroupWord, 0);
    assert (GroupWord + g)[|GroupWord|..] == g;
  }

  /** The data attributes `createFixtureSection` gives a section. */
  datatype Section = Section(group: string, round: int, status: string)

  const CompletedMatchesGroup := "Completed Matches"

  /** As written, the section status depends only on the group key being the
      label "Completed Matches"; the entries play no part. */
  function SectionOf(groupKey: string, round: int): (r: Section)
    ensures r.round == round
    ensures r.status == "completed" <==> groupKey == CompletedMatchesGroup
  {
    Section(StripGroupWord(groupKey), round, if groupKey == CompletedMatchesGroup then "completed" else "upcoming")
  }

  /** `currentRoundFilter`: 'all' or a round number. */
  datatype RoundFilter = AllRounds | OnlyRound(round: int)

  /** The `showFixture` test of `applyCurrentFilters`. The group filter is
      'all', 'completed' or a group name. */
  predicate Visible(s: Section, groupFilter: string, roundFilter: RoundFilter) {
    && (groupFilter == "all" || (groupFilter == "completed" && s.status == "completed") || s.group == groupFilter)
    && (roundFilter.AllRounds? || s.round == roundFilter.round)
  }

  /** The section of the bucket a match lands in. */
  function SectionOfMatch(m: Match): Section {
    SectionOf(GroupKey(m), RoundKey(m))
  }

  /** With plain group names (none containing "Group "), a named group filter
      shows a match's section exactly when the match belongs to that group
      and the round filter admits its round; 'all' and 'all' show every
      section. */
  lemma FilterSelectsGroupAndRound(m: Match, groupFilter: string, roundFilter: RoundFilter)
    requires forall j :: !OccursAt(GroupKey(m), GroupWord, j)
    requires groupFilter != "all" && groupFilter != "completed"
    ensures Visible(SectionOfMatch(m), groupFilter, roundFilter) <==>
              GroupKey(m) == groupFilter && (roundFilter.AllRounds? || RoundKey(m) == roundFilter.round)
    ensures Visible(SectionOfMatch(m), "all", AllRounds)
  {
  }

  /** A round filter only ever narrows what the group filter shows. */
  lemma RoundFilterNarrows(s: Section, groupFilter: string, n: int)
    ensures Visible(s, groupFilter, OnlyRound(n)) <==> Visible(s, groupFilter, AllRounds) && s.round == n
  {
  }

  /** As written, the "Results" filter hides the section of every completed
      match, whatever its round filter, unless its group is literally called
      "Completed Matches" or "completed". */
  lemma ResultsFilterHidesResults(ms: seq<Match>, i: nat, roundFilter: RoundFilter)
    requires i < |ms| && ms[i].status == "completed"
    requires GroupKey(ms[i]) != CompletedMatchesGroup && StripGroupWord(GroupKey(ms[i])) != "completed"
    ensures Normalise(ms[i]).isCompleted
    ensures Normalise(ms[i]) in MatchBucket(ms, i)
    ensures !Visible(SectionOfMatch(ms[i]), "completed", roundFilter)
  {
    BucketHoldsMatch(ms, i);
  }

  /** The concrete case: a finished group-A match is not listed under
      "Results". */
  lemma ResultsFilterExample()
    ensures var m := Match("p1", "p2", "A", Some(1), "completed", Some(Score(2, 1)), "p1", "2024-05-01");
            Normalise(m).isCompleted && !Visible(SectionOfMatch(m), "completed", AllRounds)
  {
    var m := Match("p1", "p2", "A", Some(1), "completed", Some(Score(2, 1)), "p1", "2024-05-01");
    assert !OccursAt("A", GroupWord, 0);
  }

  /** A match's entry is in the bucket of its own slot. */
  lemma BucketHoldsMatch(ms: seq<Match>, i: nat)
    requires i < |ms|
    ensures GroupKey(ms[i]) in GroupAll(ms) && RoundKey(ms[i]) in GroupAll(ms)[GroupKey(ms[i])]
    ensures Normalise(ms[i]) in Bucket(ms, SlotOf(ms[i]))
    ensures Normalise(ms[i]) in GroupAll(ms)[GroupKey(ms[i])][RoundKey(ms[i])]
  {
    BucketHasMatch(ms, i);
    GroupAllRepresents(ms);
  }

  lemma {:induction false} BucketHasMatch(ms: seq<Match>, i: nat)
    requires i < |ms|
    ensures Normalise(ms[i]) in Bucket(ms, SlotOf(ms[i]))
    decreases |ms|
  {
    var init := ms[..|ms| - 1];
    if i < |ms| - 1 {
      assert init[i] == ms[i];
      BucketHasMatch(init, i);
    }
  }

  /** The bucket of the grouped object that holds `ms[i]`. */
  function MatchBucket(ms: seq<Match>, i: nat): seq<Entry>
    requires i < |ms|
  {
    BucketHoldsMatch(ms, i);
    GroupAll(ms)[GroupKey(ms[i])][RoundKey(ms[i])]
  }

  /** Does the bucket hold a finished match? */
  predicate HasResult(es: seq<Entry>) {
    exists k :: 0 <= k < |es| && es[k].isCompleted
  }

  /** The corrected section: its status says whether it holds a result. */
  function CorrectedSectionOf(groupKey: string, round: int, es: seq<Entry>): (r: Section)
    ensures r.round == round && r.group == SectionOf(groupKey, round).group
    ensures r.status == "completed" <==> HasResult(es)
  {
    Section(StripGroupWord(groupKey), round, if HasResult(es) then "completed" else "upcoming")
  }

  /** The section a match lands in, with the corrected status. */
  function CorrectedSectionOfMatch(ms: seq<Match>, i: nat): Section
    requires i < |ms|
  {
    CorrectedSectionOf(GroupKey(ms[i]), RoundKey(ms[i]), MatchBucket(ms, i))
  }

  /** With the corrected status, "Results" shows the section of every
      completed match, and hides a section without results unless its group
      is itself named "completed". */
  lemma CorrectedResultsFilterShowsResults(ms: seq<Match>, i: nat)
    requires i < |ms|
    ensures ms[i].status == "completed" ==> Visible(CorrectedSectionOfMatch(ms, i), "completed", AllRounds)
    ensures Visible(CorrectedSectionOfMatch(ms, i), "completed", AllRounds) <==>
              HasResult(MatchBucket(ms, i))
              || StripGroupWord(GroupKey(ms[i])) == "completed"
  {
    BucketHoldsMatch(ms, i);
    var es := MatchBucket(ms, i);
    if ms[i].status == "completed" {
      var k :| 0 <= k < |es| && es[k] == Normalise(ms[i]);
    }
  }

  // ---------------------------------------------------------------------
  // Score class and round count
  // ---------------------------------------------------------------------

  /** `getScoreClass(match, playerId)`. */
  function ScoreClass(m: Match, playerId: string): (r: string)
    ensures r in {"", "draw", "win", "loss"}
    ensures r == "" <==> m.score.None? || m.winnerId == ""
    // a scored draw is a draw for both sides
    ensures r == "draw" <==> m.score.Some? && m.winnerId == "draw"
    // a decided match is a win for the winner and a loss for everybody else
    ensures r == "win" <==>
              m.score.Some? && m.winnerId != "" && m.winnerId != "draw" && m.winnerId == playerId
    ensures r == "loss" <==>
              m.score.Some? && m.winnerId != "" && m.winnerId != "draw" && m.winnerId != playerId
  {
    if m.score.None? || m.winnerId == "" then ""
    else if m.winnerId == "draw" then "draw"
    else if m.winnerId == playerId then "win"
    else "loss"
  }

  /** The id of one side of a match. */
  function SideId(m: Match, s: Notifications.Side): string {
    match s
    case First => m.player1Id
    case Second => m.player2Id
  }

  /** For a decided match between two different players, the two cards'
      classes are opposite, and "win" goes to the side the notifications and
      the standings credit with the win; a drawn match is "draw" for both. */
  lemma ScoreClassesOfBothSides(m: Match)
    requires m.score.Some? && m.player1Id != m.player2Id
    requires m.winnerId == m.player1Id || m.winnerId == m.player2Id || m.winnerId == "draw"
    requires m.player1Id != "draw" && m.player2Id != "draw" && m.player1Id != "" && m.player2Id != ""
    ensures m.winnerId == "draw" ==> ScoreClass(m, m.player1Id) == "draw" == ScoreClass(m, m.player2Id)
    ensures m.winnerId != "draw" ==>
              ScoreClass(m, SideId(m, Notifications.WinnerSide(m))) == "win" &&
              ScoreClass(m, SideId(m, Notifications.WinnerSide(m).Other())) == "loss"
  {
  }

  /** `Math.max(...matches.map(m => m.round), 0)`: None stands for NaN, which a
      missing round produces and which then swallows every other value. */
  function MaxRound(ms: seq<Match>): (r: Option<int>)
    ensures r.None? <==> exists i :: 0 <= i < |ms| && ms[i].round.None?
    ensures r.Some? ==> 0 <= r.value && forall i :: 0 <= i < |ms| ==> ms[i].round.value <= r.value
    ensures r.Some? ==> r.value == 0 || exists i :: 0 <= i < |ms| && ms[i].round == Some(r.value)
    decreases |ms|
  {
    if |ms| == 0 then Some(0)
    else
      var init := ms[..|ms| - 1];
      assert forall i :: 0 <= i < |ms| - 1 ==> init[i] == ms[i];
      match (ms[|ms| - 1].round, MaxRound(init))
      case (Some(a), Some(b)) => Some(if a > b then a else b)
      case _ => None
  }

  /** `… || 1`: the number of round buttons `generateRoundNavigation` makes
      from the scheduled matches. */
  function TotalRounds(ms: seq<Match>): (r: int)
    ensures r >= 1
    // one missing round collapses the navigation to a single round
    ensures (exists i :: 0 <= i < |ms| && ms[i].round.None?) ==> r == 1
    // otherwise every round has a button
    ensures (forall i :: 0 <= i < |ms| ==> ms[i].round.Some?) ==>
              forall i :: 0 <= i < |ms| ==> ms[i].round.value <= r
    // and no button is made for a round nobody plays, beyond round 1
    ensures r == 1 || exists i :: 0 <= i < |ms| && ms[i].round == Some(r)
  {
    match MaxRound(ms)
    case None => 1
    case Some(n) => if n == 0 then 1 else n
  }

  /** When every scheduled match has a positive round, each match's bucket
      round has a button in the navigation. */
  lemma RoundButtonsCoverScheduled(ms: seq<Match>, i: nat)
    requires i < |ms|
    requires forall j :: 0 <= j < |ms| ==> ms[j].round.Some? && ms[j].round.value >= 1
    ensures 1 <= RoundKey(ms[i]) <= TotalRounds(ms)
  {
    assert ms[i].round.value <= TotalRounds(ms);
  }
}
