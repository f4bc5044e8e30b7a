/** The group standings of js/standings.js: `calculateAllStandings` builds
    one table per tournament group from the roster, files every match under
    its group, adds up the counters and ranks each table; `getGroupStandings`
    and `getPlayerPosition` read the result; the auto-refresh recomputes it
    when a fetched completed match is not yet filed. */
module Standings {
  import opened Common
  import opened Domain
  import Sorting
  import opened Tally
  import Notifications

  /** `groups[g]` while the standings are being built: the group's `players`
      object (one row per id, `ids` in insertion order) and the matches filed
      under the group. */
  datatype Table = Table(ids: seq<string>, rows: map<string, Row>, matches: seq<Match>)

  /** Each row is stored under its own id, and the key order lists every key
      once. */
  ghost predicate TableWf(t: Table) {
    && Distinct(t.ids)
    && (forall k :: k in t.rows <==> k in t.ids)
    && (forall i :: 0 <= i < |t.ids| ==> t.ids[i] in t.rows)
    && (forall k :: k in t.rows ==> t.rows[k].id == k)
  }

  /** The `groups` object: tables by group name, names in insertion order.
      The empty name never becomes a group (it is falsy). */
  datatype Tables = Tables(order: seq<string>, byGroup: map<string, Table>)

  ghost predicate TablesWf(ts: Tables) {
    && Distinct(ts.order)
    && (forall g :: g in ts.byGroup <==> g in ts.order)
    && "" !in ts.byGroup
    && (forall g :: g in ts.byGroup ==> TableWf(ts.byGroup[g]))
  }

  /** The groups named by the roster. */
  ghost function GroupsOf(ps: seq<Player>): set<string> {
    set p | p in ps && p.group != "" :: p.group
  }

  /** The ids of the roster entries of group `g`. */
  ghost function Members(ps: seq<Player>, g: string): set<string> {
    set p | p in ps && p.group == g :: p.id
  }

  const NoTables := Tables([], map[])

  /** `groups[g].players[p.id] = {...}`: a fresh row for `p`; a repeated
      id overwrites the row but keeps its place in key order. */
  function AddRow(t: Table, p: Player): (r: Table)
    requires TableWf(t)
    ensures TableWf(r)
    ensures r.matches == t.matches
    ensures r.rows == t.rows[p.id := FreshRow(p)]
  {
    Table(if p.id in t.rows then t.ids else t.ids + [p.id], t.rows[p.id := FreshRow(p)], t.matches)
  }

  const NewTable := Table([], map[], [])

  /** One step of `players.forEach`: a player with a group gets a fresh row
      in that group, the group being created on first use. */
  function AddPlayer(ts: Tables, p: Player): (r: Tables)
    requires TablesWf(ts)
    ensures TablesWf(r)
    ensures p.group == "" ==> r == ts
    ensures p.group != "" ==>
              r.byGroup == ts.byGroup[p.group := AddRow(if p.group in ts.byGroup then ts.byGroup[p.group] else NewTable, p)]
  {
    if p.group == "" then ts
    else
      var known := p.group in ts.byGroup;
      var t := if known then ts.byGroup[p.group] else NewTable;
      var order := if known then ts.order else ts.order + [p.group];
      var r := Tables(order, ts.byGroup[p.group := AddRow(t, p)]);
      assert forall g :: g in r.byGroup <==> g in r.order by {
        SplitLast(order);
      }
      r
  }

  /** The `players.forEach` loop: the tables before any match is filed. */
  function Seed(ps: seq<Player>): (r: Tables)
    ensures TablesWf(r)
    decreases |ps|
  {
    if |ps| == 0 then NoTables
    else AddPlayer(Seed(ps[..|ps| - 1]), ps[|ps| - 1])
  }

  /** What one more roster entry adds to the groups and to their members. */
  lemma RosterStep(ps: seq<Player>)
    requires |ps| > 0
    ensures forall g :: g in GroupsOf(ps) <==>
              g in GroupsOf(ps[..|ps| - 1]) || (ps[|ps| - 1].group != "" && g == ps[|ps| - 1].group)
    ensures forall g, k :: k in Members(ps, g) <==>
              k in Members(ps[..|ps| - 1], g) || (ps[|ps| - 1].group == g && k == ps[|ps| - 1].id)
  {
    SplitLast(ps);
  }

  /** The seeded tables are exactly the groups the roster names, each with no
      match yet. */
  lemma {:induction false} SeedGroups(ps: seq<Player>)
    ensures forall g :: g in Seed(ps).byGroup <==> g in GroupsOf(ps)
    ensures forall g :: g in Seed(ps).byGroup ==> Seed(ps).byGroup[g].matches == []
    decreases |ps|
  {
    if |ps| > 0 {
      SeedGroups(ps[..|ps| - 1]);
      RosterStep(ps);
    }
  }

  /** The rows of a seeded group are exactly its members. */
  lemma {:induction false} SeedRows(ps: seq<Player>)
    ensures forall g, k :: g in Seed(ps).byGroup ==> (k in Seed(ps).byGroup[g].rows <==> k in Members(ps, g))
    decreases |ps|
  {
    if |ps| > 0 {
      SeedRows(ps[..|ps| - 1]);
      SeedGroups(ps[..|ps| - 1]);
      RosterStep(ps);
    }
  }

  /** Each seeded row is made from a roster entry of its group and id, so
      its counters are all zero. */
  lemma {:induction false} SeedRowsFresh(ps: seq<Player>)
    ensures forall g, k :: g in Seed(ps).byGroup && k in Seed(ps).byGroup[g].rows ==>
              exists p :: p in ps && p.group == g && p.id == k && Seed(ps).byGroup[g].rows[k] == FreshRow(p)
    decreases |ps|
  {
    if |ps| > 0 {
      var init := ps[..|ps| - 1];
      var p := ps[|ps| - 1];
      SeedRowsFresh(init);
      SplitLast(ps);
      var prev := Seed(init);
      var r := Seed(ps);
      forall g, k | g in r.byGroup && k in r.byGroup[g].rows
        ensures exists q :: q in ps && q.group == g && q.id == k && r.byGroup[g].rows[k] == FreshRow(q)
      {
        if g == p.group && k == p.id {
          assert p in ps;
        } else {
          var q :| q in init && q.group == g && q.id == k && prev.byGroup[g].rows[k] == FreshRow(q);
          assert q in ps;
        }
      }
    }
  }

  /** The guard of `allMatches.forEach` lets the match through and its group
      is `g`: the match is pushed onto `groups[g].matches`. */
  predicate Filed(m: Match, g: string) {
    m.group == g && m.player1Id != "" && m.player2Id != ""
  }

  /** The matches of `ms` the loop files under group `g`, in input order. */
  function FiledOf(ms: seq<Match>, g: string): (r: seq<Match>)
    ensures forall m :: m in r <==> m in ms && Filed(m, g)
    decreases |ms|
  {
    if |ms| == 0 then []
    else FiledOf(ms[..|ms| - 1], g) + if Filed(ms[|ms| - 1], g) then [ms[|ms| - 1]] else []
  }

  /** Both players have a row among `keys`: the match changes counters. */
  predicate Counted(keys: set<string>, m: Match) {
    m.player1Id in keys && m.player2Id in keys
  }

  /** The matches of `ms` that change counters of a table with rows `keys`. */
  function CountedOf(ms: seq<Match>, keys: set<string>): (r: seq<Match>)
    ensures forall m :: m in r <==> m in ms && Counted(keys, m)
    decreases |ms|
  {
    if |ms| == 0 then []
    else CountedOf(ms[..|ms| - 1], keys) + if Counted(keys, ms[|ms| - 1]) then [ms[|ms| - 1]] else []
  }

  /** The body of `allMatches.forEach` once the group is found: the match is
      filed first, and only then are the two rows looked up; when either is
      missing no counter changes. */
  function FileMatch(t: Table, m: Match): (r: Table)
    requires TableWf(t)
    ensures TableWf(r)
    ensures r.ids == t.ids && r.rows.Keys == t.rows.Keys && r.matches == t.matches + [m]
    ensures !Counted(t.rows.Keys, m) ==> r.rows == t.rows
    ensures Counted(t.rows.Keys, m) ==> r.rows == Record(Scoring, t.rows, m)
  {
    Table(t.ids, if Counted(t.rows.Keys, m) then Record(Scoring, t.rows, m) else t.rows, t.matches + [m])
  }

  /** One step of `allMatches.forEach`: a match without a group or a player
      id, or of an unknown group, changes nothing. */
  function ApplyMatch(ts: Tables, m: Match): (r: Tables)
    requires TablesWf(ts)
    ensures TablesWf(r)
    ensures r.order == ts.order && r.byGroup.Keys == ts.byGroup.Keys
    ensures forall g :: g in ts.byGroup && !Filed(m, g) ==> r.byGroup[g] == ts.byGroup[g]
    ensures forall g :: g in ts.byGroup && Filed(m, g) ==> r.byGroup[g] == FileMatch(ts.byGroup[g], m)
  {
    if m.group == "" || m.player1Id == "" || m.player2Id == "" || m.group !in ts.byGroup then ts
    else Tables(ts.order, ts.byGroup[m.group := FileMatch(ts.byGroup[m.group], m)])
  }

  /** The whole `allMatches.forEach` loop. */
  function ApplyAll(ts: Tables, ms: seq<Match>): (r: Tables)
    requires TablesWf(ts)
    ensures TablesWf(r)
    ensures r.order == ts.order && r.byGroup.Keys == ts.byGroup.Keys
    decreases |ms|
  {
    if |ms| == 0 then ts
    else ApplyMatch(ApplyAll(ts, ms[..|ms| - 1]), ms[|ms| - 1])
  }

  /** How often `k` takes a side in `ms` (twice in a match against itself). */
  function Appearances(ms: seq<Match>, k: string): nat
    decreases |ms|
  {
    if |ms| == 0 then 0
    else
      var m := ms[|ms| - 1];
      Appearances(ms[..|ms| - 1], k) + (if m.player1Id == k then 1 else 0) + (if m.player2Id == k then 1 else 0)
  }

  /** Points a match hands out: 2 for a draw, 3 for a decided match, none
      before it has a result. */
  function MatchPoints(m: Match): nat {
    if !HasResult(m) then 0 else if m.winnerId == "draw" then 2 else 3
  }

  function Awarded(ms: seq<Match>): nat
    decreases |ms|
  {
    if |ms| == 0 then 0 else Awarded(ms[..|ms| - 1]) + MatchPoints(ms[|ms| - 1])
  }

  /** What the counters of a table amount to, given the matches filed under
      it: every row keeps the points identity, a row has played once per side
      it took in a counted match, the table balances goals and wins against
      losses, and its points are those the counted matches hand out. */
  ghost predicate Balanced(t: Table) {
    && TableWf(t)
    && (forall k :: k in t.rows ==> PointsAgree(t.rows[k].stats))
    && (forall k :: k in t.rows ==>
          t.rows[k].stats.played == Appearances(CountedOf(t.matches, t.rows.Keys), k))
    && Conserved(Total(Column(t.ids, t.rows)))
    && Total(Column(t.ids, t.rows)).points == Awarded(CountedOf(t.matches, t.rows.Keys))
  }

  lemma AppendAssoc(a: seq<Match>, b: seq<Match>, c: seq<Match>)
    ensures (a + b) + c == a + (b + c)
  {
  }

  lemma SnocPrefix(ms: seq<Match>, m: Match)
    ensures (ms + [m])[..|ms|] == ms && (ms + [m])[|ms|] == m
  {
  }

  /** A recorded match keeps the points identity of every row. */
  lemma RecordAgrees(rows: map<string, Row>, m: Match)
    requires m.player1Id in rows && m.player2Id in rows
    requires forall k :: k in rows ==> PointsAgree(rows[k].stats)
    ensures forall k :: k in rows ==> PointsAgree(Record(Scoring, rows, m)[k].stats)
  {
    MatchAwards(m);
  }

  /** A recorded match adds one played match per side a row takes. */
  lemma RecordPlayed(rows: map<string, Row>, m: Match, k: string)
    requires m.player1Id in rows && m.player2Id in rows && k in rows
    ensures Record(Scoring, rows, m)[k].stats.played ==
              rows[k].stats.played + (if m.player1Id == k then 1 else 0) + (if m.player2Id == k then 1 else 0)
  {
    MatchAwards(m);
    SheetPlayed(m, Notifications.First);
    SheetPlayed(m, Notifications.Second);
  }

  /** The played counters after a counted match. */
  lemma FilePlayed(t: Table, c: seq<Match>, m: Match)
    requires TableWf(t) && Counted(t.rows.Keys, m)
    requires forall k :: k in t.rows ==> t.rows[k].stats.played == Appearances(c, k)
    ensures forall k :: k in t.rows ==> Record(Scoring, t.rows, m)[k].stats.played == Appearances(c + [m], k)
  {
    SnocPrefix(c, m);
    forall k | k in t.rows
      ensures Record(Scoring, t.rows, m)[k].stats.played == Appearances(c + [m], k)
    {
      RecordPlayed(t.rows, m, k);
    }
  }

  /** The column sums after a counted match: a balanced sum plus a balanced
      match total stays balanced and gains the match's points. */
  lemma FileTotals(before: Stats, total: Stats, c: seq<Match>, m: Match)
    requires Conserved(before) && before.points == Awarded(c)
    requires Conserved(total) && total.points == MatchPoints(m)
    ensures Conserved(Plus(before, total)) && Plus(before, total).points == Awarded(c + [m])
  {
    AwardedSnoc(c, m);
  }

  /** Recording a counted match adds its total to the column sums. */
  lemma TableRecordTotal(t: Table, m: Match)
    requires TableWf(t) && Counted(t.rows.Keys, m)
    ensures Total(Column(t.ids, Record(Scoring, t.rows, m))) == Plus(Total(Column(t.ids, t.rows)), MatchTotal(Scoring, m))
  {
    assert m.player1Id in t.ids && m.player2Id in t.ids;
    RecordTotal(Scoring, t.ids, t.rows, m);
  }

  /** What a match adds to its group balances, and carries its points. */
  lemma MatchTotalAwards(m: Match)
    ensures Conserved(MatchTotal(Scoring, m)) && MatchTotal(Scoring, m).points == MatchPoints(m)
  {
    MatchAwards(m);
  }

  lemma AwardedSnoc(c: seq<Match>, m: Match)
    ensures Awarded(c + [m]) == Awarded(c) + MatchPoints(m)
  {
    SnocPrefix(c, m);
  }

  /** Filing a match keeps a table balanced. */
  lemma FileKeepsBalance(t: Table, m: Match)
    requires Balanced(t)
    ensures Balanced(FileMatch(t, m))
  {
    var r := FileMatch(t, m);
    var keys := t.rows.Keys;
    var c := CountedOf(t.matches, keys);
    SnocPrefix(t.matches, m);
    if Counted(keys, m) {
      assert CountedOf(r.matches, r.rows.Keys) == c + [m];
      RecordAgrees(t.rows, m);
      FilePlayed(t, c, m);
      TableRecordTotal(t, m);
      MatchTotalAwards(m);
      FileTotals(Total(Column(t.ids, t.rows)), MatchTotal(Scoring, m), c, m);
    } else {
      assert CountedOf(r.matches, r.rows.Keys) == c;
    }
  }

  /** A match the loop skips, or files without finding both players, leaves
      every counter of every group as it was. */
  lemma SkippedMatchChangesNoCounter(ts: Tables, m: Match)
    requires TablesWf(ts)
    requires !(m.group in ts.byGroup && Filed(m, m.group) && Counted(ts.byGroup[m.group].rows.Keys, m))
    ensures forall g :: g in ts.byGroup ==> ApplyMatch(ts, m).byGroup[g].rows == ts.byGroup[g].rows
  {
  }

  /** The loop keeps each group's rows and key order. */
  lemma {:induction false} ApplyAllKeepsRows(ts: Tables, ms: seq<Match>, g: string)
    requires TablesWf(ts) && g in ts.byGroup
    ensures ApplyAll(ts, ms).byGroup[g].ids == ts.byGroup[g].ids
    ensures ApplyAll(ts, ms).byGroup[g].rows.Keys == ts.byGroup[g].rows.Keys
    decreases |ms|
  {
    if |ms| > 0 {
      var init := ms[..|ms| - 1];
      var m := ms[|ms| - 1];
      ApplyAllKeepsRows(ts, init, g);
      var t := ApplyAll(ts, init).byGroup[g];
      var r := if Filed(m, g) then FileMatch(t, m) else t;
      assert ApplyAll(ts, ms).byGroup[g] == r;
      assert r.ids == t.ids && r.rows.Keys == t.rows.Keys;
    }
  }

  /** The loop files under group `g` exactly the matches that pass the guard
      with group `g`, in input order (a match given twice is filed twice). */
  lemma {:induction false} ApplyAllFiles(ts: Tables, ms: seq<Match>, g: string)
    requires TablesWf(ts) && g in ts.byGroup
    ensures ApplyAll(ts, ms).byGroup[g].matches == ts.byGroup[g].matches + FiledOf(ms, g)
    decreases |ms|
  {
    if |ms| > 0 {
      var init := ms[..|ms| - 1];
      var m := ms[|ms| - 1];
      ApplyAllFiles(ts, init, g);
      var t := ApplyAll(ts, init).byGroup[g];
      var extra := if Filed(m, g) then [m] else [];
      assert ApplyAll(ts, ms).byGroup[g].matches == t.matches + extra;
      assert FiledOf(ms, g) == FiledOf(init, g) + extra;
      AppendAssoc(ts.byGroup[g].matches, FiledOf(init, g), extra);
    }
  }

  /** The loop keeps every table balanced. */
  lemma {:induction false} ApplyAllBalanced(ts: Tables, ms: seq<Match>)
    requires TablesWf(ts)
    requires forall g :: g in ts.byGroup ==> Balanced(ts.byGroup[g])
    ensures forall g :: g in ApplyAll(ts, ms).byGroup ==> Balanced(ApplyAll(ts, ms).byGroup[g])
    decreases |ms|
  {
    if |ms| > 0 {
      var m := ms[|ms| - 1];
      var prev := ApplyAll(ts, ms[..|ms| - 1]);
      ApplyAllBalanced(ts, ms[..|ms| - 1]);
      var r := ApplyAll(ts, ms);
      assert r == ApplyMatch(prev, m);
      forall g | g in r.byGroup
        ensures Balanced(r.byGroup[g])
      {
        if Filed(m, g) {
          FileKeepsBalance(prev.byGroup[g], m);
        }
      }
    }
  }

  /** Every counter at zero. */
  predicate Blank(s: Stats) {
    s.played == 0 && s.wins == 0 && s.draws == 0 && s.losses == 0
    && s.goalsFor == 0 && s.goalsAgainst == 0 && s.points == 0
  }

  /** Rows with all counters at zero sum to a balanced, pointless total. */
  lemma {:induction false} TotalOfFresh(rs: seq<Row>)
    requires forall i :: 0 <= i < |rs| ==> Blank(rs[i].stats)
    ensures Conserved(Total(rs)) && Total(rs).points == 0
    decreases |rs|
  {
    if |rs| > 0 {
      TotalOfFresh(rs[1..]);
    }
  }

  lemma BlankRows(t: Table)
    requires t.matches == []
    requires forall k :: k in t.rows ==> Blank(t.rows[k].stats)
    ensures forall k :: k in t.rows ==> PointsAgree(t.rows[k].stats)
    ensures forall k :: k in t.rows ==> t.rows[k].stats.played == Appearances(CountedOf(t.matches, t.rows.Keys), k)
  {
    assert CountedOf(t.matches, t.rows.Keys) == [];
  }

  lemma BlankTotals(t: Table)
    requires TableWf(t) && t.matches == []
    requires forall k :: k in t.rows ==> Blank(t.rows[k].stats)
    ensures Conserved(Total(Column(t.ids, t.rows)))
    ensures Total(Column(t.ids, t.rows)).points == Awarded(CountedOf(t.matches, t.rows.Keys))
  {
    TotalOfFresh(Column(t.ids, t.rows));
    assert CountedOf(t.matches, t.rows.Keys) == [];
  }

  /** A table with no match and every counter at zero is balanced. */
  lemma FreshTableBalanced(t: Table)
    requires TableWf(t) && t.matches == []
    requires forall k :: k in t.rows ==> Blank(t.rows[k].stats)
    ensures Balanced(t)
  {
    BlankRows(t);
    BlankTotals(t);
  }

  /** Seeded tables are balanced. */
  lemma SeedBalanced(ps: seq<Player>)
    ensures forall g :: g in Seed(ps).byGroup ==> Balanced(Seed(ps).byGroup[g])
  {
    var ts := Seed(ps);
    SeedGroups(ps);
    SeedRowsFresh(ps);
    forall g | g in ts.byGroup
      ensures Balanced(ts.byGroup[g])
    {
      var t := ts.byGroup[g];
      forall k | k in t.rows
        ensures Blank(t.rows[k].stats)
      {
        var p :| p in ps && p.group == g && p.id == k && t.rows[k] == FreshRow(p);
      }
      FreshTableBalanced(t);
    }
  }

  /** The comparator of the `sort` call, read as "`a` may come before `b`":
      more points first, then the better goal difference, then more goals
      scored, then the name in alphabetical order. */
  predicate RanksBefore(a: Row, b: Row) {
    if a.stats.points != b.stats.points then a.stats.points > b.stats.points
    else if GoalDifference(a.stats) != GoalDifference(b.stats) then GoalDifference(a.stats) > GoalDifference(b.stats)
    else if a.stats.goalsFor != b.stats.goalsFor then a.stats.goalsFor > b.stats.goalsFor
    else LexLe(a.name, b.name)
  }

  /** The comparator is consistent, so the sort is well defined. */
  lemma RanksBeforeIsTotalPreorder()
    ensures Sorting.TotalPreorder(RanksBefore)
  {
    forall a: Row, b: Row
      ensures RanksBefore(a, b) || RanksBefore(b, a)
    {
      LexLeTotal(a.name, b.name);
    }
    forall a: Row, b: Row, c: Row | RanksBefore(a, b) && RanksBefore(b, c)
      ensures RanksBefore(a, c)
    {
      if a.stats.points == b.stats.points == c.stats.points
         && GoalDifference(a.stats) == GoalDifference(b.stats) == GoalDifference(c.stats)
         && a.stats.goalsFor == b.stats.goalsFor == c.stats.goalsFor {
        LexLeTransitive(a.name, b.name, c.name);
      }
    }
  }

  /** A standings entry: the row with the `position` the code adds to it. */
  datatype Ranked = Ranked(row: Row, position: nat)

  /** `standings.forEach((player, index) => player.position = index + 1)`. */
  function Number(rs: seq<Row>): (r: seq<Ranked>)
    ensures |r| == |rs|
    ensures forall i :: 0 <= i < |r| ==> r[i].row == rs[i] && r[i].position == i + 1
  {
    seq(|rs|, i requires 0 <= i < |rs| => Ranked(rs[i], i + 1))
  }

  /** The standings of one table: its rows sorted by the comparator, then
      numbered. */
  function Rank(t: Table): (r: seq<Ranked>)
    requires TableWf(t)
    ensures |r| == |t.ids|
  {
    RanksBeforeIsTotalPreorder();
    Number(Sorting.SortBy(Column(t.ids, t.rows), RanksBefore))
  }

  function RowsOf(st: seq<Ranked>): (r: seq<Row>)
    ensures |r| == |st|
    ensures forall i :: 0 <= i < |st| ==> r[i] == st[i].row
  {
    seq(|st|, i requires 0 <= i < |st| => st[i].row)
  }

  /** A ranked table holds each row of the table exactly once, in comparator
      order, numbered 1, 2, ... from the top. */
  lemma RankFacts(t: Table)
    requires TableWf(t)
    ensures multiset(RowsOf(Rank(t))) == multiset(Column(t.ids, t.rows))
    ensures Sorting.SortedBy(RowsOf(Rank(t)), RanksBefore)
    ensures forall i :: 0 <= i < |Rank(t)| ==> Rank(t)[i].position == i + 1
  {
    RanksBeforeIsTotalPreorder();
    var sorted := Sorting.SortBy(Column(t.ids, t.rows), RanksBefore);
    assert RowsOf(Rank(t)) == sorted;
  }

  /** Each standings row is a row of the table, stored under its id. */
  lemma RankRowsFromTable(t: Table)
    requires TableWf(t)
    ensures forall i :: 0 <= i < |Rank(t)| ==> Rank(t)[i].row.id in t.rows && Rank(t)[i].row == t.rows[Rank(t)[i].row.id]
  {
    var st := Rank(t);
    var col := Column(t.ids, t.rows);
    var rs := RowsOf(st);
    RankFacts(t);
    forall i | 0 <= i < |st|
      ensures st[i].row.id in t.rows && st[i].row == t.rows[st[i].row.id]
    {
      assert rs[i] in multiset(col);
      var j :| 0 <= j < |col| && col[j] == rs[i];
    }
  }

  /** Each row of the table has a place in the standings. */
  lemma RankCoversTable(t: Table)
    requires TableWf(t)
    ensures forall k :: k in t.rows ==> exists i :: 0 <= i < |Rank(t)| && Rank(t)[i].row.id == k
  {
    var st := Rank(t);
    var col := Column(t.ids, t.rows);
    var rs := RowsOf(st);
    RankFacts(t);
    forall k | k in t.rows
      ensures exists i :: 0 <= i < |st| && st[i].row.id == k
    {
      var j :| 0 <= j < |t.ids| && t.ids[j] == k;
      assert col[j] in multiset(rs);
      var i :| 0 <= i < |rs| && rs[i] == col[j];
      assert st[i].row.id == k;
    }
  }

  /** No id takes two places in the standings. */
  lemma RankIdsDistinct(t: Table)
    requires TableWf(t)
    ensures forall i, j :: 0 <= i < j < |Rank(t)| ==> Rank(t)[i].row.id != Rank(t)[j].row.id
  {
    var st := Rank(t);
    var col := Column(t.ids, t.rows);
    var rs := RowsOf(st);
    RankFacts(t);
    RankRowsFromTable(t);
    assert forall i, j :: 0 <= i < j < |col| ==> col[i] != col[j] by {
      forall i, j | 0 <= i < j < |col|
        ensures col[i] != col[j]
      {
        assert col[i].id == t.ids[i] && col[j].id == t.ids[j];
      }
    }
    Sorting.PermutationKeepsDistinct(rs, col);
  }

  /** Every row id of a table appears in its standings, exactly once, and
      nothing else does. */
  lemma RankIds(t: Table)
    requires TableWf(t)
    ensures forall k :: k in t.rows <==> exists i :: 0 <= i < |Rank(t)| && Rank(t)[i].row.id == k
    ensures forall i, j :: 0 <= i < j < |Rank(t)| ==> Rank(t)[i].row.id != Rank(t)[j].row.id
  {
    RankRowsFromTable(t);
    RankCoversTable(t);
    RankIdsDistinct(t);
  }

  /** A group of the result: its table and its ranked standings. */
  datatype Group = Group(table: Table, standings: seq<Ranked>)

  /** `standingsData.groups` with its key order (`lastUpdated` is a clock
      reading and is not modelled). */
  datatype Standings = Standings(order: seq<string>, groups: map<string, Group>)

  ghost predicate StandingsWf(s: Standings) {
    && Distinct(s.order)
    && (forall g :: g in s.groups <==> g in s.order)
    && "" !in s.groups
  }

  /** The value `standingsData` starts with. */
  const NoStandings := Standings([], map[])

  /** The `Object.keys(groups).forEach` loop: every table is ranked. */
  function Finish(ts: Tables): (r: Standings)
    requires TablesWf(ts)
    ensures StandingsWf(r)
    ensures r.order == ts.order
    ensures forall g :: g in r.groups <==> g in ts.byGroup
    ensures forall g :: g in r.groups ==> r.groups[g].table == ts.byGroup[g] && r.groups[g].standings == Rank(ts.byGroup[g])
  {
    Standings(ts.order, map g | g in ts.byGroup :: Group(ts.byGroup[g], Rank(ts.byGroup[g])))
  }

  /** The two loops of `calculateAllStandings`: `allMatches` is the scheduled
      list followed by the completed one (a missing list is empty). */
  function Tabulate(players: seq<Player>, matches: seq<Match>, completed: seq<Match>): (r: Tables)
    ensures TablesWf(r)
  {
    ApplyAll(Seed(players), matches + completed)
  }

  function CalculateAllStandings(players: seq<Player>, matches: seq<Match>, completed: seq<Match>): (r: Standings)
    ensures StandingsWf(r)
  {
    Finish(Tabulate(players, matches, completed))
  }

  /** There is one group per group named in the roster. */
  lemma CalculateGroups(players: seq<Player>, matches: seq<Match>, completed: seq<Match>)
    ensures forall g :: g in CalculateAllStandings(players, matches, completed).groups <==> g in GroupsOf(players)
  {
    SeedGroups(players);
  }

  /** A group's table has a row for each roster entry of the group, and its
      matches are those of `matches` then `completed` whose group is this one
      and whose two player ids are set, whether or not the players belong to
      the group; a match in both lists is filed twice. */
  lemma CalculateTable(players: seq<Player>, matches: seq<Match>, completed: seq<Match>, g: string)
    requires g in GroupsOf(players)
    ensures g in CalculateAllStandings(players, matches, completed).groups
    ensures forall k :: k in CalculateAllStandings(players, matches, completed).groups[g].table.rows <==> k in Members(players, g)
    ensures CalculateAllStandings(players, matches, completed).groups[g].table.matches == FiledOf(matches + completed, g)
  {
    SeedGroups(players);
    TabulateTable(players, matches + completed, g);
    CalculateGroupTable(players, matches, completed, g);
  }

  /** The match loop leaves a seeded group with exactly its members' rows and
      the matches filed under it. */
  lemma TabulateTable(players: seq<Player>, ms: seq<Match>, g: string)
    requires g in Seed(players).byGroup
    ensures g in ApplyAll(Seed(players), ms).byGroup
    ensures forall k :: k in ApplyAll(Seed(players), ms).byGroup[g].rows <==> k in Members(players, g)
    ensures ApplyAll(Seed(players), ms).byGroup[g].matches == FiledOf(ms, g)
  {
    SeedGroups(players);
    TabulateRows(players, ms, g);
    ApplyAllFilesFromEmpty(Seed(players), ms, g);
  }

  lemma ApplyAllFilesFromEmpty(ts: Tables, ms: seq<Match>, g: string)
    requires TablesWf(ts) && g in ts.byGroup && ts.byGroup[g].matches == []
    ensures ApplyAll(ts, ms).byGroup[g].matches == FiledOf(ms, g)
  {
    ApplyAllFiles(ts, ms, g);
    assert [] + FiledOf(ms, g) == FiledOf(ms, g);
  }

  /** The table of a computed group is the tabulated one. */
  lemma CalculateGroupTable(players: seq<Player>, matches: seq<Match>, completed: seq<Match>, g: string)
    requires g in Tabulate(players, matches, completed).byGroup
    ensures g in CalculateAllStandings(players, matches, completed).groups
    ensures CalculateAllStandings(players, matches, completed).groups[g].table == Tabulate(players, matches, completed).byGroup[g]
  {
  }

  /** The match loop leaves each seeded group with exactly its members' rows. */
  lemma TabulateRows(players: seq<Player>, ms: seq<Match>, g: string)
    requires g in Seed(players).byGroup
    ensures forall k :: k in ApplyAll(Seed(players), ms).byGroup[g].rows <==> k in Members(players, g)
  {
    SeedRows(players);
    ApplyAllKeepsRows(Seed(players), ms, g);
  }

  /** The counters of every table add up: see `Balanced`. */
  lemma CalculateBalanced(players: seq<Player>, matches: seq<Match>, completed: seq<Match>)
    ensures forall g :: g in CalculateAllStandings(players, matches, completed).groups ==>
              Balanced(CalculateAllStandings(players, matches, completed).groups[g].table)
  {
    SeedBalanced(players);
    ApplyAllBalanced(Seed(players), matches + completed);
  }

  /** A group's standings: every member of the group exactly once, in
      comparator order, at positions 1, 2, ... from the top; they are the
      table's rows, reordered. */
  lemma CalculateStandings(players: seq<Player>, matches: seq<Match>, completed: seq<Match>, g: string)
    requires g in GroupsOf(players)
    ensures g in CalculateAllStandings(players, matches, completed).groups
    ensures var gr := CalculateAllStandings(players, matches, completed).groups[g];
            && multiset(RowsOf(gr.standings)) == multiset(Column(gr.table.ids, gr.table.rows))
            && Sorting.SortedBy(RowsOf(gr.standings), RanksBefore)
            && (forall i :: 0 <= i < |gr.standings| ==> gr.standings[i].position == i + 1)
            && (forall k :: k in Members(players, g) <==>
                  exists i :: 0 <= i < |gr.standings| && gr.standings[i].row.id == k)
            && (forall i, j :: 0 <= i < j < |gr.standings| ==> gr.standings[i].row.id != gr.standings[j].row.id)
  {
    CalculateTable(players, matches, completed, g);
    var t := Tabulate(players, matches, completed).byGroup[g];
    RankFacts(t);
    RankIds(t);
  }

  /** The rows of a ranked table add up to the table's totals, so the
      standings balance goals and wins against losses and carry exactly the
      points of the counted matches. */
  lemma CalculateTotals(players: seq<Player>, matches: seq<Match>, completed: seq<Match>, g: string)
    requires g in CalculateAllStandings(players, matches, completed).groups
    ensures var gr := CalculateAllStandings(players, matches, completed).groups[g];
            && Conserved(Total(RowsOf(gr.standings)))
            && Total(RowsOf(gr.standings)).points == Awarded(CountedOf(gr.table.matches, gr.table.rows.Keys))
  {
    var t := Tabulate(players, matches, completed).byGroup[g];
    CalculateBalanced(players, matches, completed);
    RankFacts(t);
    TotalOfPermutation(RowsOf(Rank(t)), Column(t.ids, t.rows));
  }

  /** Going down a table, points never increase; on equal points the goal
      difference never increases. */
  lemma StandingsDescend(st: seq<Ranked>, i: nat, j: nat)
    requires Sorting.SortedBy(RowsOf(st), RanksBefore)
    requires i < j < |st|
    ensures st[i].row.stats.points >= st[j].row.stats.points
    ensures st[i].row.stats.points == st[j].row.stats.points ==>
              GoalDifference(st[i].row.stats) >= GoalDifference(st[j].row.stats)
  {
    assert RanksBefore(RowsOf(st)[i], RowsOf(st)[j]);
  }

  /** `getGroupStandings(group)`: `groups[group]?.standings || []`. */
  function GroupStandings(s: Standings, g: string): (r: seq<Ranked>)
    ensures g !in s.groups ==> r == []
    ensures g in s.groups ==> r == s.groups[g].standings
  {
    if g in s.groups then s.groups[g].standings else []
  }

  /** On computed standings the list is empty exactly for a name that is no
      roster group: every group has at least its first member. */
  lemma GroupStandingsEmptyIff(players: seq<Player>, matches: seq<Match>, completed: seq<Match>, g: string)
    ensures GroupStandings(CalculateAllStandings(players, matches, completed), g) == [] <==> g !in GroupsOf(players)
  {
    CalculateGroups(players, matches, completed);
    if g in GroupsOf(players) {
      var p :| p in players && p.group != "" && p.group == g;
      assert p.id in Members(players, g);
      CalculateStandings(players, matches, completed, g);
    }
  }

  /** The object `getPlayerPosition` returns. */
  datatype Position = Position(group: string, position: nat, points: int)

  /** `standings.find(p => p.id === playerId)`, as an index. */
  function FindId(st: seq<Ranked>, id: string): (r: Option<nat>)
    ensures r.Some? ==> r.value < |st| && st[r.value].row.id == id
                        && forall j :: 0 <= j < r.value ==> st[j].row.id != id
    ensures r.None? <==> forall j :: 0 <= j < |st| ==> st[j].row.id != id
    decreases |st|
  {
    if |st| == 0 then None
    else if st[0].row.id == id then Some(0)
    else
      match FindId(st[1..], id)
      case None => None
      case Some(i) => Some(i + 1)
  }

  /** Group `g` has a standings entry for `id`. */
  predicate Lists(s: Standings, g: string, id: string) {
    g in s.groups && FindId(s.groups[g].standings, id).Some?
  }

  /** The `for (const group in standingsData.groups)` loop from key `keys[0]`
      on. */
  function PositionFrom(s: Standings, keys: seq<string>, id: string): (r: Option<Position>)
    requires forall i :: 0 <= i < |keys| ==> keys[i] in s.groups
    ensures r.None? <==> forall i :: 0 <= i < |keys| ==> !Lists(s, keys[i], id)
    ensures r.Some? ==> exists i :: 0 <= i < |keys| && keys[i] == r.value.group && Lists(s, keys[i], id)
                                    && forall j :: 0 <= j < i ==> !Lists(s, keys[j], id)
    decreases |keys|
  {
    if |keys| == 0 then None
    else
      var st := s.groups[keys[0]].standings;
      match FindId(st, id)
      case Some(i) => Some(Position(keys[0], st[i].position, st[i].row.stats.points))
      case None =>
        var r := PositionFrom(s, keys[1..], id);
        assert forall i :: 1 <= i < |keys| ==> keys[i] == keys[1..][i - 1];
        r
  }

  /** `getPlayerPosition(playerId)`: the group, position and points of the
      first standings entry with that id, groups taken in key order, or null
      when no group lists the id. */
  function PlayerPosition(s: Standings, id: string): (r: Option<Position>)
    requires StandingsWf(s)
    ensures r.None? <==> forall g :: g in s.groups ==> !Lists(s, g, id)
    ensures r.Some? ==>
              && Lists(s, r.value.group, id)
              && var st := s.groups[r.value.group].standings;
                 var i := FindId(st, id).value;
                 r.value.position == st[i].position && r.value.points == st[i].row.stats.points
    // the reported group is the first in key order that lists the id
    ensures r.Some? ==>
              exists i :: 0 <= i < |s.order| && s.order[i] == r.value.group
                          && forall j :: 0 <= j < i ==> !Lists(s, s.order[j], id)
  {
    assert forall g :: g in s.groups ==> exists i :: 0 <= i < |s.order| && s.order[i] == g;
    var r := PositionFrom(s, s.order, id);
    PositionFromEntry(s, s.order, id);
    r
  }

  /** The entry `PositionFrom` reports is the one `find` picks in the group
      it names. */
  lemma {:induction false} PositionFromEntry(s: Standings, keys: seq<string>, id: string)
    requires forall i :: 0 <= i < |keys| ==> keys[i] in s.groups
    ensures var r := PositionFrom(s, keys, id);
            r.Some? ==>
              && r.value.group in s.groups
              && FindId(s.groups[r.value.group].standings, id).Some?
              && var st := s.groups[r.value.group].standings;
                 var i := FindId(st, id).value;
                 r.value.position == st[i].position && r.value.points == st[i].row.stats.points
    decreases |keys|
  {
    if |keys| > 0 && FindId(s.groups[keys[0]].standings, id).None? {
      PositionFromEntry(s, keys[1..], id);
    }
  }

  /** On computed standings a group lists an id exactly when the roster has
      an entry with that id in that group. */
  lemma CalculateLists(players: seq<Player>, matches: seq<Match>, completed: seq<Match>, g: string, id: string)
    ensures Lists(CalculateAllStandings(players, matches, completed), g, id) <==>
              g in GroupsOf(players) && id in Members(players, g)
  {
    CalculateGroups(players, matches, completed);
    if g in GroupsOf(players) {
      CalculateStandings(players, matches, completed, g);
    }
  }

  /** On computed standings a player has a position exactly when some roster
      entry with that id has a group. */
  lemma PlayerPositionOfCalculate(players: seq<Player>, matches: seq<Match>, completed: seq<Match>, id: string)
    ensures PlayerPosition(CalculateAllStandings(players, matches, completed), id).Some? <==>
              exists p :: p in players && p.id == id && p.group != ""
  {
    var s := CalculateAllStandings(players, matches, completed);
    var r := PlayerPosition(s, id);
    if r.Some? {
      CalculateLists(players, matches, completed, r.value.group, id);
      var p :| p in players && p.group == r.value.group && p.id == id;
    } else {
      forall p | p in players && p.id == id && p.group != ""
        ensures false
      {
        assert id in Members(players, p.group);
        CalculateLists(players, matches, completed, p.group, id);
      }
    }
  }

  /** The position reported on computed standings is the place of that id
      in the named group's standings, and the group is one of its entries'. */
  lemma PlayerPositionPlace(players: seq<Player>, matches: seq<Match>, completed: seq<Match>, id: string)
    ensures var s := CalculateAllStandings(players, matches, completed);
            var r := PlayerPosition(s, id);
            r.Some? ==>
              && id in Members(players, r.value.group)
              && 1 <= r.value.position <= |GroupStandings(s, r.value.group)|
              && GroupStandings(s, r.value.group)[r.value.position - 1].row.id == id
  {
    var s := CalculateAllStandings(players, matches, completed);
    var r := PlayerPosition(s, id);
    if r.Some? {
      var g := r.value.group;
      CalculateLists(players, matches, completed, g, id);
      CalculateStandings(players, matches, completed, g);
      var st := s.groups[g].standings;
      var i := FindId(st, id).value;
      assert st[i].position == i + 1;
    }
  }

  /** `standingsData.groups[cm.group]?.matches.some(...)`: a match filed under
      the fetched match's group has its two player ids and its date. */
  predicate Known(s: Standings, cm: Match) {
    cm.group in s.groups && HasKey(s.groups[cm.group].table.matches, KeyOf(cm))
  }

  /** The fetched completed matches the standings do not know, in order. */
  function Unknown(s: Standings, cms: seq<Match>): (r: seq<Match>)
    ensures forall m :: m in r <==> m in cms && !Known(s, m)
    decreases |cms|
  {
    if |cms| == 0 then []
    else Unknown(s, cms[..|cms| - 1]) + if Known(s, cms[|cms| - 1]) then [] else [cms[|cms| - 1]]
  }

  /** `newCompletedCount`. */
  function NewCompletedCount(s: Standings, cms: seq<Match>): (r: nat)
    ensures r <= |cms|
    ensures r == 0 <==> forall i :: 0 <= i < |cms| ==> Known(s, cms[i])
  {
    UnknownLength(s, cms);
    var u := Unknown(s, cms);
    assert |u| > 0 ==> u[0] in u;
    assert forall i :: 0 <= i < |cms| && !Known(s, cms[i]) ==> cms[i] in u;
    |u|
  }

  lemma {:induction false} UnknownLength(s: Standings, cms: seq<Match>)
    ensures |Unknown(s, cms)| <= |cms|
    decreases |cms|
  {
    if |cms| > 0 {
      UnknownLength(s, cms[..|cms| - 1]);
    }
  }

  /** A fetched match of a group the standings do not have always counts as
      new; so does one with a missing player id when every filed match has
      both ids, as in computed standings. */
  lemma UnfileableCountsAsNew(s: Standings, cms: seq<Match>, i: nat)
    requires i < |cms|
    requires forall g, j :: g in s.groups && 0 <= j < |s.groups[g].table.matches| ==>
               Filed(s.groups[g].table.matches[j], g)
    requires cms[i].group !in s.groups || cms[i].player1Id == "" || cms[i].player2Id == ""
    ensures NewCompletedCount(s, cms) > 0
  {
    assert !Known(s, cms[i]);
  }

  /** Every match filed in computed standings passed the guard with its own
      group. */
  lemma CalculateFiledOnly(players: seq<Player>, matches: seq<Match>, completed: seq<Match>)
    ensures var s := CalculateAllStandings(players, matches, completed);
            forall g, j :: g in s.groups && 0 <= j < |s.groups[g].table.matches| ==>
              Filed(s.groups[g].table.matches[j], g)
  {
    var s := CalculateAllStandings(players, matches, completed);
    CalculateGroups(players, matches, completed);
    forall g, j | g in s.groups && 0 <= j < |s.groups[g].table.matches|
      ensures Filed(s.groups[g].table.matches[j], g)
    {
      CalculateTable(players, matches, completed, g);
      assert s.groups[g].table.matches[j] in FiledOf(matches + completed, g);
    }
  }

  /** A completed match the computation could file is known afterwards: a
      refresh that fetches only such matches, already part of the data the
      standings were computed from, finds nothing new. */
  lemma CalculateKnowsFiled(players: seq<Player>, matches: seq<Match>, completed: seq<Match>, cm: Match)
    requires cm in matches + completed
    requires cm.group in GroupsOf(players) && cm.player1Id != "" && cm.player2Id != ""
    ensures Known(CalculateAllStandings(players, matches, completed), cm)
  {
    CalculateTable(players, matches, completed, cm.group);
    var filed := CalculateAllStandings(players, matches, completed).groups[cm.group].table.matches;
    assert cm in filed;
    var j :| 0 <= j < |filed| && filed[j] == cm;
  }

  /** The data `initStandings` loads: `players.json`'s players and
      `fixtures.json`'s two match lists. */
  datatype Reload = Reload(players: seq<Player>, matches: seq<Match>, completed: seq<Match>)

  const LoadFailed := Notifications.Request("alert", "Failed to load standings data", 5000, Notifications.NoOptions)
  const Updated := Notifications.Request("info", "Standings updated", 3000, Notifications.NoOptions)

  /** What the standings page keeps between timer ticks: `standingsData` and
      the number of 15-minute refresh intervals registered. */
  datatype Page = Page(standings: Standings, intervals: nat)

  /** A page after a run of the code and the notifications it requested. */
  datatype Refreshed = Refreshed(page: Page, requests: seq<Notifications.Request>)

  /** `initStandings` as written: a successful load replaces the standings
      and calls `setupStandingsAutoRefresh`, which registers one more
      interval without clearing any; a failed load (`load` is None) keeps the
      page and raises an alert. */
  function InitStandings(p: Page, load: Option<Reload>): (r: Refreshed)
    ensures load.None? ==> r.page == p && r.requests == [LoadFailed]
    ensures load.Some? ==> r.requests == [] && r.page.intervals == p.intervals + 1
    ensures load.Some? ==>
              r.page.standings == CalculateAllStandings(load.value.players, load.value.matches, load.value.completed)
  {
    match load
    case None => Refreshed(p, [LoadFailed])
    case Some(rl) => Refreshed(Page(CalculateAllStandings(rl.players, rl.matches, rl.completed), p.intervals + 1), [])
  }

  /** One firing of a refresh interval as written. `fetched` is the
      `completedMatches` list of the fetched `fixtures.json`, None when the
      fetch or its parsing fails (the error is swallowed); `load` is what the
      nested `initStandings` loads. */
  function Tick(p: Page, fetched: Option<seq<Match>>, load: Option<Reload>): (r: Refreshed)
    // a request is made exactly when a fetched match is new, and the last
    // one is always "Standings updated", even after a failed reload
    ensures r.requests == [] <==> fetched.None? || NewCompletedCount(p.standings, fetched.value) == 0
    ensures r.requests != [] ==> r.requests[|r.requests| - 1] == Updated
    ensures r.requests == [] ==> r.page == p
    // the standings change only to a recomputation from the loaded data
    ensures r.page.standings != p.standings ==>
              load.Some? && r.page.standings == CalculateAllStandings(load.value.players, load.value.matches, load.value.completed)
    ensures r.page.intervals == p.intervals + (if r.requests != [] && load.Some? then 1 else 0)
    // a new result with a successful reload stores the recomputation and
    // announces only the update
    ensures r.requests != [] && load.Some? ==>
              r.page.standings == CalculateAllStandings(load.value.players, load.value.matches, load.value.completed)
              && r.requests == [Updated]
    // a new result with a failed reload keeps the page, alerts, and still
    // announces the update
    ensures r.requests != [] && load.None? ==> r.page == p && r.requests == [LoadFailed, Updated]
  {
    match fetched
    case None => Refreshed(p, [])
    case Some(cms) =>
      if NewCompletedCount(p.standings, cms) == 0 then Refreshed(p, [])
      else
        var i := InitStandings(p, load);
        Refreshed(i.page, i.requests + [Updated])
  }

  /** `n` firings with the same fetched and loaded data. */
  function Ticks(p: Page, n: nat, fetched: Option<seq<Match>>, load: Option<Reload>): (r: Refreshed)
    decreases n
  {
    if n == 0 then Refreshed(p, [])
    else
      var first := Tick(p, fetched, load);
      var rest := Ticks(first.page, n - 1, fetched, load);
      Refreshed(rest.page, first.requests + rest.requests)
  }

  /** One 15-minute period: every interval registered at its start fires
      once. */
  function Period(p: Page, fetched: Option<seq<Match>>, load: Option<Reload>): Refreshed {
    Ticks(p, p.intervals, fetched, load)
  }

  /** A roster, its matches, and a completed match of a group no player
      belongs to: every refresh finds it new, recomputes the same standings
      and registers one more interval. */
  ghost predicate Orphaned(players: seq<Player>, matches: seq<Match>, completed: seq<Match>) {
    exists i :: 0 <= i < |completed| && completed[i].group !in GroupsOf(players)
  }

  /** A firing that fetches a match of a group the page does not have
      reloads and registers one more interval. */
  lemma TickOnUnknownGroup(p: Page, cms: seq<Match>, i: nat, rl: Reload)
    requires i < |cms| && cms[i].group !in p.standings.groups
    ensures Tick(p, Some(cms), Some(rl)) ==
              Refreshed(Page(CalculateAllStandings(rl.players, rl.matches, rl.completed), p.intervals + 1), [Updated])
  {
    assert !Known(p.standings, cms[i]);
  }

  lemma OrphanTick(players: seq<Player>, matches: seq<Match>, completed: seq<Match>, n: nat)
    requires Orphaned(players, matches, completed)
    ensures var s := CalculateAllStandings(players, matches, completed);
            Tick(Page(s, n), Some(completed), Some(Reload(players, matches, completed)))
              == Refreshed(Page(s, n + 1), [Updated])
  {
    var i :| 0 <= i < |completed| && completed[i].group !in GroupsOf(players);
    CalculateGroups(players, matches, completed);
    TickOnUnknownGroup(Page(CalculateAllStandings(players, matches, completed), n), completed, i,
                       Reload(players, matches, completed));
  }

  /** Firings that each reload the same standings and add one interval
      add `k` intervals and `k` "Standings updated" toasts over `k` firings. */
  lemma {:induction false} RepeatedReload(s: Standings, n: nat, k: nat, fetched: Option<seq<Match>>, load: Option<Reload>)
    requires forall m: nat :: Tick(Page(s, m), fetched, load) == Refreshed(Page(s, m + 1), [Updated])
    ensures var r := Ticks(Page(s, n), k, fetched, load);
            r.page == Page(s, n + k) && |r.requests| == k && forall j :: 0 <= j < k ==> r.requests[j] == Updated
    decreases k
  {
    if k > 0 {
      RepeatedReload(s, n + 1, k - 1, fetched, load);
      assert Tick(Page(s, n), fetched, load) == Refreshed(Page(s, n + 1), [Updated]);
      TicksFirst(Page(s, n), k, fetched, load);
      UpdatedCons(Ticks(Page(s, n + 1), k - 1, fetched, load).requests);
    }
  }

  /** The first of `k` firings, then the other `k - 1`. */
  lemma TicksFirst(p: Page, k: nat, fetched: Option<seq<Match>>, load: Option<Reload>)
    requires k > 0
    ensures var first := Tick(p, fetched, load);
            var rest := Ticks(first.page, k - 1, fetched, load);
            Ticks(p, k, fetched, load) == Refreshed(rest.page, first.requests + rest.requests)
  {
  }

  lemma UpdatedCons(rs: seq<Notifications.Request>)
    requires forall j :: 0 <= j < |rs| ==> rs[j] == Updated
    ensures forall j :: 0 <= j < |rs| + 1 ==> ([Updated] + rs)[j] == Updated
  {
  }

  /** Under an orphaned match, `k` firings add `k` intervals and `k`
      "Standings updated" toasts without changing the standings. */
  lemma OrphanTicks(players: seq<Player>, matches: seq<Match>, completed: seq<Match>, n: nat, k: nat)
    requires Orphaned(players, matches, completed)
    ensures var s := CalculateAllStandings(players, matches, completed);
            var r := Ticks(Page(s, n), k, Some(completed), Some(Reload(players, matches, completed)));
            r.page == Page(s, n + k) && |r.requests| == k && forall j :: 0 <= j < k ==> r.requests[j] == Updated
  {
    var s := CalculateAllStandings(players, matches, completed);
    var rl := Reload(players, matches, completed);
    forall m: nat
      ensures Tick(Page(s, m), Some(completed), Some(rl)) == Refreshed(Page(s, m + 1), [Updated])
    {
      OrphanTick(players, matches, completed, m);
    }
    RepeatedReload(s, n, k, Some(completed), Some(rl));
  }

  /** As written, one period under an orphaned match doubles the number of
      intervals: their count grows as 2^t over t periods. */
  lemma PeriodDoublesIntervals(players: seq<Player>, matches: seq<Match>, completed: seq<Match>, n: nat)
    requires Orphaned(players, matches, completed)
    ensures var s := CalculateAllStandings(players, matches, completed);
            Period(Page(s, n), Some(completed), Some(Reload(players, matches, completed))).page == Page(s, 2 * n)
  {
    OrphanTicks(players, matches, completed, n, n);
  }

  /** `initStandings` registering its interval the way js/fixtures.js does,
      clearing the previous one first: a successful load leaves exactly one
      interval. */
  function InitStandingsOnce(p: Page, load: Option<Reload>): (r: Refreshed)
    ensures load.None? ==> r.page == p && r.requests == [LoadFailed]
    ensures load.Some? ==> r.requests == [] && r.page.intervals == 1
    ensures load.Some? ==>
              r.page.standings == CalculateAllStandings(load.value.players, load.value.matches, load.value.completed)
  {
    match load
    case None => Refreshed(p, [LoadFailed])
    case Some(rl) => Refreshed(Page(CalculateAllStandings(rl.players, rl.matches, rl.completed), 1), [])
  }

  /** A firing with the corrected `initStandings`. */
  function TickOnce(p: Page, fetched: Option<seq<Match>>, load: Option<Reload>): (r: Refreshed)
    ensures r.requests == [] <==> fetched.None? || NewCompletedCount(p.standings, fetched.value) == 0
    ensures r.page.standings == Tick(p, fetched, load).page.standings && r.requests == Tick(p, fetched, load).requests
  {
    match fetched
    case None => Refreshed(p, [])
    case Some(cms) =>
      if NewCompletedCount(p.standings, cms) == 0 then Refreshed(p, [])
      else
        var i := InitStandingsOnce(p, load);
        Refreshed(i.page, i.requests + [Updated])
  }

  function TicksOnce(p: Page, n: nat, fetched: Option<seq<Match>>, load: Option<Reload>): (r: Refreshed)
    decreases n
  {
    if n == 0 then Refreshed(p, [])
    else
      var first := TickOnce(p, fetched, load);
      var rest := TicksOnce(first.page, n - 1, fetched, load);
      Refreshed(rest.page, first.requests + rest.requests)
  }

  /** With the correction a page with one interval keeps exactly one,
      whatever each firing fetches and loads. */
  lemma {:induction false} TicksOnceKeepOneInterval(p: Page, n: nat, fetched: Option<seq<Match>>, load: Option<Reload>)
    requires p.intervals == 1
    ensures TicksOnce(p, n, fetched, load).page.intervals == 1
    decreases n
  {
    if n > 0 {
      TicksOnceKeepOneInterval(TickOnce(p, fetched, load).page, n - 1, fetched, load);
    }
  }
}
