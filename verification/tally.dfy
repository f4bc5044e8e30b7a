/** The counters of one standings row and how a single match changes them
    (the body of the `allMatches.forEach` in js/standings.js). */
module Tally {
  import opened Common
  import opened Domain
  import Notifications
  import Players
  import Sorting

  /** The counters of a standings row. */
  datatype Stats = Stats(
    played: int,
    wins: int,
    draws: int,
    losses: int,
    goalsFor: int,
    goalsAgainst: int,
    points: int)

  const Zero := Stats(0, 0, 0, 0, 0, 0, 0)

  function Plus(a: Stats, b: Stats): Stats {
    Stats(a.played + b.played, a.wins + b.wins, a.draws + b.draws, a.losses + b.losses,
          a.goalsFor + b.goalsFor, a.goalsAgainst + b.goalsAgainst, a.points + b.points)
  }

  /** Addition of counters is a commutative monoid with unit `Zero`. */
  lemma PlusLaws(a: Stats, b: Stats, c: Stats)
    ensures Plus(a, Zero) == a && Plus(Zero, a) == a
    ensures Plus(a, b) == Plus(b, a)
    ensures Plus(Plus(a, b), c) == Plus(a, Plus(b, c))
  {
    assert a == Stats(a.played, a.wins, a.draws, a.losses, a.goalsFor, a.goalsAgainst, a.points);
  }

  lemma PlusSwap(a: Stats, b: Stats, c: Stats)
    ensures Plus(a, Plus(b, c)) == Plus(b, Plus(a, c))
  {
  }

  function GoalDifference(s: Stats): int {
    s.goalsFor - s.goalsAgainst
  }

  /** The points identity of a row: three per win, one per draw. */
  predicate PointsAgree(s: Stats) {
    s.points == 3 * s.wins + s.draws
  }

  /** What a group as a whole must balance: every goal scored is conceded by
      someone, every win is someone's loss. */
  predicate Conserved(s: Stats) {
    s.goalsFor == s.goalsAgainst && s.wins == s.losses
  }

  /** A standings row before it is numbered. */
  datatype Row = Row(id: string, name: string, stats: Stats)

  function FreshRow(p: Player): Row {
    Row(p.id, p.name, Zero)
  }

  /** `match.status === 'completed' && match.score`: the match has a result. */
  predicate HasResult(m: Match) {
    m.status == "completed" && m.score.Some?
  }

  /** One `+=` / `++` applied by the code: a row id and what it adds. */
  datatype Update = Update(id: string, delta: Stats)

  /** The counters one event adds: taking part in a match, a win, a draw,
      a loss. The proofs about how updates add up hold for any such scheme;
      the code's own scheme is `Scoring`. */
  datatype Scheme = Scheme(played: Stats, win: Stats, draw: Stats, loss: Stats)

  /** `played++`; `wins++, points += 3`; `draws++, points += 1`; `losses++`. */
  const Scoring := Scheme(
    //     pl  w  d  l  gf ga pts
    Stats(1, 0, 0, 0, 0, 0, 0),
    Stats(0, 1, 0, 0, 0, 0, 3),
    Stats(0, 0, 1, 0, 0, 0, 1),
    Stats(0, 0, 0, 1, 0, 0, 0))

  /** `goalsFor += scored; goalsAgainst += conceded`. */
  function Goals(scored: nat, conceded: nat): Stats {
    Stats(0, 0, 0, 0, scored, conceded, 0)
  }

  /** The updates js/standings.js makes for an accepted match, in program
      order: both players have played (even for a scheduled match), then,
      for a match with a result, the goals and the result. */
  function Updates(sc: Scheme, m: Match): seq<Update> {
    PlayedUpdates(sc, m) + if HasResult(m) then GoalUpdates(m) + ResultUpdates(sc, m) else []
  }

  function PlayedUpdates(sc: Scheme, m: Match): seq<Update> {
    [Update(m.player1Id, sc.played), Update(m.player2Id, sc.played)]
  }

  function GoalUpdates(m: Match): seq<Update>
    requires HasResult(m)
  {
    var g1 := m.score.value.first;
    var g2 := m.score.value.second;
    [Update(m.player1Id, Goals(g1, g2)), Update(m.player2Id, Goals(g2, g1))]
  }

  /** A draw credits both players; any winner other than player 1, even one
      who is neither player, credits player 2. */
  function ResultUpdates(sc: Scheme, m: Match): seq<Update> {
    if m.winnerId == "draw" then [Update(m.player1Id, sc.draw), Update(m.player2Id, sc.draw)]
    else if m.winnerId == m.player1Id then [Update(m.player1Id, sc.win), Update(m.player2Id, sc.loss)]
    else [Update(m.player2Id, sc.win), Update(m.player1Id, sc.loss)]
  }

  /** The goals side `s` scored. */
  function GoalsOf(score: Score, s: Notifications.Side): nat {
    if s.First? then score.first else score.second
  }

  /** The result of a match for side `s`: a draw, or a win for the side the
      winner id names (player 2 unless it is player 1), else a loss. */
  function Outcome(sc: Scheme, m: Match, s: Notifications.Side): Stats {
    if m.winnerId == "draw" then sc.draw
    else if Notifications.WinnerSide(m) == s then sc.win
    else sc.loss
  }

  /** What a match is worth to one side, stated from that side's point of
      view: one game played and, once there is a result, its own goals
      scored and conceded and its own outcome. */
  function Sheet(sc: Scheme, m: Match, s: Notifications.Side): Stats {
    if !HasResult(m) then sc.played
    else
      var score := m.score.value;
      Plus(sc.played, Plus(Goals(GoalsOf(score, s), GoalsOf(score, s.Other())), Outcome(sc, m, s)))
  }

  /** Everything a match adds to its group. */
  function MatchTotal(sc: Scheme, m: Match): Stats {
    Plus(Sheet(sc, m, Notifications.First), Sheet(sc, m, Notifications.Second))
  }

  /** Under the code's scoring a match is worth 2 points when drawn, 3 when
      decided, none before it has a result; each side's sheet keeps the
      points identity, and the match balances goals and wins against
      losses. */
  lemma MatchAwards(m: Match)
    ensures MatchTotal(Scoring, m).played == 2
    ensures Conserved(MatchTotal(Scoring, m))
    ensures HasResult(m) && m.winnerId == "draw" ==> MatchTotal(Scoring, m).points == 2
    ensures HasResult(m) && m.winnerId != "draw" ==> MatchTotal(Scoring, m).points == 3
    ensures !HasResult(m) ==> MatchTotal(Scoring, m).points == 0 && MatchTotal(Scoring, m).goalsFor == 0
    ensures PointsAgree(Sheet(Scoring, m, Notifications.First))
    ensures PointsAgree(Sheet(Scoring, m, Notifications.Second))
  {
  }

  /** Each side's sheet counts the match once as played. */
  lemma SheetPlayed(m: Match, s: Notifications.Side)
    ensures Sheet(Scoring, m, s).played == 1
  {
  }

  /** The sum of all deltas of `us`. */
  function SumAll(us: seq<Update>): Stats
    decreases |us|
  {
    if |us| == 0 then Zero else Plus(us[0].delta, SumAll(us[1..]))
  }

  /** What update `u` adds to row `id`. */
  function Share(u: Update, id: string): Stats {
    if u.id == id then u.delta else Zero
  }

  /** The sum of the deltas `us` adds to row `id`. */
  function SumFor(us: seq<Update>, id: string): Stats
    decreases |us|
  {
    if |us| == 0 then Zero
    else Plus(Share(us[0], id), SumFor(us[1..], id))
  }

  lemma {:induction false} SumAllAppend(a: seq<Update>, b: seq<Update>)
    ensures SumAll(a + b) == Plus(SumAll(a), SumAll(b))
    decreases |a|
  {
    if |a| == 0 {
      assert a + b == b;
      PlusLaws(SumAll(b), Zero, Zero);
    } else {
      assert (a + b)[1..] == a[1..] + b;
      SumAllAppend(a[1..], b);
      PlusLaws(a[0].delta, SumAll(a[1..]), SumAll(b));
    }
  }

  lemma {:induction false} SumForAppend(a: seq<Update>, b: seq<Update>, id: string)
    ensures SumFor(a + b, id) == Plus(SumFor(a, id), SumFor(b, id))
    decreases |a|
  {
    if |a| == 0 {
      assert a + b == b;
      PlusLaws(SumFor(b, id), Zero, Zero);
    } else {
      assert (a + b)[1..] == a[1..] + b;
      SumForAppend(a[1..], b, id);
      PlusLaws(Share(a[0], id), SumFor(a[1..], id), SumFor(b, id));
    }
  }

  lemma SumAllOfPair(u: Update, v: Update)
    ensures SumAll([u, v]) == Plus(u.delta, v.delta)
  {
    assert [u, v][1..] == [v];
    assert [v][1..] == [];
    assert SumAll([v]) == Plus(v.delta, Zero);
    PlusLaws(v.delta, Zero, Zero);
  }

  lemma SumForOfPair(u: Update, v: Update, id: string)
    ensures SumFor([u, v], id) == Plus(Share(u, id), Share(v, id))
  {
    assert [u, v][1..] == [v];
    assert [v][1..] == [];
    var x := Share(v, id);
    assert SumFor([v], id) == Plus(x, Zero);
    PlusLaws(x, Zero, Zero);
  }

  /** Regrouping the sum of both players' updates into one sheet per side. */
  lemma Regroup(p: Stats, g1: Stats, g2: Stats, o1: Stats, o2: Stats)
    ensures Plus(Plus(p, p), Plus(Plus(g1, g2), Plus(o1, o2)))
            == Plus(Plus(p, Plus(g1, o1)), Plus(p, Plus(g2, o2)))
  {
  }

  /** The result updates credit each side its own outcome. */
  lemma ResultPair(sc: Scheme, m: Match)
    ensures var r := ResultUpdates(sc, m);
            Plus(r[0].delta, r[1].delta)
            == Plus(Outcome(sc, m, Notifications.First), Outcome(sc, m, Notifications.Second))
  {
    if m.winnerId != "draw" && m.winnerId != m.player1Id {
      PlusLaws(sc.win, sc.loss, Zero);
    }
  }

  /** All the code's updates for a match add up to the match total. */
  lemma UpdatesTotal(sc: Scheme, m: Match)
    ensures SumAll(Updates(sc, m)) == MatchTotal(sc, m)
  {
    var played := PlayedUpdates(sc, m);
    SumAllOfPair(played[0], played[1]);
    if HasResult(m) {
      var goals := GoalUpdates(m);
      var result := ResultUpdates(sc, m);
      SumAllOfPair(goals[0], goals[1]);
      SumAllOfPair(result[0], result[1]);
      SumAllAppend(goals, result);
      SumAllAppend(played, goals + result);
      ResultPair(sc, m);
      Regroup(sc.played, goals[0].delta, goals[1].delta,
              Outcome(sc, m, Notifications.First), Outcome(sc, m, Notifications.Second));
    } else {
      assert Updates(sc, m) == played;
    }
  }

  /** Every update goes to `id`: its share is everything. */
  lemma {:induction false} SumForAllMine(us: seq<Update>, id: string)
    requires forall i :: 0 <= i < |us| ==> us[i].id == id
    ensures SumFor(us, id) == SumAll(us)
    decreases |us|
  {
    if |us| > 0 {
      SumForAllMine(us[1..], id);
    }
  }

  /** No update goes to `id`: its share is nothing. */
  lemma {:induction false} SumForNoneMine(us: seq<Update>, id: string)
    requires forall i :: 0 <= i < |us| ==> us[i].id != id
    ensures SumFor(us, id) == Zero
    decreases |us|
  {
    if |us| > 0 {
      SumForNoneMine(us[1..], id);
      assert Share(us[0], id) == Zero;
      PlusLaws(Zero, Zero, Zero);
    }
  }

  /** One side's shares of a pair of updates of which exactly one is its own. */
  lemma OneOfPair(u: Update, v: Update, id: string, d: Stats)
    requires (u.id == id && u.delta == d && v.id != id) || (v.id == id && v.delta == d && u.id != id)
    ensures Plus(Share(u, id), Share(v, id)) == d
  {
    PlusLaws(d, Zero, Zero);
  }

  /** A player meeting someone else collects exactly their own sheet. */
  lemma OwnShares(sc: Scheme, m: Match, id: string, mine: Notifications.Side)
    requires m.player1Id != m.player2Id
    requires mine == (if id == m.player1Id then Notifications.First else Notifications.Second)
    requires id == m.player1Id || id == m.player2Id
    ensures SumFor(Updates(sc, m), id) == Sheet(sc, m, mine)
  {
    var us := Updates(sc, m);
    var played := PlayedUpdates(sc, m);
    SumForOfPair(played[0], played[1], id);
    OneOfPair(played[0], played[1], id, sc.played);
    if HasResult(m) {
      var goals := GoalUpdates(m);
      var result := ResultUpdates(sc, m);
      var score := m.score.value;
      SumForOfPair(goals[0], goals[1], id);
      OneOfPair(goals[0], goals[1], id, Goals(GoalsOf(score, mine), GoalsOf(score, mine.Other())));
      SumForOfPair(result[0], result[1], id);
      OneOfPair(result[0], result[1], id, Outcome(sc, m, mine));
      SumForAppend(goals, result, id);
      SumForAppend(played, goals + result, id);
    } else {
      assert us == played;
    }
  }

  /** The player a win notification names as winner, and links to from its
      button, is the player the standings credit with the win and three
      points; the player it names as beaten is credited with the loss. */
  lemma NotifiedWinnerIsCredited(d: Players.Directory, m: Match)
    requires Players.KeyedById(d) && Notifications.BothKnown(d, m)
    requires HasResult(m) && m.winnerId != "draw" && m.player1Id != m.player2Id
    ensures var w := Notifications.SidePlayer(d, m, Notifications.WinnerSide(m));
            var l := Notifications.SidePlayer(d, m, Notifications.WinnerSide(m).Other());
            && Notifications.MatchRequest(d, m).Some?
            && Notifications.MatchRequest(d, m).value.options.action == Notifications.ViewWinnerAction(w.id)
            && SumFor(Updates(Scoring, m), w.id).wins == 1
            && SumFor(Updates(Scoring, m), w.id).points == 3
            && SumFor(Updates(Scoring, m), l.id).losses == 1
            && SumFor(Updates(Scoring, m), l.id).wins == 0
  {
    var ws := Notifications.WinnerSide(m);
    var w := Notifications.SidePlayer(d, m, ws);
    var l := Notifications.SidePlayer(d, m, ws.Other());
    assert w.id == (if ws.First? then m.player1Id else m.player2Id);
    assert l.id == (if ws.First? then m.player2Id else m.player1Id);
    OwnShares(Scoring, m, w.id, ws);
    OwnShares(Scoring, m, l.id, ws.Other());
  }

  /** The code's updates add up, per side, to that side's sheet; a player
      meeting themself gets both sheets; nobody else gets anything. */
  lemma UpdatesShares(sc: Scheme, m: Match, id: string)
    ensures m.player1Id != m.player2Id && id == m.player1Id ==>
              SumFor(Updates(sc, m), id) == Sheet(sc, m, Notifications.First)
    ensures m.player1Id != m.player2Id && id == m.player2Id ==>
              SumFor(Updates(sc, m), id) == Sheet(sc, m, Notifications.Second)
    ensures m.player1Id == m.player2Id && id == m.player1Id ==>
              SumFor(Updates(sc, m), id) == MatchTotal(sc, m)
    ensures id != m.player1Id && id != m.player2Id ==> SumFor(Updates(sc, m), id) == Zero
  {
    var us := Updates(sc, m);
    if m.player1Id == m.player2Id && id == m.player1Id {
      SumForAllMine(us, id);
      UpdatesTotal(sc, m);
    } else if id != m.player1Id && id != m.player2Id {
      SumForNoneMine(us, id);
    } else {
      OwnShares(sc, m, id, if id == m.player1Id then Notifications.First else Notifications.Second);
    }
  }

  /** Adds `d` to the counters of row `id`. */
  function Bump(rows: map<string, Row>, id: string, d: Stats): (r: map<string, Row>)
    requires id in rows
    ensures r.Keys == rows.Keys
  {
    rows[id := rows[id].(stats := Plus(rows[id].stats, d))]
  }

  /** Applies the updates in order. */
  function BumpAll(rows: map<string, Row>, us: seq<Update>): (r: map<string, Row>)
    requires forall i :: 0 <= i < |us| ==> us[i].id in rows
    ensures r.Keys == rows.Keys
    decreases |us|
  {
    if |us| == 0 then rows else BumpAll(Bump(rows, us[0].id, us[0].delta), us[1..])
  }

  /** Each row ends up with its old counters plus what the updates add to it;
      its id and name do not change. */
  lemma {:induction false} BumpAllAt(rows: map<string, Row>, us: seq<Update>, id: string)
    requires forall i :: 0 <= i < |us| ==> us[i].id in rows
    requires id in rows
    ensures BumpAll(rows, us)[id] == rows[id].(stats := Plus(rows[id].stats, SumFor(us, id)))
    decreases |us|
  {
    if |us| == 0 {
      PlusLaws(rows[id].stats, Zero, Zero);
    } else {
      var d := Share(us[0], id);
      BumpAllAt(Bump(rows, us[0].id, us[0].delta), us[1..], id);
      PlusLaws(rows[id].stats, Zero, Zero);
      PlusLaws(rows[id].stats, d, SumFor(us[1..], id));
    }
  }

  /** The loop body of js/standings.js for a match whose players are both
      in the group: the rows of the two players change, by exactly their
      sheets, and no other row changes. */
  function Record(sc: Scheme, rows: map<string, Row>, m: Match): (r: map<string, Row>)
    requires m.player1Id in rows && m.player2Id in rows
    ensures r.Keys == rows.Keys
    ensures forall id :: id in rows ==> r[id].id == rows[id].id && r[id].name == rows[id].name
    ensures forall id :: id in rows && id != m.player1Id && id != m.player2Id ==> r[id] == rows[id]
    ensures m.player1Id != m.player2Id ==>
              && r[m.player1Id].stats == Plus(rows[m.player1Id].stats, Sheet(sc, m, Notifications.First))
              && r[m.player2Id].stats == Plus(rows[m.player2Id].stats, Sheet(sc, m, Notifications.Second))
    ensures m.player1Id == m.player2Id ==>
              r[m.player1Id].stats == Plus(rows[m.player1Id].stats, MatchTotal(sc, m))
  {
    var us := Updates(sc, m);
    assert forall i :: 0 <= i < |us| ==> us[i].id == m.player1Id || us[i].id == m.player2Id;
    var r := BumpAll(rows, us);
    forall id | id in rows
      ensures r[id].id == rows[id].id && r[id].name == rows[id].name
      ensures id != m.player1Id && id != m.player2Id ==> r[id] == rows[id]
      ensures m.player1Id != m.player2Id && id == m.player1Id ==>
                r[id].stats == Plus(rows[id].stats, Sheet(sc, m, Notifications.First))
      ensures m.player1Id != m.player2Id && id == m.player2Id ==>
                r[id].stats == Plus(rows[id].stats, Sheet(sc, m, Notifications.Second))
      ensures m.player1Id == m.player2Id && id == m.player1Id ==>
                r[id].stats == Plus(rows[id].stats, MatchTotal(sc, m))
    {
      BumpAllAt(rows, us, id);
      UpdatesShares(sc, m, id);
      PlusLaws(rows[id].stats, Zero, Zero);
    }
    r
  }

  /** The rows of `ids`, in order (`Object.values` of a group's players). */
  function Column(ids: seq<string>, rows: map<string, Row>): (r: seq<Row>)
    requires forall i :: 0 <= i < |ids| ==> ids[i] in rows
    ensures |r| == |ids|
    ensures forall i :: 0 <= i < |ids| ==> r[i] == rows[ids[i]]
    decreases |ids|
  {
    if |ids| == 0 then [] else [rows[ids[0]]] + Column(ids[1..], rows)
  }

  /** Column sums of a table. */
  function Total(rs: seq<Row>): Stats
    decreases |rs|
  {
    if |rs| == 0 then Zero else Plus(rs[0].stats, Total(rs[1..]))
  }

  lemma {:induction false} TotalAppend(a: seq<Row>, b: seq<Row>)
    ensures Total(a + b) == Plus(Total(a), Total(b))
    decreases |a|
  {
    if |a| == 0 {
      assert a + b == b;
      PlusLaws(Total(b), Zero, Zero);
    } else {
      assert (a + b)[1..] == a[1..] + b;
      TotalAppend(a[1..], b);
      PlusLaws(a[0].stats, Total(a[1..]), Total(b));
    }
  }

  /** Taking row `i` out of a table takes its counters out of the sums. */
  lemma TotalWithout(b: seq<Row>, i: nat)
    requires i < |b|
    ensures Total(b) == Plus(b[i].stats, Total(b[..i] + b[i + 1..]))
  {
    var x := b[i];
    var front := Total(b[..i]);
    var back := Total(b[i + 1..]);
    assert b == b[..i] + ([x] + b[i + 1..]);
    TotalAppend(b[..i], [x] + b[i + 1..]);
    TotalAppend(b[..i], b[i + 1..]);
    assert ([x] + b[i + 1..])[1..] == b[i + 1..];
    PlusSwap(x.stats, front, back);
  }

  /** Reordering the rows does not change the column sums. */
  lemma {:induction false} TotalOfPermutation(a: seq<Row>, b: seq<Row>)
    requires multiset(a) == multiset(b)
    ensures Total(a) == Total(b)
    decreases |a|
  {
    if |a| == 0 {
      assert |b| == |multiset(b)| == 0;
    } else {
      var x := a[0];
      assert x in multiset(b);
      var i :| 0 <= i < |b| && b[i] == x;
      var rest := b[..i] + b[i + 1..];
      Sorting.MultisetWithout(b, i);
      assert a == [x] + a[1..];
      TotalOfPermutation(a[1..], rest);
      TotalWithout(b, i);
    }
  }

  /** Bumping one listed row changes the column sums by exactly the bump;
      bumping an unlisted row changes nothing in the column. */
  lemma {:induction false} ColumnBump(ids: seq<string>, rows: map<string, Row>, id: string, d: Stats)
    requires Distinct(ids)
    requires forall i :: 0 <= i < |ids| ==> ids[i] in rows
    requires id in rows
    ensures id in ids ==> Total(Column(ids, Bump(rows, id, d))) == Plus(Total(Column(ids, rows)), d)
    ensures id !in ids ==> Column(ids, Bump(rows, id, d)) == Column(ids, rows)
    decreases |ids|
  {
    if |ids| > 0 {
      ColumnBump(ids[1..], rows, id, d);
      if ids[0] == id {
        assert id !in ids[1..];
      }
    }
  }

  /** Applying updates to listed rows adds their sum to the column sums. */
  lemma {:induction false} ColumnBumpAll(ids: seq<string>, rows: map<string, Row>, us: seq<Update>)
    requires Distinct(ids)
    requires forall i :: 0 <= i < |ids| ==> ids[i] in rows
    requires forall i :: 0 <= i < |us| ==> us[i].id in ids && us[i].id in rows
    ensures Total(Column(ids, BumpAll(rows, us))) == Plus(Total(Column(ids, rows)), SumAll(us))
    decreases |us|
  {
    var before := Total(Column(ids, rows));
    if |us| == 0 {
      PlusLaws(before, Zero, Zero);
    } else {
      var d := us[0].delta;
      var next := Bump(rows, us[0].id, d);
      ColumnBump(ids, rows, us[0].id, d);
      ColumnBumpAll(ids, next, us[1..]);
      assert BumpAll(rows, us) == BumpAll(next, us[1..]);
      PlusLaws(before, d, SumAll(us[1..]));
    }
  }

  /** A match recorded between two players of a group adds exactly its match
      total to the group's column sums. */
  lemma RecordTotal(sc: Scheme, ids: seq<string>, rows: map<string, Row>, m: Match)
    requires Distinct(ids)
    requires forall i :: 0 <= i < |ids| ==> ids[i] in rows
    requires m.player1Id in ids && m.player2Id in ids
    requires m.player1Id in rows && m.player2Id in rows
    ensures Total(Column(ids, Record(sc, rows, m))) == Plus(Total(Column(ids, rows)), MatchTotal(sc, m))
  {
    var us := Updates(sc, m);
    assert forall i :: 0 <= i < |us| ==> us[i].id == m.player1Id || us[i].id == m.player2Id;
    ColumnBumpAll(ids, rows, us);
    UpdatesTotal(sc, m);
    assert Record(sc, rows, m) == BumpAll(rows, us);
  }
}
