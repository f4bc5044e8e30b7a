/** The records the dashboard reads from its JSON documents.

    JavaScript treats a missing field, `undefined`, `null` and the empty string
    alike wherever the code tests a field for truth; the model writes all of
    them as the empty string. */
module Domain {
  import opened Common

  /** A roster entry of `players.json`. `group` is `tournamentStats.group`
      ("" when the player has no tournament group); `position` is the
      roster's own overall position, used by the top-players grid. */
  datatype Player = Player(id: string, name: string, group: string, position: int)

  /** A pre-parsed score "first-second": goals of player 1, then player 2. */
  datatype Score = Score(first: nat, second: nat)

  /** A fixture of `fixtures.json`, scheduled or completed. `round` is None
      when the field is missing (it then reads as NaN, not as a number). */
  datatype Match = Match(
    player1Id: string,
    player2Id: string,
    group: string,
    round: Option<int>,
    status: string,
    score: Option<Score>,
    winnerId: string,
    date: string)

  /** The identity both refresh loops use to decide whether a match is known:
      the two player ids and the date. Score, winner, group and round are not
      part of it. */
  datatype MatchKey = MatchKey(player1Id: string, player2Id: string, date: string)

  function KeyOf(m: Match): MatchKey {
    MatchKey(m.player1Id, m.player2Id, m.date)
  }

  /** Does any match of `ms` have the key `k`? (`Array.prototype.some`) */
  predicate HasKey(ms: seq<Match>, k: MatchKey) {
    exists i :: 0 <= i < |ms| && KeyOf(ms[i]) == k
  }

  /** The text of a score as the data file stores it. */
  function ScoreText(s: Score): string {
    NatToString(s.first) + "-" + NatToString(s.second)
  }

  /** `${match.score}` in a template: a missing score prints "undefined". */
  function ScoreField(o: Option<Score>): string {
    match o
    case Some(s) => ScoreText(s)
    case None => "undefined"
  }

  predicate AllDigits(t: string) {
    forall i :: 0 <= i < |t| ==> IsDigit(t[i])
  }

  /** Index of the first '-' in `t`, if any. */
  function DashIndex(t: string): (r: Option<nat>)
    ensures r.Some? ==> r.value < |t| && t[r.value] == '-' && '-' !in t[..r.value]
    ensures r.None? ==> '-' !in t
    decreases |t|
  {
    if |t| == 0 then None
    else if t[0] == '-' then Some(0)
    else
      match DashIndex(t[1..])
      case None => None
      case Some(i) =>
        assert t[..i + 1] == [t[0]] + t[1..][..i];
        Some(i + 1)
  }

  /** `score.split('-').map(Number)` on well-formed text: two non-empty
      digit strings around a single dash. Anything else is malformed (None). */
  function ParseScore(t: string): (r: Option<Score>)
    ensures r.Some? ==> exists i :: 0 < i < |t| - 1 && t[i] == '-'
  {
    match DashIndex(t)
    case None => None
    case Some(i) =>
      var left := t[..i];
      var right := t[i + 1..];
      if 0 < |left| && 0 < |right| && AllDigits(left) && AllDigits(right)
      then Some(Score(DigitsValue(left), DigitsValue(right)))
      else None
  }

  /** Reading a stored score back yields the same two goal counts. */
  lemma ScoreTextRoundTrip(s: Score)
    ensures ParseScore(ScoreText(s)) == Some(s)
  {
    var a := NatToString(s.first);
    var b := NatToString(s.second);
    var t := ScoreText(s);
    assert '-' !in a by {
      assert forall i :: 0 <= i < |a| ==> IsDigit(a[i]);
    }
    assert t[..|a|] == a;
    assert t[|a|] == '-';
    var d := DashIndex(t);
    assert d == Some(|a|);
    assert t[|a| + 1..] == b;
    NatToStringRoundTrip(s.first);
    NatToStringRoundTrip(s.second);
  }
}
