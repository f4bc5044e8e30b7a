/** The notification toasts of js/notifications.js and the match-result
    events that js/notifications.js and js/fixtures.js derive from completed
    matches. A call of `showNotification` is a `Request`; what it puts on
    screen is a `Toast`. */
module Notifications {
  import opened Common
  import opened Domain
  import Players

  /** One entry of the `notificationTypes` table. */
  datatype Config = Config(icon: string, color: string, title: string)

  const InfoConfig := Config("fas fa-info-circle", "var(--highlight)", "Information")

  /** The `notificationTypes` table itself. */
  function KnownConfig(kind: string): Option<Config> {
    match kind
    case "win" => Some(Config("fas fa-trophy", "var(--win-color)", "Match Won"))
    case "loss" => Some(Config("fas fa-times-circle", "var(--loss-color)", "Match Lost"))
    case "draw" => Some(Config("fas fa-equals", "var(--draw-color)", "Match Drawn"))
    case "info" => Some(InfoConfig)
    case "update" => Some(Config("fas fa-sync-alt", "var(--highlight)", "Update"))
    case "alert" => Some(Config("fas fa-exclamation-triangle", "#ffcc00", "Alert"))
    case _ => None
  }

  /** `notificationTypes[type] || notificationTypes.info`. */
  function ConfigOf(kind: string): Config {
    match KnownConfig(kind)
    case Some(c) => c
    case None => InfoConfig
  }

  /** The `options` argument; "" stands for an absent (or empty) field. */
  datatype Options = Options(title: string, action: string)

  const NoOptions := Options("", "")

  /** A call `showNotification(type, message, duration, options)`. */
  datatype Request = Request(kind: string, message: string, duration: int, options: Options)

  /** What a call adds to the notification container. */
  datatype Toast = Toast(
    className: string,
    icon: string,
    color: string,
    title: string,
    message: string,
    action: Option<string>,
    autoRemove: bool)

  /** `showNotification`; `hasContainer` says whether the page has a
      `#notificationContainer` element. */
  function Show(hasContainer: bool, req: Request): (r: Option<Toast>)
    ensures r.Some? <==> hasContainer
    // the type's icon and colour, those of 'info' for an unknown type
    ensures r.Some? && KnownConfig(req.kind).Some? ==>
              r.value.icon == KnownConfig(req.kind).value.icon && r.value.color == KnownConfig(req.kind).value.color
    ensures r.Some? && KnownConfig(req.kind).None? ==>
              r.value.icon == InfoConfig.icon && r.value.color == InfoConfig.color
    // an explicit title wins, otherwise the type's default title
    ensures r.Some? && req.options.title != "" ==> r.value.title == req.options.title
    ensures r.Some? && req.options.title == "" ==> r.value.title == ConfigOf(req.kind).title
    // the class names the requested type, even an unknown one
    ensures r.Some? ==> r.value.className == "notification " + req.kind
    ensures r.Some? ==> r.value.message == req.message
    ensures r.Some? ==> (r.value.action.Some? <==> req.options.action != "")
    // auto-removal is scheduled exactly for a positive duration
    ensures r.Some? ==> (r.value.autoRemove <==> req.duration > 0)
  {
    if !hasContainer then None
    else
      var config := ConfigOf(req.kind);
      var title := if req.options.title != "" then req.options.title else config.title;
      Some(Toast(
        "notification " + req.kind,
        config.icon,
        config.color,
        title,
        req.message,
        if req.options.action != "" then Some(req.options.action) else None,
        req.duration > 0))
  }

  /** A request of an unknown type looks exactly like the same request of
      type 'info', except for its class name. */
  lemma UnknownKindShowsAsInfo(hasContainer: bool, req: Request)
    requires KnownConfig(req.kind).None?
    ensures Show(hasContainer, req).None? <==> Show(hasContainer, req.(kind := "info")).None?
    ensures hasContainer ==>
              Show(hasContainer, req).value == Show(hasContainer, req.(kind := "info")).value.(className := "notification " + req.kind)
  {
  }

  const ResultDuration := 6000
  const DrawTitle := "Match Ended in Draw"
  const ResultTitle := "Match Result"

  /** The action button of a result notification. */
  function ViewWinnerAction(winnerId: string): string {
    "<button onclick=\"showPlayerDetails('" + winnerId + "')\">View Winner</button>"
  }

  /** Which of the two players of a match. */
  datatype Side = First | Second {
    function Other(): Side {
      if First? then Second else First
    }
  }

  /** The side a decided match credits: player 1 exactly when `winnerId` is
      `player1Id`; any other non-draw value credits player 2. */
  function WinnerSide(m: Match): Side {
    if m.winnerId == m.player1Id then First else Second
  }

  predicate BothKnown(d: Players.Directory, m: Match) {
    m.player1Id in d.entries && m.player2Id in d.entries
  }

  function SidePlayer(d: Players.Directory, m: Match, s: Side): Player
    requires BothKnown(d, m)
  {
    if s.First? then d.entries[m.player1Id] else d.entries[m.player2Id]
  }

  /** The notification js/notifications.js shows for one completed match. */
  function MatchRequest(d: Players.Directory, m: Match): (r: Option<Request>)
    // a match with an unknown player yields nothing
    ensures r.None? <==> !BothKnown(d, m)
    ensures r.Some? ==> r.value.duration == ResultDuration
    // a draw event exactly for winnerId 'draw', a win event otherwise
    ensures r.Some? ==> (r.value.kind == "draw" <==> m.winnerId == "draw")
    ensures r.Some? ==> (r.value.kind == "win" <==> m.winnerId != "draw")
    ensures r.Some? && m.winnerId == "draw" ==>
              && r.value.message == SidePlayer(d, m, First).name + " " + ScoreField(m.score) + " " + SidePlayer(d, m, Second).name
              && r.value.options == Options(DrawTitle, "")
    // the winner is the credited side, the loser the other side
    ensures r.Some? && m.winnerId != "draw" ==>
              var w := SidePlayer(d, m, WinnerSide(m));
              var l := SidePlayer(d, m, WinnerSide(m).Other());
              && r.value.message == w.name + " defeated " + l.name + " " + ScoreField(m.score)
              && r.value.options == Options(ResultTitle, ViewWinnerAction(w.id))
  {
    if m.player1Id !in d.entries || m.player2Id !in d.entries then None
    else
      var player1 := d.entries[m.player1Id];
      var player2 := d.entries[m.player2Id];
      if m.winnerId == "draw" then
        Some(Request("draw", player1.name + " " + ScoreField(m.score) + " " + player2.name,
                     ResultDuration, Options(DrawTitle, "")))
      else
        var winner := if m.winnerId == m.player1Id then player1 else player2;
        var loser := if m.winnerId == m.player1Id then player2 else player1;
        Some(Request("win", winner.name + " defeated " + loser.name + " " + ScoreField(m.score),
                     ResultDuration, Options(ResultTitle, ViewWinnerAction(winner.id))))
  }

  /** The known-player matches, in order. */
  function KnownMatches(d: Players.Directory, ms: seq<Match>): seq<Match> {
    Filter(ms, m => BothKnown(d, m))
  }

  /** The `forEach` of `showMatchNotifications`: one request per match whose
      two players are known, in array order. */
  function MatchRequests(d: Players.Directory, ms: seq<Match>): (r: seq<Request>)
    ensures |r| == |KnownMatches(d, ms)| <= |ms|
    ensures forall i :: 0 <= i < |r| ==> MatchRequest(d, KnownMatches(d, ms)[i]) == Some(r[i])
    decreases |ms|
  {
    if |ms| == 0 then []
    else
      var rest := MatchRequests(d, ms[1..]);
      var tail := KnownMatches(d, ms[1..]);
      match MatchRequest(d, ms[0])
      case None =>
        assert KnownMatches(d, ms) == tail;
        rest
      case Some(q) =>
        var known := KnownMatches(d, ms);
        assert known == [ms[0]] + tail;
        var r := [q] + rest;
        RequestsLineUp(d, known, ms[0], tail, q, rest);
        r
  }

  /** Prepending a known match and its request keeps the two lists aligned. */
  lemma RequestsLineUp(d: Players.Directory, known: seq<Match>, m: Match, tail: seq<Match>,
                       q: Request, rest: seq<Request>)
    requires known == [m] + tail && MatchRequest(d, m) == Some(q)
    requires |rest| == |tail|
    requires forall i :: 0 <= i < |rest| ==> MatchRequest(d, tail[i]) == Some(rest[i])
    ensures forall i :: 0 <= i < |rest| + 1 ==> MatchRequest(d, known[i]) == Some(([q] + rest)[i])
  {
    forall i | 0 <= i < |rest| + 1
      ensures MatchRequest(d, known[i]) == Some(([q] + rest)[i])
    {
      if i > 0 {
        assert known[i] == tail[i - 1];
        assert ([q] + rest)[i] == rest[i - 1];
      }
    }
  }

  /** Requests for two batches are the requests of each, in order. */
  lemma {:induction false} MatchRequestsAppend(d: Players.Directory, a: seq<Match>, b: seq<Match>)
    ensures MatchRequests(d, a + b) == MatchRequests(d, a) + MatchRequests(d, b)
    decreases |a|
  {
    if |a| == 0 {
      assert a + b == b;
    } else {
      assert (a + b)[1..] == a[1..] + b;
      MatchRequestsAppend(d, a[1..], b);
    }
  }

  /** `showMatchNotifications`: a failed fetch (None) shows nothing. */
  function MatchNotifications(d: Players.Directory, fetched: Option<seq<Match>>): (r: seq<Request>)
    ensures fetched.None? ==> r == []
    ensures fetched.Some? ==> |r| <= |fetched.value|
  {
    match fetched
    case None => []
    case Some(ms) => MatchRequests(d, ms)
  }

  /** The directory the `getPlayerById` helpers of js/notifications.js and
      js/fixtures.js reach as written, through `window.playersData`:
      js/players.js declares `const playersData` at the top level of a
      classic script, which makes a global binding but no property of
      `window`, and none of the modelled files assigns the property.
      `undefined?.[id]` is undefined, so every lookup behaves as one in an
      empty directory. */
  const WindowDirectory := Players.Empty

  /** As written, `showMatchNotifications` never shows a result. */
  lemma WindowLookupShowsNoMatch(fetched: Option<seq<Match>>)
    ensures MatchNotifications(WindowDirectory, fetched) == []
  {
    if fetched.Some? {
      FilterNone(fetched.value, m => BothKnown(WindowDirectory, m));
    }
  }

  /** With the directory `initPlayers` fills, every fetched match whose two
      players are in it is announced, in order. */
  lemma DirectoryLookupShowsKnownMatches(d: Players.Directory, ms: seq<Match>, i: nat)
    requires i < |ms| && BothKnown(d, ms[i])
    ensures MatchRequest(d, ms[i]).Some?
    ensures MatchRequest(d, ms[i]).value in MatchNotifications(d, Some(ms))
  {
    var known := KnownMatches(d, ms);
    assert ms[i] in known;
    var j :| 0 <= j < |known| && known[j] == ms[i];
    assert MatchRequest(d, known[j]) == Some(MatchNotifications(d, Some(ms))[j]);
  }

  /** What `showNewResultNotifications` of js/fixtures.js does with one match:
      nothing, one request, or a TypeError when the winner id names no player
      (`winner.name` of null). */
  datatype Step = Skip | Emit(request: Request) | Crash

  function ResultStep(d: Players.Directory, m: Match): (r: Step)
    ensures r.Skip? <==> !BothKnown(d, m)
    ensures r.Crash? <==> BothKnown(d, m) && m.winnerId != "draw" && m.winnerId !in d.entries
  {
    if Players.PlayerById(d, m.player1Id).None? || Players.PlayerById(d, m.player2Id).None? then Skip
    else
      var player1 := d.entries[m.player1Id];
      var player2 := d.entries[m.player2Id];
      if m.winnerId == "draw" then
        Emit(Request("draw", player1.name + " " + ScoreField(m.score) + " " + player2.name,
                     ResultDuration, Options(DrawTitle, "")))
      else
        match Players.PlayerById(d, m.winnerId)
        case None => Crash
        case Some(winner) =>
          Emit(Request("win",
                       winner.name + " defeated " + (if m.winnerId == m.player1Id then player2.name else player1.name)
                         + " " + ScoreField(m.score),
                       ResultDuration, Options(ResultTitle, ViewWinnerAction(winner.id))))
  }

  /** The requests shown before the batch finished, and whether it stopped on
      a TypeError (the requests already shown stay on screen). */
  datatype Batch = Batch(requests: seq<Request>, crashed: bool)

  /** `showNewResultNotifications(completedMatches)`. */
  function ResultRequests(d: Players.Directory, ms: seq<Match>): (r: Batch)
    ensures |r.requests| <= |ms|
    ensures r.crashed <==> exists i :: 0 <= i < |ms| && ResultStep(d, ms[i]).Crash?
    decreases |ms|
  {
    if |ms| == 0 then Batch([], false)
    else
      var rest := ResultRequests(d, ms[1..]);
      assert forall i :: 1 <= i < |ms| ==> ms[i] == ms[1..][i - 1];
      match ResultStep(d, ms[0])
      case Skip => rest
      case Crash => Batch([], true)
      case Emit(q) => Batch([q] + rest.requests, rest.crashed)
  }

  /** The batch runs in array order and stops at the first TypeError: the
      results of a concatenation are those of the first part when it
      crashed, and otherwise the first part's requests followed by the
      second part's. */
  lemma {:induction false} ResultRequestsAppend(d: Players.Directory, a: seq<Match>, b: seq<Match>)
    ensures ResultRequests(d, a).crashed ==> ResultRequests(d, a + b) == ResultRequests(d, a)
    ensures !ResultRequests(d, a).crashed ==>
              ResultRequests(d, a + b)
              == Batch(ResultRequests(d, a).requests + ResultRequests(d, b).requests, ResultRequests(d, b).crashed)
    decreases |a|
  {
    if |a| == 0 {
      assert a + b == b;
    } else {
      assert (a + b)[1..] == a[1..] + b;
      ResultRequestsAppend(d, a[1..], b);
    }
  }

  /** Both copies of the result-notification logic show the same requests
      whenever the fixtures copy cannot crash and its separate winner lookup
      finds one of the two players: every decided match names one of its
      players as winner, and the directory stores each player under its id. */
  lemma {:induction false} ResultRequestsMirrorMatchRequests(d: Players.Directory, ms: seq<Match>)
    requires Players.KeyedById(d)
    requires forall i :: 0 <= i < |ms| && BothKnown(d, ms[i]) && ms[i].winnerId != "draw" ==>
               ms[i].winnerId == ms[i].player1Id || ms[i].winnerId == ms[i].player2Id
    ensures ResultRequests(d, ms) == Batch(MatchRequests(d, ms), false)
    decreases |ms|
  {
    if |ms| > 0 {
      assert forall i :: 1 <= i < |ms| ==> ms[i] == ms[1..][i - 1];
      ResultRequestsMirrorMatchRequests(d, ms[1..]);
    }
  }

  /** As written, `showNewResultNotifications` never shows a result and
      never reaches the winner lookup that could crash. */
  lemma {:induction false} WindowLookupShowsNoResult(ms: seq<Match>)
    ensures ResultRequests(WindowDirectory, ms) == Batch([], false)
    decreases |ms|
  {
    if |ms| > 0 {
      WindowLookupShowsNoResult(ms[1..]);
    }
  }
}
