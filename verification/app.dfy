/** The game screen of app.js wired to the store: starting or resuming a
    match resets the session, every hit or undo writes the acting record
    back, and a winning hit completes the match and ends the session.
    Rendering, dialogs and screen changes are left out. */
module App {
  import opened Wrappers
  import opened Targets
  import opened Records
  import opened Scoring
  import opened Engine
  import opened Store

  const MinPlayers: nat := 2

  /** The match being played and its session. */
  datatype Game = Game(matchId: nat, session: Session)

  /** The store, and the game in progress if the game screen is showing. */
  datatype AppState = AppState(store: Store, game: Option<Game>)

  datatype StartError = TooFewPlayers | NoMatchPlayers

  /** The store is well formed, and a game in progress has a valid session
      whose records are exactly the store's records of that match. */
  ghost predicate Consistent(a: AppState)
  {
    && WellFormed(a.store)
    && (a.game.Some? ==>
          && Valid(a.game.value.session)
          && GetMatchPlayers(a.store, a.game.value.matchId) == a.game.value.session.players)
  }

  /** Create a match for the selected players and start its session at the
      first player's first dart; fewer than two players is refused. */
  function StartNewGame(a: AppState, playerIds: seq<nat>): (r: Result<AppState, StartError>)
    ensures r.Failure? <==> |playerIds| < MinPlayers
    ensures r.Success? ==>
      && r.value.store == CreateMatch(a.store, playerIds).store
      && r.value.game.Some?
      && r.value.game.value.matchId == CreateMatch(a.store, playerIds).matchId
      && r.value.game.value.session.playerIndex == 0
      && r.value.game.value.session.dart == 1
      && r.value.game.value.session.undoHistory == []
  {
    if |playerIds| < MinPlayers then Failure(TooFewPlayers)
    else
      var c := CreateMatch(a.store, playerIds);
      Success(AppState(c.store, Some(Game(c.matchId, NewSession(GetMatchPlayers(c.store, c.matchId))))))
  }

  /** Reload a stored match's records and restart its session at the first
      player's first dart with nothing to undo. */
  function ResumeMatch(a: AppState, matchId: nat): (r: Result<AppState, StartError>)
    ensures r.Failure? <==> |GetMatchPlayers(a.store, matchId)| == 0
    ensures r.Success? ==>
      && r.value.store == a.store
      && r.value.game == Some(Game(matchId, NewSession(GetMatchPlayers(a.store, matchId))))
  {
    var players := GetMatchPlayers(a.store, matchId);
    if |players| == 0 then Failure(NoMatchPlayers)
    else Success(a.(game := Some(Game(matchId, NewSession(players)))))
  }

  /** A click on a hit button of record `clickedId`. Clicks for anyone but
      the current player change nothing; otherwise the hit is recorded, the
      acting record is written back, and a win completes the match. */
  function HitClicked(a: AppState, t: Target, multiplier: nat, clickedId: nat): (r: AppState)
    requires a.game.Some? && a.game.value.session.playerIndex < |a.game.value.session.players|
    ensures var s := a.game.value.session;
      s.players[s.playerIndex].id != clickedId ==> r == a
    ensures var s := a.game.value.session;
      var h := RecordHit(s, t, multiplier);
      s.players[s.playerIndex].id == clickedId ==>
        (h.won <==> r.game.None?)
        && (h.won ==> forall i :: 0 <= i < |r.store.matches| && r.store.matches[i].id == a.game.value.matchId ==>
              r.store.matches[i].completed
              && r.store.matches[i].winnerId == Some(s.players[s.playerIndex].playerId))
        && (!h.won ==> r.game == Some(Game(a.game.value.matchId, h.session)))
  {
    var g := a.game.value;
    var s := g.session;
    var cur := s.players[s.playerIndex];
    if cur.id != clickedId then a
    else
      var h := RecordHit(s, t, multiplier);
      var p := h.session.players[s.playerIndex];
      var st := UpdateMatchPlayer(a.store, p.id, p.marks, p.points);
      if h.won then AppState(CompleteMatch(st, g.matchId, p.playerId), None)
      else AppState(st, Some(Game(g.matchId, h.session)))
  }

  /** The miss button: use up a dart; nothing is written. */
  function MissClicked(a: AppState): (r: AppState)
    requires a.game.Some? && |a.game.value.session.players| > 0
    ensures r.store == a.store
    ensures r.game == Some(Game(a.game.value.matchId, AdvanceDart(a.game.value.session)))
  {
    a.(game := Some(a.game.value.(session := AdvanceDart(a.game.value.session))))
  }

  /** The undo button: undo in the session and write the restored record
      back. */
  function UndoLast(a: AppState): (r: AppState)
    requires a.game.Some?
    ensures r.game == Some(Game(a.game.value.matchId, Undo(a.game.value.session)))
    ensures |a.game.value.session.undoHistory| == 0 ==> r == a
  {
    var g := a.game.value;
    var s := g.session;
    if |s.undoHistory| == 0 then a
    else
      var last := s.undoHistory[|s.undoHistory| - 1];
      var u := Undo(s);
      match FindById(s.players, last.playerId)
      case None => a.(game := Some(g.(session := u)))
      case Some(j) =>
        AppState(UpdateMatchPlayer(a.store, s.players[j].id, last.oldMarks, last.oldPoints),
                 Some(g.(session := u)))
  }

  /** Leave the game: the match stays incomplete in the store. */
  function EndGame(a: AppState): (r: AppState)
    ensures r.store == a.store && r.game.None?
  {
    a.(game := None)
  }

  lemma StartNewGameConsistent(a: AppState, playerIds: seq<nat>)
    requires Consistent(a)
    ensures StartNewGame(a, playerIds).Success? ==> Consistent(StartNewGame(a, playerIds).value)
  {
    if |playerIds| >= MinPlayers {
      CreateMatchRecords(a.store, playerIds);
    }
  }

  lemma ResumeMatchConsistent(a: AppState, matchId: nat)
    requires Consistent(a)
    ensures ResumeMatch(a, matchId).Success? ==> Consistent(ResumeMatch(a, matchId).value)
  {
  }

  /** Writing back record `j` of the session, with the session rescored the
      same way, keeps the store and the session in step. */
  lemma WriteBackKeepsSync(st: Store, matchId: nat, s: Session, j: nat, marks: Marks, points: nat)
    requires WellFormed(st) && GetMatchPlayers(st, matchId) == s.players
    requires j < |s.players|
    ensures GetMatchPlayers(UpdateMatchPlayer(st, s.players[j].id, marks, points), matchId)
         == s.players[j := s.players[j].(marks := marks, points := points)]
  {
    UpdateMatchPlayerQuery(st, matchId, s.players[j].id, marks, points);
    SetScoreAt(s.players, j, marks, points);
  }

  /** A hit by the current player writes the acting record's new marks and
      points back before the winner check, so the store's records of the
      match equal the post-hit session's records, whether or not the hit
      wins; a winning record is stored as it won. */
  lemma HitWritesBack(a: AppState, t: Target, multiplier: nat)
    requires Consistent(a) && a.game.Some?
    ensures var g := a.game.value;
      var s := g.session;
      GetMatchPlayers(HitClicked(a, t, multiplier, s.players[s.playerIndex].id).store, g.matchId)
        == RecordHit(s, t, multiplier).session.players
  {
    var g := a.game.value;
    var s := g.session;
    var cur := s.players[s.playerIndex];
    var h := RecordHit(s, t, multiplier);
    var p := h.session.players[s.playerIndex];
    assert p == cur.(marks := p.marks, points := p.points);
    WriteBackKeepsSync(a.store, g.matchId, s, s.playerIndex, p.marks, p.points);
  }

  lemma HitConsistent(a: AppState, t: Target, multiplier: nat, clickedId: nat)
    requires Consistent(a) && a.game.Some?
    ensures Consistent(HitClicked(a, t, multiplier, clickedId))
    ensures var s := a.game.value.session;
      s.players[s.playerIndex].id == clickedId ==>
        GetMatchPlayers(HitClicked(a, t, multiplier, clickedId).store, a.game.value.matchId)
          == RecordHit(s, t, multiplier).session.players
  {
    var s := a.game.value.session;
    if s.players[s.playerIndex].id == clickedId {
      HitWritesBack(a, t, multiplier);
    }
  }

  lemma MissConsistent(a: AppState)
    requires Consistent(a) && a.game.Some?
    ensures Consistent(MissClicked(a))
  {
  }

  lemma UndoLastConsistent(a: AppState)
    requires Consistent(a) && a.game.Some?
    ensures Consistent(UndoLast(a))
  {
    var s := a.game.value.session;
    if |s.undoHistory| > 0 {
      var last := s.undoHistory[|s.undoHistory| - 1];
      match FindById(s.players, last.playerId)
      case None =>
      case Some(j) =>
        WriteBackKeepsSync(a.store, a.game.value.matchId, s, j, last.oldMarks, last.oldPoints);
    }
  }

  /** Undo right after a hit that did not win puts the session and the
      store back exactly as they were. */
  lemma UndoRevertsHitInStore(a: AppState, t: Target, multiplier: nat)
    requires Consistent(a) && a.game.Some?
    requires !RecordHit(a.game.value.session, t, multiplier).won
    ensures var s := a.game.value.session;
      UndoLast(HitClicked(a, t, multiplier, s.players[s.playerIndex].id)) == a
  {
    var g := a.game.value;
    var s := g.session;
    var cur := s.players[s.playerIndex];
    var h := RecordHit(s, t, multiplier);
    var p := h.session.players[s.playerIndex];
    var a1 := HitClicked(a, t, multiplier, cur.id);
    UndoRevertsHit(s, t, multiplier);
    assert a1.game.value.session == h.session;
    var st1 := UpdateMatchPlayer(a.store, cur.id, p.marks, p.points);
    assert a1.store == st1;
    var last := h.session.undoHistory[|h.session.undoHistory| - 1];
    assert last.playerId == cur.id && last.oldMarks == cur.marks && last.oldPoints == cur.points;
    assert FindById(h.session.players, cur.id).Some?;
    RewriteIsIdentity(a.store, g.matchId, cur, p.marks, p.points);
  }

  /** Overwriting a stored record with new scores and then with its own
      scores leaves the store as it was. */
  lemma RewriteIsIdentity(st: Store, matchId: nat, cur: MatchPlayer, marks: Marks, points: nat)
    requires WellFormed(st) && cur in GetMatchPlayers(st, matchId)
    ensures UpdateMatchPlayer(UpdateMatchPlayer(st, cur.id, marks, points), cur.id, cur.marks, cur.points) == st
  {
  }
}
