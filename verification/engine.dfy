/** The match session of app.js: the match's records in turn order, whose
    turn it is, which dart of the turn, and the linear undo stack
    (`currentMatchPlayers`, `currentPlayerIndex`, `currentDart`,
    `undoHistory`). Each action is a pure transition on a `Session`. */
module Engine {
  import opened Wrappers
  import opened Targets
  import opened Records
  import opened Scoring

  const MaxDartsPerTurn: nat := 3

  /** What a hit saves before it scores: whose record, the turn position,
      the target, and the record's marks and points before the hit. */
  datatype Snapshot = Snapshot(playerId: nat, playerIndex: nat, dart: nat, target: Target,
                               oldMarks: Marks, oldPoints: nat)

  datatype Session = Session(players: seq<MatchPlayer>, playerIndex: nat, dart: nat,
                             undoHistory: seq<Snapshot>)

  /** The session after a hit, and whether that hit won the match. */
  datatype HitResult = HitResult(session: Session, won: bool)

  /** A session as every action leaves it: someone to play, a current
      player, a dart in 1..3, distinct record ids, and every snapshot
      holding a turn position in range and naming a record of the
      session. */
  ghost predicate Valid(s: Session)
  {
    && |s.players| > 0
    && s.playerIndex < |s.players|
    && 1 <= s.dart <= MaxDartsPerTurn
    && UniqueIds(s.players)
    && forall k :: 0 <= k < |s.undoHistory| ==>
         && s.undoHistory[k].playerIndex < |s.players|
         && 1 <= s.undoHistory[k].dart <= MaxDartsPerTurn
         && HasRecord(s.players, s.undoHistory[k].playerId)
  }

  ghost predicate HasRecord(ps: seq<MatchPlayer>, id: nat)
  {
    exists j :: 0 <= j < |ps| && ps[j].id == id
  }

  /** Replacing one record by another with the same id keeps a session
      valid. */
  lemma RescoreKeepsValid(s: Session, j: nat, q: MatchPlayer)
    requires j < |s.players| && q.id == s.players[j].id
    ensures Valid(s) ==> Valid(s.(players := s.players[j := q]))
  {
    var ps := s.players[j := q];
    forall id | HasRecord(s.players, id)
      ensures HasRecord(ps, id)
    {
      var i :| 0 <= i < |s.players| && s.players[i].id == id;
      assert ps[i].id == id;
    }
  }

  /** The state a new or resumed match starts in: first player, first
      dart, nothing to undo. */
  function NewSession(players: seq<MatchPlayer>): (s: Session)
    ensures s.players == players && s.undoHistory == []
    ensures s.playerIndex == 0 && s.dart == 1
    ensures UniqueIds(players) && |players| > 0 ==> Valid(s)
  {
    Session(players, 0, 1, [])
  }

  /** The throw counter of a turn position: darts thrown since the first
      player's first dart, counted within one round. */
  function TurnPosition(s: Session): int
  {
    s.playerIndex * MaxDartsPerTurn + s.dart - 1
  }

  function NextPlayer(s: Session): (r: Session)
    requires |s.players| > 0
    ensures r.playerIndex < |s.players|
    ensures s.playerIndex < |s.players| ==>
      r.playerIndex == if s.playerIndex + 1 == |s.players| then 0 else s.playerIndex + 1
    ensures r.players == s.players && r.dart == s.dart && r.undoHistory == s.undoHistory
  {
    s.(playerIndex := (s.playerIndex + 1) % |s.players|)
  }

  /** One dart is used up; past the last dart of a turn the next player
      starts at dart 1. A miss is exactly this. */
  function AdvanceDart(s: Session): (r: Session)
    requires |s.players| > 0
    ensures r.players == s.players && r.undoHistory == s.undoHistory
    ensures 1 <= r.dart <= MaxDartsPerTurn
    ensures s.playerIndex < |s.players| ==> r.playerIndex < |s.players|
    ensures Valid(s) ==> Valid(r)
  {
    var d := s.dart + 1;
    if d > MaxDartsPerTurn then NextPlayer(s.(dart := 1)) else s.(dart := d)
  }

  /** Every dart used up moves the throw counter on by exactly one, wrapping
      to 0 after the last dart of the last player. */
  lemma AdvanceDartIsOneThrow(s: Session)
    requires Valid(s)
    ensures TurnPosition(AdvanceDart(s))
         == if TurnPosition(s) + 1 == MaxDartsPerTurn * |s.players| then 0 else TurnPosition(s) + 1
  {
  }

  /** A hit on `t` worth `multiplier` marks by the current player: save a
      snapshot, score the hit, then either declare the win or use up the
      dart. */
  function RecordHit(s: Session, t: Target, multiplier: nat): (r: HitResult)
    requires s.playerIndex < |s.players|
    ensures var cur := s.players[s.playerIndex];
      && r.session.undoHistory == s.undoHistory
           + [Snapshot(cur.id, s.playerIndex, s.dart, t, cur.marks, cur.points)]
      && r.session.players == s.players[s.playerIndex :=
           ApplyHit(cur, t, multiplier, OpponentsOpen(s.players, cur.id, t))]
    ensures r.won <==> IsWinner(r.session.players[s.playerIndex], r.session.players)
    ensures r.won ==> r.session.playerIndex == s.playerIndex && r.session.dart == s.dart
    ensures !r.won ==> (r.session.playerIndex == AdvanceDart(s).playerIndex
                        && r.session.dart == AdvanceDart(s).dart)
    ensures Valid(s) ==> Valid(r.session)
  {
    var cur := s.players[s.playerIndex];
    var snap := Snapshot(cur.id, s.playerIndex, s.dart, t, cur.marks, cur.points);
    var prior := MarkOf(cur.marks, t);
    var raw := prior + multiplier;
    var marked := cur.(marks := cur.marks[t := if raw < 3 then raw else 3]);
    var afterMarks := s.players[s.playerIndex := marked];
    // app.js asks about opponents after storing the new count; opponents
    // are picked by id, so the acting record's new count does not matter.
    assert OpponentsOpen(afterMarks, cur.id, t) == OpponentsOpen(s.players, cur.id, t) by {
      OpponentsOpenIgnoresActor(s.players, s.playerIndex, marked, t);
    }
    var earned := PointsEarned(prior, multiplier, t, OpponentsOpen(afterMarks, cur.id, t));
    var scored := marked.(points := cur.points + earned);
    var s' := s.(players := s.players[s.playerIndex := scored], undoHistory := s.undoHistory + [snap]);
    RescoreKeepsValid(s, s.playerIndex, scored);
    assert s'.players[s.playerIndex].id == cur.id;
    if IsWinner(scored, s'.players) then HitResult(s', true) else HitResult(AdvanceDart(s'), false)
  }

  lemma OpponentsOpenIgnoresActor(ps: seq<MatchPlayer>, k: nat, q: MatchPlayer, t: Target)
    requires k < |ps| && q.id == ps[k].id
    ensures OpponentsOpen(ps[k := q], ps[k].id, t) == OpponentsOpen(ps, ps[k].id, t)
  {
    var ps' := ps[k := q];
    if OpponentsOpen(ps, ps[k].id, t) {
      var i :| 0 <= i < |ps| && ps[i].id != ps[k].id && !Closed(ps[i].marks, t);
      assert ps'[i] == ps[i];
    }
    if OpponentsOpen(ps', ps[k].id, t) {
      var i :| 0 <= i < |ps'| && ps'[i].id != ps[k].id && !Closed(ps'[i].marks, t);
      assert ps'[i] == ps[i];
    }
  }

  /** A click on another player's button is ignored; a click on the
      current player's button records the hit. */
  function RecordHitDirect(s: Session, t: Target, multiplier: nat, clickedId: nat): (r: HitResult)
    requires s.playerIndex < |s.players|
    ensures s.players[s.playerIndex].id != clickedId ==> r == HitResult(s, false)
    ensures s.players[s.playerIndex].id == clickedId ==> r == RecordHit(s, t, multiplier)
  {
    if s.players[s.playerIndex].id != clickedId then HitResult(s, false)
    else RecordHit(s, t, multiplier)
  }

  /** Position of the first record carrying `id`. */
  function FindById(ps: seq<MatchPlayer>, id: nat): (r: Option<nat>)
    ensures r.Some? ==> r.value < |ps| && ps[r.value].id == id
                        && forall k :: 0 <= k < r.value ==> ps[k].id != id
    ensures r.None? ==> forall k :: 0 <= k < |ps| ==> ps[k].id != id
  {
    if |ps| == 0 then None
    else if ps[0].id == id then Some(0)
    else match FindById(ps[1..], id)
      case None => None
      case Some(k) => Some(k + 1)
  }

  /** Pop the latest snapshot; when its record is in the session, put back
      that record's marks and points and the saved turn position. */
  function Undo(s: Session): (r: Session)
    ensures |s.undoHistory| == 0 ==> r == s
    ensures |s.undoHistory| > 0 ==> r.undoHistory == s.undoHistory[..|s.undoHistory| - 1]
    ensures |r.players| == |s.players|
    ensures Valid(s) ==> Valid(r)
  {
    if |s.undoHistory| == 0 then s
    else
      var last := s.undoHistory[|s.undoHistory| - 1];
      var rest := s.undoHistory[..|s.undoHistory| - 1];
      match FindById(s.players, last.playerId)
      case None => s.(undoHistory := rest)
      case Some(j) =>
        RescoreKeepsValid(s.(undoHistory := rest), j, s.players[j].(marks := last.oldMarks, points := last.oldPoints));
        s.(players := s.players[j := s.players[j].(marks := last.oldMarks, points := last.oldPoints)],
           playerIndex := last.playerIndex, dart := last.dart, undoHistory := rest)
  }

  /** Undo right after a hit gives back exactly the session before it:
      records, turn position and undo stack. */
  lemma UndoRevertsHit(s: Session, t: Target, multiplier: nat)
    requires Valid(s)
    ensures Undo(RecordHit(s, t, multiplier).session) == s
  {
  }

  /** Misses push nothing, so an undo after misses reverts the last hit
      as if the misses had not happened. */
  lemma UndoSkipsMisses(s: Session)
    requires Valid(s) && |s.undoHistory| > 0
    ensures Undo(AdvanceDart(s)) == Undo(s)
  {
  }

  /** The two dart actions of a turn: a miss or a scoring hit. */
  datatype Action = Miss | Hit(target: Target, multiplier: nat)

  function Step(s: Session, a: Action): (r: HitResult)
    requires s.playerIndex < |s.players|
    ensures Valid(s) ==> Valid(r.session)
    ensures !r.won ==> r.session.playerIndex == AdvanceDart(s).playerIndex
                       && r.session.dart == AdvanceDart(s).dart
  {
    match a
    case Miss => HitResult(AdvanceDart(s), false)
    case Hit(t, m) => RecordHit(s, t, m)
  }

  /** Three darts without a win, from the first dart of a turn, hand the
      turn to the next player (wrapping) at dart 1. */
  lemma ThreeDartsPassTurn(s: Session, a1: Action, a2: Action, a3: Action)
    requires Valid(s) && s.dart == 1
    requires !Step(s, a1).won
    requires !Step(Step(s, a1).session, a2).won
    requires !Step(Step(Step(s, a1).session, a2).session, a3).won
    ensures var r := Step(Step(Step(s, a1).session, a2).session, a3).session;
      r.playerIndex == (s.playerIndex + 1) % |s.players| && r.dart == 1
  {
  }

  /** Counts in 0..3 for every record stay in 0..3 after any hit, and the
      acting record's counts and points never go down. */
  lemma HitKeepsSessionMarksInRange(s: Session, t: Target, multiplier: nat)
    requires s.playerIndex < |s.players|
    requires forall j :: 0 <= j < |s.players| ==> MarksInRange(s.players[j].marks)
    ensures var r := RecordHit(s, t, multiplier).session;
      && (forall j :: 0 <= j < |r.players| ==> MarksInRange(r.players[j].marks))
      && (forall u :: MarkOf(s.players[s.playerIndex].marks, u) <= MarkOf(r.players[s.playerIndex].marks, u))
      && s.players[s.playerIndex].points <= r.players[s.playerIndex].points
  {
  }

  /** Two fresh records: a triple 20 closes 20 without points while the
      opponent is open; a following single 20 then scores 20. Once both
      have closed 20, another 20 scores nothing. */
  lemma TwoPlayerTwentyScenario()
    ensures var a := MatchPlayer(1, 1, 10, ZeroMarks, 0);
      var b := MatchPlayer(2, 1, 11, ZeroMarks, 0);
      var s := NewSession([a, b]);
      var h1 := RecordHit(s, T20, 3);
      var h2 := RecordHit(h1.session, T20, 1);
      && !h1.won && MarkOf(h1.session.players[0].marks, T20) == 3 && h1.session.players[0].points == 0
      && !h2.won && MarkOf(h2.session.players[0].marks, T20) == 3 && h2.session.players[0].points == 20
      && h2.session.dart == 3 && h2.session.playerIndex == 0
    ensures var a := MatchPlayer(1, 1, 10, ZeroMarks[T20 := 3], 0);
      var b := MatchPlayer(2, 1, 11, ZeroMarks[T20 := 3], 0);
      RecordHit(NewSession([a, b]), T20, 2).session.players[0].points == 0
  {
    var a := MatchPlayer(1, 1, 10, ZeroMarks, 0);
    var b := MatchPlayer(2, 1, 11, ZeroMarks, 0);
    var s := NewSession([a, b]);
    assert !Closed(b.marks, T20);
    assert !AllClosed(MatchPlayer(1, 1, 10, ZeroMarks[T20 := 3], 0).marks) by {
      assert AllTargets[1] == T19;
    }
    var h1 := RecordHit(s, T20, 3);
    assert OpponentsOpen(h1.session.players, 1, T20) by {
      assert h1.session.players[1] == b;
    }
    assert !AllClosed(h1.session.players[0].marks) by {
      assert AllTargets[1] == T19;
    }
  }
}
