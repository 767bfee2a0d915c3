/** The per-hit scoring rule and the winner condition of app.js
    (`recordHit`, `checkWinner`). */
module Scoring {
  import opened Targets
  import opened Records

  /** Marks beyond those needed to close. */
  function Excess(prior: nat, multiplier: nat): nat
  {
    if prior + multiplier > MarksToClose then prior + multiplier - MarksToClose else 0
  }

  /** Some record other than `actingId` still has `t` open. */
  predicate OpponentsOpen(players: seq<MatchPlayer>, actingId: nat, t: Target)
  {
    exists i :: 0 <= i < |players| && players[i].id != actingId && !Closed(players[i].marks, t)
  }

  /** Points for one hit, following the branch structure of app.js:
      points flow only once the target is (or becomes) closed and some
      opponent still has it open. */
  function PointsEarned(prior: nat, multiplier: nat, t: Target, opponentsOpen: bool): (r: nat)
    ensures opponentsOpen ==> r == Excess(prior, multiplier) * Value(t)
    ensures !opponentsOpen ==> r == 0
    ensures r > 0 <==> prior + multiplier > MarksToClose && opponentsOpen
  {
    if prior >= 3 || (prior < 3 && prior + multiplier >= 3) then
      if opponentsOpen then Excess(prior, multiplier) * Value(t) else 0
    else
      0
  }

  /** The acting record after a hit of `multiplier` marks on `t`. */
  function ApplyHit(p: MatchPlayer, t: Target, multiplier: nat, opponentsOpen: bool): (r: MatchPlayer)
    ensures r.id == p.id && r.matchId == p.matchId && r.playerId == p.playerId
    ensures MarkOf(r.marks, t) == if MarkOf(p.marks, t) + multiplier < MarksToClose
                                  then MarkOf(p.marks, t) + multiplier else MarksToClose
    ensures forall u :: u != t ==> MarkOf(r.marks, u) == MarkOf(p.marks, u)
    ensures r.points == p.points + PointsEarned(MarkOf(p.marks, t), multiplier, t, opponentsOpen)
  {
    var prior := MarkOf(p.marks, t);
    var raw := prior + multiplier;
    var forClosing := if raw < 3 then raw else 3;
    var earned := PointsEarned(prior, multiplier, t, opponentsOpen);
    p.(marks := p.marks[t := forClosing], points := p.points + earned)
  }

  /** The winner condition: every target closed and at least as many
      points as every other record of the match. */
  predicate IsWinner(p: MatchPlayer, players: seq<MatchPlayer>)
  {
    && AllClosed(p.marks)
    && forall i :: 0 <= i < |players| ==> players[i].id == p.id || p.points >= players[i].points
  }

  /** A hit never pushes a count past 3, given counts in 0..3 before. */
  lemma HitKeepsMarksInRange(p: MatchPlayer, t: Target, multiplier: nat, opponentsOpen: bool)
    requires MarksInRange(p.marks)
    ensures MarksInRange(ApplyHit(p, t, multiplier, opponentsOpen).marks)
  {
  }

  /** Marks and points never go down, and a closed target stays closed. */
  lemma HitIsMonotone(p: MatchPlayer, t: Target, multiplier: nat, opponentsOpen: bool)
    requires MarksInRange(p.marks)
    ensures forall u :: MarkOf(p.marks, u) <= MarkOf(ApplyHit(p, t, multiplier, opponentsOpen).marks, u)
    ensures forall u :: Closed(p.marks, u) ==> Closed(ApplyHit(p, t, multiplier, opponentsOpen).marks, u)
    ensures p.points <= ApplyHit(p, t, multiplier, opponentsOpen).points
  {
  }

  /** No mark is lost: the marks the hit adds to the count plus the excess
      marks make up the whole multiplier, and the points earned are the
      excess valued at the target's worth (or nothing). */
  lemma HitConservesMarks(p: MatchPlayer, t: Target, multiplier: nat, opponentsOpen: bool)
    requires MarkOf(p.marks, t) <= MarksToClose
    ensures var r := ApplyHit(p, t, multiplier, opponentsOpen);
      && (MarkOf(r.marks, t) - MarkOf(p.marks, t)) + Excess(MarkOf(p.marks, t), multiplier) == multiplier
      && (r.points - p.points == 0 || r.points - p.points == Excess(MarkOf(p.marks, t), multiplier) * Value(t))
  {
  }

  /** The winner condition against an independent reference: every target
      closed and a score equal to the highest score in the match. */
  function MaxPoints(players: seq<MatchPlayer>): (r: nat)
    ensures forall i :: 0 <= i < |players| ==> players[i].points <= r
    ensures |players| > 0 ==> exists i :: 0 <= i < |players| && players[i].points == r
  {
    if |players| == 0 then 0
    else
      var rest := MaxPoints(players[1..]);
      if players[0].points >= rest then players[0].points else rest
  }

  lemma WinnerIffAllClosedAndTopScore(players: seq<MatchPlayer>, k: nat)
    requires UniqueIds(players)
    requires k < |players|
    ensures IsWinner(players[k], players)
        <==> (forall t :: Closed(players[k].marks, t)) && players[k].points == MaxPoints(players)
  {
    AllClosedIffEveryTarget(players[k].marks);
    var p := players[k];
    if IsWinner(p, players) {
      var j :| 0 <= j < |players| && players[j].points == MaxPoints(players);
      assert players[j].id == p.id || p.points >= players[j].points;
    }
  }

  /** A record with an open target never wins, whatever the points. */
  lemma OpenTargetNeverWins(p: MatchPlayer, players: seq<MatchPlayer>, t: Target)
    requires !Closed(p.marks, t)
    ensures !IsWinner(p, players)
  {
    AllClosedIffEveryTarget(p.marks);
  }
}
