/** The three record kinds the store keeps (db.js:11-34). Dates are not
    modelled. */
module Records {
  import opened Wrappers
  import opened Targets

  datatype Player = Player(id: nat, name: string)

  /** A match: its players in turn order, the winner once completed. */
  datatype Match = Match(id: nat, playerIds: seq<nat>, winnerId: Option<nat>, completed: bool)

  /** One player's scoring record within one match. */
  datatype MatchPlayer = MatchPlayer(id: nat, matchId: nat, playerId: nat, marks: Marks, points: nat)

  /** Records have pairwise distinct ids. */
  ghost predicate UniqueIds(ps: seq<MatchPlayer>)
  {
    forall i, j :: 0 <= i < |ps| && 0 <= j < |ps| && ps[i].id == ps[j].id ==> i == j
  }

  /** Overwrite the marks and points of every record carrying `id`,
      leaving all other fields and records alone. */
  function SetScore(ps: seq<MatchPlayer>, id: nat, marks: Marks, points: nat): (r: seq<MatchPlayer>)
    ensures |r| == |ps|
    ensures forall i :: 0 <= i < |ps| && ps[i].id != id ==> r[i] == ps[i]
    ensures forall i :: 0 <= i < |ps| && ps[i].id == id ==> r[i] == ps[i].(marks := marks, points := points)
  {
    seq(|ps|, i requires 0 <= i < |ps| =>
      if ps[i].id == id then ps[i].(marks := marks, points := points) else ps[i])
  }

  /** With unique ids, rescoring by id is rescoring the one record at its
      position. */
  lemma SetScoreAt(ps: seq<MatchPlayer>, j: nat, marks: Marks, points: nat)
    requires UniqueIds(ps)
    requires j < |ps|
    ensures SetScore(ps, ps[j].id, marks, points) == ps[j := ps[j].(marks := marks, points := points)]
  {
  }
}
