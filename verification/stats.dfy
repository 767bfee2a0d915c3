/** The integer part of db.js `getPlayerStats`: games, wins and losses
    over completed matches, and mark and point totals over every record of
    the player (completed matches or not). */
module Stats {
  import opened Wrappers
  import opened Targets
  import opened Records
  import opened Seqs
  import opened Store

  datatype PlayerStats = PlayerStats(playerId: nat, gamesPlayed: nat, wins: nat, losses: nat,
                                     totalMarks: nat, totalPoints: nat, markBreakdown: Marks)

  /** A completed match the player took part in. */
  predicate Played(m: Match, playerId: nat)
  {
    playerId in m.playerIds && m.completed
  }

  predicate Won(m: Match, playerId: nat)
  {
    Played(m, playerId) && m.winnerId == Some(playerId)
  }

  function CountPlayed(ms: seq<Match>, playerId: nat): nat
  {
    if |ms| == 0 then 0
    else CountPlayed(ms[..|ms| - 1], playerId) + (if Played(ms[|ms| - 1], playerId) then 1 else 0)
  }

  function CountWon(ms: seq<Match>, playerId: nat): nat
  {
    if |ms| == 0 then 0
    else CountWon(ms[..|ms| - 1], playerId) + (if Won(ms[|ms| - 1], playerId) then 1 else 0)
  }

  function OfPlayer(playerId: nat): MatchPlayer -> bool
  {
    (mp: MatchPlayer) => mp.playerId == playerId
  }

  /** All of the player's records, in key order. */
  function PlayerRecords(s: Store, playerId: nat): (r: seq<MatchPlayer>)
    ensures forall mp :: mp in r <==> mp in s.matchPlayers && mp.playerId == playerId
  {
    Filter(s.matchPlayers, OfPlayer(playerId))
  }

  function SumPoints(rs: seq<MatchPlayer>): nat
  {
    if |rs| == 0 then 0 else SumPoints(rs[..|rs| - 1]) + rs[|rs| - 1].points
  }

  /** Marks on one target, summed over records. */
  function SumTarget(rs: seq<MatchPlayer>, t: Target): nat
  {
    if |rs| == 0 then 0 else SumTarget(rs[..|rs| - 1], t) + MarkOf(rs[|rs| - 1].marks, t)
  }

  /** Marks on all targets, summed record by record. */
  function SumMarks(rs: seq<MatchPlayer>): nat
  {
    if |rs| == 0 then 0 else SumMarks(rs[..|rs| - 1]) + TotalMarks(rs[|rs| - 1].marks)
  }

  /** Summing record by record and summing target by target agree. */
  lemma {:induction false} SumMarksByTarget(rs: seq<MatchPlayer>)
    ensures SumMarks(rs) == SumTarget(rs, T20) + SumTarget(rs, T19) + SumTarget(rs, T18)
      + SumTarget(rs, T17) + SumTarget(rs, T16) + SumTarget(rs, T15) + SumTarget(rs, Bull)
  {
    if |rs| > 0 {
      SumMarksByTarget(rs[..|rs| - 1]);
    }
  }

  /** Games won never exceed games played. */
  lemma {:induction false} WonAtMostPlayed(ms: seq<Match>, playerId: nat)
    ensures CountWon(ms, playerId) <= CountPlayed(ms, playerId)
  {
    if |ms| > 0 {
      WonAtMostPlayed(ms[..|ms| - 1], playerId);
    }
  }

  /** The `completedMatches.length` and wins counts of getPlayerStats. */
  method CountGames(ms: seq<Match>, playerId: nat) returns (games: nat, wins: nat)
    ensures games == CountPlayed(ms, playerId)
    ensures wins == CountWon(ms, playerId)
    ensures wins <= games
  {
    games := 0;
    wins := 0;
    var i := 0;
    while i < |ms|
      invariant 0 <= i <= |ms|
      invariant games == CountPlayed(ms[..i], playerId)
      invariant wins == CountWon(ms[..i], playerId)
      invariant wins <= games
    {
      var m := ms[i];
      assert ms[..i + 1][..i] == ms[..i];
      if Played(m, playerId) {
        games := games + 1;
        if m.winnerId == Some(playerId) {
          wins := wins + 1;
        }
      }
      i := i + 1;
    }
    assert ms[..i] == ms;
  }

  /** Add one record's counts into the per-target breakdown and the
      running total, entry by entry. */
  method AddRecordMarks(breakdown: Marks, total: nat, marks: Marks) returns (breakdown': Marks, total': nat)
    requires total == TotalMarks(breakdown)
    ensures total' == TotalMarks(breakdown')
    ensures forall u :: MarkOf(breakdown', u) == MarkOf(breakdown, u) + MarkOf(marks, u)
  {
    AllTargetsComplete();
    breakdown' := breakdown;
    total' := total;
    var k := 0;
    while k < |AllTargets|
      invariant 0 <= k <= |AllTargets|
      invariant total' == TotalMarks(breakdown')
      invariant forall u :: (MarkOf(breakdown', u)
        == MarkOf(breakdown, u) + (if u in AllTargets[..k] then MarkOf(marks, u) else 0))
    {
      var t := AllTargets[k];
      var count := MarkOf(marks, t);
      assert t !in AllTargets[..k];
      assert AllTargets[..k + 1] == AllTargets[..k] + [t];
      TotalMarksAdd(breakdown', t, count);
      breakdown' := breakdown'[t := MarkOf(breakdown', t) + count];
      total' := total' + count;
      k := k + 1;
    }
    assert AllTargets[..k] == AllTargets;
  }

  /** The point total, mark total and per-target breakdown over records. */
  method SumRecords(records: seq<MatchPlayer>) returns (totalMarks: nat, totalPoints: nat, breakdown: Marks)
    ensures totalPoints == SumPoints(records)
    ensures totalMarks == TotalMarks(breakdown)
    ensures forall u :: MarkOf(breakdown, u) == SumTarget(records, u)
  {
    totalMarks := 0;
    totalPoints := 0;
    breakdown := ZeroMarks;
    ZeroMarksAreZero();
    var j := 0;
    while j < |records|
      invariant 0 <= j <= |records|
      invariant totalPoints == SumPoints(records[..j])
      invariant totalMarks == TotalMarks(breakdown)
      invariant forall u :: MarkOf(breakdown, u) == SumTarget(records[..j], u)
    {
      var mp := records[j];
      assert records[..j + 1][..j] == records[..j];
      totalPoints := totalPoints + mp.points;
      breakdown, totalMarks := AddRecordMarks(breakdown, totalMarks, mp.marks);
      j := j + 1;
    }
    assert records[..j] == records;
  }

  method GetPlayerStats(s: Store, playerId: nat) returns (r: PlayerStats)
    ensures r.playerId == playerId
    ensures r.gamesPlayed == CountPlayed(s.matches, playerId)
    ensures r.wins == CountWon(s.matches, playerId)
    ensures r.wins + r.losses == r.gamesPlayed
    ensures r.totalPoints == SumPoints(PlayerRecords(s, playerId))
    ensures r.totalMarks == SumMarks(PlayerRecords(s, playerId))
    ensures forall t :: MarkOf(r.markBreakdown, t) == SumTarget(PlayerRecords(s, playerId), t)
    ensures r.totalMarks == TotalMarks(r.markBreakdown)
  {
    var games, wins := CountGames(s.matches, playerId);
    var records := PlayerRecords(s, playerId);
    var totalMarks, totalPoints, breakdown := SumRecords(records);
    SumMarksByTarget(records);
    r := PlayerStats(playerId, games, wins, games - wins, totalMarks, totalPoints, breakdown);
  }

  /** Completing one open match of the player counts one more game for
      them, and one more win exactly when they are the winner. */
  lemma CompleteMatchCountsOneGame(s: Store, k: nat, winnerId: nat, playerId: nat)
    requires Ascending(s.matches, MatchKey)
    requires k < |s.matches| && !s.matches[k].completed && playerId in s.matches[k].playerIds
    ensures var ms := CompleteMatch(s, s.matches[k].id, winnerId).matches;
      && CountPlayed(ms, playerId) == CountPlayed(s.matches, playerId) + 1
      && CountWon(ms, playerId) == CountWon(s.matches, playerId) + (if winnerId == playerId then 1 else 0)
  {
    var ms := CompleteMatch(s, s.matches[k].id, winnerId).matches;
    forall i | 0 <= i < |s.matches| && i != k
      ensures ms[i] == s.matches[i]
    {
      if i < k {
        assert MatchKey(s.matches[i]) < MatchKey(s.matches[k]);
      } else {
        assert MatchKey(s.matches[k]) < MatchKey(s.matches[i]);
      }
    }
    CountsAfterCompleting(s.matches, ms, k, |s.matches|, winnerId, playerId);
    assert ms[..|ms|] == ms && s.matches[..|s.matches|] == s.matches;
  }

  lemma {:induction false} CountsAfterCompleting(ms: seq<Match>, ms': seq<Match>, k: nat, j: nat, winnerId: nat, playerId: nat)
    requires |ms'| == |ms| && k < |ms| && j <= |ms|
    requires forall i :: 0 <= i < |ms| && i != k ==> ms'[i] == ms[i]
    requires ms'[k].completed && ms'[k].winnerId == Some(winnerId) && ms'[k].playerIds == ms[k].playerIds
    requires !ms[k].completed && playerId in ms[k].playerIds
    ensures CountPlayed(ms'[..j], playerId) == CountPlayed(ms[..j], playerId) + (if k < j then 1 else 0)
    ensures CountWon(ms'[..j], playerId)
         == CountWon(ms[..j], playerId) + (if k < j && winnerId == playerId then 1 else 0)
  {
    if j > 0 {
      CountsAfterCompleting(ms, ms', k, j - 1, winnerId, playerId);
      assert ms[..j][..j - 1] == ms[..j - 1];
      assert ms'[..j][..j - 1] == ms'[..j - 1];
    }
  }
}
