/** The record store of db.js as an in-memory value: three tables kept in
    primary-key order, each with its auto-increment key generator. Every
    store call is one atomic transition from store to store. */
module Store {
  import opened Wrappers
  import opened Targets
  import opened Records
  import opened Seqs

  datatype Store = Store(players: seq<Player>, matches: seq<Match>, matchPlayers: seq<MatchPlayer>,
                         nextPlayerId: nat, nextMatchId: nat, nextMatchPlayerId: nat)

  /** An empty database: auto-increment keys start at 1. */
  const EmptyStore: Store := Store([], [], [], 1, 1, 1)

  function PlayerKey(p: Player): nat { p.id }
  function MatchKey(m: Match): nat { m.id }
  function RecordKey(mp: MatchPlayer): nat { mp.id }
  function RecordMatch(mp: MatchPlayer): nat { mp.matchId }

  /** Keys are unique, listed in ascending order and below their
      generators, and every match record refers to a match id already
      handed out. */
  ghost predicate WellFormed(s: Store)
  {
    && Ascending(s.players, PlayerKey) && KeysBelow(s.players, PlayerKey, s.nextPlayerId)
    && Ascending(s.matches, MatchKey) && KeysBelow(s.matches, MatchKey, s.nextMatchId)
    && Ascending(s.matchPlayers, RecordKey) && KeysBelow(s.matchPlayers, RecordKey, s.nextMatchPlayerId)
    && KeysBelow(s.matchPlayers, RecordMatch, s.nextMatchId)
  }

  /** A freshly opened database, with empty tables and every key
      generator at 1, satisfies the store invariant. */
  lemma EmptyStoreWellFormed()
    ensures WellFormed(EmptyStore)
  {
  }

  function InMatch(matchId: nat): MatchPlayer -> bool
  {
    (mp: MatchPlayer) => mp.matchId == matchId
  }

  /** A match's records in key order (which is turn order). */
  function GetMatchPlayers(s: Store, matchId: nat): (r: seq<MatchPlayer>)
    ensures forall mp :: mp in r <==> mp in s.matchPlayers && mp.matchId == matchId
    ensures WellFormed(s) ==> Ascending(r, RecordKey) && UniqueIds(r)
  {
    var r := Filter(s.matchPlayers, InMatch(matchId));
    FilterAscending(s.matchPlayers, InMatch(matchId), RecordKey);
    AscendingUnique(r);
    r
  }

  lemma AscendingUnique(ps: seq<MatchPlayer>)
    ensures Ascending(ps, RecordKey) ==> UniqueIds(ps)
  {
  }

  /** The records createMatch adds: one per player id, in the given order,
      with consecutive new keys, zero marks and zero points. */
  function NewRecords(matchId: nat, firstId: nat, playerIds: seq<nat>): (r: seq<MatchPlayer>)
    ensures |r| == |playerIds|
    ensures forall k :: 0 <= k < |r| ==> r[k] == MatchPlayer(firstId + k, matchId, playerIds[k], ZeroMarks, 0)
  {
    seq(|playerIds|, k requires 0 <= k < |playerIds| => MatchPlayer(firstId + k, matchId, playerIds[k], ZeroMarks, 0))
  }

  datatype Created = Created(store: Store, matchId: nat)

  /** Add an open match with the given players and one zeroed record per
      player. */
  function CreateMatch(s: Store, playerIds: seq<nat>): (r: Created)
    ensures r.matchId == s.nextMatchId
    ensures r.store.matches == s.matches + [Match(r.matchId, playerIds, None, false)]
    ensures r.store.players == s.players
    ensures r.store.matchPlayers == s.matchPlayers + NewRecords(r.matchId, s.nextMatchPlayerId, playerIds)
    ensures WellFormed(s) ==> WellFormed(r.store)
  {
    var mid := s.nextMatchId;
    var added := NewRecords(mid, s.nextMatchPlayerId, playerIds);
    var s' := s.(matches := s.matches + [Match(mid, playerIds, None, false)],
                 matchPlayers := s.matchPlayers + added,
                 nextMatchId := mid + 1,
                 nextMatchPlayerId := s.nextMatchPlayerId + |playerIds|);
    Created(s', mid)
  }

  /** The new match's records are exactly one zeroed record per given
      player, in the given order. */
  lemma CreateMatchRecords(s: Store, playerIds: seq<nat>)
    requires WellFormed(s)
    ensures var c := CreateMatch(s, playerIds);
      var ps := GetMatchPlayers(c.store, c.matchId);
      && |ps| == |playerIds|
      && (forall k :: 0 <= k < |ps| ==>
            ps[k].matchId == c.matchId && ps[k].playerId == playerIds[k]
            && ps[k].marks == ZeroMarks && ps[k].points == 0)
  {
    CreatedRecordsAreNew(s, playerIds);
  }

  /** The new match's record list is exactly the appended records. */
  lemma CreatedRecordsAreNew(s: Store, playerIds: seq<nat>)
    requires WellFormed(s)
    ensures GetMatchPlayers(CreateMatch(s, playerIds).store, s.nextMatchId)
         == NewRecords(s.nextMatchId, s.nextMatchPlayerId, playerIds)
  {
    var added := NewRecords(s.nextMatchId, s.nextMatchPlayerId, playerIds);
    var keep := InMatch(s.nextMatchId);
    assert CreateMatch(s, playerIds).store.matchPlayers == s.matchPlayers + added;
    FilterAppend(s.matchPlayers, added, keep);
    FilterAll(added, keep);
    NoRecordsOfFreshMatch(s);
    assert Filter(s.matchPlayers + added, keep) == [] + added;
  }

  /** No stored record points at the match id the generator hands out
      next. */
  lemma NoRecordsOfFreshMatch(s: Store)
    requires WellFormed(s)
    ensures Filter(s.matchPlayers, InMatch(s.nextMatchId)) == []
  {
    forall i | 0 <= i < |s.matchPlayers|
      ensures !InMatch(s.nextMatchId)(s.matchPlayers[i])
    {
      assert RecordMatch(s.matchPlayers[i]) < s.nextMatchId;
    }
    FilterNone(s.matchPlayers, InMatch(s.nextMatchId));
  }

  /** Creating a match leaves every other match's records as they were. */
  lemma CreateMatchKeepsOtherMatches(s: Store, playerIds: seq<nat>, m: nat)
    requires m != s.nextMatchId
    ensures GetMatchPlayers(CreateMatch(s, playerIds).store, m) == GetMatchPlayers(s, m)
  {
    var added := NewRecords(s.nextMatchId, s.nextMatchPlayerId, playerIds);
    FilterAppend(s.matchPlayers, added, InMatch(m));
    FilterNone(added, InMatch(m));
  }

  /** Overwrite one record's marks and points (updateMatchPlayer). */
  function UpdateMatchPlayer(s: Store, id: nat, marks: Marks, points: nat): (r: Store)
    ensures r.players == s.players && r.matches == s.matches
    ensures |r.matchPlayers| == |s.matchPlayers|
    ensures forall i :: 0 <= i < |s.matchPlayers| ==>
      r.matchPlayers[i].id == s.matchPlayers[i].id && r.matchPlayers[i].matchId == s.matchPlayers[i].matchId
      && r.matchPlayers[i].playerId == s.matchPlayers[i].playerId
    ensures WellFormed(s) ==> WellFormed(r)
  {
    s.(matchPlayers := SetScore(s.matchPlayers, id, marks, points))
  }

  /** Rescoring a record in the store rescores it in its match's list and
      nowhere else. */
  lemma {:induction false} RescoreCommutesWithQuery(xs: seq<MatchPlayer>, matchId: nat, id: nat, marks: Marks, points: nat)
    ensures Filter(SetScore(xs, id, marks, points), InMatch(matchId))
         == SetScore(Filter(xs, InMatch(matchId)), id, marks, points)
  {
    var keep := InMatch(matchId);
    if |xs| > 0 {
      var ys := SetScore(xs, id, marks, points);
      var rest := Filter(xs[1..], keep);
      assert ys[1..] == SetScore(xs[1..], id, marks, points);
      RescoreCommutesWithQuery(xs[1..], matchId, id, marks, points);
      assert Filter(ys[1..], keep) == SetScore(rest, id, marks, points);
      if keep(xs[0]) {
        assert SetScore([xs[0]], id, marks, points) == [ys[0]];
        SetScoreAppend([xs[0]], rest, id, marks, points);
        assert Filter(xs, keep) == [xs[0]] + rest;
        assert Filter(ys, keep) == [ys[0]] + Filter(ys[1..], keep);
      } else {
        assert Filter(xs, keep) == [] + rest;
        assert Filter(ys, keep) == [] + Filter(ys[1..], keep);
      }
    }
  }

  lemma SetScoreAppend(a: seq<MatchPlayer>, b: seq<MatchPlayer>, id: nat, marks: Marks, points: nat)
    ensures SetScore(a + b, id, marks, points) == SetScore(a, id, marks, points) + SetScore(b, id, marks, points)
  {
  }

  lemma UpdateMatchPlayerQuery(s: Store, matchId: nat, id: nat, marks: Marks, points: nat)
    ensures GetMatchPlayers(UpdateMatchPlayer(s, id, marks, points), matchId)
         == SetScore(GetMatchPlayers(s, matchId), id, marks, points)
  {
    RescoreCommutesWithQuery(s.matchPlayers, matchId, id, marks, points);
  }

  /** The match with `matchId` as completeMatch leaves it. */
  function Completed(m: Match, winnerId: nat): Match
  {
    m.(winnerId := Some(winnerId), completed := true)
  }

  /** Mark the match completed with its winner. Dexie's update of an
      unknown key changes nothing and reports no error. */
  function CompleteMatch(s: Store, matchId: nat, winnerId: nat): (r: Store)
    ensures r.players == s.players && r.matchPlayers == s.matchPlayers
    ensures r.nextPlayerId == s.nextPlayerId && r.nextMatchId == s.nextMatchId
            && r.nextMatchPlayerId == s.nextMatchPlayerId
    ensures |r.matches| == |s.matches|
    ensures forall i :: 0 <= i < |s.matches| && s.matches[i].id != matchId ==> r.matches[i] == s.matches[i]
    ensures forall i :: 0 <= i < |s.matches| && s.matches[i].id == matchId ==>
      r.matches[i].completed && r.matches[i].winnerId == Some(winnerId)
      && r.matches[i].id == matchId && r.matches[i].playerIds == s.matches[i].playerIds
    ensures (forall i :: 0 <= i < |s.matches| ==> s.matches[i].id != matchId) ==> r == s
    ensures WellFormed(s) ==> WellFormed(r)
  {
    var ms := seq(|s.matches|, i requires 0 <= i < |s.matches| =>
      if s.matches[i].id == matchId then Completed(s.matches[i], winnerId) else s.matches[i]);
    assert (forall i :: 0 <= i < |s.matches| ==> s.matches[i].id != matchId) ==> ms == s.matches;
    s.(matches := ms)
  }

  /** Some record of `s` ties player `playerId` to match `matchId`. */
  ghost predicate PlayedIn(s: Store, playerId: nat, matchId: nat)
  {
    exists mp :: mp in s.matchPlayers && mp.playerId == playerId && mp.matchId == matchId
  }

  /** Every record of match `matchId` belongs to player `playerId`. */
  ghost predicate OnlyPlayer(s: Store, playerId: nat, matchId: nat)
  {
    forall mp :: mp in s.matchPlayers && mp.matchId == matchId ==> mp.playerId == playerId
  }

  /** Delete a player with their records, then every match of theirs left
      with no records at all. */
  function DeletePlayer(s: Store, playerId: nat): (r: Store)
    ensures forall p :: p in r.players <==> p in s.players && p.id != playerId
    ensures forall mp :: mp in r.matchPlayers <==> mp in s.matchPlayers && mp.playerId != playerId
    ensures forall m :: m in r.matches <==>
      m in s.matches && !(PlayedIn(s, playerId, m.id) && OnlyPlayer(s, playerId, m.id))
    ensures r.nextPlayerId == s.nextPlayerId && r.nextMatchId == s.nextMatchId
            && r.nextMatchPlayerId == s.nextMatchPlayerId
    ensures WellFormed(s) ==> WellFormed(r)
  {
    var affected := set mp | mp in s.matchPlayers && mp.playerId == playerId :: mp.matchId;
    var records := Filter(s.matchPlayers, (mp: MatchPlayer) => mp.playerId != playerId);
    var matches := Filter(s.matches, (m: Match) =>
      !(m.id in affected && !exists mp :: mp in records && mp.matchId == m.id));
    var players := Filter(s.players, (p: Player) => p.id != playerId);
    var r := s.(players := players, matches := matches, matchPlayers := records);
    FilterAscending(s.players, (p: Player) => p.id != playerId, PlayerKey);
    FilterKeysBelow(s.players, (p: Player) => p.id != playerId, PlayerKey, s.nextPlayerId);
    FilterAscending(s.matches, (m: Match) =>
      !(m.id in affected && !exists mp :: mp in records && mp.matchId == m.id), MatchKey);
    FilterKeysBelow(s.matches, (m: Match) =>
      !(m.id in affected && !exists mp :: mp in records && mp.matchId == m.id), MatchKey, s.nextMatchId);
    FilterAscending(s.matchPlayers, (mp: MatchPlayer) => mp.playerId != playerId, RecordKey);
    FilterKeysBelow(s.matchPlayers, (mp: MatchPlayer) => mp.playerId != playerId, RecordKey, s.nextMatchPlayerId);
    FilterKeysBelow(s.matchPlayers, (mp: MatchPlayer) => mp.playerId != playerId, RecordMatch, s.nextMatchId);
    r
  }

  /** Delete a match and all of its records; nothing else changes. */
  function DeleteMatch(s: Store, matchId: nat): (r: Store)
    ensures r.players == s.players
    ensures forall mp :: mp in r.matchPlayers <==> mp in s.matchPlayers && mp.matchId != matchId
    ensures forall m :: m in r.matches <==> m in s.matches && m.id != matchId
    ensures r.nextPlayerId == s.nextPlayerId && r.nextMatchId == s.nextMatchId
            && r.nextMatchPlayerId == s.nextMatchPlayerId
    ensures WellFormed(s) ==> WellFormed(r)
  {
    var records := Filter(s.matchPlayers, (mp: MatchPlayer) => mp.matchId != matchId);
    var matches := Filter(s.matches, (m: Match) => m.id != matchId);
    var r := s.(matches := matches, matchPlayers := records);
    FilterAscending(s.matches, (m: Match) => m.id != matchId, MatchKey);
    FilterKeysBelow(s.matches, (m: Match) => m.id != matchId, MatchKey, s.nextMatchId);
    FilterAscending(s.matchPlayers, (mp: MatchPlayer) => mp.matchId != matchId, RecordKey);
    FilterKeysBelow(s.matchPlayers, (mp: MatchPlayer) => mp.matchId != matchId, RecordKey, s.nextMatchPlayerId);
    FilterKeysBelow(s.matchPlayers, (mp: MatchPlayer) => mp.matchId != matchId, RecordMatch, s.nextMatchId);
    r
  }
}
