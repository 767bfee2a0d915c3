/** Whole-database backup (db.js `exportData`/`importData`). A payload
    field that JavaScript would read as falsy (missing, null, or a version
    of 0) is `None` here, or `Some(0)` for the version. */
module Backup {
  import opened Wrappers
  import opened Records
  import opened Seqs
  import opened Store

  const FormatVersion: int := 1

  datatype Payload = Payload(version: Option<int>, players: Option<seq<Player>>,
                             matches: Option<seq<Match>>, matchPlayers: Option<seq<MatchPlayer>>)

  datatype BackupError = InvalidFormat

  /** A backup of the three tables, stamped with the format version. */
  function ExportData(s: Store): (d: Payload)
    ensures d.version == Some(FormatVersion)
    ensures d.players == Some(s.players) && d.matches == Some(s.matches)
            && d.matchPlayers == Some(s.matchPlayers)
  {
    Payload(Some(FormatVersion), Some(s.players), Some(s.matches), Some(s.matchPlayers))
  }

  /** The version is truthy and all three tables are present. */
  predicate Accepted(d: Payload)
  {
    d.version.Some? && d.version.value != 0
    && d.players.Some? && d.matches.Some? && d.matchPlayers.Some?
  }

  /** Validate, then clear the three tables and add the payload's records.
      Clearing does not reset a key generator; adding records with explicit
      keys raises it past them. On failure the caller keeps its store. */
  function ImportData(s: Store, d: Payload): (r: Result<Store, BackupError>)
    ensures r.Failure? <==> !Accepted(d)
    ensures r.Success? ==>
      && r.value.players == d.players.value
      && r.value.matches == d.matches.value
      && r.value.matchPlayers == d.matchPlayers.value
      && r.value.nextPlayerId >= s.nextPlayerId
      && r.value.nextMatchId >= s.nextMatchId
      && r.value.nextMatchPlayerId >= s.nextMatchPlayerId
  {
    if d.version.None? || d.version.value == 0 || d.players.None? || d.matches.None?
       || d.matchPlayers.None? then
      Failure(InvalidFormat)
    else
      Success(Store(d.players.value, d.matches.value, d.matchPlayers.value,
                    BumpGenerator(s.nextPlayerId, d.players.value, PlayerKey),
                    BumpGenerator(s.nextMatchId, d.matches.value, MatchKey),
                    BumpGenerator(s.nextMatchPlayerId, d.matchPlayers.value, RecordKey)))
  }

  /** Importing a backup into the store it came from gives that store back
      exactly, generators included. */
  lemma ExportImportRoundTrip(s: Store)
    requires WellFormed(s)
    ensures ImportData(s, ExportData(s)) == Success(s)
  {
  }

  /** Importing a backup into any store reproduces the backed-up tables,
      and new keys handed out afterwards clash with none of them. */
  lemma ImportReproducesTables(s: Store, t: Store)
    ensures ImportData(t, ExportData(s)).Success?
    ensures var r := ImportData(t, ExportData(s)).value;
      && r.players == s.players && r.matches == s.matches && r.matchPlayers == s.matchPlayers
      && KeysBelow(r.players, PlayerKey, r.nextPlayerId)
      && KeysBelow(r.matches, MatchKey, r.nextMatchId)
      && KeysBelow(r.matchPlayers, RecordKey, r.nextMatchPlayerId)
  {
  }
}
