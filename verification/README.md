# Cricket darts scorekeeper — Dafny model

This project models the scoring core of a browser app that keeps score for
Cricket darts. It covers two parts.

- **The match engine of `app.js`.** A session holds the match's records in
  turn order, the current player, the current dart (1..3) and a linear undo
  stack. The engine has three actions. A hit adds marks to one of seven
  targets (20 down to 15, and the bull). Marks saturate at 3, and marks past
  closing score while an opponent still has that target open. A miss uses up
  a dart. An undo restores the last hit's record and turn position. After
  each hit the winner check runs: all seven targets closed, and at least as
  many points as every opponent.
- **The record store of `db.js`.** Players, Matches and MatchPlayers are
  modelled as three key-ordered tables. Each table has an auto-increment key
  generator. The model covers match creation, score updates, match
  completion, the cascading deletes, the integer part of the player
  statistics, and whole-database export and import.

Every operation is a pure function from state to state. The `App` module
connects the engine to the store. Starting or resuming a match resets the
session. Each hit and each undo writes the acting record back. A winning hit
completes the match and ends the session. The module proves that the store's
records of the current match always equal the session's records.

Modules: `Wrappers` (Option/Result), `Seqs` (order-preserving filter, key
order, key generator), `Targets`, `Records`, `Scoring`, `Engine`, `Store`,
`Stats`, `Backup`, `App`.

Behaviour of the code that a reader might not expect, and that the model
keeps:

- `completeMatch` on an unknown match id: Dexie's `update` changes nothing
  and raises no error, so `Store.CompleteMatch` leaves the store unchanged.
- `createMatch` checks nothing about its player list (not its length, not
  that the ids are distinct). Only `startNewGame` refuses fewer than two
  players (`App.StartNewGame`).
- `importData` tests `!data.version`, so a version of 0 counts as missing
  and is refused like an absent one.
- `deletePlayer` does not edit the `playerIds` or `winnerId` of the matches
  it keeps, and neither does the model.
- The closed-target glyph returned by `getMarksDisplay` (app.js:346) is the
  three-character literal U+201A U+00EC U+00E7 as it stands in the file.
  Those are the UTF-8 bytes of a circled X (U+24CD) read as Mac Roman.
  `Targets.ClosedGlyph` is that literal.

## Model

| member | source | states |
|---|---|---|
| Targets.AllClosedIffEveryTarget | app.js:540-545 | Checking the seven listed targets for three marks is the same as every target being closed |
| Targets.MarksDisplay | app.js:342-348 | The glyph is empty exactly for counts of 0 or less, is `/` for 1 and `X` for 2, and is the closed-target literal exactly for counts of 3 or more |
| Targets.MarksDisplayDistinguishes | app.js:342-348 | Counts 0, 1, 2 and 3 each get a different glyph |
| Scoring.PointsEarned | app.js:473-489 | With an opponent open, a hit earns its excess marks (beyond 3) times the target value; with none open it earns 0; it earns something exactly when prior + multiplier exceeds 3 and an opponent is open |
| Scoring.ApplyHit | app.js:461-492 | The hit target's count becomes min(prior + multiplier, 3); every other target's count and the record's identity are unchanged; points grow by the points earned |
| Scoring.HitKeepsMarksInRange | app.js:466-471 | If every count is in 0..3 before a hit, every count is in 0..3 after it |
| Scoring.HitIsMonotone | app.js:463-492 | For counts in range, a hit never lowers a count or the points, and a closed target stays closed |
| Scoring.HitConservesMarks | app.js:464-484 | The marks added to the count plus the excess marks equal the multiplier; the points gained are 0 or the excess times the target value |
| Scoring.WinnerIffAllClosedAndTopScore | app.js:540-555 | With unique record ids, a record wins iff all seven targets are closed and its points equal the highest points in the match |
| Scoring.OpenTargetNeverWins | app.js:540-545 | A record with any open target never satisfies the winner check, whatever the points |
| Engine.NewSession | app.js:202-206 | A new or resumed session holds the given records, starts at the first player's first dart (index 0, dart 1) and has nothing to undo; with distinct ids and at least one record it is valid |
| Engine.NextPlayer | app.js:576-580 | The turn passes to the next index, wrapping from the last player to 0; nothing else changes |
| Engine.AdvanceDart | app.js:373-384 | A used dart keeps the dart in 1..3, pushes nothing onto the undo stack, leaves the records alone, and keeps the session valid |
| Engine.AdvanceDartIsOneThrow | app.js:373-380 | Each used dart moves the throw counter (index times 3 plus dart minus 1) on by exactly one, wrapping to 0 after the last dart of the last player |
| Engine.RecordHit | app.js:448-510 | A hit pushes a snapshot of the pre-hit record and turn position, changes only the acting record as ApplyHit says, reports a win exactly when the winner check holds, keeps the turn on a win, otherwise advances like a miss, and keeps the session valid |
| Engine.OpponentsOpenIgnoresActor | app.js:474-479 | Whether an opponent has the target open does not depend on the acting record's own new count |
| Engine.RecordHitDirect | app.js:438-446 | A click for any record but the current player's leaves the session unchanged and wins nothing; a click for the current player records the hit |
| Engine.FindById | app.js:405-407 | Returns the first position holding the id, or none when no record has it |
| Engine.Undo | app.js:400-422 | With nothing to undo the session is unchanged; otherwise the top snapshot is popped, the records keep their number, and validity is kept |
| Engine.UndoRevertsHit | app.js:400-421 | In a valid session, undo right after any hit gives back exactly the pre-hit session: records, player index, dart and undo stack |
| Engine.UndoSkipsMisses | app.js:400-421 | Misses push nothing, so when there is something to undo, undo after a miss has the same result as undo before it |
| Engine.Step | app.js:358 | A miss or a hit keeps the session valid, and a non-winning action moves the turn like a miss |
| Engine.ThreeDartsPassTurn | app.js:373-380 | From a turn's first dart, three non-winning actions (hits or misses) hand the turn to (index + 1) mod n at dart 1 |
| Engine.HitKeepsSessionMarksInRange | app.js:461-492 | If every record's counts are in 0..3 before a hit, they are afterwards; the acting record's counts and points do not decrease |
| Engine.TwoPlayerTwentyScenario | app.js:461-509 | Two fresh records: triple 20 closes 20 for 0 points; a single 20 then scores 20, leaving the same player on dart 3; once both have closed 20, more 20s score 0 |
| Records.SetScore | db.js:111-113 | Records with the given id get the new marks and points; every other record and field is unchanged |
| Store.EmptyStoreWellFormed | db.js:5-9 | The empty database, with every key generator at 1, satisfies the store invariant (keys ascending and below their generators) |
| Store.GetMatchPlayers | db.js:107-109 | The result holds exactly the store's records of that match; in a well-formed store they are in ascending key order with unique ids |
| Store.NewRecords | db.js:86-94 | One record per given player id, in order, with consecutive keys, zero marks and zero points |
| Store.CreateMatch | db.js:78-97 | The new match takes the next match key and is appended open with no winner; the new records are appended; players are untouched; well-formedness is kept |
| Store.CreateMatchRecords | db.js:78-97 | In a well-formed store, the new match's records are exactly one per given player id, in the given order, with all targets at 0 and 0 points |
| Store.CreatedRecordsAreNew | db.js:78-97 | In a well-formed store, the new match's record list is exactly the block of records the creation appended, since no earlier record refers to the fresh match key |
| Store.CreateMatchKeepsOtherMatches | db.js:78-97 | Creating a match leaves every other match's records unchanged |
| Store.UpdateMatchPlayer | db.js:111-113 | Only marks and points change; keys, match and player links, the other tables, and well-formedness are kept |
| Store.UpdateMatchPlayerQuery | db.js:107-113 | Updating a record in the store updates it in its match's record list and nowhere else |
| Store.CompleteMatch | db.js:115-120 | The match with that id becomes completed with that winner; every other match, record and player is unchanged; an unknown id changes nothing |
| Store.DeletePlayer | db.js:58-75 | Removes the player, all of that player's records, and exactly those matches where the player had a record and no other player did; everything else stays |
| Store.DeleteMatch | db.js:122-125 | Removes the match and exactly its records; players and everything else stay |
| Stats.PlayerRecords | db.js:129 | Exactly the store's records of that player |
| Stats.CountGames | db.js:130-134 | Games counts the completed matches listing the player; wins counts those the player won; wins never exceed games |
| Stats.WonAtMostPlayed | db.js:132-134 | The number of wins is at most the number of completed games |
| Stats.AddRecordMarks | db.js:142-145 | Adding one record raises each target's breakdown entry by that record's count on the target, and the running total stays the sum of the breakdown |
| Stats.SumRecords | db.js:136-146 | Total points is the sum of points over the records; each breakdown entry is that target's sum; the mark total is the sum of the breakdown |
| Stats.SumMarksByTarget | db.js:136-146 | Summing marks record by record equals summing the seven per-target totals |
| Stats.GetPlayerStats | db.js:128-160 | gamesPlayed counts completed matches with the player; wins counts those with the player as winner; wins + losses = gamesPlayed; point and mark totals cover all the player's records, completed or not; the breakdown sums to totalMarks |
| Stats.CompleteMatchCountsOneGame | db.js:115-134 | Completing an open match of the player adds one game for them, and one win exactly when they are the winner |
| Backup.ExportData | db.js:163-175 | The backup carries version 1 and the three tables exactly |
| Backup.ImportData | db.js:177-193 | Import fails exactly when the version is missing or 0, or a table is missing; on success the three tables are the payload's and no key generator is lowered |
| Backup.ExportImportRoundTrip | db.js:163-193 | Importing a well-formed store's own backup gives that store back exactly |
| Backup.ImportReproducesTables | db.js:177-193 | Importing any store's backup anywhere succeeds and reproduces its three tables, with every key below its generator |
| App.StartNewGame | app.js:192-206 | Fewer than two players is refused; otherwise a match is created and its session starts at index 0, dart 1, with nothing to undo |
| App.ResumeMatch | app.js:684-690 | A match with no records cannot be resumed; otherwise the session restarts on its stored records at index 0, dart 1, with nothing to undo, and the store is unchanged |
| App.HitClicked | app.js:438-510 | A click for anyone but the current player changes nothing; a winning hit ends the session and marks the match completed with the acting player as winner; a non-winning hit continues with the engine's session |
| App.MissClicked | app.js:358 | A miss uses up a dart and writes nothing to the store |
| App.UndoLast | app.js:400-418 | The session undoes as the engine does; with nothing to undo, nothing changes |
| App.EndGame | app.js:582-587 | Leaving the game keeps the store, so the match stays incomplete, and ends the session |
| App.StartNewGameConsistent | app.js:201-206 | After a successful start, the store's records of the new match equal the session's records, and the session is valid |
| App.ResumeMatchConsistent | app.js:684-690 | After a successful resume, the store and the session agree |
| App.HitWritesBack | app.js:494-509 | A hit by the current player, winning or not, leaves the store's records of the match equal to the post-hit session's records, so a completed match stores the winning marks and points |
| App.HitConsistent | app.js:494-509 | After any click, store and session stay consistent; after a hit by the current player, the store's records of the match are the post-hit session's records, also when the hit wins |
| App.MissConsistent | app.js:373-384 | A miss keeps the store and the session in agreement |
| App.UndoLastConsistent | app.js:413-417 | An undo writes back the restored record and keeps the store and the session in agreement |
| App.UndoRevertsHitInStore | app.js:400-421 | Undo right after a non-winning hit restores both the session and the store exactly |

## Left out

- Rendering and layout (`setupGameScreen`, `renderCricketBoard`, `updateGridCell` and the other update functions), screen changes, `escapeHtml`, and the `confirm`/`alert` dialogs. These are user interface. The confirmation before a delete or an end of game is left out with them.
- Player management outside deletion (`addPlayer`, `updatePlayer`, `getPlayer`, `getAllPlayers`), `clearAllData`, and the date ordering of `getAllMatches`. None of these is part of the scoring core. Dates (`createdDate`, `date`, `exportDate`) are not modelled.
- `winPercentage`, `averageMarksPerGame` and `averagePointsPerGame`. These are floating-point divisions formatted with `toFixed`. Their integer inputs (`wins`, `gamesPlayed`, `totalMarks`, `totalPoints`) are modelled.
- Reading, parsing and downloading the backup file (app.js:807-844). This is file and JSON I/O. `Backup` starts from the parsed payload.
- Asynchrony and store failures. Each store call is one atomic step. A failed write, which leaves the in-memory session ahead of the store, is not modelled.
- Backup.ImportData: Dexie's `bulkAdd` partly fails on a payload with repeated keys, and the store lists records in key order whatever order the payload uses. The model instead takes the payload's tables verbatim.
- JavaScript's dynamic typing. Marks, points and ids are natural numbers. A version is an integer or absent. A table is a list of records or absent. Payloads of any other shape are not modelled.
- Engine.RecordHit: the multiplier is any natural number. The page offers only 1, 2 and 3, and nothing in the hit code checks that range.
- Undo after a winning hit. When a hit wins, `App` ends the session; the page leaves the game screen, so no undo is offered.
