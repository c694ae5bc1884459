# Tetris scoring, modelled in Dafny

This project models the scoring module of a browser Tetris game (`web-app/Score.js`).
A score object holds four fields: the cumulative `score`, the cumulative count of
cleared rows (`lines_cleared`, here `linesCleared`), the `level` that multiplies
line-clear points, and `lastTetris`, which records whether the last scoring line
clear was a tetris (four rows at once). The module has four operations:

- `new_score` builds the object for a new game;
- `level` derives a level from the rows cleared, one level per ten rows;
- `cleared_lines` awards points for a line clear from a fixed table, with a bonus
  for back-to-back tetrises, and adds the rows to the running total;
- `add_points` adds the points of a manual drop.

The stored `level` field and the derived level are independent. The points table
multiplies by the stored field, and nothing in the module ever writes that field.
The game's tests overwrite it directly (`level = 10` on a fresh object). The model
keeps it as a field of its own and proves that the two can drift apart.

Two modules:

- `Score` (`score.dfy`) is the pure model. It has the record `ScoreRecord`,
  `NewScore`, `Level`, the points table `PointTable`, and the records after a
  line clear (`AfterClear`) and after a drop (`AfterPoints`). It also defines a
  game session as a sequence of scoring calls (`Event`, `Run`) and proves what
  holds over whole sessions: the flag machine, the tetris-streak bonus, the row
  total, and that the stored level never moves.
- `ScoreTracker` (`score_tracker.dfy`) is the object the source mutates in place.
  Class `Tracker` has the four fields. Its constructor models `new_score`. Its
  methods `ClearedLines` and `AddPoints` overwrite the fields and return the same
  object, as the source returns the object it was given. Each method's
  postcondition gives every field's new value in terms of the old fields. It also
  ties the new record to `Score.AfterClear` or `Score.AfterPoints` of the old one.

The source divides `lines_cleared` by 10 as a real number and floors the result.
For the divisor 10 that is Dafny's integer division, negative counts included.

`Score.js` validates neither the row count nor the drop points, and the model
follows it: any other row count scores nothing, leaves
the flag alone, and is still added to `linesCleared`. Negative drop points are
simply added.

## Model

| member | source | states |
|---|---|---|
| Score.NewScore | web-app/Score.js:24-31 | a new game's record has score 0, no rows cleared, stored level 1 and the tetris flag clear |
| Score.NewGameOnLevelOne | web-app/Score.js:24-43 | a new game is on derived level 1, the same as its stored level |
| Score.Level | web-app/Score.js:41-43 | the derived level r is the floor of rows/10 plus one: 10(r-1) <= rows < 10r, so r >= 1 whenever the row count is non-negative |
| Score.PointTable | web-app/Score.js:56-72 | a line clear earns base points exactly when it clears 1 to 4 rows |
| Score.NextFlag | web-app/Score.js:56-72 | a tetris always leaves the flag set, and the flag changes only on a clear of 1 to 4 rows |
| Score.AfterClear | web-app/Score.js:56-75 | a clear of 1, 2 or 3 rows adds 100, 300 or 500 times the stored level and clears the flag; a tetris adds 800 times the level and sets the flag, or 1200 times it when the flag was already set; any other count leaves score and flag alone; the row total always grows by exactly the count; the stored level never changes |
| Score.AfterPoints | web-app/Score.js:87-90 | a drop adds exactly its points to the score and changes no other field |
| Score.LevelAfterClear | web-app/Score.js:41-75 | a clear of 0 to 4 rows never lowers the derived level and raises it by at most one |
| Score.ClearAndDropCommute | web-app/Score.js:56-90 | line-clear points do not depend on the score so far, so a drop and a clear give the same record in either order |
| Score.DropsAdd | web-app/Score.js:87-90 | two drops give the same record as one drop of their sum |
| Score.RunKeepsLevel | web-app/Score.js:56-90 | no sequence of clears and drops changes the stored level |
| Score.RunLinesCleared | web-app/Score.js:73 | over any session the row total grows by exactly the sum of the row counts of its clears, out-of-range counts included |
| Score.RunQuietTurns | web-app/Score.js:56-90 | a session without a scoring clear (1 to 4 rows) changes the score only by its drop points and keeps the tetris flag |
| Score.RunScoreMonotone | web-app/Score.js:56-90 | with a non-negative stored level and non-negative drop points the score never decreases over a session |
| Score.RunFlag | web-app/Score.js:56-72 | after a session the flag is set if and only if the last scoring clear was a tetris, or no clear scored and it was set at the start |
| Score.TetrisStreak | web-app/Score.js:66-71 | k tetrises in a row add the level times 800 + 1200(k-1), or 1200k when the previous scoring clear was a tetris, and leave the flag set |
| Score.StoredLevelIsNotDerived | web-app/Score.js:41-75 | after three tetrises from a new game the derived level is 2 while the stored multiplier is still 1 |
| ScoreTracker.Tracker.constructor | web-app/Score.js:24-31 | a fresh score object holds the new-game record |
| ScoreTracker.Tracker.ClearedLines | web-app/Score.js:56-75 | overwrites the fields in place: score grows by the table's points times the old stored level, the flag takes its next state, rows grow by the count, level is kept; the new record is AfterClear of the old one; the same object is returned |
| ScoreTracker.Tracker.AddPoints | web-app/Score.js:87-90 | overwrites the score in place with the old score plus the points, keeps the other fields, and returns the same object |
| ScoreTracker.LevelTenClear | web-app/tests/Score.test.js:81-466 | on a fresh object with stored level 10, one clear scores 1000, 3000, 5000 for 1, 2, 3 rows, 8000 for a tetris, 12000 for a back-to-back tetris, and 0 when no row is cleared |

## Left out

- `Object.freeze(Score)` and the module export: a JavaScript namespace mechanism with nothing to verify.
- JavaScript numbers are doubles. The model uses unbounded integers, so rounding of very large scores is not modelled.
- `lastTetris` is a `bool`. The source compares it with `=== false` and `=== true`. A non-boolean value would match neither branch, and the model cannot express that.
- The game driver `Tetris.js` is not part of this model. It holds the board, moves pieces and counts cleared rows. It also computes drop points (1 per cell for a soft drop, 2 for a hard drop). The model takes the row count and the drop points as inputs.
- Nothing rejects a row count outside 0..4 or negative drop points, because the source does not. `RunScoreMonotone` therefore requires non-negative drop points and a non-negative level.
