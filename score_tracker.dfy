/** The score object of a running game.  The game driver owns one and the
    scoring operations overwrite its fields in place; each operation hands back
    the very object it was given.  The driver may also write `level` directly. */
module ScoreTracker {
  import Score

  class Tracker {
    var score: int
    var linesCleared: int
    var level: int
    var lastTetris: bool

    /** The value the fields currently hold. */
    function Record(): Score.ScoreRecord
      reads this
    {
      Score.ScoreRecord(score, linesCleared, level, lastTetris)
    }

    /** A score object for a new game. */
    constructor ()
      ensures Record() == Score.NewScore()
    {
      score, linesCleared, level, lastTetris := 0, 0, 1, false;
    }

    /** Scores a clear of `rows` rows at the stored level, updates the tetris
        flag, and adds `rows` to the cleared-row total. */
    method ClearedLines(rows: int) returns (r: Tracker)
      modifies this
      ensures r == this
      ensures level == old(level) && linesCleared == old(linesCleared) + rows
      ensures score == old(score) + Score.PointTable(rows, old(lastTetris)) * old(level)
      ensures lastTetris == Score.NextFlag(rows, old(lastTetris))
      ensures Record() == Score.AfterClear(old(Record()), rows)
    {
      if rows == 1 {
        score := score + 100 * level;
        lastTetris := false;
      } else if rows == 2 {
        score := score + 300 * level;
        lastTetris := false;
      } else if rows == 3 {
        score := score + 500 * level;
        lastTetris := false;
      } else if rows == 4 && !lastTetris {
        score := score + 800 * level;
        lastTetris := true;
      } else if rows == 4 && lastTetris {
        score := score + 1200 * level;
        lastTetris := true;
      }
      linesCleared := linesCleared + rows;
      r := this;
    }

    /** Adds `points` drop points to the score; nothing else changes. */
    method AddPoints(points: int) returns (r: Tracker)
      modifies this
      ensures r == this
      ensures score == old(score) + points
      ensures linesCleared == old(linesCleared) && level == old(level) && lastTetris == old(lastTetris)
      ensures Record() == Score.AfterPoints(old(Record()), points)
    {
      score := score + points;
      r := this;
    }
  }

  /** The game's scoring tests at level ten: a fresh score object, its stored
      level overwritten with 10 and its tetris flag set as the test arranges,
      then one line clear of `rows` rows.  A turn that clears nothing scores
      nothing, whatever the flag. */
  method LevelTenClear(rows: int, wasTetris: bool) returns (total: int)
    ensures rows == 1 ==> total == 1000
    ensures rows == 2 ==> total == 3000
    ensures rows == 3 ==> total == 5000
    ensures rows == 4 ==> total == (if wasTetris then 12000 else 8000)
    ensures rows == 0 ==> total == 0
  {
    var t := new Tracker();
    t.lastTetris := wasTetris;
    t.level := 10;
    var _ := t.ClearedLines(rows);
    total := t.score;
  }
}
