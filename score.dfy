/** The scoring rules of the Tetris game, as pure functions over a score record.
    A record carries the cumulative score, the cumulative count of cleared rows,
    the level used as the point multiplier, and whether the last scoring line
    clear was a tetris (four rows at once).  The stored `level` is a field of its
    own: the rules multiply by it, and nothing here keeps it equal to the level
    derived from the cleared-row count. */
module Score {

  datatype ScoreRecord = ScoreRecord(score: int, linesCleared: int, level: int, lastTetris: bool)

  /** The record a new game starts from. */
  function NewScore(): (r: ScoreRecord)
    ensures r.score == 0 && r.linesCleared == 0 && r.level == 1 && !r.lastTetris
  {
    ScoreRecord(0, 0, 1, false)
  }

  /** The level derived from the rows cleared so far: one level per ten rows,
      starting at one.  The source floors a real quotient; for the divisor 10
      Dafny's integer division is that floor, negative counts included. */
  function Level(s: ScoreRecord): (r: int)
    ensures 10 * (r - 1) <= s.linesCleared < 10 * r
    ensures s.linesCleared >= 0 ==> r >= 1
  {
    s.linesCleared / 10 + 1
  }

  /** Points for clearing `rows` rows at once, before the level multiplier.
      A tetris that follows a tetris earns the back-to-back bonus. */
  function PointTable(rows: int, wasTetris: bool): (base: nat)
    ensures base > 0 <==> 1 <= rows <= 4
  {
    if rows == 1 then 100
    else if rows == 2 then 300
    else if rows == 3 then 500
    else if rows == 4 then (if wasTetris then 1200 else 800)
    else 0
  }

  /** The tetris flag after a clear of `rows` rows: a single, double or triple
      resets it, a tetris sets it, any other count leaves it alone. */
  function NextFlag(rows: int, wasTetris: bool): (r: bool)
    ensures rows == 4 ==> r
    ensures r != wasTetris ==> 1 <= rows <= 4
  {
    if 1 <= rows <= 3 then false
    else if rows == 4 then true
    else wasTetris
  }

  /** The record after a line clear of `rows` rows.  The count is not
      validated: a count outside 1..4 scores nothing, yet is still added to
      the cleared-row total. */
  function AfterClear(s: ScoreRecord, rows: int): (r: ScoreRecord)
    ensures r.linesCleared == s.linesCleared + rows
    ensures r.level == s.level
    ensures rows == 1 ==> r.score == s.score + 100 * s.level && !r.lastTetris
    ensures rows == 2 ==> r.score == s.score + 300 * s.level && !r.lastTetris
    ensures rows == 3 ==> r.score == s.score + 500 * s.level && !r.lastTetris
    ensures rows == 4 && !s.lastTetris ==> r.score == s.score + 800 * s.level && r.lastTetris
    ensures rows == 4 && s.lastTetris ==> r.score == s.score + 1200 * s.level && r.lastTetris
    ensures !(1 <= rows <= 4) ==> r.score == s.score && r.lastTetris == s.lastTetris
  {
    ScoreRecord(s.score + PointTable(rows, s.lastTetris) * s.level,
                s.linesCleared + rows,
                s.level,
                NextFlag(rows, s.lastTetris))
  }

  /** The record after `points` drop points are added.  Negative points are
      not rejected. */
  function AfterPoints(s: ScoreRecord, points: int): (r: ScoreRecord)
    ensures r.score == s.score + points
    ensures r.linesCleared == s.linesCleared && r.level == s.level && r.lastTetris == s.lastTetris
  {
    s.(score := s.score + points)
  }

  /** A new game is on derived level one as well as stored level one. */
  lemma NewGameOnLevelOne()
    ensures Level(NewScore()) == 1 == NewScore().level
  {
  }

  /** A clear never lowers the derived level, and a clear of at most four
      rows raises it by at most one. */
  lemma LevelAfterClear(s: ScoreRecord, rows: int)
    requires 0 <= rows <= 4
    ensures Level(s) <= Level(AfterClear(s, rows)) <= Level(s) + 1
  {
  }

  /** The points a clear awards never depend on the score so far, so drop
      points and line clears can be applied in either order. */
  lemma ClearAndDropCommute(s: ScoreRecord, rows: int, points: int)
    ensures AfterClear(AfterPoints(s, points), rows) == AfterPoints(AfterClear(s, rows), points)
  {
  }

  /** Two drops add up to one drop of their sum. */
  lemma DropsAdd(s: ScoreRecord, p: int, q: int)
    ensures AfterPoints(AfterPoints(s, p), q) == AfterPoints(s, p + q)
  {
  }

  // ---------------------------------------------------------------------
  // A game session: the sequence of scoring calls the game driver makes.

  /** One call into the scoring rules: a line clear of `rows` rows, or a
      manual drop worth `points` points. */
  datatype Event = LineClear(rows: int) | Drop(points: int)

  /** A line clear that scores points and moves the tetris flag. */
  predicate Scoring(e: Event)
  {
    e.LineClear? && 1 <= e.rows <= 4
  }

  function Step(s: ScoreRecord, e: Event): ScoreRecord
  {
    match e
    case LineClear(rows) => AfterClear(s, rows)
    case Drop(points) => AfterPoints(s, points)
  }

  /** The record after the events, applied first to last. */
  function Run(s: ScoreRecord, events: seq<Event>): ScoreRecord
    decreases |events|
  {
    if events == [] then s else Step(Run(s, events[..|events| - 1]), events[|events| - 1])
  }

  /** Total rows over the line clears among the events. */
  function RowsIn(events: seq<Event>): int
    decreases |events|
  {
    if events == [] then 0
    else
      var e := events[|events| - 1];
      RowsIn(events[..|events| - 1]) + (if e.LineClear? then e.rows else 0)
  }

  /** Total points over the drops among the events. */
  function DropTotal(events: seq<Event>): int
    decreases |events|
  {
    if events == [] then 0
    else
      var e := events[|events| - 1];
      DropTotal(events[..|events| - 1]) + (if e.Drop? then e.points else 0)
  }

  /** No call ever writes the stored level. */
  lemma {:induction false} RunKeepsLevel(s: ScoreRecord, events: seq<Event>)
    ensures Run(s, events).level == s.level
    decreases |events|
  {
    if events != [] {
      RunKeepsLevel(s, events[..|events| - 1]);
    }
  }

  /** The cleared-row total grows by exactly the rows of every line clear,
      counts outside 1..4 included. */
  lemma {:induction false} RunLinesCleared(s: ScoreRecord, events: seq<Event>)
    ensures Run(s, events).linesCleared == s.linesCleared + RowsIn(events)
    decreases |events|
  {
    if events != [] {
      RunLinesCleared(s, events[..|events| - 1]);
    }
  }

  /** Turns without a scoring line clear change the score only by the drop
      points, and leave the tetris flag as it was. */
  lemma {:induction false} RunQuietTurns(s: ScoreRecord, events: seq<Event>)
    requires forall i :: 0 <= i < |events| ==> !Scoring(events[i])
    ensures Run(s, events).score == s.score + DropTotal(events)
    ensures Run(s, events).lastTetris == s.lastTetris
    decreases |events|
  {
    if events != [] {
      var init := events[..|events| - 1];
      assert forall i :: 0 <= i < |init| ==> init[i] == events[i];
      RunQuietTurns(s, init);
      assert !Scoring(events[|events| - 1]);
    }
  }

  /** With a non-negative level and non-negative drop points the score never
      goes down, whatever the line clears. */
  lemma {:induction false} RunScoreMonotone(s: ScoreRecord, events: seq<Event>)
    requires s.level >= 0
    requires forall i :: 0 <= i < |events| ==> (events[i].Drop? ==> events[i].points >= 0)
    ensures Run(s, events).score >= s.score
    decreases |events|
  {
    if events != [] {
      var init := events[..|events| - 1];
      assert forall i :: 0 <= i < |init| ==> init[i] == events[i];
      RunScoreMonotone(s, init);
      var before := Run(s, init);
      RunKeepsLevel(s, init);
      var e := events[|events| - 1];
      if e.LineClear? {
        assert PointTable(e.rows, before.lastTetris) * before.level >= 0;
      }
    }
  }

  /** The tetris flag is a two-state machine: after the events it is set
      exactly when the last scoring line clear was a tetris, or, when no
      line clear scored, when it was set to begin with. */
  lemma {:induction false} RunFlag(s: ScoreRecord, events: seq<Event>)
    ensures Run(s, events).lastTetris <==>
      (exists i :: 0 <= i < |events| && events[i] == LineClear(4) && NoScoringAfter(events, i)) ||
      (s.lastTetris && NoScoringAfter(events, -1))
    decreases |events|
  {
    if events != [] {
      var n := |events|;
      var init, e := events[..n - 1], events[n - 1];
      RunFlag(s, init);
      forall i | -1 <= i < n - 1
        ensures NoScoringAfter(events, i) <==> NoScoringAfter(init, i) && !Scoring(e)
      {
        assert forall j :: i < j < n - 1 ==> init[j] == events[j];
      }
      if Scoring(e) {
        assert !NoScoringAfter(events, -1);
        if e == LineClear(4) {
          assert NoScoringAfter(events, n - 1);
        } else {
          assert forall i :: 0 <= i < n ==> !NoScoringAfter(events, i) || i == n - 1;
        }
      } else {
        assert !(events[n - 1] == LineClear(4));
        assert forall i :: 0 <= i < n - 1 ==> events[i] == init[i];
      }
    }
  }

  /** No scoring line clear among the events after position `i`. */
  predicate NoScoringAfter(events: seq<Event>, i: int)
  {
    forall j :: i < j < |events| && 0 <= j ==> !Scoring(events[j])
  }

  /** `k` tetrises in a row. */
  function Tetrises(k: nat): (events: seq<Event>)
    ensures |events| == k
  {
    seq(k, _ => LineClear(4))
  }

  /** A streak of `k` tetrises pays 800 times the level for the first one,
      unless the previous scoring clear was already a tetris, and 1200 times
      the level for every back-to-back one; the flag ends up set. */
  lemma {:induction false} TetrisStreak(s: ScoreRecord, k: nat)
    ensures Run(s, Tetrises(k)).score == s.score + s.level * StreakBase(s.lastTetris, k)
    ensures Run(s, Tetrises(k)).lastTetris == (k > 0 || s.lastTetris)
  {
    if k > 0 {
      assert Tetrises(k)[..k - 1] == Tetrises(k - 1);
      TetrisStreak(s, k - 1);
      RunKeepsLevel(s, Tetrises(k - 1));
      var before := Run(s, Tetrises(k - 1));
      var base := StreakBase(s.lastTetris, k - 1);
      var award := if before.lastTetris then 1200 else 800;
      assert Tetrises(k)[k - 1] == LineClear(4);
      assert Run(s, Tetrises(k)) == AfterClear(before, 4);
      assert AfterClear(before, 4).score == before.score + award * s.level;
      assert StreakBase(s.lastTetris, k) == base + award;
      Distribute(s.level, base, award);
    }
  }

  /** Distributivity, stated on its own so that the solver does not have to
      find it among the facts of the streak proof. */
  lemma Distribute(a: int, b: int, c: int)
    ensures a * (b + c) == a * b + a * c
  {
  }

  /** Base points of a streak of `k` tetrises: 800 for the first unless the
      previous scoring clear was a tetris, 1200 for every back-to-back one. */
  function StreakBase(wasTetris: bool, k: nat): nat
  {
    if k == 0 then 0
    else if wasTetris then 1200 * k
    else 800 + 1200 * (k - 1)
  }

  /** The derived level and the stored one drift apart: after twelve rows a
      new game has reached derived level 2 but still multiplies by level 1. */
  lemma StoredLevelIsNotDerived()
    ensures Run(NewScore(), [LineClear(4), LineClear(4), LineClear(4)]).level == 1
    ensures Level(Run(NewScore(), [LineClear(4), LineClear(4), LineClear(4)])) == 2
  {
    var evs := [LineClear(4), LineClear(4), LineClear(4)];
    RunKeepsLevel(NewScore(), evs);
    RunLinesCleared(NewScore(), evs);
    assert evs[..2] == [LineClear(4), LineClear(4)];
    assert evs[..2][..1] == [LineClear(4)];
    assert evs[..2][..1][..0] == [];
    assert RowsIn(evs[..2][..1]) == 4;
    assert RowsIn(evs[..2]) == 8;
  }
}
