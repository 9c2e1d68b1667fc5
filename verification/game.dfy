/**
 * The level sequencer `Game.play` (game/logic.py).
 *
 * Levels 1 to 10 run in order with one required time fixed for the whole
 * game; level `L` asks for move `(L - 1) % 3` of Left-Right, Forward-Back,
 * Up-Down. The game stops at the first level that fails and reports it;
 * passing all ten is a win. The OLED screens, LED animations and the
 * slot-machine spin shown between levels are presentation and are not
 * modelled.
 */
module Game {
  import opened Wrappers
  import opened Accelerometer
  import Difficulty
  import Evaluator

  /** Number of levels in one game, `range(1, 11)`. */
  const LevelCount: nat := 10

  /** `motion_order`: the moves in the order the levels cycle through them. */
  const MotionOrder: seq<Move> := [LeftRight, FwdBack, UpDown]

  /** The move level `level` asks for, `motion_order[(level - 1) % 3]`. */
  function MoveFor(level: nat): (m: Move)
    requires 1 <= level
    ensures m == LeftRight <==> level % 3 == 1
    ensures m == FwdBack <==> level % 3 == 2
    ensures m == UpDown <==> level % 3 == 0
  {
    MotionOrder[(level - 1) % 3]
  }

  /** The moves repeat every three levels. */
  lemma MovesCycle(level: nat)
    requires 1 <= level
    ensures MoveFor(level + 3) == MoveFor(level)
  {
  }

  /** Levels 1, 4, 7 and 10 are Left-Right; 2, 5, 8 Forward-Back; 3, 6, 9 Up-Down. */
  lemma MoveSchedule()
    ensures MoveFor(1) == LeftRight && MoveFor(2) == FwdBack && MoveFor(3) == UpDown
    ensures MoveFor(10) == LeftRight
  {
  }

  /** How a game ends: all levels passed, or the level that failed. */
  datatype Outcome = Win | Lose(level: nat)

  /**
   * The `for level in range(...)` loop from `level` on; `attempt(l, m)` is
   * what `_perform_motion` returned at level `l` with the predicate of move `m`.
   */
  function PlayFrom(attempt: (nat, Move) -> bool, level: nat): (r: Outcome)
    requires 1 <= level <= LevelCount + 1
    ensures r.Win? <==> forall l :: level <= l <= LevelCount ==> attempt(l, MoveFor(l))
    ensures r.Lose? ==> level <= r.level <= LevelCount
    ensures r.Lose? ==> !attempt(r.level, MoveFor(r.level))
    ensures r.Lose? ==> forall l :: level <= l < r.level ==> attempt(l, MoveFor(l))
    decreases LevelCount + 1 - level
  {
    if level > LevelCount then Win
    else if !attempt(level, MoveFor(level)) then Lose(level)
    else PlayFrom(attempt, level + 1)
  }

  /**
   * `play`: a win exactly when every level passes; otherwise a loss at the
   * first level that fails, all earlier levels having passed.
   */
  function Play(attempt: (nat, Move) -> bool): (r: Outcome)
    ensures r.Win? <==> forall l :: 1 <= l <= LevelCount ==> attempt(l, MoveFor(l))
    ensures r.Lose? ==> 1 <= r.level <= LevelCount
    ensures r.Lose? ==> !attempt(r.level, MoveFor(r.level))
    ensures r.Lose? ==> forall l :: 1 <= l < r.level ==> attempt(l, MoveFor(l))
  {
    PlayFrom(attempt, 1)
  }

  /**
   * No level after the failing one is evaluated: any other oracle that
   * agrees up to and including the failing level loses at the same level.
   */
  lemma PlayIgnoresLevelsAfterLoss(a1: (nat, Move) -> bool, a2: (nat, Move) -> bool, level: nat)
    requires Play(a1) == Lose(level)
    requires forall l :: 1 <= l <= level ==> a1(l, MoveFor(l)) == a2(l, MoveFor(l))
    ensures Play(a2) == Lose(level)
  {
  }

  /** The predicate samples of one level: move `m` at the default threshold 3.0 on each reading of the level. */
  function LevelSamples(m: Move, sensor: (nat, nat) -> Reading, level: nat, window: nat): seq<bool>
  {
    seq(window, t requires 0 <= t < window => Detect(m, sensor(level, t), DefaultThreshold))
  }

  /** The motion ticks level `level` collects within its own window. */
  function MotionTicks(sensor: (nat, nat) -> Reading, level: nat, window: nat): nat
    requires 1 <= level
  {
    Evaluator.CountTrue(LevelSamples(MoveFor(level), sensor, level, window))
  }

  /**
   * Level `level` collects at least `need` ticks of its move in its window,
   * which admits at least one tick. Every level starts its own clock, so
   * `window(level)` may differ from level to level.
   */
  predicate LevelCleared(need: int, sensor: (nat, nat) -> Reading, window: nat -> nat, level: nat)
    requires 1 <= level
  {
    1 <= window(level) && need <= MotionTicks(sensor, level, window(level))
  }

  /**
   * `_perform_motion(func, need_time)` at each level, with `func` the move's
   * predicate at the default threshold, reading `sensor(level, tick)` for
   * the `window(level)` iterations that level's clock admits: the attempt at
   * a level's own move passes exactly when that level is cleared.
   */
  function LevelPasses(need: nat, sensor: (nat, nat) -> Reading, window: nat -> nat): (attempt: (nat, Move) -> bool)
    ensures forall level: nat :: 1 <= level ==>
      (attempt(level, MoveFor(level)) <==> LevelCleared(need, sensor, window, level))
  {
    var attempt := (level: nat, m: Move) =>
      Evaluator.Evaluate(LevelSamples(m, sensor, level, window(level)), window(level), need).Passed?;
    assert forall level: nat :: 1 <= level ==>
      (attempt(level, MoveFor(level)) <==> LevelCleared(need, sensor, window, level)) by {
      forall level: nat | 1 <= level
        ensures attempt(level, MoveFor(level)) <==> LevelCleared(need, sensor, window, level)
      {
        var s := LevelSamples(MoveFor(level), sensor, level, window(level));
        assert s[..window(level)] == s;
      }
    }
    attempt
  }

  /**
   * `play(difficulty_name)` on the accelerometer readings `sensor(level, tick)`:
   * an unknown name is the `KeyError` of the table lookup; otherwise the
   * game is won exactly when every level collects the difficulty's
   * `need_time` of motion within its own window, and lost at the first
   * level that does not.
   */
  function PlayGame(name: string, sensor: (nat, nat) -> Reading, window: nat -> nat): (r: Option<Outcome>)
    ensures r.None? <==> name !in Difficulty.Table
    ensures r.Some? ==> (r.value.Win? <==>
      forall l :: 1 <= l <= LevelCount ==> LevelCleared(Difficulty.Table[name], sensor, window, l))
    ensures r.Some? && r.value.Lose? ==>
      && 1 <= r.value.level <= LevelCount
      && !LevelCleared(Difficulty.Table[name], sensor, window, r.value.level)
      && forall l :: 1 <= l < r.value.level ==> LevelCleared(Difficulty.Table[name], sensor, window, l)
  {
    match Difficulty.NeedTime(name)
    case None => None
    case Some(need) => Some(Play(LevelPasses(need, sensor, window)))
  }

  /**
   * Shaking on every tick of every level wins at any difficulty whenever
   * every level's window admits at least the difficulty's need time.
   */
  lemma ContinuousShakingWins(name: string, sensor: (nat, nat) -> Reading, window: nat -> nat)
    requires name in Difficulty.Table
    requires forall level: nat, t: nat :: 1 <= level ==> Detect(MoveFor(level), sensor(level, t), DefaultThreshold)
    requires forall level: nat :: 1 <= level <= LevelCount ==> Difficulty.Table[name] <= window(level)
    ensures PlayGame(name, sensor, window) == Some(Win)
  {
    var need := Difficulty.Table[name];
    Difficulty.EveryNeedTimeFitsTheWindow(name);
    forall l | 1 <= l <= LevelCount
      ensures LevelCleared(need, sensor, window, l)
    {
      var s := LevelSamples(MoveFor(l), sensor, l, window(l));
      forall i | 0 <= i < |s| ensures s[i] {
        assert Detect(MoveFor(l), sensor(l, i), DefaultThreshold);
      }
      assert Evaluator.CountTrue(s) == |s|;
      assert need <= window(l);
    }
  }
}
