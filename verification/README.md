# Motion game control core, in Dafny

This project models the control logic of a motion-controlled arcade game for
a microcontroller. The player picks a difficulty with a rotary knob, then
plays ten levels. Each level asks for one shake direction: Left-Right,
Forward-Back or Up-Down, in that cycle. A level passes once the device has
been moving in that direction for the difficulty's `need_time` within the
5-second `TIME_LIMIT`. The first failed level ends the game, and clearing all
ten levels wins.

The hardware becomes inputs:
- Accelerometer readings are `Reading(x, y, z)` values over `real`.
- The acceleration magnitude is a number passed to `ShakeStrength`.
- The encoder's hardware position is an integer.
- The button press is a boolean.
- The clock becomes ticks. One tick is the 0.1 s sleep of the level loop, so
  times are integer deciseconds: `TIME_LIMIT` is 50 and `need_time` is
  10/20/30 for Easy/Medium/Hard. The level loop runs for `window`
  iterations, which is however many iterations the clock admits (at most
  50 with an exact clock). Each level starts its own clock, so the game takes one window per
  level.

Modules, one per source file:
- `Difficulty` (src/game/difficulty.py): the time limit and the
  need-time table.
- `Accelerometer` (src/sensor/accelerometer.py): the three motion
  predicates and the shake strength.
- `Encoder` (src/sensor/encoder.py): the `Rotary` record and `get_turn`.
- `Menu` (src/code.py): the difficulty menu of the main loop.
- `Evaluator` (game/logic.py, `_perform_motion`): one level attempt.
  `Evaluate` is the functional definition. `PerformMotion` is the polling
  loop as written, proved to agree with it.
- `Game` (game/logic.py, `play`): the ten-level sequencer, from a pass
  oracle. `PlayGame` runs it end to end from accelerometer readings.
- `Wrappers`: `Option`, used for the `KeyError` of an unknown difficulty
  name.

The modelled files are game/logic.py, src/sensor/accelerometer.py,
src/sensor/encoder.py, src/code.py and src/game/difficulty.py. What they
contain shapes the model:
- They contain only the accumulated-time level evaluator. They have no
  target-count mode, no cooldown-based shake counting, no moving-average
  filter, no bonus round, no skip-ahead and no slot-reel state machine.
  Other variants of the game are outside this model.
- The up-down predicate compares z with the fixed constant 9.81, not with a
  filtered average.
- The menu honours rotation in both directions, because Python's `%` wraps a
  negative sum into range. The model keeps that: `Menu.RotateBothDirections`.

## Model

| member | source | states |
|---|---|---|
| Difficulty.NeedTime | src/game/difficulty.py:5-9 | the lookup succeeds exactly for "Easy", "Medium" and "Hard" (`KeyError` otherwise); every need time is positive, a whole number of seconds, and at most `TIME_LIMIT` |
| Difficulty.ExactlyThreeDifficulties | src/game/difficulty.py:5-9 | the table has exactly the three keys Easy, Medium, Hard |
| Difficulty.NeedTimeIncreasing | src/game/difficulty.py:6-8 | need times are 1.0, 2.0, 3.0 s and strictly increase Easy < Medium < Hard |
| Difficulty.EveryNeedTimeFitsTheWindow | src/game/difficulty.py:2-8 | every need time is positive and fits in the 50 ticks the 5.0 s limit admits |
| Accelerometer.ShakeStrength | src/sensor/accelerometer.py:20-23 | never negative; 0 when the magnitude is at most 9.81, magnitude minus 9.81 otherwise |
| Accelerometer.ShakeStrengthMonotone | src/sensor/accelerometer.py:20-23 | a larger magnitude never gives a smaller strength |
| Accelerometer.LeftRightShake | src/sensor/accelerometer.py:33-35 | `left_right` is true iff x lies strictly outside [-th, th] |
| Accelerometer.FwdBackShake | src/sensor/accelerometer.py:38-40 | `fwd_back` is true iff y lies strictly outside [-th, th] |
| Accelerometer.UpDownShake | src/sensor/accelerometer.py:43-45 | `up_down` is true iff z lies strictly outside [9.81 - th, 9.81 + th] |
| Accelerometer.Detect | src/sensor/accelerometer.py:33-45 | the predicate bound to a move is true iff that move's own axis deviation (x, y, or z - 9.81) is strictly beyond th in either direction |
| Accelerometer.DetectReadsOneAxis | src/sensor/accelerometer.py:33-45 | each move's predicate depends only on its own axis: x, y, or z |
| Accelerometer.DetectAntitone | src/sensor/accelerometer.py:33-45 | raising the threshold can only turn a detection off: false at th stays false above th |
| Accelerometer.DetectStrictAtThreshold | src/sensor/accelerometer.py:33-45 | the comparison is strict: a deviation exactly equal to th is not detected |
| Accelerometer.HorizontalMovesSignSymmetric | src/sensor/accelerometer.py:33-40 | left-right and forward-back give the same answer when their axis is negated |
| Encoder.Attach | src/sensor/encoder.py:8-10 | the wrapper starts at the position read at construction, so a turn read with no movement is 0 |
| Encoder.GetTurn | src/sensor/encoder.py:12-17 | the returned turn carries the old stored position to the new one, and the new position is then stored |
| Encoder.TurnAll | src/sensor/encoder.py:12-17 | over a run of calls, each turn is the difference of consecutive positions read, the first one measured from the stored position |
| Encoder.NoMovementNoTurn | src/sensor/encoder.py:14-17 | a second call with no movement in between returns 0 |
| Encoder.TurnsTelescope | src/sensor/encoder.py:14-17 | the turns of any run of calls sum to the final stored position minus the initial one |
| Encoder.TurnsSinceAttach | src/sensor/encoder.py:10-17 | from construction on, the turns sum to the last position read minus the position at construction |
| Menu.Rotate | src/code.py:26-27 | the new index is in [0, 3) and congruent to index plus turn modulo 3; a zero turn leaves it unchanged |
| Menu.RotateFullCircle | src/code.py:27 | turning by any multiple of 3, in either direction, returns to the same index |
| Menu.RotateBothDirections | src/code.py:27 | negative turns wrap around: 0 turned by -1 is 2, and 2 turned by +1 is 0 |
| Menu.Start | src/code.py:14-18 | the menu starts on "Easy", with the encoder wrapper at the current position |
| Menu.Poll | src/code.py:22-31 | one loop pass keeps the index in range and moves it by the encoder turn modulo 3; a difficulty is chosen exactly on a press; the chosen name is the highlighted entry and is always a key of the table |
| Menu.Browse | src/code.py:22-28 | over passes without a press, the index stays in range and moves by the net encoder rotation modulo 3 |
| Menu.BrowseFollowsNetRotation | src/code.py:17-28 | after any turning from the start, the highlighted index is (last position minus start position) mod 3 |
| Evaluator.CountTrue | game/logic.py:22-26 | the accumulator after a run of ticks never exceeds their number; it equals it iff motion was detected on every tick, and it is 0 iff on none |
| Evaluator.AccumulatorStep | game/logic.py:25-26 | one iteration adds exactly one tick to the accumulator when the move is detected, and none otherwise |
| Evaluator.AccumulatorMonotone | game/logic.py:22-27 | the accumulator never decreases during an attempt |
| Evaluator.Scan | game/logic.py:24-32 | the loop from a given iteration on passes at the first later iteration where the accumulator reaches need, or fails when no iteration in the window reaches it |
| Evaluator.Evaluate | game/logic.py:16-32 | passes iff the window admits an iteration and the motion ticks in the window reach need; the pass comes at the first iteration that reaches need, so no later sample is consumed |
| Evaluator.PerformMotion | game/logic.py:16-32 | the loop as written returns the same verdict, and stops at the first reaching iteration or after the full window; it agrees with `Evaluate` |
| Evaluator.EmptyWindowFails | game/logic.py:24-32 | a window that admits no iteration fails even when need is 0 or less |
| Evaluator.ContinuousMotionPassesAtNeed | game/logic.py:24-30 | motion on every tick passes at exactly tick `need` when 1 <= need <= window |
| Evaluator.PassDependsOnlyOnMotionTotal | game/logic.py:24-30 | exactly need motion ticks anywhere in the window pass, and need - 1 fail |
| Game.MoveFor | game/logic.py:38-45 | level L asks for Left-Right when L mod 3 is 1, Forward-Back when it is 2, Up-Down when it is 0 |
| Game.MovesCycle | game/logic.py:38-45 | the move of level L + 3 is the move of level L |
| Game.MoveSchedule | game/logic.py:38-45 | levels 1, 2, 3 are Left-Right, Forward-Back, Up-Down, and level 10 is Left-Right |
| Game.PlayFrom | game/logic.py:44-57 | from level `level` on, the result is a win iff every remaining level passes; a loss names the first failing level, and all earlier levels passed |
| Game.Play | game/logic.py:44-67 | win iff all of levels 1..10 pass; otherwise a loss at the first failing level, with every earlier level passed |
| Game.PlayIgnoresLevelsAfterLoss | game/logic.py:50-57 | levels after the failing one are never evaluated: another oracle that agrees up to the failing level loses at the same level |
| Game.LevelPasses | game/logic.py:45-50 | the attempt at a level binds that level's move predicate at the default threshold 3.0 to its readings, runs for that level's own window, and passes iff the window is non-empty and the move's ticks reach need |
| Game.PlayGame | game/logic.py:34-67 | an unknown difficulty name fails the lookup; otherwise one need time holds for the whole game while each level has its own window; a win comes iff every level collects the need time, and a loss names the first level that does not |
| Game.ContinuousShakingWins | game/logic.py:34-67 | shaking the asked direction on every tick wins at every difficulty whenever every level's window admits at least the need time in ticks |

## Left out

- Evaluator.PerformMotion: the source adds 0.1 to a float, and the
  running sum can fall just short of a whole `need_time`. So the source can
  need one motion tick more than `need`, at any difficulty, depending on the
  float width of the platform. The model counts exact ticks and does not
  reproduce the rounding. The same caveat limits
  `Evaluator.PassDependsOnlyOnMotionTotal`: exactly `need` ticks pass in the
  model, but not necessarily on the device.
- Evaluator.Evaluate: the real-time loop condition `time.monotonic() - start
  < TIME_LIMIT` becomes the `window` parameter, the number of iterations
  the clock admits. How sensor reads and scheduling shorten it is not
  modelled.
- Accelerometer predicates: readings are exact reals, not floats, and
  `magnitude`'s square root is not modelled. The magnitude is an input to
  `ShakeStrength`.
- Hardware setup is not modelled: I2C, `adafruit_adxl34x`, `rotaryio`, and
  `board` pins. These are device I/O.
- src/sensor/buttons.py is not modelled. Its debouncing belongs to an
  external library, so a press is an input boolean to `Menu.Poll`.
- Presentation is not modelled: the OLED screens (src/display/oled.py), the
  LED animations and `random.choice` colours (src/sensor/neo_anim.py), and
  the slot spin shown after each passed level. These are side effects with
  no bearing on the game's decisions.
- Two kinds of `time.sleep` delay are not modelled. They only pace the
  program: the `time.sleep(1)` before a game starts (src/code.py:33), and
  the LED spin and flash delays. The 0.1 s sleep of the level loop is the
  model's tick.
- Defects in src/code.py are noted but not modelled. The wiring of the
  model follows the evident intent:
  - it imports from `sensors.` while the directory is `src/sensor`;
  - it calls `game.play_game` while the method is `play`;
  - it passes an `Accelerometer` where `Game` expects an `AccelMoves`;
  - it calls `oled.show`, which `OLED` does not define.
- The menu loop's restart after a game is not modelled as a loop. The game's
  result does not affect the menu, and `Menu.Poll` models one pass of the
  loop.
