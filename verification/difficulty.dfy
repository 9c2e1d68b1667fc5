/**
 * The difficulty table of the game (src/game/difficulty.py).
 *
 * Times are kept in integer deciseconds: the level loop ticks every 0.1 s,
 * so one decisecond is exactly one tick. `TIME_LIMIT = 5.0` becomes 50 and
 * the `need_time` values 1.0, 2.0 and 3.0 become 10, 20 and 30.
 */
module Difficulty {
  import opened Wrappers

  /** Length of one polling tick of the level loop, in deciseconds (0.1 s). */
  const TickDs: nat := 1

  /** Per-level time limit `TIME_LIMIT = 5.0` s, in deciseconds. */
  const TimeLimitDs: nat := 50

  /**
   * Most loop iterations the time limit admits with an exact clock: every
   * iteration sleeps one tick, so at most `TimeLimitDs / TickDs` of them
   * start before the elapsed time reaches the limit.
   */
  const MaxWindow: nat := TimeLimitDs / TickDs

  /** The `DIFFICULTY` dictionary: name to `need_time`, in deciseconds. */
  const Table: map<string, nat> := map["Easy" := 10, "Medium" := 20, "Hard" := 30]

  /**
   * `DIFFICULTY[name]["need_time"]`. Python raises `KeyError` for a name
   * that is not in the table; that is the `None` result here.
   */
  function NeedTime(name: string): (r: Option<nat>)
    ensures r.None? <==> name != "Easy" && name != "Medium" && name != "Hard"
    ensures r.Some? ==> 0 < r.value <= TimeLimitDs
    ensures r.Some? ==> r.value % 10 == 0
  {
    if name in Table then Some(Table[name]) else None
  }

  /** There are exactly three difficulties: Easy, Medium and Hard. */
  lemma ExactlyThreeDifficulties()
    ensures Table.Keys == {"Easy", "Medium", "Hard"}
    ensures |Table| == 3
  {
    assert "Easy" != "Medium" && "Medium" != "Hard" && "Easy" != "Hard";
  }

  /** `need_time` rises strictly from Easy (1.0 s) to Medium (2.0 s) to Hard (3.0 s). */
  lemma NeedTimeIncreasing()
    ensures NeedTime("Easy") == Some(10)
    ensures NeedTime("Medium") == Some(20)
    ensures NeedTime("Hard") == Some(30)
    ensures Table["Easy"] < Table["Medium"] < Table["Hard"]
  {
  }

  /** Every `need_time` fits in the window the time limit admits, so every level is passable. */
  lemma EveryNeedTimeFitsTheWindow(name: string)
    requires name in Table
    ensures 0 < Table[name] <= MaxWindow
  {
  }
}
