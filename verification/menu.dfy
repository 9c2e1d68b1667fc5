/**
 * The difficulty menu of the main loop (src/code.py).
 *
 * Each pass of the loop reads the encoder turn, moves the highlighted index
 * cyclically over the three names when the turn is non-zero, and on a
 * button press starts the game with the highlighted name. The button is an
 * input boolean: its debouncing lives in a library outside the model.
 */
module Menu {
  import opened Wrappers
  import Encoder
  import Difficulty

  /** `diffs`: the menu entries, in display order. */
  const Diffs: seq<string> := ["Easy", "Medium", "Hard"]

  /**
   * `idx = (idx + turn) % len(diffs)` when `turn != 0`. Python's `%` with a
   * positive divisor rounds toward minus infinity, so its remainder is never
   * negative and agrees with Dafny's Euclidean `%`: both directions of
   * rotation wrap around.
   */
  function Rotate(idx: nat, turn: int): (r: nat)
    requires idx < |Diffs|
    ensures r < |Diffs|
    ensures turn == 0 ==> r == idx
    // 3 is `len(diffs)`, the number of menu entries
    ensures (idx + turn - r) % 3 == 0
  {
    if turn != 0 then (idx + turn) % 3 else idx
  }

  /** Two indices of the menu that are congruent modulo its length are the same index. */
  lemma CongruentIndicesEqual(a: int, b: int)
    requires 0 <= a < |Diffs| && 0 <= b < |Diffs|
    requires (a - b) % 3 == 0
    ensures a == b
  {
  }

  /** Turning by any multiple of the menu length, either way, comes back to the same entry. */
  lemma RotateFullCircle(idx: nat, k: int)
    requires idx < |Diffs|
    ensures Rotate(idx, k * |Diffs|) == idx
  {
    var r := Rotate(idx, k * |Diffs|);
    assert (idx + k * |Diffs| - r) % 3 == 0;
    assert (idx - r) % 3 == 0 by {
      assert idx - r == (idx + k * |Diffs| - r) - k * |Diffs|;
    }
    CongruentIndicesEqual(idx, r);
  }

  /** Both directions are honoured: one step back from the first entry is the last. */
  lemma RotateBothDirections()
    ensures Rotate(0, -1) == 2
    ensures Rotate(2, 1) == 0
    ensures Rotate(0, 1) == 1
  {
  }

  /** The menu's state between passes of the loop: highlighted index and encoder wrapper. */
  datatype MenuState = MenuState(idx: nat, rot: Encoder.Rotary)

  /** Before the loop: `idx = 0`, so "Easy" is highlighted. */
  function Start(position: int): (s: MenuState)
    ensures s.idx < |Diffs| && Diffs[s.idx] == "Easy"
    ensures Encoder.GetTurn(s.rot, position).delta == 0
  {
    MenuState(0, Encoder.Attach(position))
  }

  /** One pass of the loop: the state afterwards and the difficulty started, if any. */
  datatype Step = Step(state: MenuState, chosen: Option<string>)

  /**
   * One pass of `while True`: read the turn, rotate, and on a press select
   * `diffs[idx]`, which is always a key of the difficulty table.
   */
  function Poll(s: MenuState, position: int, pressed: bool): (st: Step)
    requires s.idx < |Diffs|
    ensures st.state.idx < |Diffs|
    ensures st.state.rot.last == position
    ensures (s.idx + (position - s.rot.last) - st.state.idx) % 3 == 0
    ensures position == s.rot.last ==> st.state.idx == s.idx
    ensures st.chosen.Some? <==> pressed
    ensures st.chosen.Some? ==> st.chosen.value == Diffs[st.state.idx]
    ensures st.chosen.Some? ==> Difficulty.NeedTime(st.chosen.value).Some?
  {
    var t := Encoder.GetTurn(s.rot, position);
    var idx := Rotate(s.idx, t.delta);
    Step(MenuState(idx, t.next), if pressed then Some(Diffs[idx]) else None)
  }

  /** Multiples of three add up to a multiple of three. */
  lemma MultiplesAdd(a: int, b: int)
    requires a % 3 == 0 && b % 3 == 0
    ensures (a + b) % 3 == 0
  {
    assert a == 3 * (a / 3) && b == 3 * (b / 3);
    assert a + b == 3 * (a / 3 + b / 3);
  }

  /** Passes of the loop at the given encoder positions with the button never pressed. */
  function Browse(s: MenuState, positions: seq<int>): (e: MenuState)
    requires s.idx < |Diffs|
    ensures e.idx < |Diffs|
    ensures e.rot == Encoder.TurnAll(s.rot, positions).final
    ensures (s.idx + (e.rot.last - s.rot.last) - e.idx) % 3 == 0
    decreases |positions|
  {
    if |positions| == 0 then s
    else
      var next := Poll(s, positions[0], false).state;
      var e := Browse(next, positions[1..]);
      MultiplesAdd(s.idx + (next.rot.last - s.rot.last) - next.idx,
                   next.idx + (e.rot.last - next.rot.last) - e.idx);
      e
  }

  /** An integer congruent to a menu index modulo three has that index as its remainder. */
  lemma RemainderOfCongruent(x: int, y: int)
    requires 0 <= y < |Diffs|
    requires (x - y) % 3 == 0
    ensures x % 3 == y
  {
    var m, n := (x - y) / 3, x / 3;
    assert x - y == 3 * m;
    assert x == 3 * n + x % 3;
    assert x % 3 - y == 3 * (m - n);
  }

  /**
   * However the knob is turned, the highlighted entry is the start entry
   * moved by the net rotation since the menu started, modulo three.
   */
  lemma BrowseFollowsNetRotation(start: int, positions: seq<int>)
    requires |positions| > 0
    ensures Browse(Start(start), positions).idx
         == (positions[|positions| - 1] - start) % 3
  {
    var s := Start(start);
    var e := Browse(s, positions);
    var net := positions[|positions| - 1] - start;
    assert s.idx == 0 && s.rot.last == start;
    assert e.rot.last == positions[|positions| - 1];
    assert s.idx + (e.rot.last - s.rot.last) - e.idx == net - e.idx;
    RemainderOfCongruent(net, e.idx);
  }
}
