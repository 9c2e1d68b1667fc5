/**
 * The rotary encoder wrapper (src/sensor/encoder.py).
 *
 * The hardware counter `encoder.position` is an input; the wrapper itself is
 * the small record holding the position seen at the previous call.
 */
module Encoder {

  /** `Rotary`: the position remembered in `_last`. */
  datatype Rotary = Rotary(last: int)

  /** What one `get_turn` call returns together with the wrapper afterwards. */
  datatype Turn = Turn(delta: int, next: Rotary)

  /** `Rotary.__init__`: remember the position read at construction. */
  function Attach(position: int): (r: Rotary)
    ensures GetTurn(r, position).delta == 0
  {
    Rotary(position)
  }

  /**
   * `get_turn`: the signed movement since the previous call (negative for
   * the other direction); afterwards `_last` is the position just read.
   */
  function GetTurn(r: Rotary, position: int): (t: Turn)
    ensures r.last + t.delta == position
    ensures t.next.last == position
  {
    Turn(position - r.last, Rotary(position))
  }

  function Sum(xs: seq<int>): int {
    if |xs| == 0 then 0 else xs[0] + Sum(xs[1..])
  }

  /** The turns returned, and the wrapper left behind, by `get_turn` calls at the given positions. */
  datatype Turns = Turns(deltas: seq<int>, final: Rotary)

  /** One `get_turn` call per position, in order. */
  function TurnAll(r: Rotary, positions: seq<int>): (ts: Turns)
    ensures |ts.deltas| == |positions|
    ensures |positions| == 0 ==> ts.final == r
    ensures |positions| > 0 ==> ts.final.last == positions[|positions| - 1]
    ensures |positions| > 0 ==> ts.deltas[0] == positions[0] - r.last
    ensures forall i :: 0 < i < |positions| ==> ts.deltas[i] == positions[i] - positions[i - 1]
    decreases |positions|
  {
    if |positions| == 0 then Turns([], r)
    else
      var first := GetTurn(r, positions[0]);
      var rest := TurnAll(first.next, positions[1..]);
      Turns([first.delta] + rest.deltas, rest.final)
  }

  /** A second call with no movement in between reports no turn. */
  lemma NoMovementNoTurn(r: Rotary, position: int)
    ensures GetTurn(GetTurn(r, position).next, position).delta == 0
  {
  }

  /**
   * The turns telescope: over any run of calls their sum is the movement
   * from the remembered position to the last position read.
   */
  lemma {:induction false} TurnsTelescope(r: Rotary, positions: seq<int>)
    ensures Sum(TurnAll(r, positions).deltas) == TurnAll(r, positions).final.last - r.last
    decreases |positions|
  {
    if |positions| > 0 {
      var first := GetTurn(r, positions[0]);
      TurnsTelescope(first.next, positions[1..]);
      assert TurnAll(r, positions).deltas == [first.delta] + TurnAll(first.next, positions[1..]).deltas;
      assert ([first.delta] + TurnAll(first.next, positions[1..]).deltas)[1..]
          == TurnAll(first.next, positions[1..]).deltas;
    }
  }

  /** From construction on, the turns add up to the final position minus the position at construction. */
  lemma TurnsSinceAttach(start: int, positions: seq<int>)
    requires |positions| > 0
    ensures Sum(TurnAll(Attach(start), positions).deltas) == positions[|positions| - 1] - start
  {
    TurnsTelescope(Attach(start), positions);
  }
}
