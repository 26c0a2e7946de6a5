/** Scrolling with a margin: the list moves only when the cursor comes too close to an edge. */
module Scroll {

  const SCROLLOFF: nat := 3

  function Minus(a: nat, b: nat): nat {
    if a < b then 0 else a - b
  }

  function Min(a: nat, b: nat): nat {
    if a < b then a else b
  }

  /** Rows to keep between the cursor and either edge. */
  function Margin(viewport: nat): nat {
    Min(SCROLLOFF, Minus(viewport, 1) / 2)
  }

  function MaxOffset(viewport: nat, length: nat): nat {
    Minus(length, viewport)
  }

  function ComputeOffset(current: nat, cursor: nat, viewport: nat, length: nat): nat {
    if length == 0 || viewport == 0 || length <= viewport then 0
    else
      var margin := Margin(viewport);
      var moved :=
        if cursor < current + margin then Minus(cursor, margin)
        else if cursor + margin + 1 > current + viewport then Minus(cursor + margin + 1, viewport)
        else current;
      Min(moved, MaxOffset(viewport, length))
  }

  /** The margin is kept on both sides, except at the two ends of the list. */
  predicate KeepsMargin(offset: nat, cursor: nat, viewport: nat, length: nat) {
    && offset <= MaxOffset(viewport, length)
    && (offset + Margin(viewport) <= cursor || offset == 0)
    && (cursor + Margin(viewport) + 1 <= offset + viewport || offset == MaxOffset(viewport, length))
  }

  /** The margin is at most 3 and the largest that leaves the cursor a row with the margin on both sides of it. */
  lemma {:induction false} MarginIsLargest(viewport: nat, m: nat)
    requires viewport > 0
    ensures Margin(viewport) <= 3 && 2 * Margin(viewport) + 1 <= viewport
    ensures m <= 3 && 2 * m + 1 <= viewport ==> m <= Margin(viewport)
  {
    if viewport < 7 {
      assert Margin(viewport) == (viewport - 1) / 2;
    }
  }

  function Distance(a: nat, b: nat): nat {
    if a < b then b - a else a - b
  }

  /** The offset is the one nearest to the current offset that keeps the margin; no other is as near. */
  lemma {:induction false} NearestWithMargin(current: nat, cursor: nat, viewport: nat, length: nat, other: nat)
    requires cursor < length && viewport > 0
    ensures var offset := ComputeOffset(current, cursor, viewport, length);
            && KeepsMargin(offset, cursor, viewport, length)
            && (KeepsMargin(other, cursor, viewport, length) && other != offset ==>
                  Distance(offset, current) < Distance(other, current))
  {
    var margin := Margin(viewport);
    assert 2 * margin + 1 <= viewport;
  }

  lemma {:induction false} CursorIsVisible(current: nat, cursor: nat, viewport: nat, length: nat)
    requires cursor < length && viewport > 0
    ensures var offset := ComputeOffset(current, cursor, viewport, length);
            offset <= cursor < offset + viewport && (offset + viewport <= length || offset == 0)
  {
    NearestWithMargin(current, cursor, viewport, length, 0);
  }

  /** A settled offset stays, also for the same cursor again. */
  lemma {:induction false} Settled(current: nat, cursor: nat, viewport: nat, length: nat)
    requires cursor < length && viewport > 0
    ensures var offset := ComputeOffset(current, cursor, viewport, length);
            ComputeOffset(offset, cursor, viewport, length) == offset
  {
    var offset := ComputeOffset(current, cursor, viewport, length);
    NearestWithMargin(current, cursor, viewport, length, offset);
    NearestWithMargin(offset, cursor, viewport, length, offset);
  }

  /** One step of the cursor scrolls by at most one row, in the direction of the step. */
  lemma {:induction false} OneStepScrollsOne(offset: nat, cursor: nat, next: nat, viewport: nat, length: nat)
    requires cursor < length && next < length && viewport > 0 && Distance(cursor, next) <= 1
    requires ComputeOffset(offset, cursor, viewport, length) == offset
    ensures var moved := ComputeOffset(offset, next, viewport, length);
            && Distance(offset, moved) <= 1
            && (next >= cursor ==> moved >= offset)
            && (next <= cursor ==> moved <= offset)
  {
    NearestWithMargin(offset, cursor, viewport, length, offset);
    NearestWithMargin(offset, next, viewport, length, offset);
  }
}
