/**
 * The `yaml` library's LineCounter, reduced to what the extension uses: the table of
 * line-start offsets and `linePos`. It stands in for the library and is given by
 * its specification (the last line starting at or before the offset), not by the
 * library's binary search.
 */
module LineCounter {

  /** A line table starts at offset 0 and is strictly increasing. */
  predicate IsLineTable(ls: seq<nat>) {
    |ls| > 0 && ls[0] == 0 && forall i, j :: 0 <= i < j < |ls| ==> ls[i] < ls[j]
  }

  type LineStarts = ls: seq<nat> | IsLineTable(ls) witness [0]

  /** A 1-based line and column, as `linePos` returns them. */
  datatype LinePos = LinePos(line: nat, col: nat)

  /** The index of the last line that starts at or before `offset`. */
  function LineIndex(ls: seq<nat>, offset: nat): (i: nat)
    requires |ls| > 0 && ls[0] <= offset
    ensures i < |ls| && ls[i] <= offset
    ensures forall j :: i < j < |ls| ==> offset < ls[j]
  {
    if ls[|ls| - 1] <= offset then |ls| - 1 else LineIndex(ls[..|ls| - 1], offset)
  }

  function LinePosOf(ls: LineStarts, offset: nat): (p: LinePos)
    ensures p.line >= 1 && p.col >= 1
  {
    var i := LineIndex(ls, offset);
    LinePos(i + 1, offset - ls[i] + 1)
  }

  /** A later offset never lies on an earlier line. */
  lemma LineIndexMonotone(ls: seq<nat>, a: nat, b: nat)
    requires |ls| > 0 && ls[0] <= a <= b
    ensures LineIndex(ls, a) <= LineIndex(ls, b)
  {
  }
}
