/**
 * Where the selection goes after a letter is entered: down the column, else
 * to the top of the next column that has at least one square.
 */
module Navigation {
  import opened Wrappers
  import opened Puzzle

  /** The first column at or after `from` with a non-empty answer, or
      |answers| when every remaining column is empty. */
  function FirstNonEmptyFrom(answers: seq<string>, from: nat): (c: nat)
    requires from <= |answers|
    ensures from <= c <= |answers|
    ensures forall k :: from <= k < c ==> |answers[k]| == 0
    ensures c < |answers| ==> |answers[c]| > 0
    decreases |answers| - from
  {
    if from == |answers| || |answers[from]| > 0 then from
    else FirstNonEmptyFrom(answers, from + 1)
  }

  /** The square after `p`, or None past the last non-empty column. */
  function NextSquare(answers: seq<string>, p: Pos): Option<Pos>
    requires ValidPos(answers, p)
  {
    if p.row + 1 < |answers[p.col]| then Some(Pos(p.col, p.row + 1))
    else
      var c := FirstNonEmptyFrom(answers, p.col + 1);
      if c < |answers| then Some(Pos(c, 0)) else None
  }

  /** Moving from a square of the grid always lands on a square of the grid. */
  lemma NextSquareInBounds(answers: seq<string>, p: Pos)
    requires ValidPos(answers, p)
    ensures NextSquare(answers, p).Some? ==> ValidPos(answers, NextSquare(answers, p).value)
  {
  }

  /** NextSquare moves one row down inside the column; at the bottom it moves
      to row 0 of the smallest later column with a non-empty answer, and it
      gives None exactly when no such column exists. */
  lemma NextSquareCharacterised(answers: seq<string>, p: Pos)
    requires ValidPos(answers, p)
    ensures p.row + 1 < |answers[p.col]| ==> NextSquare(answers, p) == Some(Pos(p.col, p.row + 1))
    ensures p.row + 1 == |answers[p.col]| ==>
      match NextSquare(answers, p)
      case Some(q) =>
        && p.col < q.col < |answers| && q.row == 0 && |answers[q.col]| > 0
        && forall k :: p.col < k < q.col ==> |answers[k]| == 0
      case None => forall k :: p.col < k < |answers| ==> |answers[k]| == 0
  {
  }

  /** The navigation step of the input handler: the same scan, with the
      column counter advanced in a loop past zero-length columns. */
  method FindNextSquare(answers: seq<string>, p: Pos) returns (next: Option<Pos>)
    requires ValidPos(answers, p)
    ensures next == NextSquare(answers, p)
  {
    var nextCol := p.col;
    var nextSq := p.row + 1;
    if nextSq < |answers[nextCol]| {
      next := Some(Pos(nextCol, nextSq));
    } else {
      nextCol := nextCol + 1;
      while nextCol < |answers| && |answers[nextCol]| == 0
        invariant p.col < nextCol <= |answers|
        invariant FirstNonEmptyFrom(answers, nextCol) == FirstNonEmptyFrom(answers, p.col + 1)
      {
        nextCol := nextCol + 1;
      }
      if nextCol < |answers| {
        next := Some(Pos(nextCol, 0));
      } else {
        next := None;
      }
    }
  }
}
