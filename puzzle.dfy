/**
 * The fixed puzzle: an ordered list of clue columns, each with a hint, the
 * expected answer (one square per character) and a vertical display offset.
 * Every other module takes the answers as a parameter; `Hello` is the one
 * puzzle the widget ships with.
 */
module Puzzle {

  datatype Clue = Clue(clue: string, answer: string, offset: int)

  /** A square of the grid: column index and row ("square") index. */
  datatype Pos = Pos(col: nat, row: nat)

  /** `p` names a square of the grid whose columns have the given answers. */
  predicate ValidPos(answers: seq<string>, p: Pos) {
    p.col < |answers| && p.row < |answers[p.col]|
  }

  /** The hard-coded puzzle whose message is HELLO. */
  function Hello(): (clues: seq<Clue>)
    ensures |clues| == 4
    ensures forall c :: 0 <= c < 4 ==> clues[c].offset == c
    ensures clues[0].answer == "HE" && clues[1].answer == "L"
    ensures clues[2].answer == "L" && clues[3].answer == "O"
  {
    [ Clue("1. First two letters of the message", "HE", 0),
      Clue("2. Third letter of the message", "L", 1),
      Clue("3. Fourth letter of the message", "L", 2),
      Clue("4. Fifth letter of the message", "O", 3) ]
  }

  /** The answer column of every clue, in order. */
  function Answers(clues: seq<Clue>): (answers: seq<string>)
    ensures |answers| == |clues|
    ensures forall c :: 0 <= c < |clues| ==> answers[c] == clues[c].answer
  {
    seq(|clues|, c requires 0 <= c < |clues| => clues[c].answer)
  }

  /** The concatenation of a sequence of sequences, in order. */
  function Concat<T>(s: seq<seq<T>>): seq<T> {
    if s == [] then [] else Concat(s[..|s| - 1]) + s[|s| - 1]
  }

  /** The sum of the lengths of the given answers, folded from the left. */
  function SumLengths(answers: seq<string>): nat {
    if answers == [] then 0 else SumLengths(answers[..|answers| - 1]) + |answers[|answers| - 1]|
  }

  /** Index of a square among all squares laid out column by column, as the
      widget computes it to find the square's element on the page. */
  function FlatIndex(answers: seq<string>, p: Pos): nat
    requires p.col <= |answers|
  {
    SumLengths(answers[..p.col]) + p.row
  }

  /** Summing the column lengths counts the characters of all answers. */
  lemma {:induction false} SumLengthsIsConcatLength(answers: seq<string>)
    ensures SumLengths(answers) == |Concat(answers)|
  {
    if answers != [] {
      SumLengthsIsConcatLength(answers[..|answers| - 1]);
    }
  }

  /** Square (col, row) sits at position |Concat(s[..col])| + row of the
      concatenation. */
  lemma {:induction false} ConcatAt<T>(s: seq<seq<T>>, col: nat, row: nat)
    requires col < |s| && row < |s[col]|
    ensures |Concat(s[..col])| + row < |Concat(s)|
    ensures Concat(s)[|Concat(s[..col])| + row] == s[col][row]
  {
    var n := |s| - 1;
    if col == n {
      assert s[..n] == s[..col];
    } else {
      assert s[..n][..col] == s[..col];
      ConcatAt(s[..n], col, row);
    }
  }

  /** The flat index of a square is a position within all the squares, and it
      is the position of that square's expected character in the message
      spelled by the answers. */
  lemma FlatIndexAddressesSquare(answers: seq<string>, p: Pos)
    requires ValidPos(answers, p)
    ensures FlatIndex(answers, p) < SumLengths(answers) == |Concat(answers)|
    ensures Concat(answers)[FlatIndex(answers, p)] == answers[p.col][p.row]
  {
    SumLengthsIsConcatLength(answers[..p.col]);
    SumLengthsIsConcatLength(answers);
    ConcatAt(answers, p.col, p.row);
  }

  /** Concatenating strings of lengths at most one, each equal to the
      one-character string of the corresponding character of `a`, gives `a`. */
  lemma {:induction false} ConcatOfSingletons(col: seq<string>, a: string)
    requires |col| == |a|
    requires forall r :: 0 <= r < |a| ==> col[r] == [a[r]]
    ensures Concat(col) == a
  {
    if a != [] {
      var n := |a| - 1;
      ConcatOfSingletons(col[..n], a[..n]);
      assert a == a[..n] + [a[n]];
    }
  }

  /** The answers of the shipped puzzle spell the revealed message. */
  lemma HelloSpellsHello()
    ensures Answers(Hello()) == ["HE", "L", "L", "O"]
    ensures Concat(Answers(Hello())) == "HELLO"
  {
    var a := Answers(Hello());
    assert a == ["HE", "L", "L", "O"];
    assert Concat(a[..1]) == "HE" by { assert a[..1][..0] == []; }
    assert Concat(a[..2]) == "HEL" by { assert a[..2][..1] == a[..1]; }
    assert Concat(a[..3]) == "HELL" by { assert a[..3][..2] == a[..2]; }
    assert a[..4][..3] == a[..3];
  }
}
