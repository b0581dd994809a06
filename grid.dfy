/**
 * The widget state as a value and one specification function per handler.
 * The matrices are indexed [col][square]; `letters` holds the empty string
 * or one character per square, `checked` marks squares locked as correct and
 * `incorrect` marks squares a check found wrong.
 */
module Grid {
  import opened Wrappers
  import opened Puzzle
  import opened Navigation

  datatype State = State(
    letters: seq<seq<string>>,
    checked: seq<seq<bool>>,
    incorrect: seq<seq<bool>>,
    selected: Option<Pos>)

  /** One row per column and one entry per square of that column. */
  predicate Shaped<T>(m: seq<seq<T>>, answers: seq<string>) {
    |m| == |answers| && forall c :: 0 <= c < |answers| ==> |m[c]| == |answers[c]|
  }

  predicate WellShaped(answers: seq<string>, s: State) {
    Shaped(s.letters, answers) && Shaped(s.checked, answers) && Shaped(s.incorrect, answers)
  }

  predicate IsLower(ch: char) {
    'a' <= ch <= 'z'
  }

  /** A stored letter: empty, or one character that is not a lower-case ASCII letter. */
  predicate IsCellLetter(letter: string) {
    |letter| <= 1 && (letter != [] ==> !IsLower(letter[0]))
  }

  /** The letter in a square is the expected character of the answer. */
  predicate Matches(answers: seq<string>, letters: seq<seq<string>>, p: Pos)
    requires ValidPos(answers, p) && Shaped(letters, answers)
  {
    letters[p.col][p.row] == [answers[p.col][p.row]]
  }

  /** The invariants every handler keeps: the shape, the form of each letter,
      checked squares hold their expected character, and an incorrect square
      holds a letter and is not checked. */
  ghost predicate WellFormed(answers: seq<string>, s: State) {
    && WellShaped(answers, s)
    && forall p: Pos | ValidPos(answers, p) ::
      && IsCellLetter(s.letters[p.col][p.row])
      && (s.checked[p.col][p.row] ==> Matches(answers, s.letters, p))
      && (s.incorrect[p.col][p.row] ==> s.letters[p.col][p.row] != [] && !s.checked[p.col][p.row])
  }

  /** The selection is null or names a square of the grid. */
  predicate SelectionInBounds(answers: seq<string>, selected: Option<Pos>) {
    selected.Some? ==> ValidPos(answers, selected.value)
  }

  /** A matrix shaped by the answers with `v` in every square. */
  function Blank<T>(answers: seq<string>, v: T): (m: seq<seq<T>>)
    ensures Shaped(m, answers)
    ensures forall p: Pos | ValidPos(answers, p) :: m[p.col][p.row] == v
  {
    seq(|answers|, c requires 0 <= c < |answers| => seq(|answers[c]|, _ => v))
  }

  /** The state on mount and after Clear. */
  function Initial(answers: seq<string>): State {
    State(Blank(answers, ""), Blank(answers, false), Blank(answers, false), None)
  }

  /** `m` with the entry of square `p` replaced by `v`. */
  function Update<T>(m: seq<seq<T>>, p: Pos, v: T): (r: seq<seq<T>>)
    requires p.col < |m| && p.row < |m[p.col]|
    ensures |r| == |m| && forall c :: 0 <= c < |m| ==> |r[c]| == |m[c]|
    ensures r[p.col][p.row] == v
    ensures forall c, k :: 0 <= c < |m| && 0 <= k < |m[c]| && (c, k) != (p.col, p.row) ==> r[c][k] == m[c][k]
  {
    m[p.col := m[p.col][p.row := v]]
  }

  /** ASCII upper-casing of one character. */
  function Upper(ch: char): (u: char)
    ensures !IsLower(u)
    ensures !IsLower(ch) ==> u == ch
    ensures IsLower(ch) ==> 'A' <= u <= 'Z' && u as int - 'A' as int == ch as int - 'a' as int
  {
    if IsLower(ch) then (ch as int - 'a' as int + 'A' as int) as char else ch
  }

  /** The value's first character, upper-cased, or the empty string for an
      empty value. */
  function FirstUpper(value: string): (letter: string)
    ensures IsCellLetter(letter)
    ensures letter == [] <==> value == []
    ensures value != [] ==> letter == [Upper(value[0])]
  {
    if value == [] then [] else [Upper(value[0])]
  }

  /** handleSelect: the selection is set whatever the square. */
  function Select(s: State, p: Pos): State {
    s.(selected := Some(p))
  }

  /** handleInput on square `p`. */
  function Input(answers: seq<string>, s: State, p: Pos, value: string): State
    requires WellShaped(answers, s) && ValidPos(answers, p)
  {
    if s.checked[p.col][p.row] then s
    else
      var letter := FirstUpper(value);
      var incorrect :=
        if s.incorrect[p.col][p.row] && letter == [] then Update(s.incorrect, p, false)
        else s.incorrect;
      var selected :=
        if letter == [] then s.selected
        else match NextSquare(answers, p)
          case Some(q) => Some(q)
          case None => s.selected;
      State(Update(s.letters, p, letter), s.checked, incorrect, selected)
  }

  /** handleKeyboardInput: input on the selected square, if any. */
  function KeyboardInput(answers: seq<string>, s: State, value: string): State
    requires WellShaped(answers, s) && SelectionInBounds(answers, s.selected)
  {
    if s.selected.None? then s else Input(answers, s, s.selected.value, value)
  }

  /** handleCheck, for one square: a match locks it and clears its incorrect
      flag; a non-empty mismatch is flagged incorrect; otherwise both flags
      keep their values. */
  function CheckedAfter(answers: seq<string>, s: State, p: Pos): bool
    requires WellShaped(answers, s) && ValidPos(answers, p)
  {
    if Matches(answers, s.letters, p) then true else s.checked[p.col][p.row]
  }

  function IncorrectAfter(answers: seq<string>, s: State, p: Pos): bool
    requires WellShaped(answers, s) && ValidPos(answers, p)
  {
    if Matches(answers, s.letters, p) then false
    else if s.letters[p.col][p.row] != [] then true
    else s.incorrect[p.col][p.row]
  }

  /** handleCheck over the whole grid. */
  function Check(answers: seq<string>, s: State): (t: State)
    requires WellShaped(answers, s)
    ensures WellShaped(answers, t)
  {
    var checked := seq(|answers|, c requires 0 <= c < |answers| =>
      seq(|answers[c]|, r requires 0 <= r < |answers[c]| => CheckedAfter(answers, s, Pos(c, r))));
    var incorrect := seq(|answers|, c requires 0 <= c < |answers| =>
      seq(|answers[c]|, r requires 0 <= r < |answers[c]| => IncorrectAfter(answers, s, Pos(c, r))));
    State(s.letters, checked, incorrect, s.selected)
  }

  /** isAllCorrect: every square of every column is checked. */
  predicate AllCorrect(checked: seq<seq<bool>>) {
    forall c, r :: 0 <= c < |checked| && 0 <= r < |checked[c]| ==> checked[c][r]
  }

  /** isAllCorrect, read square by square. */
  lemma AllCorrectIsEverySquare(answers: seq<string>, checked: seq<seq<bool>>)
    requires Shaped(checked, answers)
    ensures AllCorrect(checked) <==> forall p: Pos | ValidPos(answers, p) :: checked[p.col][p.row]
  {
    if !AllCorrect(checked) {
      var c, r :| 0 <= c < |checked| && 0 <= r < |checked[c]| && !checked[c][r];
      assert ValidPos(answers, Pos(c, r));
    }
  }

  /** The word each column spells. */
  function Words(letters: seq<seq<string>>): (words: seq<string>)
    ensures |words| == |letters|
    ensures forall c :: 0 <= c < |letters| ==> words[c] == Concat(letters[c])
  {
    seq(|letters|, c requires 0 <= c < |letters| => Concat(letters[c]))
  }

  /** The letters of the grid read column by column. */
  function Message(letters: seq<seq<string>>): string {
    Concat(Words(letters))
  }

  // ---- Properties of the handlers ----

  /** Mount and Clear: every letter empty, every flag false, no selection. */
  lemma InitialIsBlank(answers: seq<string>)
    ensures WellFormed(answers, Initial(answers))
    ensures Initial(answers).selected == None
    ensures forall p: Pos | ValidPos(answers, p) ::
      && Initial(answers).letters[p.col][p.row] == []
      && !Initial(answers).checked[p.col][p.row]
      && !Initial(answers).incorrect[p.col][p.row]
  {
  }

  /** Selecting never disturbs the grid, and the selection stays in bounds
      exactly when the selected square is a square of the grid. */
  lemma SelectKeepsGrid(answers: seq<string>, s: State, p: Pos)
    ensures WellFormed(answers, s) ==> WellFormed(answers, Select(s, p))
    ensures SelectionInBounds(answers, Select(s, p).selected) <==> ValidPos(answers, p)
    ensures Select(s, p).selected == Some(p)
    ensures Select(s, p).letters == s.letters && Select(s, p).checked == s.checked
    ensures Select(s, p).incorrect == s.incorrect
  {
  }

  /** Input on a locked square changes nothing at all. */
  lemma InputOnCheckedIsNoOp(answers: seq<string>, s: State, p: Pos, value: string)
    requires WellShaped(answers, s) && ValidPos(answers, p)
    requires s.checked[p.col][p.row]
    ensures Input(answers, s, p, value) == s
  {
  }

  /** Keyboard input without a selection changes nothing. */
  lemma KeyboardInputWithoutSelectionIsNoOp(answers: seq<string>, s: State, value: string)
    requires WellShaped(answers, s) && s.selected == None
    ensures KeyboardInput(answers, s, value) == s
  {
  }

  /** Input on an unlocked square stores the first character of the value,
      upper-cased (or nothing), touches no other letter and no lock. */
  lemma InputWritesLetter(answers: seq<string>, s: State, p: Pos, value: string)
    requires WellShaped(answers, s) && ValidPos(answers, p)
    requires !s.checked[p.col][p.row]
    ensures var t := Input(answers, s, p, value);
      && WellShaped(answers, t)
      && t.letters[p.col][p.row] == (if value == [] then [] else [Upper(value[0])])
      && (forall q: Pos | ValidPos(answers, q) && q != p :: t.letters[q.col][q.row] == s.letters[q.col][q.row])
      && t.checked == s.checked
  {
  }

  /** An empty value clears the square's incorrect flag; a non-empty value
      leaves every incorrect flag as it was. */
  lemma InputIncorrectFlags(answers: seq<string>, s: State, p: Pos, value: string)
    requires WellShaped(answers, s) && ValidPos(answers, p)
    requires !s.checked[p.col][p.row]
    ensures var t := Input(answers, s, p, value);
      && (value == [] ==> !t.incorrect[p.col][p.row])
      && (value == [] ==> forall q: Pos | ValidPos(answers, q) && q != p ::
            t.incorrect[q.col][q.row] == s.incorrect[q.col][q.row])
      && (value != [] ==> t.incorrect == s.incorrect)
  {
  }

  /** An empty value never moves the selection; a non-empty one moves it to
      the next square when there is one and leaves it alone otherwise. */
  lemma InputMovesSelection(answers: seq<string>, s: State, p: Pos, value: string)
    requires WellShaped(answers, s) && ValidPos(answers, p)
    requires !s.checked[p.col][p.row]
    ensures var t := Input(answers, s, p, value);
      && (value == [] ==> t.selected == s.selected)
      && (value != [] && NextSquare(answers, p).Some? ==> t.selected == NextSquare(answers, p))
      && (value != [] && NextSquare(answers, p).None? ==> t.selected == s.selected)
  {
  }

  /** Input keeps the grid invariants. */
  lemma InputKeepsWellFormed(answers: seq<string>, s: State, p: Pos, value: string)
    requires WellFormed(answers, s) && ValidPos(answers, p)
    ensures WellFormed(answers, Input(answers, s, p, value))
  {
    if !s.checked[p.col][p.row] {
      var t := Input(answers, s, p, value);
      forall q: Pos | ValidPos(answers, q)
        ensures IsCellLetter(t.letters[q.col][q.row])
        ensures t.checked[q.col][q.row] ==> Matches(answers, t.letters, q)
        ensures t.incorrect[q.col][q.row] ==> t.letters[q.col][q.row] != [] && !t.checked[q.col][q.row]
      {
        if q != p {
          assert (q.col, q.row) != (p.col, p.row);
        }
      }
    }
  }

  /** Input from an in-bounds selection leaves the selection in bounds. */
  lemma InputKeepsSelectionInBounds(answers: seq<string>, s: State, p: Pos, value: string)
    requires WellShaped(answers, s) && ValidPos(answers, p)
    requires SelectionInBounds(answers, s.selected)
    ensures SelectionInBounds(answers, Input(answers, s, p, value).selected)
  {
    NextSquareInBounds(answers, p);
  }

  /** Keyboard input keeps the invariants and the selection in bounds. */
  lemma KeyboardInputKeepsWellFormed(answers: seq<string>, s: State, value: string)
    requires WellFormed(answers, s) && SelectionInBounds(answers, s.selected)
    ensures WellFormed(answers, KeyboardInput(answers, s, value))
    ensures SelectionInBounds(answers, KeyboardInput(answers, s, value).selected)
  {
    if s.selected.Some? {
      InputKeepsWellFormed(answers, s, s.selected.value, value);
      InputKeepsSelectionInBounds(answers, s, s.selected.value, value);
    }
  }

  /** After a check a square is locked iff it was locked or its letter is the
      expected character; in particular no lock is ever released. */
  lemma CheckLocks(answers: seq<string>, s: State)
    requires WellShaped(answers, s)
    ensures forall p: Pos | ValidPos(answers, p) ::
      Check(answers, s).checked[p.col][p.row] <==> s.checked[p.col][p.row] || Matches(answers, s.letters, p)
    ensures forall p: Pos | ValidPos(answers, p) ::
      s.checked[p.col][p.row] ==> Check(answers, s).checked[p.col][p.row]
  {
  }

  /** After a check the incorrect flag is false on a match, true on a
      non-empty mismatch and unchanged on an empty square; letters and the
      selection are untouched. */
  lemma CheckIncorrectFlags(answers: seq<string>, s: State)
    requires WellShaped(answers, s)
    ensures Check(answers, s).letters == s.letters && Check(answers, s).selected == s.selected
    ensures forall p: Pos | ValidPos(answers, p) :: (
      var inc := Check(answers, s).incorrect[p.col][p.row];
      && (Matches(answers, s.letters, p) ==> !inc)
      && (!Matches(answers, s.letters, p) && s.letters[p.col][p.row] != [] ==> inc)
      && (s.letters[p.col][p.row] == [] ==> inc == s.incorrect[p.col][p.row]))
  {
  }

  /** Checking twice with the same letters is checking once. */
  lemma CheckIdempotent(answers: seq<string>, s: State)
    requires WellShaped(answers, s)
    ensures Check(answers, Check(answers, s)) == Check(answers, s)
  {
    var t := Check(answers, s);
    var u := Check(answers, t);
    forall c | 0 <= c < |answers| ensures u.checked[c] == t.checked[c] && u.incorrect[c] == t.incorrect[c] {
      forall r | 0 <= r < |answers[c]|
        ensures u.checked[c][r] == t.checked[c][r] && u.incorrect[c][r] == t.incorrect[c][r]
      {
        assert Matches(answers, t.letters, Pos(c, r)) == Matches(answers, s.letters, Pos(c, r));
      }
    }
  }

  /** A check keeps the grid invariants (this needs them beforehand: a
      locked square whose letter did not match would end up both locked and
      incorrect). */
  lemma CheckKeepsWellFormed(answers: seq<string>, s: State)
    requires WellFormed(answers, s)
    ensures WellFormed(answers, Check(answers, s))
    ensures SelectionInBounds(answers, s.selected) ==> SelectionInBounds(answers, Check(answers, s).selected)
  {
    var t := Check(answers, s);
    forall p: Pos | ValidPos(answers, p)
      ensures IsCellLetter(t.letters[p.col][p.row])
      ensures t.checked[p.col][p.row] ==> Matches(answers, t.letters, p)
      ensures t.incorrect[p.col][p.row] ==> t.letters[p.col][p.row] != [] && !t.checked[p.col][p.row]
    {
      assert t.checked[p.col][p.row] == CheckedAfter(answers, s, p);
      assert t.incorrect[p.col][p.row] == IncorrectAfter(answers, s, p);
    }
  }

  /** After a check every square is locked iff every square was locked or
      holds its expected character. */
  lemma CheckSolvesIff(answers: seq<string>, s: State)
    requires WellFormed(answers, s)
    ensures AllCorrect(Check(answers, s).checked) <==>
      forall p: Pos | ValidPos(answers, p) :: Matches(answers, s.letters, p)
  {
    var t := Check(answers, s);
    if AllCorrect(t.checked) {
      forall p: Pos | ValidPos(answers, p) ensures Matches(answers, s.letters, p) {
        assert t.checked[p.col][p.row];
      }
    }
  }

  /** Letters that all match spell the concatenated answers. */
  lemma MatchingLettersSpellAnswers(answers: seq<string>, letters: seq<seq<string>>)
    requires Shaped(letters, answers)
    requires forall p: Pos | ValidPos(answers, p) :: Matches(answers, letters, p)
    ensures Message(letters) == Concat(answers)
  {
    var cols := Words(letters);
    forall c | 0 <= c < |answers| ensures cols[c] == answers[c] {
      forall r | 0 <= r < |answers[c]| ensures letters[c][r] == [answers[c][r]] {
        assert Matches(answers, letters, Pos(c, r));
      }
      ConcatOfSingletons(letters[c], answers[c]);
    }
    assert cols == answers;
  }

  /** When every square is locked the letters, read column by column, spell
      the concatenated answers. */
  lemma SolvedSpellsAnswers(answers: seq<string>, s: State)
    requires WellFormed(answers, s) && AllCorrect(s.checked)
    ensures Message(s.letters) == Concat(answers)
  {
    forall p: Pos | ValidPos(answers, p) ensures Matches(answers, s.letters, p) {
      assert s.checked[p.col][p.row];
    }
    MatchingLettersSpellAnswers(answers, s.letters);
  }
}
