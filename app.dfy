/**
 * The component's state and its event handlers. Each handler is one atomic
 * transition of the fields and is proved to perform the matching function of
 * module Grid on the state value.
 */
module App {
  import opened Wrappers
  import opened Puzzle
  import opened Navigation
  import opened Grid

  class Crossword {
    const answers: seq<string>
    var letters: seq<seq<string>>
    var checked: seq<seq<bool>>
    var incorrect: seq<seq<bool>>
    var selected: Option<Pos>

    /** The fields as a state value. */
    function Current(): State
      reads this
    {
      State(letters, checked, incorrect, selected)
    }

    ghost predicate Valid()
      reads this
    {
      WellFormed(answers, Current())
    }

    /** Mounting the component: every matrix shaped by the answers and blank. */
    constructor (answers: seq<string>)
      ensures this.answers == answers
      ensures Valid() && Current() == Initial(answers)
    {
      this.answers := answers;
      letters := Blank(answers, "");
      checked := Blank(answers, false);
      incorrect := Blank(answers, false);
      selected := None;
      new;
      InitialIsBlank(answers);
    }

    method HandleSelect(col: nat, square: nat)
      requires Valid()
      modifies this
      ensures Valid()
      ensures Current() == Select(old(Current()), Pos(col, square))
    {
      selected := Some(Pos(col, square));
    }

    method HandleInput(col: nat, square: nat, value: string)
      requires Valid() && ValidPos(answers, Pos(col, square))
      modifies this
      ensures Valid()
      ensures Current() == Input(answers, old(Current()), Pos(col, square), value)
    {
      ghost var s := Current();
      InputKeepsWellFormed(answers, s, Pos(col, square), value);
      if checked[col][square] {
        return;
      }
      var letter := FirstUpper(value);
      letters := letters[col := letters[col][square := letter]];
      if incorrect[col][square] && letter == "" {
        incorrect := incorrect[col := incorrect[col][square := false]];
      }
      if letter != "" {
        var next := FindNextSquare(answers, Pos(col, square));
        if next.Some? {
          selected := next;
        }
      }
    }

    method HandleKeyboardInput(value: string)
      requires Valid() && SelectionInBounds(answers, selected)
      modifies this
      ensures Valid() && SelectionInBounds(answers, selected)
      ensures Current() == KeyboardInput(answers, old(Current()), value)
    {
      if selected.None? {
        return;
      }
      InputKeepsSelectionInBounds(answers, Current(), selected.value, value);
      HandleInput(selected.value.col, selected.value.row, value);
    }

    method HandleCheck()
      requires Valid()
      modifies this
      ensures Valid()
      ensures Current() == Check(answers, old(Current()))
    {
      ghost var t := Check(answers, Current());
      CheckKeepsWellFormed(answers, Current());
      var newChecked := checked;
      var newIncorrect := incorrect;
      for c := 0 to |answers|
        invariant Shaped(newChecked, answers) && Shaped(newIncorrect, answers)
        invariant forall k :: 0 <= k < c ==> newChecked[k] == t.checked[k] && newIncorrect[k] == t.incorrect[k]
        invariant forall k :: c <= k < |answers| ==> newChecked[k] == checked[k] && newIncorrect[k] == incorrect[k]
      {
        for r := 0 to |answers[c]|
          invariant Shaped(newChecked, answers) && Shaped(newIncorrect, answers)
          invariant forall k :: 0 <= k < c ==> newChecked[k] == t.checked[k] && newIncorrect[k] == t.incorrect[k]
          invariant forall k :: c < k < |answers| ==> newChecked[k] == checked[k] && newIncorrect[k] == incorrect[k]
          invariant forall k :: 0 <= k < r ==>
            newChecked[c][k] == t.checked[c][k] && newIncorrect[c][k] == t.incorrect[c][k]
          invariant forall k :: r <= k < |answers[c]| ==>
            newChecked[c][k] == checked[c][k] && newIncorrect[c][k] == incorrect[c][k]
        {
          if letters[c][r] == [answers[c][r]] {
            newChecked := newChecked[c := newChecked[c][r := true]];
            newIncorrect := newIncorrect[c := newIncorrect[c][r := false]];
          } else {
            if letters[c][r] != "" {
              newIncorrect := newIncorrect[c := newIncorrect[c][r := true]];
            }
          }
        }
        assert newChecked[c] == t.checked[c] && newIncorrect[c] == t.incorrect[c];
      }
      checked := newChecked;
      incorrect := newIncorrect;
    }

    method HandleClear()
      modifies this
      ensures Valid() && Current() == Initial(answers)
    {
      letters := Blank(answers, "");
      checked := Blank(answers, false);
      incorrect := Blank(answers, false);
      selected := None;
      InitialIsBlank(answers);
    }

    /** isAllCorrect: every square is checked, and then the letters spell the
        concatenated answers. */
    function IsAllCorrect(): (r: bool)
      requires Valid()
      reads this
      ensures r <==> forall p: Pos | ValidPos(answers, p) :: checked[p.col][p.row]
      ensures r ==> Message(letters) == Concat(answers)
    {
      AllCorrectIsEverySquare(answers, checked);
      var all := AllCorrect(checked);
      if all then SolvedSpellsAnswers(answers, Current()); all else all
    }
  }
}
