/**
 * Walkthroughs of the shipped HELLO puzzle (columns "HE", "L", "L", "O").
 */
module Scenarios {
  import opened Wrappers
  import opened Puzzle
  import opened Navigation
  import opened Grid
  import opened App

  /** The answers of the shipped puzzle. */
  const HelloAnswers: seq<string> := Answers(Hello())

  const NoFlags: seq<seq<bool>> := [[false, false], [false], [false], [false]]

  /** A state of the walkthrough: nothing checked or flagged yet. */
  function Typing(letters: seq<seq<string>>, at: Pos): State {
    State(letters, NoFlags, NoFlags, Some(at))
  }

  /** Selecting the first square of the fresh grid. */
  lemma SelectFirstSquare()
    ensures Select(Initial(HelloAnswers), Pos(0, 0)) == Typing([["", ""], [""], [""], [""]], Pos(0, 0))
  {
    HelloSpellsHello();
    var a := HelloAnswers;
    assert Blank(a, "")[0] == ["", ""] && Blank(a, "")[1] == [""];
    assert Blank(a, "")[2] == [""] && Blank(a, "")[3] == [""];
    assert Blank(a, false)[0] == [false, false] && Blank(a, false)[1] == [false];
    assert Blank(a, false)[2] == [false] && Blank(a, false)[3] == [false];
  }

  /** Each key press of the walkthrough: the letter lands upper-cased in the
      selected square and the selection moves on, except after the last
      square, where it stays. */
  lemma TypeH()
    ensures KeyboardInput(HelloAnswers, Typing([["", ""], [""], [""], [""]], Pos(0, 0)), "h")
      == Typing([["H", ""], [""], [""], [""]], Pos(0, 1))
  {
    assert [""][0 := "H"] == ["H"];
    assert ["", ""][0 := "H"] == ["H", ""];
  }

  lemma TypeE()
    ensures KeyboardInput(HelloAnswers, Typing([["H", ""], [""], [""], [""]], Pos(0, 1)), "E")
      == Typing([["H", "E"], [""], [""], [""]], Pos(1, 0))
  {
    assert FirstNonEmptyFrom(HelloAnswers, 1) == 1;
    assert ["H", ""][1 := "E"] == ["H", "E"];
  }

  lemma TypeL1()
    ensures KeyboardInput(HelloAnswers, Typing([["H", "E"], [""], [""], [""]], Pos(1, 0)), "L")
      == Typing([["H", "E"], ["L"], [""], [""]], Pos(2, 0))
  {
    assert FirstNonEmptyFrom(HelloAnswers, 2) == 2;
    assert [""][0 := "L"] == ["L"];
  }

  lemma TypeL2()
    ensures KeyboardInput(HelloAnswers, Typing([["H", "E"], ["L"], [""], [""]], Pos(2, 0)), "L")
      == Typing([["H", "E"], ["L"], ["L"], [""]], Pos(3, 0))
  {
    assert FirstNonEmptyFrom(HelloAnswers, 3) == 3;
    assert [""][0 := "L"] == ["L"];
  }

  lemma TypeO()
    ensures KeyboardInput(HelloAnswers, Typing([["H", "E"], ["L"], ["L"], [""]], Pos(3, 0)), "O")
      == Typing([["H", "E"], ["L"], ["L"], ["O"]], Pos(3, 0))
  {
    assert FirstNonEmptyFrom(HelloAnswers, 4) == 4;
    assert [""][0 := "O"] == ["O"];
  }

  /** Checking the filled-in grid locks every square, so the widget shows
      its message, and the letters spell HELLO. */
  lemma CheckFilledGrid()
    ensures var done := Check(HelloAnswers, Typing([["H", "E"], ["L"], ["L"], ["O"]], Pos(3, 0)));
      AllCorrect(done.checked) && Message(done.letters) == "HELLO"
  {
    var a := HelloAnswers;
    var s := Typing([["H", "E"], ["L"], ["L"], ["O"]], Pos(3, 0));
    forall p: Pos | ValidPos(a, p) ensures Matches(a, s.letters, p) {
      assert p.col == 0 || p.row == 0;
    }
    CheckLocks(a, s);
    AllCorrectIsEverySquare(a, Check(a, s).checked);
    MatchingLettersSpellAnswers(a, s.letters);
    HelloSpellsHello();
  }

  /** Typing h, E, L, L, O from the first square: the selection walks down
      column 0, then across the one-square columns, and stays on the last
      square after O; a check then locks every square, so the widget shows
      its message, and the letters spell HELLO. */
  lemma TypingHelloSolvesThePuzzle()
    ensures var a := HelloAnswers;
      var s2 := KeyboardInput(a, Select(Initial(a), Pos(0, 0)), "h");
      var s3 := KeyboardInput(a, s2, "E");
      var s4 := KeyboardInput(a, s3, "L");
      var s5 := KeyboardInput(a, s4, "L");
      var s6 := KeyboardInput(a, s5, "O");
      && s2.selected == Some(Pos(0, 1))
      && s3.selected == Some(Pos(1, 0))
      && s4.selected == Some(Pos(2, 0))
      && s5.selected == Some(Pos(3, 0))
      && s6.selected == Some(Pos(3, 0))
      && AllCorrect(Check(a, s6).checked)
      && Message(Check(a, s6).letters) == "HELLO"
  {
    SelectFirstSquare();
    TypeH();
    TypeE();
    TypeL1();
    TypeL2();
    TypeO();
    CheckFilledGrid();
  }

  /** A wrong letter is not flagged when typed, only by the next check, which
      leaves its square unlocked. */
  lemma WrongLetterFlaggedOnlyByCheck()
    ensures var a := HelloAnswers;
      var s := KeyboardInput(a, Select(Initial(a), Pos(0, 0)), "x");
      var t := Check(a, s);
      && s.letters[0][0] == "X" && !s.incorrect[0][0]
      && t.incorrect[0][0] && !t.checked[0][0]
  {
    HelloSpellsHello();
  }

  /** A session with the component: type HELLO, check, and find that a
      further key press on the locked last square changes nothing. */
  method HelloSession() returns (solved: bool)
    ensures solved
  {
    var w := new Crossword(HelloAnswers);
    SelectFirstSquare();
    w.HandleSelect(0, 0);
    assert w.Current() == Typing([["", ""], [""], [""], [""]], Pos(0, 0));
    TypeH();
    w.HandleKeyboardInput("h");
    assert w.Current() == Typing([["H", ""], [""], [""], [""]], Pos(0, 1));
    TypeE();
    w.HandleKeyboardInput("E");
    assert w.Current() == Typing([["H", "E"], [""], [""], [""]], Pos(1, 0));
    TypeL1();
    w.HandleKeyboardInput("L");
    assert w.Current() == Typing([["H", "E"], ["L"], [""], [""]], Pos(2, 0));
    TypeL2();
    w.HandleKeyboardInput("L");
    assert w.Current() == Typing([["H", "E"], ["L"], ["L"], [""]], Pos(3, 0));
    TypeO();
    w.HandleKeyboardInput("O");
    assert w.Current() == Typing([["H", "E"], ["L"], ["L"], ["O"]], Pos(3, 0));
    CheckFilledGrid();
    w.HandleCheck();
    solved := w.IsAllCorrect();
    assert w.selected == Some(Pos(3, 0)) && w.checked[3][0] by {
      AllCorrectIsEverySquare(HelloAnswers, w.checked);
      assert ValidPos(HelloAnswers, Pos(3, 0));
    }
    ghost var before := w.Current();
    w.HandleKeyboardInput("Z");
    assert w.Current() == before;
  }
}
