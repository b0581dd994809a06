# Crossword grid state machine, in Dafny

This project models the core of a small single-puzzle crossword widget (the
React component `App` in `src/App.tsx`). The puzzle is a fixed list of clue
columns; each column has an answer string, and each character of the answer
is one square. The component keeps three matrices indexed `[col][square]`:

- `letters`: the empty string or one character per square;
- `checked`: the square is locked as correct;
- `incorrect`: the last check found the square wrong.

It also keeps a nullable selection. Its handlers select a square, type into a
square (which also moves the selection on), type into the selected square from
the on-screen keyboard, check the whole grid, and clear it. When every square
is checked the widget shows the message HELLO.

Layout, one Dafny module per concern:

- `wrappers.dfy` (`Wrappers`): `Option`, for the nullable selection.
- `puzzle.dfy` (`Puzzle`): the clue data, the shipped HELLO puzzle, squares
  (`Pos`), the concatenation of answers and the flat index used to find a
  square's element on the page.
- `navigation.dfy` (`Navigation`): where the selection goes after a letter.
  `NextSquare` is the specification. `FindNextSquare` is the handler's loop
  that skips zero-length columns, proved equal to it.
- `grid.dfy` (`Grid`): the component state as a value (`State`), the
  invariants (`WellFormed`), one specification function per handler (`Select`,
  `Input`, `KeyboardInput`, `Check`, `Initial` for mount and clear,
  `AllCorrect`), and the lemmas that state what each handler promises.
- `app.dfy` (`App`): class `Crossword`, whose fields are the component state.
  Each handler is a method that changes the fields and is proved to perform
  the matching `Grid` function. `HandleCheck` keeps the source's nested loop
  over columns and squares.
- `scenarios.dfy` (`Scenarios`): the HELLO puzzle walked through, on the
  functions and on the class.

The puzzle's answers are a parameter (`answers: seq<string>`) everywhere.
`Puzzle.Hello` is the shipped instance.

Behaviour of the code worth knowing, all modelled as written:

- A check never un-locks a square.
- An empty square that does not match keeps both of its flags through a check.
- Clear sets the selection to null.
- Input on a locked square does nothing; it does not move the selection on.

## Model

| member | source | states |
|---|---|---|
| Puzzle.Hello | src/App.tsx:6-27 | the shipped puzzle has four clue columns, with answers HE, L, L, O and display offsets 0, 1, 2, 3 |
| Puzzle.Answers | src/App.tsx:6-27 | the answer list has one entry per clue, equal to that clue's answer |
| Puzzle.HelloSpellsHello | src/App.tsx:9-24 | the shipped answers are "HE","L","L","O" and their concatenation is "HELLO", the message the widget reveals |
| Puzzle.SumLengthsIsConcatLength | src/App.tsx:69 | the left fold of the column answer lengths equals the number of characters in all answers |
| Puzzle.FlatIndexAddressesSquare | src/App.tsx:69 | the focus index of a valid square (earlier column lengths plus the row) is below the number of squares; at that index the concatenated answers hold the square's expected character |
| Puzzle.ConcatAt | src/App.tsx:82 | square (col, row) sits at offset (length of the earlier columns) + row of the concatenation |
| Puzzle.ConcatOfSingletons | src/App.tsx:101 | a column whose squares each hold the one-character string of the answer's character spells the answer |
| Navigation.FirstNonEmptyFrom | src/App.tsx:74-78 | the column the scan stops at: at or after its start; every column skipped has a zero-length answer; it is a non-empty column unless it is past the last column |
| Navigation.NextSquareInBounds | src/App.tsx:60-86 | moving on from a square of the grid always lands on a square of the grid |
| Navigation.NextSquareCharacterised | src/App.tsx:60-86 | the next square is one row down when the column has one. Otherwise it is row 0 of the smallest later column with a non-empty answer. It is None exactly when every later column is empty |
| Navigation.FindNextSquare | src/App.tsx:61-85 | the handler's scan (row + 1, else a `while` loop advancing the column past zero-length answers) computes exactly NextSquare |
| Grid.Blank | src/App.tsx:32-40 | the initial matrices have one row per column, one entry per square, and the given value everywhere |
| Grid.Upper | src/App.tsx:48 | upper-casing yields no lower-case ASCII letter; it maps a..z to A..Z in order and leaves other characters alone |
| Grid.FirstUpper | src/App.tsx:48 | the stored letter is empty exactly for an empty value; otherwise it is the first character upper-cased, and it is never longer than one character |
| Grid.AllCorrectIsEverySquare | src/App.tsx:123 | `isAllCorrect` holds iff every square of the grid is checked |
| Grid.InitialIsBlank | src/App.tsx:31-40 | the mount and clear state meets the invariants; its letters are empty, its flags false and its selection null |
| Grid.SelectKeepsGrid | src/App.tsx:42-44 | selecting sets the selection to the chosen square and changes nothing else; it keeps the invariants; the selection is in bounds exactly when the chosen square is |
| Grid.InputOnCheckedIsNoOp | src/App.tsx:47 | input on a checked square leaves the whole state unchanged: letters, flags and selection |
| Grid.KeyboardInputWithoutSelectionIsNoOp | src/App.tsx:92 | keyboard input with no selection leaves the state unchanged |
| Grid.InputWritesLetter | src/App.tsx:48-51 | input on an unchecked square stores the first character of the value upper-cased, or empty. No other square's letter changes and `checked` is untouched |
| Grid.InputIncorrectFlags | src/App.tsx:53-57 | an empty value clears that square's incorrect flag and no other; a non-empty value leaves every incorrect flag as it was |
| Grid.InputMovesSelection | src/App.tsx:60-86 | an empty value never moves the selection. A non-empty value moves it to the next square when there is one and otherwise leaves it unchanged |
| Grid.InputKeepsWellFormed | src/App.tsx:46-57 | input keeps the invariants: shape, letters of at most one character and no lower-case ASCII, checked squares hold their expected character, incorrect squares hold a letter and are unchecked |
| Grid.InputKeepsSelectionInBounds | src/App.tsx:60-86 | input from an in-bounds selection leaves the selection in bounds |
| Grid.KeyboardInputKeepsWellFormed | src/App.tsx:91-94 | keyboard input keeps the invariants and keeps the selection in bounds |
| Grid.CheckLocks | src/App.tsx:99-103 | after a check, a square is checked iff it was checked already or its letter equals the expected character; no checked square reverts |
| Grid.CheckIncorrectFlags | src/App.tsx:101-107 | after a check, incorrect is false on a match and true on a non-empty mismatch. On an empty mismatch it keeps its previous value. Letters and the selection are unchanged |
| Grid.CheckIdempotent | src/App.tsx:96-113 | a second check with the same letters changes nothing |
| Grid.CheckKeepsWellFormed | src/App.tsx:96-113 | a check keeps the invariants (it relies on them: a checked mismatch would end up both checked and incorrect) |
| Grid.CheckSolvesIff | src/App.tsx:96-123 | after a check every square is checked iff every square holds its expected character |
| Grid.MatchingLettersSpellAnswers | src/App.tsx:101 | letters that all match their squares, read column by column, spell the concatenated answers |
| Grid.SolvedSpellsAnswers | src/App.tsx:123 | when every square is checked the letters, read column by column, equal the concatenated answers |
| App.Crossword.constructor | src/App.tsx:31-40 | the component mounts with the initial state (blank matrices shaped by the answers, no selection) and the invariants |
| App.Crossword.HandleSelect | src/App.tsx:42-44 | the selection becomes the given square whatever it holds; nothing else changes |
| App.Crossword.HandleInput | src/App.tsx:46-88 | the new state is Input of the old one, so the Input lemmas above describe it; the invariants are kept |
| App.Crossword.HandleKeyboardInput | src/App.tsx:91-94 | the new state is KeyboardInput of the old one; the invariants and an in-bounds selection are kept |
| App.Crossword.HandleCheck | src/App.tsx:96-113 | the nested loop over columns and squares produces exactly Check of the old state; the invariants are kept |
| App.Crossword.HandleClear | src/App.tsx:115-120 | all letters empty, all flags false, selection null, invariants kept |
| App.Crossword.IsAllCorrect | src/App.tsx:123 | true iff every square is checked; when true, the letters spell the concatenated answers |
| Scenarios.SelectFirstSquare | src/App.tsx:31-44 | selecting the first square of the fresh HELLO grid gives a state with blank letters and flags, selected at (0, 0) |
| Scenarios.TypeH | src/App.tsx:46-71 | typing "h" at (0, 0) stores "H" and moves the selection down to (0, 1) |
| Scenarios.TypeE | src/App.tsx:72-85 | typing "E" at the bottom of column 0 stores it and moves the selection to (1, 0) |
| Scenarios.TypeL1 | src/App.tsx:72-85 | typing "L" at (1, 0) stores it and moves the selection to (2, 0) |
| Scenarios.TypeL2 | src/App.tsx:72-85 | typing "L" at (2, 0) stores it and moves the selection to (3, 0) |
| Scenarios.TypeO | src/App.tsx:72-85 | typing "O" on the last square stores it and leaves the selection there |
| Scenarios.CheckFilledGrid | src/App.tsx:96-123 | checking the grid filled with H, E, L, L, O checks every square, and the letters spell HELLO |
| Scenarios.TypingHelloSolvesThePuzzle | src/App.tsx:6-176 | selecting (0, 0) and typing h, E, L, L, O moves the selection (0,1), (1,0), (2,0), (3,0), then leaves it at (3,0); a check then marks everything correct and the letters spell HELLO |
| Scenarios.WrongLetterFlaggedOnlyByCheck | src/App.tsx:46-107 | a wrong letter is stored upper-cased without an incorrect flag; only the next check flags it, and the square stays unchecked |
| Scenarios.HelloSession | src/App.tsx:42-123 | on the class: typing HELLO and checking makes `isAllCorrect` true; a further key press on the locked last square changes nothing |

## Left out

- Rendering (src/App.tsx:125-179): the clue display, the column margins
  (proportional to each clue's offset), CSS classes, aria labels and the
  keyboard buttons' `disabled` state are presentation. The clue offsets are
  kept in `Puzzle.Clue` as data only.
- Focus side effects (src/App.tsx:67-71, 80-84): the deferred calls that look
  up the square elements on the page and focus one are DOM and timer work.
  Only the flat-index arithmetic inside them is modelled (`Puzzle.FlatIndex`).
- React state: each handler is one atomic, sequential transition. Batching of
  `useState` updates and stale closures are not modelled.
- Grid.Upper: upper-cases the ASCII letters a to z only. Lower-case letters
  outside ASCII (such as "é") are returned unchanged, whereas `toUpperCase`
  maps them to their upper case.
- Grid.FirstUpper: inherits the ASCII-only upper-casing of Grid.Upper.
  Characters whose upper case expands (such as "ß" to "SS") are not modelled.
  Strings are sequences of characters, not UTF-16 code units.
- App.Crossword.HandleInput: requires a square of the grid. The source only
  calls it with the current selection, and would index outside its matrices
  otherwise.
- App.Crossword.HandleKeyboardInput: requires a null or in-bounds selection.
  The source sets the selection only from the rendered squares and from
  navigation, which stays in bounds (`Grid.InputKeepsSelectionInBounds`).
- App.Crossword.HandleSelect: requires the class invariant (`Valid()`), as
  HandleInput, HandleKeyboardInput and HandleCheck do; HandleClear needs
  nothing. The source itself places no demand on the square.
- Backspace, clearing only the incorrect squares and saving or loading
  progress are not part of this source file, so they are not modelled.
