# rewordle: a verified model of the game core

This project models the game core of *rewordle*, a Wordle clone that runs in a
terminal. The original is written in Rust. The model is in Dafny and covers:

- the letter scorer;
- the input state machine over the application record `AppState`;
- the two board animators (the shake and the reveal);
- the board projection;
- the on-screen keyboard and its key colours;
- the answer header, the statistics block and the win-distribution bars;
- the title bar, the size modal, the Exit and Next buttons;
- the `.rewordle` save file: what is written, how it is validated and read,
  and how `main` parses it into the starting record.

The model is organised one module per file:

| file | module | what it holds |
|---|---|---|
| text.dfy | `Text` | `split`, `join`, `lines`, `trim`, `to_string`, `parse::<uN>`, `f32` rounding of a ratio |
| style.dfy | `Style` | styled text (background, inverse, underline) and `Look`, a grid of styled cells |
| scorer.dfy | `Scorer` | `wordle_highlight`, `get_letter_status` |
| game.dfy | `Game` | the record as a value; `mutate_state_on_input` and `mutate_state_new_game` as functions on it; the record invariant `Wf` |
| app.dfy | `App` | the record as a class whose handlers update its fields in place; each handler is proved to follow the functions in game.dfy |
| animators.dfy | `Animators` | `invalid_word_animator`, `reveal_animator`, as the sequence of looks they install |
| board.dfy | `Board` | the board's `on_state` projection |
| keyboard.dfy | `Keyboard` | the key layout (`build`) and a key's `on_state` |
| answer.dfy, results.dfy, graphs.dfy | `Answer`, `Results`, `Graphs` | the three read-only panels |
| screen.dfy | `Screen` | viewport centring, the size modal, the title bar, the Exit and Next buttons |
| storage.dfy | `Storage` | `save`, `load_rewordle`, `read`, and the parsing in `main` |

Several source files are copies of each other:

- `src/ui.rs` repeats the scorer, the input machine and the animators of
  `src/game.rs` and `src/elements/animators.rs`.
- `src/ui/*.rs` repeats `src/elements/*.rs`.

Each such piece is modelled once. The source cell of a row cites one copy.

For answer HELLO and guess LLAMA the scorer gives `[1,1,0,0,0]`
(`Scorer.HelloLlama`): HELLO holds two L's, so both L's of LLAMA score 1, as
the duplicate cap of `Scorer.DuplicateCap` says.

## Model

| member | source | states |
|---|---|---|
| Text.Split | src/main.rs:54-57 | `split(':')` yields at least one piece, and no piece contains the separator |
| Text.Join | src/storage.rs:36-40 | every non-separator character of the joined text comes from one of the pieces |
| Text.SplitJoin | src/storage.rs:36-40 | splitting what `join` glued, with separator-free pieces, gives the pieces back |
| Text.Lines | src/storage.rs:14 | no line contains '\n' |
| Text.LinesOfEmpty | src/storage.rs:14 | the empty file has no lines at all |
| Text.LinesOfThree | src/storage.rs:14 | three newline-separated lines, the last non-empty, come back as written |
| Text.TrimNoWhitespace | src/storage.rs:14 | `trim` leaves a string without white space unchanged |
| Text.NatToString | src/storage.rs:36-44 | `to_string` of an integer is one or more ASCII digits, with no leading zero unless the number is 0 |
| Text.NatToStringValue | src/storage.rs:36-44 | the digits `to_string` prints have the printed number as their value |
| Text.ParseUnsigned | src/main.rs:56 | a successful parse is below the type's bound, and for a digit string it is the digits' value |
| Text.ParsePrinted | src/main.rs:54-73 | parsing a printed number that fits the type gives the number back |
| Text.Spaces | src/ui/graphs.rs:20-21 | `" ".repeat(n)` has length n and holds only spaces |
| Text.RoundedRatio | src/elements/results.rs:14-18 | the result is the integer nearest to k*n/d: it lies within one half of it |
| Text.RoundedRatioBound | src/ui/graphs.rs:14-18 | a ratio of at most one rounds to at most the scale |
| Text.RoundedRatioOne | src/ui/graphs.rs:14-18 | the ratio one rounds to the scale itself |
| Text.RoundedRatioZero | src/elements/results.rs:14-18 | the ratio zero rounds to zero |
| Style.StatusToAnsi | src/elements/animators.rs:6-12 | the colour is 2, 3 or 8; it is 2 exactly for status 2 and 3 exactly for status 1 |
| Style.AnsiRoundTrip | src/elements/animators.rs:6-12 | the colour of each status 0..2 reads back as that status |
| Style.SetBackground | src/game.rs:66-72 | the item is wrapped in a background of colour 2, 3 or 8, and the colour reads back as the status (statuses above 2 as 0) |
| Style.StyleLook | src/elements/keyboard.rs:46-47 | the styled look has the look's shape, and each cell is that cell on the colour |
| Scorer.Position | src/game.rs:35 | a found index holds the character; there is none exactly when the character is absent |
| Scorer.PositionFirst | src/game.rs:35 | when every earlier cell differs from the character, `position` returns the first index holding it |
| Scorer.Run | src/game.rs:28-43 | after n steps there are n statuses, each at most 2, and the working map keeps the answer's length |
| Scorer.WordleHighlight | src/game.rs:7-46 | the in-place loop returns the statuses of the functional `Highlight`, one per guess position |
| Scorer.GetLetterStatus | src/game.rs:49-54 | the status at `pos` is the highlight there, and 0 past the guess's end |
| Scorer.HighlightAt | src/game.rs:28-43 | the status at i is the one step i computes against the map left by the earlier steps |
| Scorer.AbsentStep | src/game.rs:32-34 | a guess letter absent from the answer appends a 0 and leaves the working map unchanged |
| Scorer.FoundStep | src/game.rs:35-38 | a misplaced guess letter found in the map at j appends a 1 and punches index j |
| Scorer.ExactIffTwo | src/game.rs:29-31 | a position scores 2 if and only if its letter equals the answer's letter there |
| Scorer.AbsentScoresZero | src/game.rs:32-34 | a letter absent from the answer scores 0 |
| Scorer.SelfScoresAllExact | src/game.rs:28-43 | the answer scored against itself is 2 everywhere |
| Scorer.DisjointScoresAllAbsent | src/game.rs:28-43 | a guess sharing no letter with the answer is 0 everywhere |
| Scorer.PunchCount | src/game.rs:13-23 | punching removes exactly the exact hits of each letter from the answer |
| Scorer.RunCounts | src/game.rs:28-43 | the scan invariant: after n steps, min(non-exact copies seen, copies left) copies were used up, and each scored 1 |
| Scorer.StepCounts | src/game.rs:29-42 | one step consumes a copy of c from the map exactly when a non-exact c finds one, and that copy scores 1; a non-exact c finding none scores 0 |
| Scorer.DuplicateCap | src/game.rs:12-43 | for each letter, the positions scoring 1 or 2 number min(copies in the guess, copies in the answer) |
| Scorer.ExistsIff | src/game.rs:35-41 | a non-exact copy scores 1 if and only if fewer non-exact copies precede it than the punched map holds |
| Scorer.LeftmostFirst | src/game.rs:35-38 | among non-exact copies of one letter, the 1s go to the leftmost copies first |
| Scorer.HelloLlama | src/game.rs:7-46 | answer HELLO, guess LLAMA scores [1,1,0,0,0] |
| Game.ToUpper | src/game.rs:88 | upper-casing keeps the key's length |
| Game.ValidKeyIsCapital | src/game.rs:74-76 | a key is accepted as a letter only when it is one character whose capital is 'A'..'Z' |
| Game.IsValidKey | src/game.rs:74-76 | `is_valid_key`: one ASCII letter; the control keys "enter" and "delete" are never taken for a letter |
| Game.Input | src/game.rs:79-153 | `mutate_state_on_input`: the record after `key`, branch by branch as in the source; outside play every key but "enter" leaves the record as it was (the lemmas below state each branch) |
| Game.Commit | src/game.rs:100-134 | an accepted word: one more attempt used and the board kept; won exactly when the row is the answer, lost exactly when it is not and this was the sixth attempt; statistics untouched while play goes on |
| Game.NewGame | src/game.rs:155-161 | `mutate_state_new_game`: in play on the first attempt with the word at the word index as answer, the statistics kept, and a well-formed record from a well-formed one |
| Game.InputAnimation | src/game.rs:97-108 | the shake is requested exactly for "enter" on a full row in neither list; the reveal exactly for "enter" on a full accepted row when the look has more than ten rows |
| Game.AddUsed | src/game.rs:127-132 | the used list only grows: the old list stays in front, and at most one entry is added per letter |
| Game.AddUsedSpec | src/game.rs:127-132 | pushing a word keeps the old list in front and the list free of duplicates, and adds exactly the word's letters |
| Game.InputAnimationGuarded | src/game.rs:94-108 | with the shake guarded like the reveal, a look of ten rows or fewer is never animated; on a larger look the request is unchanged |
| App.EnterKeyLookShake | src/ui.rs:641-645 | "enter" from the Enter key's 3-row look on a full unknown word asks for the shake; the look holds the attempt's rows only on the first attempt, so the animator's precondition fails from the second on; the guarded request asks nothing of it |
| Game.EnterKeyShakeOutOfRange | src/ui.rs:627-646 | "enter" from the 3-row Enter key, on a full unknown word past the first attempt, asks for the shake; `App.EnterKeyLookShake` shows the key's look lacks that attempt's rows |
| Game.GuardedAnimationFits | src/game.rs:105-108 | a guarded animation request means a look of more than ten rows and a game in play; an 18-row board holds the attempt's rows |
| Game.InputKeepsExitFlag | src/game.rs:79-153 | no input changes the exit flag that `exit_ui` reads |
| Game.NoBlankIsFull | src/game.rs:87 | for a row of letters then blanks, "no blank found" means the row is full |
| Game.TypeKeepsWf | src/game.rs:90-93 | typing a capital into the leftmost blank keeps the record well formed |
| Game.DeleteKeepsWf | src/game.rs:136-144 | blanking the last letter keeps the record well formed |
| Game.CommitKeepsWf | src/game.rs:110-134 | committing a full row keeps the record well formed |
| Game.CommitBookkeeping | src/game.rs:110-134 | committing a word counts one more game exactly when it ends the game, keeps the streak within its maximum, and leaves play once all six rows are used |
| Game.NewGameWf | src/game.rs:155-161 | a new game is well formed |
| Game.InputKeepsWf | src/game.rs:79-153 | every input keeps the invariant: committed rows full, the row in play packed, later rows blank, `used` holding each committed letter once |
| Game.TypingFillsLeftmostBlank | src/game.rs:86-93 | a letter key writes its capital into the leftmost blank of the row in play, and nothing else changes |
| Game.FullRowIgnoresOtherKeys | src/game.rs:90-145 | on a full row, every key other than "enter" and "delete" changes nothing |
| Game.EnterOnOpenRowIgnored | src/game.rs:94 | "enter" on a row that still has a blank changes nothing |
| Game.OtherKeysIgnored | src/game.rs:145-151 | a key that is neither a letter, "enter" nor "delete" changes nothing |
| Game.EmptyKeyIgnored | src/ui.rs:440-442 | the empty key, sent for an event without a key, changes nothing |
| Game.DeleteOnEmptyRowIgnored | src/game.rs:136 | "delete" on a row whose first cell is blank changes nothing |
| Game.DeleteBlanksLastLetter | src/game.rs:136-144 | "delete" blanks the last letter of the row in play, and nothing else changes |
| Game.UnknownWordRefused | src/game.rs:97-99 | a full word in neither list leaves the record unchanged and asks for the shake |
| Game.AcceptedWordAdvances | src/game.rs:127-134 | an accepted word moves play to the next row and appends its new letters to `used`, in order and without duplicates |
| Game.WinBookkeeping | src/game.rs:110-118 | a win: status Won, the next word, one more win for this attempt and no other counter changed, the streak extended and its maximum kept |
| Game.LossBookkeeping | src/game.rs:119-125 | a loss on the sixth row: status Lost, the next word, one more loss, the streak reset, all six rows used |
| Game.InputBookkeeping | src/game.rs:110-134 | games played grow by one exactly when a game ends; the streak never passes its maximum; a record with all six rows used is no longer in play |
| Game.NewGameOnEnter | src/game.rs:147-161 | outside play only "enter" acts: a blank board on the next answer, with the counters, streak and word index kept |
| Animators.ShakeRow | src/elements/animators.rs:98-119 | the in-place shift equals `Shifted`: cells move by dx, cells pushed off an end are dropped, cells left behind keep their content |
| Animators.Shifted | src/elements/animators.rs:98-119 | the closed form of `shake_row`: same length, every cell is one of the row's own cells, and a zero offset changes nothing |
| Animators.ShiftBack | src/elements/animators.rs:98-119 | shifting right and back left restores every cell that was not pushed off the end |
| Animators.InvalidWordAnimator | src/elements/animators.rs:96-145 | six frames with offsets 1, -2, 2, -2, 1, 0; only the attempt's three rows move, and the last frame is the entry look |
| Animators.Paint | src/elements/animators.rs:44-48 | the cells from `start` are overwritten, and every other cell is kept |
| Animators.PaintSpan | src/elements/animators.rs:75-79 | the in-place loop writes exactly `Paint` |
| Animators.DrawBox | src/elements/animators.rs:39-54 | the three rows of the attempt, painted cell by cell, equal `PaintBox`: only the column's five cells on those rows change |
| Animators.ColourHidesFlip | src/elements/animators.rs:35-92 | a coloured box drawn over the flip frame is the same as one drawn over the original |
| Animators.RevealAnimator | src/elements/animators.rs:14-94 | ten frames, a flip then a coloured box per column, each built on the previous one; the last is all five boxes revealed |
| Animators.RevealColumn | src/elements/animators.rs:35-92 | one column yields the flip frame and then the coloured box; the box drawn over the flip is the box drawn over the look before it |
| Animators.ColourFrameCells | src/elements/animators.rs:62-92 | a coloured box changes only its five cells on each attempt row, to the box glyphs on the status's colour |
| Animators.RevealedCells | src/elements/animators.rs:31-94 | after n columns, the first 5n cells of the attempt rows show the coloured glyphs, and everything else is the entry look |
| Animators.RevealEndsColoured | src/elements/animators.rs:14-94 | the reveal's last frame has all 25 box cells coloured, and every other cell as on entry |
| Animators.FlipFrameCells | src/elements/animators.rs:35-60 | the flip frame changes only the column's box cells, to " ", "─", " " |
| Board.Template | src/elements/board.rs:39-112 | the empty board is 18 rows of 25 cells |
| Board.Project | src/elements/board.rs:114-165 | the projection is 18 rows of 25 cells |
| Board.ProjectCell | src/elements/board.rs:120-163 | the glyph of one board cell: the template glyph, or the letter in a box centre, coloured by the letter's score on committed rows; `Board.ProjectedCell` states it per case |
| Board.TemplateBoxes | src/elements/board.rs:39-112 | template cell (ri, ci) is row ri%3 of a letter box with a blank centre, at column ci%5 |
| Board.ProjectedCell | src/elements/board.rs:120-163 | each cell shows its box glyph with the letter at the centre: plain in the row in play or for a blank letter, otherwise on the colour of the letter's score |
| Board.CentreShowsLetter | src/elements/board.rs:129-144 | every box centre carries its letter, and is styled if and only if the box is not plain |
| Board.StyledBoxColour | src/elements/board.rs:136-158 | every cell of a box that is not plain is on colour 2, 3 or 8, and the colour reads back as the letter's score |
| Board.PlainBoxUnstyled | src/elements/board.rs:131-150 | a plain box is drawn as the template, with the letter at the centre |
| Board.RevealMatchesProjection | src/elements/board.rs:120-163 | once a revealed row is no longer in play, the projection draws it exactly as the reveal's last frame |
| Keyboard.Build | src/elements/keyboard.rs:68-88 | the loop pushes the keys line by line, left to right, at the layout's positions |
| Keyboard.KeyLetters | src/elements/keyboard.rs:70-74 | there are 26 keys, and their letters are 'A'..'Z', each once |
| Keyboard.KeysDisjoint | src/elements/keyboard.rs:78-81 | the 3 x 3 boxes of two different keys never share a cell |
| Keyboard.BottomRowBetweenEnterAndDelete | src/ui.rs:627-696 | the bottom letter row shares its line with Enter and Delete and fits between them |
| Keyboard.BestStatus | src/elements/keyboard.rs:32-44 | the loop returns the highest score any copy of the letter has on the board, or 0 when there is none |
| Keyboard.KeyOnState | src/elements/keyboard.rs:30-60 | an unused letter shows the plain key; a used letter's look is painted, cell by cell, on the colour of its best score |
| Keyboard.BestColour | src/elements/keyboard.rs:31-49 | a used key is green if and only if its letter scored exact somewhere, and grey if and only if it scored nothing anywhere |
| Keyboard.UsedLetterOnBoard | src/game.rs:127-132 | in a well-formed record, every used letter appears on a committed row |
| Storage.LoadRewordle | src/storage.rs:5-31 | the result is the defaults, or lines that all match one of the three shapes; a missing file gives the defaults |
| Storage.TrimmedLines | src/storage.rs:14 | one entry per line of the file, each trimmed |
| Storage.LineOne | src/storage.rs:7 | `^\d+$`: one or more digits; a line of this shape has neither of the other two shapes |
| Storage.LineTwo | src/storage.rs:8 | `^\d+:\d+$`: two digit runs around one ':'; `Storage.StreakLineValid` shows the streak line has it |
| Storage.LineSeven | src/storage.rs:9 | `^\d+(:\d+){6}$`: seven digit runs joined by ':'; `Storage.ResultsLineValid` shows the counter line has it |
| Storage.Read | src/storage.rs:48-58 | every line that is read matches one of the three shapes |
| Storage.DefaultsValid | src/storage.rs:49-53 | the defaults are three lines: seven counters, a streak pair, a word index |
| Storage.MissingFileReadsDefaults | src/storage.rs:11-30 | a missing or unreadable file reads as the defaults |
| Storage.InvalidLineReadsDefaults | src/storage.rs:16-23 | one line of any other shape throws the whole file away |
| Storage.ParseOr0 | src/main.rs:73 | the value fits the type, or is the fallback 0 |
| Storage.ParseResults | src/main.rs:54-57 | one counter per ':'-separated field of the first line, each parsed as u32 or 0 |
| Storage.Field | src/main.rs:59-70 | a streak field fits in u32, and a missing field reads as 0 |
| Storage.ParseStored | src/main.rs:51-73 | at least one counter; the streak fits in u32 and the word index in usize |
| Storage.SavedLines | src/storage.rs:33-46 | the saved text has exactly three lines, each already trimmed |
| Storage.SaveText | src/storage.rs:33-46 | the text `save` writes is exactly three lines: the counters, the streak pair, the word index |
| Storage.ResultsLineValid | src/storage.rs:36-40 | the saved counter line splits back into its decimals and has the seven-number shape |
| Storage.StreakLineValid | src/storage.rs:41-43 | the saved streak line has the two-number shape |
| Storage.SaveThenRead | src/storage.rs:33-58 | for seven counters, what `save` writes validates and reads back unchanged |
| Storage.SaveParseRoundTrip | src/storage.rs:33-46 | parsing the saved text gives back the counters, streak and word index, when they fit their types |
| Storage.CountersRoundTrip | src/main.rs:54-57 | seven counters that fit in u32 come back unchanged from the line `save` writes |
| Storage.StreakRoundTrip | src/main.rs:59-70 | a streak that fits in u32 comes back unchanged from its "current:max" line |
| Storage.ReadValidText | src/storage.rs:14-24 | a file whose trimmed lines are all valid reads as exactly those lines |
| Storage.EmptyFileReadsNoLines | src/storage.rs:14-20 | an empty file passes validation and reads as no lines, fewer than the three `main` indexes |
| Storage.UnshapedLinesAccepted | src/storage.rs:16-18 | any file of three one-number lines, such as "0\n0\n0", is accepted as written, and its counters parse as one number instead of seven |
| Storage.ReadChecked | src/storage.rs:7-18 | the checked read always gives three lines: seven counters, a streak pair, a word index |
| Storage.CheckedParsesSeven | src/main.rs:54-57 | whatever the file holds, the checked lines parse into seven counters |
| Storage.SaveThenReadChecked | src/storage.rs:33-46 | the checked read keeps every file `save` wrote for seven counters |
| Storage.Startup | src/main.rs:49-88 | the corrected start of Findings 1 and 2: built on the checked read, the starting record is always well formed, in play, on the first row |
| Storage.StartupAsWritten | src/main.rs:49-88 | `main` as written: the starting record is in play on a blank board, has as many counters as the first stored line has fields, and is well formed exactly when that is seven |
| Storage.StartupOnSavedFile | src/main.rs:49-88 | on every file `save` wrote, `main` as written and the checked start agree and recover the saved counters, streak and word |
| Storage.StartupOnOneCounter | src/main.rs:54-57 | a first line with one field gives `main` one counter and a badly formed start, while the checked start has seven |
| Storage.StartupOnUnshapedFile | src/storage.rs:16-18 | a file of three one-number lines is such a file, read with its last number as the word index |
| Screen.DynamicX | src/ui.rs:11-14 | an absolute column is the relative column plus the viewport's x origin |
| Screen.DynamicY | src/ui.rs:16-19 | an absolute row is the relative row plus the viewport's y origin |
| Screen.Centred | src/ui.rs:11-19 | the application is centred, with the leading margin equal to the trailing one or one less; on a smaller terminal it starts at the edge |
| Screen.ModalOnState | src/ui.rs:339-372 | on a terminal too small, a screen-sized blank look with the message on the middle row, clipped; otherwise the empty look |
| Screen.ModalShowsMessage | src/ui.rs:351-361 | from 23 columns on the message shows whole at half the width less 12; narrower, it starts at column 0 and is cut |
| Screen.TitleLineShape | src/ui.rs:379-388 | the title line is the title followed by spaces to the screen's width, and just the title on a narrower screen |
| Screen.TitleLook | src/ui.rs:379-388 | the title bar is one cell, in inverse video |
| Screen.ExitX | src/ui.rs:404-407 | "Exit" ends at the right edge of the screen |
| Screen.NextSavesFinishedGame | src/ui.rs:422-431 | the Next button saves only once play has ended, and what it saves reads back as the same statistics |
| Screen.NextOnState | src/ui.rs:422-431 | the Next button's look is one cell, and there is text to save exactly when play has ended |
| Results.WinPercentRange | src/elements/results.rs:12-18 | the win percentage is at most 100; it is 0 before any game and when every game was lost, and 100 when none was |
| Results.WinPercent | src/elements/results.rs:14-18 | the win percentage never passes 100; `Results.WinPercentRange` gives its end points |
| Results.ResultsLook | src/elements/results.rs:20-25 | the block is four lines of one cell each |
| Results.PlayedCountsGames | src/elements/results.rs:12 | games played grow by one exactly when an input ends a game |
| Graphs.MaxOf | src/ui/graphs.rs:11 | `max().unwrap_or(0)` bounds every element, is 0 for no elements, and is attained |
| Graphs.BarLook | src/ui/graphs.rs:7-32 | a bar is one cell |
| Graphs.BarText | src/ui/graphs.rs:20-30 | the bar's text: the label, a space, the bar and the value in inverse video, then padding; `Graphs.BarLengthRange` bounds the bar and padding |
| Graphs.BarLengthRange | src/ui/graphs.rs:11-21 | a bar is at most 10 cells; bar plus padding is 11; it is empty when no game was won and full for the largest counter |
| Graphs.BarsIgnoreLosses | src/ui/graphs.rs:10-12 | the loss counter moves no bar |
| Graphs.BuildGraphs | src/ui/graphs.rs:40-50 | six bars labelled "1".."6", one per row from row 4 at column 57, bar i reading counter i |
| Graphs.BarsDistinct | src/ui/graphs.rs:43-47 | no two bars share a row, a counter or a label |
| Answer.AnswerUpdates | src/ui/answer.rs:7-68 | one or two updates per state |
| Answer.AnswerLookShape | src/ui/answer.rs:8-67 | the final header shows the number and then "?????", the answer plain after a win, or the answer in inverse after a loss; only a win writes twice |
| Answer.ShownStableAtGameEnd | src/ui/answer.rs:53-67 | the puzzle number shown does not change when an input ends a game |
| Answer.WinPraiseKnown | src/ui/answer.rs:12-48 | a win is on attempt 1..6, so the praise is one of the six words |
| Answer.Praise | src/ui/answer.rs:12-48 | the praise is one of the six words exactly for attempts 1 to 6, and "???" otherwise |
| App.AppState.constructor | src/main.rs:75-88 | the record starts as `Startup` builds it, and is well formed |
| App.AppState.NewGame | src/game.rs:155-161 | the fields move as `Game.NewGame` says |
| App.AppState.TypeLetter | src/game.rs:90-93 | only the cell typed into changes |
| App.AppState.DeleteLetter | src/game.rs:136-144 | the cell before the first blank, or the last cell of a full row, is blanked |
| App.AppState.CommitAttempt | src/game.rs:100-134 | the fields move as `Game.Commit` says |
| App.AppState.PlayInput | src/game.rs:86-145 | while in play, the fields move as `Game.Input` says, and the frames are those of the guarded animator request |
| App.AppState.EnterFullRow | src/game.rs:94-135 | "enter" on a full row: a word in neither list leaves the record unchanged and is shaken on the board; an accepted word is revealed on the board and committed as `Game.Commit` says |
| App.AppState.RecordWin | src/game.rs:110-118 | the next word, one more win for this attempt, the streak extended and its maximum kept, status Won |
| App.AppState.RecordLoss | src/game.rs:119-125 | the next word, one more loss, the streak reset, status Lost |
| App.AppState.PushUsed | src/game.rs:127-132 | the loop leaves `used` as `AddUsed` says, and nothing else changes |
| App.AppState.OnInput | src/ui.rs:100-170 | the fields move as `Game.Input` says and keep `Wf`; the frames are those of the guarded animator request |
| App.AppState.BoardKeypress | src/ui.rs:440-442 | the key, or "" for none, goes to the input machine; no key changes nothing |
| App.AppState.KeyClick | src/ui.rs:616-621 | a click on the key sends its input to the machine; a miss changes nothing |
| App.AppState.BoardOnLoop | src/elements/board.rs:23-34 | a pending shake or reveal is played and cleared; after a reveal the new-word step is signalled |
| App.AppState.ScreenOnLoop | src/ui.rs:320-331 | the origin is recomputed from the terminal size, and the screen is cleared exactly when it moved |
| App.AppState.ExitKeypress | src/ui.rs:394-398 | only ctrl+c sets the exit flag |
| App.AppState.ExitClick | src/ui.rs:399-403 | a click on Exit sets the exit flag |
| App.AppState.NextClick | src/ui.rs:415-421 | a click on Next after play has ended starts a new game; anything else changes nothing |

## Left out

- Terminal I/O is not modelled: drawing, cursor moves, clearing, the pauses
  between animation frames, and the event loop. Animators return the frames
  they would draw. The terminal size and "the pointer is over the element"
  are parameters.
- File-system access is a parameter: `None` stands for a missing or
  unreadable `.rewordle`, and `Some(text)` for its contents. Writing the file
  is modelled as the text `save` would write.
- The word lists `PLAY_WORDS` and `VALID_WORDS` are parameters. `PLAY_WORDS`
  is indexed by the word index; the model requires that index to be in range
  where the source would panic.
- `mutate_state_letter` and `mutate_state_new_word` are not part of this
  model. They are called by the element versions of the board and keys, but
  their source is not among the modelled files. `App.AppState.BoardOnLoop`
  returns a flag where the source calls `mutate_state_new_word`.
- Text.IsDigits: `\d` in the regular expressions of `src/storage.rs` is
  Unicode's decimal digit class. The model accepts ASCII digits only, so a
  file with other decimal digits is modelled as invalid.
- Storage.LineOne, Storage.LineTwo, Storage.LineSeven: built on
  `Text.IsDigits`, so they share its ASCII-only reading of `\d`.
- Text.RoundedRatio: the win percentage and the bar lengths are computed in
  `f32`. They are modelled as exact rational rounding, half away from zero.
  `f32` rounding error is not modelled.
- Game.WinBookkeeping: the counters, the streak and the word index are
  unbounded. The `u32`/`usize` overflow of `+= 1` is not modelled.
- App.AppState.RecordWin: same as above; no `u32`/`usize` overflow.
- Results.WinPercent, Results.ResultsLook: the source adds the counters up
  in `u32` (src/elements/results.rs:12). The model's sum of the counters
  (`Results.Played`) is unbounded. So the model does not capture a total of
  2^32 or more, such as a first line "4294967295:1:0:0:0:0:0". On such a
  total a debug build panics, and a release build wraps: "Played" can then
  show a small number, and `p - r[6]` can underflow into a "Win %" above 100.
  The promise `WinPercent(results) <= 100` holds only for the unbounded sum.
- Game.ToUpper: exact only where the capital is an ASCII letter. Characters
  whose capital is longer or non-ASCII keep their value, which gives the
  same accept/reject decision.
- Screen.ExitX: requires at least four columns. The source computes
  `columns() - 4` in `u16`, which underflows on a narrower terminal.
- Screen coordinates are unbounded. `u16` overflow in `dynamic_x`/`dynamic_y`
  is not modelled.
- Results.WinPercent: requires seven counters once a game was played. The
  source indexes `r[6]` and panics otherwise.
- Graphs.BarLook: requires at least six counters. The source slices
  `results[..6]` and panics otherwise.
- Answer.AnswerUpdates: on a win the source writes the praise and then,
  straight away, the answer over it. The model returns both looks in order,
  and the praise never stays on screen.
- Keyboard.KeyOnState: the key's previous look is a parameter. The source
  styles whatever look the key holds at that moment.
- `Look::from("")` is modelled as one row holding one empty cell
  (`Screen.EmptyLook`).
- The bar label in `src/ui.rs` is `index + 1`, and in `src/ui/graphs.rs` it
  is the `what` argument. `Graphs.BuildGraphs` shows they agree for the six
  bars built.
- App.AppState.OnInput: follows the corrected animation guard of Finding 3,
  not the source as written.
- App.AppState.PlayInput: same corrected guard; as written a look of ten rows
  or fewer is shaken too.
- App.AppState.EnterFullRow: same corrected guard; as written a word in
  neither list shakes whatever look the handler was given.
- App.AppState.KeyClick: same corrected guard, so no animation runs. As
  written the Enter key shakes its own look on the first attempt and indexes
  past its three rows from the second on (`App.EnterKeyLookShake`).
- Element placement is not modelled: the offsets each element adds to the
  viewport origin (`app_x + 9`, `app_y + 4` for the board, and so on), and
  `draw_if_fits`.
- App.AppState.constructor: reads the file through the checked read of
  Findings 1 and 2, not the source's `read` as written.
- Storage.Startup: composes `Storage.ReadChecked`, the corrected read of
  Findings 1 and 2. `main` as written is `Storage.StartupAsWritten`, which
  needs three stored lines (an empty file panics) and starts with one counter
  on "0\n0\n0".

## Findings

| source | as written | input that shows it | evidently intended | confidence | as-written member | corrected member |
|---|---|---|---|---|---|---|
| src/storage.rs:14-20 | an empty `.rewordle` has no lines, so "all lines valid" holds vacuously and `read` returns no lines; `main` then indexes `from_storage[0]` (src/main.rs:54) | a `.rewordle` file of length 0 | fall back to the defaults unless the file has the three saved lines | high (not executed) | Storage.EmptyFileReadsNoLines | Storage.ReadChecked |
| src/storage.rs:16-18 | each line may match any of the three shapes wherever it is, so the counter line can hold one number; the graphs slice `results[..6]` and the results panel reads `r[6]` | a `.rewordle` containing "0\n0\n0" | the first line must have seven counters, the second two, the third one | high (not executed) | Storage.UnshapedLinesAccepted | Storage.CheckedParsesSeven |
| src/ui.rs:113-116 | the shake is not guarded by the "more than ten rows" test that guards the reveal (src/ui.rs:122-125); a click on the Enter key passes the key's own 3-row look, and rows `3*in_play..3*in_play+2` are out of range once `in_play >= 1` | a full row not in either word list, entered with the on-screen Enter key on the second attempt or later | only the board is animated, as for the reveal | medium (not executed) | App.EnterKeyLookShake | Game.GuardedAnimationFits |
