/**
 * The screen-level elements: the viewport origin that centres the 80 x 24
 * application, the size modal, the title bar, and where the Exit and Next
 * buttons go. Terminal sizes are parameters.
 */
module Screen {
  import opened Text
  import opened Style
  import opened Game
  import opened Storage

  const APP_WIDTH: nat := 80
  const APP_HEIGHT: nat := 24

  /** `a.saturating_sub(b)` */
  function SatSub(a: nat, b: nat): nat
  {
    if a >= b then a - b else 0
  }

  /** The viewport's origin along one axis: half the room left over, 0 when there is none. */
  function Origin(size: nat, app: nat): nat
  {
    SatSub(size, app) / 2
  }

  /** `dynamic_x`: the viewport origin plus the relative column. */
  function DynamicX(cols: nat, relX: nat): (x: nat)
    ensures x >= relX && x - relX == Origin(cols, APP_WIDTH)
  {
    Origin(cols, APP_WIDTH) + relX
  }

  /** `dynamic_y`: the viewport origin plus the relative row. */
  function DynamicY(rows: nat, relY: nat): (y: nat)
    ensures y >= relY && y - relY == Origin(rows, APP_HEIGHT)
  {
    Origin(rows, APP_HEIGHT) + relY
  }

  /**
   * The application is centred: on a terminal at least as large, the
   * margin before it equals the margin after it or is one less; on a
   * smaller one it starts at the edge.
   */
  lemma Centred(size: nat, app: nat)
    ensures size < app ==> Origin(size, app) == 0
    ensures size >= app ==>
              var before := Origin(size, app);
              var after := size - app - before;
              before <= after <= before + 1
  {
  }

  /** The whole application fits the terminal. */
  predicate TerminalFits(cols: nat, rows: nat)
  {
    cols >= APP_WIDTH && rows >= APP_HEIGHT
  }

  // ---------------------------------------------------------------------
  // Size modal
  // ---------------------------------------------------------------------

  const MESSAGE: string := "Enlarge Terminal Window"
  const MESSAGE_OFFSET: nat := 12

  /** Where the message starts on its row. */
  function MessageStart(cols: nat): nat
  {
    SatSub(cols / 2, MESSAGE_OFFSET)
  }

  /** The cell at (y, x) of the modal on a terminal too small for the application. */
  function ModalCell(cols: nat, rows: nat, y: nat, x: nat): Styled
  {
    var start := MessageStart(cols);
    if y == rows / 2 && start <= x < start + |MESSAGE| then Txt([MESSAGE[x - start]]) else Txt(" ")
  }

  /** `Look::from("")`: one row holding one empty cell. */
  const EmptyLook: Look := [[Txt("")]]

  /**
   * The modal's `on_state`: on a terminal too small for the application, a
   * blank screen-sized look with the message on the middle row, clipped at
   * the row's end; otherwise nothing to show.
   */
  method ModalOnState(cols: nat, rows: nat) returns (look: Look)
    ensures TerminalFits(cols, rows) ==> look == EmptyLook
    ensures !TerminalFits(cols, rows) ==>
              && |look| == rows
              && (forall y :: 0 <= y < rows ==> |look[y]| == cols)
              && (forall y, x :: 0 <= y < rows && 0 <= x < cols ==> look[y][x] == ModalCell(cols, rows, y, x))
  {
    if TerminalFits(cols, rows) {
      look := EmptyLook;
      return;
    }
    look := [];
    for rowIdx := 0 to rows
      invariant |look| == rowIdx
      invariant forall y :: 0 <= y < rowIdx ==> |look[y]| == cols
      invariant forall y, x :: 0 <= y < rowIdx && 0 <= x < cols ==> look[y][x] == ModalCell(cols, rows, y, x)
    {
      var row: seq<Styled> := seq(cols, _ => Txt(" "));
      if rowIdx == rows / 2 {
        var point := SatSub(cols / 2, MESSAGE_OFFSET);
        for i := 0 to |MESSAGE|
          invariant |row| == cols
          invariant forall x :: 0 <= x < cols ==>
                      row[x] == (if point <= x < point + i then Txt([MESSAGE[x - point]]) else Txt(" "))
        {
          if point + i < |row| {
            row := row[point + i := Txt([MESSAGE[i]])];
          }
        }
      }
      look := look + [row];
    }
  }

  /**
   * From 23 columns on the message shows whole, starting at half the width
   * less 12; on a narrower terminal it shows from the row's start, cut at
   * the last column.
   */
  lemma ModalShowsMessage(cols: nat, rows: nat, i: nat)
    requires !TerminalFits(cols, rows) && rows > 0 && i < |MESSAGE|
    ensures cols >= |MESSAGE| ==>
              && MessageStart(cols) + i < cols
              && ModalCell(cols, rows, rows / 2, MessageStart(cols) + i) == Txt([MESSAGE[i]])
    ensures cols < |MESSAGE| ==> MessageStart(cols) == 0 && (i < cols <==> MessageStart(cols) + i < cols)
  {
  }

  // ---------------------------------------------------------------------
  // Title bar
  // ---------------------------------------------------------------------

  const TITLE: string := "Rusty Wordle"

  /** `line.replace_range(lo..hi, text)` */
  function ReplaceRange(line: string, lo: nat, hi: nat, text: string): string
    requires lo <= hi <= |line|
  {
    line[..lo] + text + line[hi..]
  }

  function Min(a: nat, b: nat): nat
  {
    if a <= b then a else b
  }

  /** The title bar's text: a screen-wide line of spaces with the title written over its start. */
  function TitleLine(cols: nat): string
  {
    ReplaceRange(Spaces(cols), 0, Min(|TITLE|, cols), TITLE)
  }

  /**
   * The title always shows whole: the line is the title followed by spaces
   * up to the screen's width, and on a screen narrower than the title it is
   * the title alone, longer than the screen.
   */
  lemma TitleLineShape(cols: nat)
    ensures |TitleLine(cols)| == if cols >= |TITLE| then cols else |TITLE|
    ensures TitleLine(cols)[..|TITLE|] == TITLE
    ensures forall k :: |TITLE| <= k < |TitleLine(cols)| ==> TitleLine(cols)[k] == ' '
  {
    var line := TitleLine(cols);
    assert line == TITLE + Spaces(cols)[Min(|TITLE|, cols)..];
    assert line[..|TITLE|] == TITLE;
  }

  /** The title bar's look: the whole line in inverse video. */
  function TitleLook(cols: nat): (look: Look)
    ensures |look| == 1 && |look[0]| == 1 && look[0][0].Inv?
  {
    [[Inv(Txt(TitleLine(cols)))]]
  }

  // ---------------------------------------------------------------------
  // Exit and Next buttons
  // ---------------------------------------------------------------------

  const EXIT: string := "Exit"

  /** The Exit button's column: "Exit" ends at the screen's right edge. */
  function ExitX(cols: nat): (x: nat)
    requires cols >= |EXIT|
    ensures x + |EXIT| == cols
  {
    cols - 4
  }

  /**
   * The Next button's `on_state`: underlined "Next" and the text to save
   * once play has ended, four spaces and nothing to save while it goes on.
   */
  function NextOnState(s: State): (r: (Look, Option<string>))
    ensures r.1.Some? <==> s.game != InPlay
    ensures |r.0| == 1 && |r.0[0]| == 1
  {
    if s.game != InPlay then ([[Under(Txt("Next"))]], Some(SaveText(s.results, s.streak, s.wordIndex)))
    else ([[Txt("    ")]], None)
  }

  /**
   * Outside play, and only then, the statistics are saved; what is saved
   * reads back as the same counters, streak and word index.
   */
  lemma NextSavesFinishedGame(s: State)
    requires |s.results| == 7 && forall k :: 0 <= k < 7 ==> s.results[k] < U32_BOUND
    requires s.streak.0 < U32_BOUND && s.streak.1 < U32_BOUND && s.wordIndex < USIZE_BOUND
    ensures NextOnState(s).1.Some? <==> s.game != InPlay
    ensures NextOnState(s).1.Some? ==>
              var lines := Read(NextOnState(s).1);
              |lines| == 3 && ParseStored(lines) == Stats(s.results, s.streak, s.wordIndex)
  {
    if s.game != InPlay {
      SaveParseRoundTrip(s.results, s.streak, s.wordIndex);
    }
  }
}
