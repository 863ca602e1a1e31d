/**
 * The board projection (`on_state` of the board element): the 18 x 25
 * template of letter boxes, with each box's centre showing the attempt's
 * letter and every box of a committed attempt painted on its letter's
 * colour.
 */
module Board {
  import opened Style
  import opened Scorer
  import opened Game
  import opened Animators

  const TemplateTop: string := "┌───┐┌───┐┌───┐┌───┐┌───┐"
  const TemplateMiddle: string := "│   ││   ││   ││   ││   │"
  const TemplateBottom: string := "└───┘└───┘└───┘└───┘└───┘"

  const BOARD_ROWS: nat := 18
  const BOARD_COLS: nat := 25

  /** One cell per glyph. */
  function Cells(s: string): (r: Row)
    ensures |r| == |s| && forall i :: 0 <= i < |s| ==> r[i] == Txt([s[i]])
  {
    seq(|s|, i requires 0 <= i < |s| => Txt([s[i]]))
  }

  /** The empty board: six attempts of five boxes, three rows per attempt. */
  function Template(): (look: Look)
    ensures |look| == BOARD_ROWS && forall ri :: 0 <= ri < BOARD_ROWS ==> |look[ri]| == BOARD_COLS
  {
    seq(BOARD_ROWS, ri requires 0 <= ri < BOARD_ROWS =>
      Cells(TemplateRow(ri % 3)))
  }

  /** The glyph at cell (ri, ci) of the projection, given the attempt's letter there. */
  function ProjectCell(status: seq<seq<char>>, inPlay: nat, answer: seq<char>, ri: nat, ci: nat): Styled
    requires BoardShaped(status) && ri < BOARD_ROWS && ci < BOARD_COLS
  {
    var r := ri / 3;
    var c := ci / 5;
    var letter := status[r][c];
    var guess := status[r];
    var item := Template()[ri][ci];
    if ri % 3 == 1 && ci % 5 == 2 then
      if inPlay == r then Txt([letter])
      else if letter == BLANK then Txt([letter])
      else SetBackground(GetLetterStatus(c, guess, answer), Txt([letter]))
    else
      if inPlay == r then item
      else if letter == BLANK then item
      else SetBackground(GetLetterStatus(c, guess, answer), item)
  }

  /** The board element's look for the record's board, attempt in play and answer. */
  function Project(status: seq<seq<char>>, inPlay: nat, answer: seq<char>): (look: Look)
    requires BoardShaped(status)
    ensures |look| == BOARD_ROWS && forall ri :: 0 <= ri < BOARD_ROWS ==> |look[ri]| == BOARD_COLS
  {
    seq(BOARD_ROWS, ri requires 0 <= ri < BOARD_ROWS =>
      seq(BOARD_COLS, ci requires 0 <= ci < BOARD_COLS => ProjectCell(status, inPlay, answer, ri, ci)))
  }

  function TemplateRow(t: nat): string
  {
    if t == 0 then TemplateTop else if t == 1 then TemplateMiddle else TemplateBottom
  }

  function Five(s: string): string
  {
    s + s + s + s + s
  }

  lemma FiveAt(s: string, x: nat)
    requires |s| == 5 && x < 25
    ensures Five(s)[x] == s[x % 5]
  {
    var k := x / 5;
    assert 5 * k <= x < 5 * k + 5;
    assert x % 5 == x - 5 * k;
  }

  lemma TemplateRowBoxes(t: nat)
    requires t < 3
    ensures TemplateRow(t) == Five(BoxRow(t, ' '))
  {
    if t == 0 {
      assert TemplateTop == Five(TOP);
    } else if t == 1 {
      assert TemplateMiddle == Five(['│', ' ', ' ', ' ', '│']);
    } else {
      assert TemplateBottom == Five(BOTTOM);
    }
  }

  /** The template's row `t` repeats the letter-box row with a blank centre. */
  lemma TemplateBoxes(ri: nat, ci: nat)
    requires ri < BOARD_ROWS && ci < BOARD_COLS
    ensures Template()[ri][ci] == Txt([BoxRow(ri % 3, ' ')[ci % 5]])
  {
    assert Template()[ri] == Cells(TemplateRow(ri % 3));
    TemplateRowBoxes(ri % 3);
    FiveAt(BoxRow(ri % 3, ' '), ci);
  }

  /** A box is drawn plain while its attempt is in play or its letter is blank. */
  predicate Plain(status: seq<seq<char>>, inPlay: nat, r: nat, c: nat)
    requires BoardShaped(status) && r < ROWS && c < WORD_LEN
  {
    inPlay == r || status[r][c] == BLANK
  }

  /**
   * Cell (ri, ci) belongs to attempt ri/3, column ci/5: it shows the box
   * glyph for its place with the letter at the centre, unstyled while the
   * box is plain and otherwise on the colour of the letter's score.
   */
  lemma ProjectedCell(status: seq<seq<char>>, inPlay: nat, answer: seq<char>, ri: nat, ci: nat)
    requires BoardShaped(status) && ri < BOARD_ROWS && ci < BOARD_COLS
    ensures var r := ri / 3;
            var c := ci / 5;
            var glyph := Txt([BoxRow(ri % 3, status[r][c])[ci % 5]]);
            Project(status, inPlay, answer)[ri][ci] ==
              if Plain(status, inPlay, r, c) then glyph
              else SetBackground(GetLetterStatus(c, status[r], answer), glyph)
  {
    TemplateBoxes(ri, ci);
  }

  /** The centre of every box carries its letter, styled or not. */
  lemma CentreShowsLetter(status: seq<seq<char>>, inPlay: nat, answer: seq<char>, r: nat, c: nat)
    requires BoardShaped(status) && r < ROWS && c < WORD_LEN
    ensures var cell := Project(status, inPlay, answer)[3 * r + 1][5 * c + 2];
            cell == Txt([status[r][c]]) || (cell.Bg? && cell.inner == Txt([status[r][c]]))
    ensures Plain(status, inPlay, r, c) <==> !Project(status, inPlay, answer)[3 * r + 1][5 * c + 2].Bg?
  {
    assert (3 * r + 1) / 3 == r && (3 * r + 1) % 3 == 1;
    assert (5 * c + 2) / 5 == c && (5 * c + 2) % 5 == 2;
    ProjectedCell(status, inPlay, answer, 3 * r + 1, 5 * c + 2);
  }

  /**
   * Every cell of a box that is not plain is on colour 2, 3 or 8, and the
   * colour reads back as the letter's score.
   */
  lemma StyledBoxColour(status: seq<seq<char>>, inPlay: nat, answer: seq<char>, ri: nat, ci: nat)
    requires BoardShaped(status) && ri < BOARD_ROWS && ci < BOARD_COLS
    requires !Plain(status, inPlay, ri / 3, ci / 5)
    ensures var cell := Project(status, inPlay, answer)[ri][ci];
            && cell.Bg? && cell.code in {2, 3, 8}
            && AnsiToStatus(cell.code) == GetLetterStatus(ci / 5, status[ri / 3], answer)
  {
    ProjectedCell(status, inPlay, answer, ri, ci);
  }

  /** The attempt in play, and any box with a blank letter, is drawn exactly as the template with the letter at the centre. */
  lemma PlainBoxUnstyled(status: seq<seq<char>>, inPlay: nat, answer: seq<char>, ri: nat, ci: nat)
    requires BoardShaped(status) && ri < BOARD_ROWS && ci < BOARD_COLS
    requires Plain(status, inPlay, ri / 3, ci / 5)
    ensures Project(status, inPlay, answer)[ri][ci] ==
              (if ri % 3 == 1 && ci % 5 == 2 then Txt([status[ri / 3][ci / 5]]) else Template()[ri][ci])
  {
    ProjectedCell(status, inPlay, answer, ri, ci);
    TemplateBoxes(ri, ci);
  }

  /**
   * Once the attempt `p` has been revealed and play has moved on, the
   * projection draws its three rows exactly as the reveal's last frame
   * left them, glyph for glyph and colour for colour.
   */
  lemma RevealMatchesProjection(status: seq<seq<char>>, inPlay: nat, answer: seq<char>, look: Look, p: nat)
    requires BoardShaped(status) && p < ROWS && p != inPlay
    requires forall c :: 0 <= c < WORD_LEN ==> status[p][c] != BLANK
    requires Fits(look, p)
    ensures forall y, x :: 3 * p <= y < 3 * p + 3 && 0 <= x < BOARD_COLS ==>
              Project(status, inPlay, answer)[y][x] == Revealed(look, p, status[p], answer, 5)[y][x]
  {
    RevealedCells(look, p, status[p], answer, 5);
    forall y, x | 3 * p <= y < 3 * p + 3 && 0 <= x < BOARD_COLS
      ensures Project(status, inPlay, answer)[y][x] == Revealed(look, p, status[p], answer, 5)[y][x]
    {
      ProjectedCell(status, inPlay, answer, y, x);
      assert y / 3 == p && y % 3 == y - 3 * p;
    }
  }
}
