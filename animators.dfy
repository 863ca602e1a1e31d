/**
 * The board animators: the shake played for a refused word and the
 * column-by-column reveal played for an accepted one. Each returns the
 * sequence of looks it installs on the element, in order; the pauses
 * between them are not modelled.
 */
module Animators {
  import opened Style
  import opened Scorer

  type Row = seq<Styled>

  // ---------------------------------------------------------------------
  // Shake
  // ---------------------------------------------------------------------

  /**
   * A row moved `dx` cells to the right (left when negative): cells pushed
   * past either end are dropped and the cells left behind keep their old
   * content.
   */
  function Shifted(original: Row, dx: int): (r: Row)
    ensures |r| == |original|
    ensures forall i :: 0 <= i < |r| ==> r[i] in original
    ensures dx == 0 ==> r == original
  {
    seq(|original|, i requires 0 <= i < |original| =>
      if dx > 0 && i >= dx then original[i - dx]
      else if dx < 0 && i - dx < |original| then original[i - dx]
      else original[i])
  }

  /** `shake_row` */
  method ShakeRow(original: Row, dx: int) returns (newRow: Row)
    ensures newRow == Shifted(original, dx)
  {
    var len := |original|;
    newRow := original;
    if dx > 0 {
      var i := len;
      while i > 0
        invariant 0 <= i <= len && |newRow| == len
        invariant forall j {:trigger newRow[j]} :: 0 <= j < len ==>
                    newRow[j] == (if j >= dx && j - dx >= i then original[j - dx] else original[j])
      {
        i := i - 1;
        var target := i + dx;
        ghost var prev := newRow;
        if target < len {
          newRow := newRow[target := original[i]];
        }
        forall j | 0 <= j < len
          ensures newRow[j] == (if j >= dx && j - dx >= i then original[j - dx] else original[j])
        {
          if j != target {
            assert newRow[j] == prev[j];
          }
        }
      }
    } else if dx < 0 {
      var d := -dx;
      for i := 0 to len
        invariant |newRow| == len
        invariant forall j {:trigger newRow[j]} :: 0 <= j < len ==> newRow[j] == (if j + d < i then original[j + d] else original[j])
      {
        ghost var prev := newRow;
        if i >= d {
          newRow := newRow[i - d := original[i]];
        }
        forall j | 0 <= j < len
          ensures newRow[j] == (if j + d < i + 1 then original[j + d] else original[j])
        {
          if j + d != i {
            assert newRow[j] == prev[j];
          }
        }
      }
    }
    assert forall j :: 0 <= j < len ==> newRow[j] == Shifted(original, dx)[j];
  }

  /** A zero shift leaves the row as it is. */
  lemma ShiftedZero(original: Row)
    ensures Shifted(original, 0) == original
  {
  }

  /** Shifting right and back left restores every cell that was not pushed off the end. */
  lemma ShiftBack(original: Row, dx: nat, i: nat)
    requires i + dx < |original|
    ensures Shifted(Shifted(original, dx), -(dx as int))[i] == original[i]
  {
  }

  const SHAKE_OFFSETS: seq<int> := [1, -2, 2, -2, 1, 0]

  /** The three rows of attempt `p` of the look. */
  predicate HasAttempt(look: Look, p: nat)
  {
    3 * p + 2 < |look|
  }

  /** The entry look with the three rows of attempt `p` shifted by `dx`. */
  function ShakeFrame(look: Look, p: nat, dx: int): Look
    requires HasAttempt(look, p)
  {
    look[3 * p := Shifted(look[3 * p], dx)]
        [3 * p + 1 := Shifted(look[3 * p + 1], dx)]
        [3 * p + 2 := Shifted(look[3 * p + 2], dx)]
  }

  function ShakeFrames(look: Look, p: nat): seq<Look>
    requires HasAttempt(look, p)
  {
    seq(|SHAKE_OFFSETS|, f requires 0 <= f < |SHAKE_OFFSETS| => ShakeFrame(look, p, SHAKE_OFFSETS[f]))
  }

  /**
   * `invalid_word_animator`: six frames, offsets 1, -2, 2, -2, 1, 0, each
   * drawn from the entry look. Every frame differs from the entry look only
   * in the attempt's three rows, and the last frame is the entry look.
   */
  method InvalidWordAnimator(look: Look, p: nat) returns (frames: seq<Look>)
    requires HasAttempt(look, p)
    ensures frames == ShakeFrames(look, p)
    ensures |frames| == 6
    ensures forall f, y :: 0 <= f < |frames| && 0 <= y < |look| && (y < 3 * p || y > 3 * p + 2) ==>
              |frames[f]| == |look| && frames[f][y] == look[y]
    ensures frames[|frames| - 1] == look
  {
    var rowIndex := 3 * p;
    var originalTop := look[rowIndex];
    var originalMiddle := look[rowIndex + 1];
    var originalBottom := look[rowIndex + 2];
    frames := [];
    for f := 0 to |SHAKE_OFFSETS|
      invariant |frames| == f
      invariant forall g :: 0 <= g < f ==> frames[g] == ShakeFrame(look, p, SHAKE_OFFSETS[g])
    {
      var dx := SHAKE_OFFSETS[f];
      var tempRows := look;
      var top := ShakeRow(originalTop, dx);
      var middle := ShakeRow(originalMiddle, dx);
      var bottom := ShakeRow(originalBottom, dx);
      tempRows := tempRows[rowIndex := top][rowIndex + 1 := middle][rowIndex + 2 := bottom];
      frames := frames + [tempRows];
    }
    assert SHAKE_OFFSETS[5] == 0;
    ShiftedZero(look[rowIndex]);
    ShiftedZero(look[rowIndex + 1]);
    ShiftedZero(look[rowIndex + 2]);
  }

  // ---------------------------------------------------------------------
  // Reveal
  // ---------------------------------------------------------------------

  const TOP: string := "┌───┐"
  const BOTTOM: string := "└───┘"

  /** The five glyphs of row `t` of a letter box. */
  function BoxRow(t: nat, letter: char): (s: string)
    requires t < 3
    ensures |s| == 5
  {
    if t == 0 then TOP else if t == 1 then ['│', ' ', letter, ' ', '│'] else BOTTOM
  }

  /** `str_to_colored_vec`: one cell per char, each on the status's colour. */
  function Colored(s: string, status: nat): (r: Row)
    ensures |r| == |s|
  {
    seq(|s|, i requires 0 <= i < |s| => SetBackground(status, Txt([s[i]])))
  }

  /** `cells` written over `row` from `start` on. */
  function Paint(row: Row, start: nat, cells: Row): (r: Row)
    requires start + |cells| <= |row|
    ensures |r| == |row|
    ensures forall x :: 0 <= x < |row| ==>
              r[x] == (if start <= x < start + |cells| then cells[x - start] else row[x])
  {
    row[..start] + cells + row[start + |cells|..]
  }

  /** `for i in 0..n { row[start + i] = cells[i] }` */
  method PaintSpan(row: Row, start: nat, cells: Row) returns (r: Row)
    requires start + |cells| <= |row|
    ensures r == Paint(row, start, cells)
  {
    r := row;
    for i := 0 to |cells|
      invariant |r| == |row|
      invariant forall x :: 0 <= x < |row| ==> r[x] == (if start <= x < start + i then cells[x - start] else row[x])
    {
      r := r[start + i := cells[i]];
    }
  }

  /** The attempt's three rows exist and are wide enough for five boxes. */
  predicate Fits(look: Look, p: nat)
  {
    3 * p + 2 < |look| && forall y :: 3 * p <= y < 3 * p + 3 ==> |look[y]| >= 25
  }

  /** The three rows of attempt `p` with cells `5*index..5*index+4` overwritten by `top`, `middle`, `bottom`. */
  function PaintBox(look: Look, p: nat, index: nat, top: Row, middle: Row, bottom: Row): (r: Look)
    requires Fits(look, p) && index < 5 && |top| == 5 && |middle| == 5 && |bottom| == 5
    ensures |r| == |look| && Fits(r, p)
    ensures forall y :: 0 <= y < |look| ==> |r[y]| == |look[y]|
  {
    look[3 * p := Paint(look[3 * p], 5 * index, top)]
        [3 * p + 1 := Paint(look[3 * p + 1], 5 * index, middle)]
        [3 * p + 2 := Paint(look[3 * p + 2], 5 * index, bottom)]
  }

  const BlankCells: Row := [Txt(" "), Txt(" "), Txt(" "), Txt(" "), Txt(" ")]
  const BarCells: Row := [Txt("─"), Txt("─"), Txt("─"), Txt("─"), Txt("─")]

  /** Step 1, the flip: " ", "─", " " across the column's box. */
  function FlipFrame(look: Look, p: nat, index: nat): Look
    requires Fits(look, p) && index < 5
  {
    PaintBox(look, p, index, BlankCells, BarCells, BlankCells)
  }

  /** Step 2, the colour: the box drawn again, every glyph on the letter's colour. */
  function ColourFrame(look: Look, p: nat, index: nat, letter: char, status: nat): Look
    requires Fits(look, p) && index < 5
  {
    PaintBox(look, p, index, Colored(BoxRow(0, letter), status), Colored(BoxRow(1, letter), status),
             Colored(BoxRow(2, letter), status))
  }

  /** The entry look with the first `n` columns of the attempt coloured. */
  function Revealed(look: Look, p: nat, row: seq<char>, answer: seq<char>, n: nat): (r: Look)
    requires Fits(look, p) && |row| == 5 && n <= 5
    ensures |r| == |look| && Fits(r, p)
    ensures forall y :: 0 <= y < |look| ==> |r[y]| == |look[y]|
  {
    if n == 0 then look
    else ColourFrame(Revealed(look, p, row, answer, n - 1), p, n - 1, row[n - 1], GetLetterStatus(n - 1, row, answer))
  }

  /** The frames of the first `n` columns: a flip, then the coloured box. */
  function RevealFrames(look: Look, p: nat, row: seq<char>, answer: seq<char>, n: nat): seq<Look>
    requires Fits(look, p) && |row| == 5 && n <= 5
  {
    if n == 0 then []
    else
      var before := Revealed(look, p, row, answer, n - 1);
      RevealFrames(look, p, row, answer, n - 1) + [FlipFrame(before, p, n - 1), Revealed(look, p, row, answer, n)]
  }

  /** Painting a box over a flipped box gives the same look as painting it over the original. */
  lemma ColourHidesFlip(look: Look, p: nat, index: nat, letter: char, status: nat)
    requires Fits(look, p) && index < 5
    ensures ColourFrame(FlipFrame(look, p, index), p, index, letter, status) == ColourFrame(look, p, index, letter, status)
  {
    var a := ColourFrame(FlipFrame(look, p, index), p, index, letter, status);
    var b := ColourFrame(look, p, index, letter, status);
    assert forall y :: 0 <= y < |look| ==> a[y] == b[y];
  }

  /** The three rows of attempt `p` painted, cell by cell, with the box's new cells. */
  method DrawBox(look: Look, p: nat, index: nat, top: Row, middle: Row, bottom: Row) returns (r: Look)
    requires Fits(look, p) && index < 5 && |top| == 5 && |middle| == 5 && |bottom| == 5
    ensures r == PaintBox(look, p, index, top, middle, bottom)
  {
    var t := PaintSpan(look[3 * p], 5 * index, top);
    var m := PaintSpan(look[3 * p + 1], 5 * index, middle);
    var b := PaintSpan(look[3 * p + 2], 5 * index, bottom);
    r := look[3 * p := t][3 * p + 1 := m][3 * p + 2 := b];
  }

  /** One column of the reveal: the flip frame, then the coloured box drawn over it. */
  method RevealColumn(look: Look, p: nat, index: nat, letter: char, status: nat) returns (flip: Look, coloured: Look)
    requires Fits(look, p) && index < 5
    ensures flip == FlipFrame(look, p, index)
    ensures coloured == ColourFrame(look, p, index, letter, status)
  {
    flip := DrawBox(look, p, index, BlankCells, BarCells, BlankCells);
    coloured := DrawBox(flip, p, index, Colored(BoxRow(0, letter), status),
                        Colored(BoxRow(1, letter), status), Colored(BoxRow(2, letter), status));
    ColourHidesFlip(look, p, index, letter, status);
  }

  /**
   * `reveal_animator`: for each column in turn, the flip frame and then the
   * coloured frame, each built on the look left by the previous one.
   */
  method RevealAnimator(look: Look, p: nat, status: seq<seq<char>>, answer: seq<char>) returns (frames: seq<Look>)
    requires Fits(look, p) && p < |status| && |status[p]| == 5
    ensures frames == RevealFrames(look, p, status[p], answer, 5)
    ensures |frames| == 10 && frames[9] == Revealed(look, p, status[p], answer, 5)
  {
    var lineInPlay := status[p];
    var fullLook := look;
    frames := [];
    for index := 0 to 5
      invariant fullLook == Revealed(look, p, lineInPlay, answer, index)
      invariant frames == RevealFrames(look, p, lineInPlay, answer, index)
      invariant |frames| == 2 * index
    {
      var flip, coloured := RevealColumn(fullLook, p, index, lineInPlay[index], GetLetterStatus(index, lineInPlay, answer));
      frames := frames + [flip, coloured];
      fullLook := coloured;
    }
  }

  /** The glyph the reveal draws at column `x` of row `t` of the attempt, on its letter's colour. */
  function RevealedCell(row: seq<char>, answer: seq<char>, t: nat, x: nat): Styled
    requires |row| == 5 && t < 3 && x < 25
  {
    SetBackground(GetLetterStatus(x / 5, row, answer), Txt([BoxRow(t, row[x / 5])[x % 5]]))
  }

  /** One coloured box: its 5 cells on each attempt row become the glyphs on the status's colour. */
  lemma ColourFrameCells(look: Look, p: nat, index: nat, letter: char, status: nat)
    requires Fits(look, p) && index < 5
    ensures var r := ColourFrame(look, p, index, letter, status);
            && (forall y :: 0 <= y < |look| && (y < 3 * p || y > 3 * p + 2) ==> r[y] == look[y])
            && (forall y, x :: 3 * p <= y < 3 * p + 3 && 0 <= x < |look[y]| ==>
                  r[y][x] == (if 5 * index <= x < 5 * index + 5
                              then SetBackground(status, Txt([BoxRow(y - 3 * p, letter)[x - 5 * index]]))
                              else look[y][x]))
  {
    var r := ColourFrame(look, p, index, letter, status);
    forall y | 3 * p <= y < 3 * p + 3
      ensures r[y] == Paint(look[y], 5 * index, Colored(BoxRow(y - 3 * p, letter), status))
    {
    }
  }

  /**
   * After `n` columns, the attempt's first `5*n` cells on each of its rows
   * are the coloured box glyphs; every other cell, and every other row,
   * is the entry look's.
   */
  lemma {:induction false} RevealedCells(look: Look, p: nat, row: seq<char>, answer: seq<char>, n: nat)
    requires Fits(look, p) && |row| == 5 && n <= 5
    ensures forall y :: 0 <= y < |look| && (y < 3 * p || y > 3 * p + 2) ==> Revealed(look, p, row, answer, n)[y] == look[y]
    ensures forall y, x :: 3 * p <= y < 3 * p + 3 && 0 <= x < |look[y]| ==>
                  Revealed(look, p, row, answer, n)[y][x] == (if x < 5 * n then RevealedCell(row, answer, y - 3 * p, x) else look[y][x])
  {
    if n > 0 {
      RevealedCells(look, p, row, answer, n - 1);
      var prev := Revealed(look, p, row, answer, n - 1);
      var status := GetLetterStatus(n - 1, row, answer);
      ColourFrameCells(prev, p, n - 1, row[n - 1], status);
      var r := Revealed(look, p, row, answer, n);
      assert r == ColourFrame(prev, p, n - 1, row[n - 1], status);
      forall y, x | 3 * p <= y < 3 * p + 3 && 0 <= x < |look[y]|
        ensures r[y][x] == (if x < 5 * n then RevealedCell(row, answer, y - 3 * p, x) else look[y][x])
      {
        if 5 * (n - 1) <= x < 5 * n {
          assert r[y][x] == SetBackground(status, Txt([BoxRow(y - 3 * p, row[n - 1])[x - 5 * (n - 1)]]));
          assert x / 5 == n - 1 && x % 5 == x - 5 * (n - 1);
          assert RevealedCell(row, answer, y - 3 * p, x) == SetBackground(status, Txt([BoxRow(y - 3 * p, row[n - 1])[x - 5 * (n - 1)]]));
        } else if x < 5 * (n - 1) {
          assert r[y][x] == prev[y][x];
          assert prev[y][x] == RevealedCell(row, answer, y - 3 * p, x);
        } else {
          assert r[y][x] == prev[y][x];
          assert prev[y][x] == look[y][x];
        }
      }
    }
  }

  /**
   * The reveal's last frame: the attempt's five boxes all coloured, every
   * cell past the boxes and every other row as on entry.
   */
  lemma RevealEndsColoured(look: Look, p: nat, row: seq<char>, answer: seq<char>)
    requires Fits(look, p) && |row| == 5
    ensures var r := Revealed(look, p, row, answer, 5);
            && |r| == |look|
            && (forall y :: 0 <= y < |look| && (y < 3 * p || y > 3 * p + 2) ==> r[y] == look[y])
            && (forall y, x :: 3 * p <= y < 3 * p + 3 && 0 <= x < 25 ==> r[y][x] == RevealedCell(row, answer, y - 3 * p, x))
            && (forall y, x :: 3 * p <= y < 3 * p + 3 && 25 <= x < |look[y]| ==> r[y][x] == look[y][x])
  {
    RevealedCells(look, p, row, answer, 5);
  }

  /** The flip frame of column `index` changes only the 5 cells of that column's box, to " ", "─", " ". */
  lemma FlipFrameCells(look: Look, p: nat, index: nat)
    requires Fits(look, p) && index < 5
    ensures var r := FlipFrame(look, p, index);
            && |r| == |look|
            && (forall y :: 0 <= y < |look| && (y < 3 * p || y > 3 * p + 2) ==> r[y] == look[y])
            && (forall y, x :: 3 * p <= y < 3 * p + 3 && 0 <= x < |look[y]| ==>
                  r[y][x] == (if 5 * index <= x < 5 * index + 5 then (if y == 3 * p + 1 then Txt("─") else Txt(" "))
                              else look[y][x]))
  {
  }
}
