/**
 * Styled terminal text. The SGR escape strings that the terminal_style crate
 * produces are kept as constructors: `Bg(code, x)` is `background(code, x)`,
 * `Inv(x)` is `inverse(x)`, `Under(x)` is `underline(x)`, and `Cat(x, y)` is
 * the concatenation of two already formatted strings.
 */
module Style {

  datatype Styled =
    | Txt(text: string)
    | Bg(code: nat, inner: Styled)
    | Inv(inner: Styled)
    | Under(inner: Styled)
    | Cat(left: Styled, right: Styled)

  /** A Look: rows of cells, each cell one styled string. */
  type Look = seq<seq<Styled>>

  /** `Look::from(s)` for a single string: one row holding one cell. */
  function TextLook(s: Styled): Look
  {
    [[s]]
  }

  /**
   * The background colour for a letter status (`status_to_ansi`, and the
   * colour chosen inside `set_background`): green for an exact hit,
   * yellow for a letter elsewhere in the word, grey for everything else.
   */
  function StatusToAnsi(status: nat): (code: nat)
    ensures code in {2, 3, 8}
    ensures code == 2 <==> status == 2
    ensures code == 3 <==> status == 1
  {
    match status
    case 2 => 2
    case 1 => 3
    case _ => 8
  }

  /** Reads a status back from a colour; the inverse of `StatusToAnsi` on 0..2. */
  function AnsiToStatus(code: nat): nat
  {
    if code == 2 then 2 else if code == 3 then 1 else 0
  }

  lemma AnsiRoundTrip(status: nat)
    requires status <= 2
    ensures AnsiToStatus(StatusToAnsi(status)) == status
  {
  }

  /** `set_background(status, item)`: the item on the status's colour. */
  function SetBackground(status: nat, item: Styled): (r: Styled)
    ensures r.Bg? && r.inner == item && r.code in {2, 3, 8}
    ensures AnsiToStatus(r.code) == (if status <= 2 then status else 0)
  {
    Bg(StatusToAnsi(status), item)
  }

  /** `background(code, look)`: every cell of the look on that colour. */
  function StyleLook(code: nat, look: Look): (r: Look)
    ensures |r| == |look|
    ensures forall i :: 0 <= i < |r| ==> |r[i]| == |look[i]|
    ensures forall i, j :: 0 <= i < |r| && 0 <= j < |r[i]| ==> r[i][j] == Bg(code, look[i][j])
  {
    seq(|look|, i requires 0 <= i < |look| => seq(|look[i]|, j requires 0 <= j < |look[i]| => Bg(code, look[i][j])))
  }
}
