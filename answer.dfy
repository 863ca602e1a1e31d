/**
 * The answer header (`answer` element): the puzzle number and a row of
 * question marks while play goes on, the answer once it has ended.
 */
module Answer {
  import opened Text
  import opened Style
  import opened Game

  /** The praise for a win on attempt `inPlay` (counted from 1). */
  function Praise(inPlay: nat): (p: string)
    ensures p != "???" <==> 1 <= inPlay <= 6
  {
    match inPlay
    case 1 => "Genius"
    case 2 => "Magnificent"
    case 3 => "Impressive"
    case 4 => "Splendid"
    case 5 => "Great"
    case 6 => "Phew"
    case _ => "???"
  }

  function Header(number: nat): string
  {
    "Wordle #" + NatToString(number) + " "
  }

  /**
   * The looks the element is given, in order. A win writes the praise and
   * then, straight away, the answer over it; a loss shows the answer in
   * inverse video; in play the next puzzle's number and "?????".
   */
  function AnswerUpdates(s: State): (looks: seq<Look>)
    ensures 1 <= |looks| <= 2
  {
    match s.game
    case Won =>
      [[[Cat(Txt(Header(s.wordIndex)), Inv(Txt(Praise(s.inPlay))))]],
       [[Txt(Header(s.wordIndex) + s.answer)]]]
    case Lost => [[[Cat(Txt(Header(s.wordIndex)), Inv(Txt(s.answer)))]]]
    case InPlay => [[[Txt(Header(s.wordIndex + 1) + "?????")]]]
  }

  /** The look left on the element: the last update. */
  function AnswerLook(s: State): Look
  {
    var looks := AnswerUpdates(s);
    looks[|looks| - 1]
  }

  /** The number the header shows. */
  function Shown(s: State): nat
  {
    if s.game == InPlay then s.wordIndex + 1 else s.wordIndex
  }

  /**
   * The final look of every phase opens with the header for the shown
   * number; once play has ended the answer follows it, plain after a win,
   * and the praise never stays on screen.
   */
  lemma AnswerLookShape(s: State)
    ensures |AnswerLook(s)| == 1 && |AnswerLook(s)[0]| == 1
    ensures s.game == InPlay ==> AnswerLook(s)[0][0] == Txt(Header(Shown(s)) + "?????")
    ensures s.game == Won ==> AnswerLook(s)[0][0] == Txt(Header(Shown(s)) + s.answer)
    ensures s.game == Lost ==> AnswerLook(s)[0][0] == Cat(Txt(Header(Shown(s))), Inv(Txt(s.answer)))
    ensures |AnswerUpdates(s)| == 2 <==> s.game == Won
  {
  }

  /**
   * The number shown does not change when a game ends: in play it is the
   * word index plus one, and winning or losing adds one to the word index.
   */
  lemma ShownStableAtGameEnd(s: State, key: string, play: seq<string>, valid: seq<string>)
    requires InputAllowed(s, key, play) && s.game == InPlay
    ensures var s' := Input(s, key, play, valid);
            s'.game != InPlay ==> Shown(s') == Shown(s) && Header(Shown(s')) == Header(Shown(s))
  {
  }

  /** A game won by an input is won on attempt 1..6, so the praise is always one of the six words. */
  lemma WinPraiseKnown(s: State, key: string, play: seq<string>, valid: seq<string>)
    requires InputAllowed(s, key, play) && s.game == InPlay
    ensures var s' := Input(s, key, play, valid);
            s'.game == Won ==> 1 <= s'.inPlay <= 6 && Praise(s'.inPlay) != "???"
  {
  }
}
