/**
 * The on-screen keyboard: the 26 letter keys laid out in QWERTY rows, and
 * each key's look, painted with the best score its letter has earned.
 */
module Keyboard {
  import opened Style
  import opened Scorer
  import opened Game

  const KeyRows: seq<string> := ["QWERTYUIOP", "ASDFGHJKL", "ZXCVBNM"]

  /** A key element: its position relative to the viewport and its letter. */
  datatype Key = Key(x: nat, y: nat, letter: char)

  const KEYS_X: nat := 40
  const KEYS_Y: nat := 13

  function KeyX(line: nat, index: nat): nat
  {
    KEYS_X + line * 2 + line / 2 + index * 3
  }

  function KeyY(line: nat): nat
  {
    KEYS_Y + line * 3
  }

  function LineKeys(line: nat): (keys: seq<Key>)
    requires line < |KeyRows|
    ensures |keys| == |KeyRows[line]|
  {
    seq(|KeyRows[line]|, i requires 0 <= i < |KeyRows[line]| => Key(KeyX(line, i), KeyY(line), KeyRows[line][i]))
  }

  /** The keys of lines 0..n-1, line by line, left to right. */
  function KeysUpTo(n: nat): seq<Key>
    requires n <= |KeyRows|
  {
    if n == 0 then [] else KeysUpTo(n - 1) + LineKeys(n - 1)
  }

  /** `build`: one key per letter, pushed line by line. */
  method Build() returns (keys: seq<Key>)
    ensures keys == KeysUpTo(3)
  {
    keys := [];
    for line := 0 to |KeyRows|
      invariant keys == KeysUpTo(line)
    {
      var keyLine := KeyRows[line];
      for index := 0 to |keyLine|
        invariant keys == KeysUpTo(line) + LineKeys(line)[..index]
      {
        var x := KEYS_X + line * 2 + line / 2 + index * 3;
        var y := KEYS_Y + line * 3;
        keys := keys + [Key(x, y, keyLine[index])];
        assert LineKeys(line)[..index + 1] == LineKeys(line)[..index] + [LineKeys(line)[index]];
      }
      assert LineKeys(line)[..|keyLine|] == LineKeys(line);
    }
  }

  function Letters(keys: seq<Key>): (s: string)
    ensures |s| == |keys| && forall i :: 0 <= i < |keys| ==> s[i] == keys[i].letter
  {
    seq(|keys|, i requires 0 <= i < |keys| => keys[i].letter)
  }

  lemma LettersAppend(a: seq<Key>, b: seq<Key>)
    ensures Letters(a + b) == Letters(a) + Letters(b)
  {
  }

  lemma LineLetters(line: nat)
    requires line < |KeyRows|
    ensures Letters(LineKeys(line)) == KeyRows[line]
  {
  }

  lemma LettersUpTo(n: nat)
    requires n <= |KeyRows|
    ensures Letters(KeysUpTo(n)) == if n == 0 then "" else Letters(KeysUpTo(n - 1)) + KeyRows[n - 1]
  {
    if n > 0 {
      LettersAppend(KeysUpTo(n - 1), LineKeys(n - 1));
      LineLetters(n - 1);
    }
  }

  const QWERTY: string := "QWERTYUIOPASDFGHJKLZXCVBNM"

  lemma KeysSpell()
    ensures Letters(KeysUpTo(3)) == QWERTY
  {
    AllLineLetters();
    assert KeyRows[0] + KeyRows[1] + KeyRows[2] == QWERTY;
  }

  lemma AllLineLetters()
    ensures Letters(KeysUpTo(3)) == KeyRows[0] + KeyRows[1] + KeyRows[2]
  {
    LettersUpTo(1);
    LettersUpTo(2);
    LettersUpTo(3);
  }

  lemma QwertyIsAlphabet(s: string)
    requires s == QWERTY
    ensures forall i, j :: 0 <= i < j < |s| ==> s[i] != s[j]
    ensures forall c :: 'A' <= c <= 'Z' ==> c in s
  {
  }

  /** The keyboard holds 26 keys whose letters are exactly 'A'..'Z', each once. */
  lemma KeyLetters()
    ensures |KeysUpTo(3)| == 26
    ensures var s := Letters(KeysUpTo(3));
            && (forall i, j :: 0 <= i < j < |s| ==> s[i] != s[j])
            && (forall c :: 'A' <= c <= 'Z' ==> c in s)
  {
    KeysSpell();
    QwertyIsAlphabet(Letters(KeysUpTo(3)));
  }

  /** Two different keys never share a cell: each 3 x 3 box is disjoint from every other. */
  lemma KeysDisjoint(line1: nat, index1: nat, line2: nat, index2: nat, dx1: nat, dy1: nat, dx2: nat, dy2: nat)
    requires line1 < 3 && line2 < 3 && dx1 < 3 && dy1 < 3 && dx2 < 3 && dy2 < 3
    requires (line1, index1) != (line2, index2)
    ensures (KeyX(line1, index1) + dx1, KeyY(line1) + dy1) != (KeyX(line2, index2) + dx2, KeyY(line2) + dy2)
  {
  }

  const ENTER_X: nat := 40
  const ENTER_WIDTH: nat := 5
  const DELETE_X: nat := 66
  const DELETE_WIDTH: nat := 4
  const ACTION_KEYS_Y: nat := 19

  /**
   * The bottom letter row shares its line with the Enter and Delete keys
   * and fits between them: Z..M cover x 45..65, Enter 40..44, Delete 66..69.
   */
  lemma BottomRowBetweenEnterAndDelete(index: nat)
    requires index < |KeyRows[2]|
    ensures KeyY(2) == ACTION_KEYS_Y
    ensures ENTER_X + ENTER_WIDTH <= KeyX(2, index) && KeyX(2, index) + 3 <= DELETE_X
    ensures 45 <= KeyX(2, index) && KeyX(2, index) + 2 <= 65
  {
  }

  // ---------------------------------------------------------------------
  // Key looks
  // ---------------------------------------------------------------------

  /** The plain key: a 3 x 3 box with the letter at its centre. */
  function KeyFace(letter: char): Look
  {
    [[Txt("┌"), Txt("─"), Txt("┐")],
     [Txt("│"), Txt([letter]), Txt("│")],
     [Txt("└"), Txt("─"), Txt("┘")]]
  }

  /** `best` is the highest score any occurrence of `letter` on the board has, or 0 when there is none. */
  predicate IsBest(best: nat, letter: char, status: seq<seq<char>>, answer: seq<char>)
  {
    && (forall r, i :: 0 <= r < |status| && 0 <= i < |status[r]| && status[r][i] == letter ==>
          GetLetterStatus(i, status[r], answer) <= best)
    && (best == 0 ||
          exists r, i :: 0 <= r < |status| && 0 <= i < |status[r]| && status[r][i] == letter &&
            GetLetterStatus(i, status[r], answer) == best)
  }

  /** The `final_status` accumulator: the maximum over every attempt, the one in play included. */
  method BestStatus(letter: char, status: seq<seq<char>>, answer: seq<char>) returns (best: nat)
    ensures best <= EXACT
    ensures IsBest(best, letter, status, answer)
  {
    best := 0;
    ghost var wr, wi := 0, 0;
    for r := 0 to |status|
      invariant best <= EXACT
      invariant forall r', i :: 0 <= r' < r && 0 <= i < |status[r']| && status[r'][i] == letter ==>
                  GetLetterStatus(i, status[r'], answer) <= best
      invariant best > 0 ==>
                  wr < r && wi < |status[wr]| && status[wr][wi] == letter && GetLetterStatus(wi, status[wr], answer) == best
    {
      var guess := status[r];
      for i := 0 to |guess|
        invariant best <= EXACT
        invariant forall r', i' :: 0 <= r' < r && 0 <= i' < |status[r']| && status[r'][i'] == letter ==>
                    GetLetterStatus(i', status[r'], answer) <= best
        invariant forall i' :: 0 <= i' < i && guess[i'] == letter ==> GetLetterStatus(i', guess, answer) <= best
        invariant best > 0 ==>
                    wr <= r && wi < |status[wr]| && status[wr][wi] == letter && GetLetterStatus(wi, status[wr], answer) == best
      {
        if guess[i] == letter {
          var letterStatus := GetLetterStatus(i, guess, answer);
          if letterStatus > best {
            best := letterStatus;
            wr, wi := r, i;
          }
        }
      }
    }
  }

  /**
   * A key's `on_state`: a letter not in `used` shows the plain box; a used
   * letter's previous look is painted, cell by cell, on the colour of its
   * best score, so it is at least grey.
   */
  method KeyOnState(letter: char, used: seq<char>, status: seq<seq<char>>, answer: seq<char>, previous: Look)
    returns (look: Look, best: nat)
    ensures letter !in used ==> look == KeyFace(letter)
    ensures letter in used ==> IsBest(best, letter, status, answer) && look == StyleLook(StatusToAnsi(best), previous)
    ensures letter in used ==> forall i, j :: 0 <= i < |look| && 0 <= j < |look[i]| ==>
              look[i][j].Bg? && look[i][j].code in {2, 3, 8} && look[i][j].inner == previous[i][j]
  {
    if letter in used {
      best := BestStatus(letter, status, answer);
      look := StyleLook(StatusToAnsi(best), previous);
    } else {
      best := 0;
      look := KeyFace(letter);
    }
  }

  /** A used letter that scored exact anywhere is green; one that scored nothing anywhere is grey. */
  lemma BestColour(best: nat, letter: char, status: seq<seq<char>>, answer: seq<char>)
    requires IsBest(best, letter, status, answer) && best <= EXACT
    ensures StatusToAnsi(best) == 2 <==>
              exists r, i :: 0 <= r < |status| && 0 <= i < |status[r]| && status[r][i] == letter &&
                GetLetterStatus(i, status[r], answer) == EXACT
    ensures StatusToAnsi(best) == 8 <==>
              forall r, i :: 0 <= r < |status| && 0 <= i < |status[r]| && status[r][i] == letter ==>
                GetLetterStatus(i, status[r], answer) == DOES_NOT_EXIST
  {
  }

  /** In a well-formed record, every letter in `used` appears on a committed attempt. */
  lemma UsedLetterOnBoard(s: State, letter: char)
    requires Wf(s) && letter in s.used
    ensures exists r, i :: 0 <= r < s.inPlay && 0 <= i < |s.status[r]| && s.status[r][i] == letter
  {
    assert letter in Elements(s.used);
    assert letter in RowLetters(s.status, s.inPlay);
  }
}
