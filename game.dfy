/**
 * The game record (`AppState`) as a value, and the input state machine
 * (`mutate_state_on_input`, `mutate_state_new_game`) as a function on it.
 * The class in app.dfy updates its fields in place and is proved to follow
 * these functions; the lemmas below state what the transitions promise.
 *
 * The word lists PLAY_WORDS and VALID_WORDS are parameters `play` and
 * `valid`.
 */
module Game {
  import opened Text
  import opened Scorer

  datatype GameStatus = InPlay | Won | Lost

  /** The board's animation request; `Pending` is the source's `WordStatus::InPlay`. */
  datatype WordStatus = Pending | Valid | Invalid

  /** Which animator an input launches on the board's look. */
  datatype Animation = NoAnimation | Shake | Reveal

  datatype State = State(
    appX: nat,
    appY: nat,
    game: GameStatus,
    wordIndex: nat,
    answer: string,
    status: seq<seq<char>>,   // the board: six attempts of five cells, ' ' when empty
    inPlay: nat,              // the attempt being typed
    used: seq<char>,          // letters of committed attempts, first seen first
    results: seq<nat>,        // wins per attempt count, then losses
    streak: (nat, nat),       // (current, max)
    exitFlag: bool,
    wordStatus: WordStatus)

  const ROWS: nat := 6
  const WORD_LEN: nat := 5
  const BLANK: char := ' '
  const LOSSES: nat := 6

  const BlankRow: seq<char> := [BLANK, BLANK, BLANK, BLANK, BLANK]

  /** `vec![vec![' '; 5]; 6]` */
  const EmptyBoard: seq<seq<char>> := [BlankRow, BlankRow, BlankRow, BlankRow, BlankRow, BlankRow]

  // ---------------------------------------------------------------------
  // Keys
  // ---------------------------------------------------------------------

  predicate IsAsciiAlphabetic(c: char)
  {
    'A' <= c <= 'Z' || 'a' <= c <= 'z'
  }

  predicate IsLetter(c: char)
  {
    'A' <= c <= 'Z'
  }

  /**
   * One char of `str::to_uppercase`, exact wherever the result is an ASCII
   * letter: a-z, and the two non-ASCII letters whose capital is ASCII
   * (dotless i U+0131 and long s U+017F). Other chars are left as they are,
   * which changes no verdict of `IsValidKey`.
   */
  function ToUpperChar(c: char): char
  {
    if 'a' <= c <= 'z' then (c as int - 32) as char
    else if c == '\U{131}' then 'I'
    else if c == '\U{17F}' then 'S'
    else c
  }

  function ToUpper(key: string): (r: string)
    ensures |r| == |key|
  {
    seq(|key|, i requires 0 <= i < |key| => ToUpperChar(key[i]))
  }

  /**
   * `is_valid_key`: one ASCII letter. The source tests the byte length,
   * which for an all-ASCII string is the char count.
   */
  predicate IsValidKey(key: string)
    ensures IsValidKey(key) ==> key != "enter" && key != "delete"
  {
    |key| == 1 && IsAsciiAlphabetic(key[0])
  }

  /** A key is accepted as a letter exactly when it is one char whose capital is an ASCII letter. */
  lemma ValidKeyIsCapital(key: string)
    requires IsValidKey(ToUpper(key))
    ensures |key| == 1 && IsLetter(ToUpper(key)[0])
  {
  }

  // ---------------------------------------------------------------------
  // Transitions
  // ---------------------------------------------------------------------

  /** Six attempts of five cells. */
  predicate BoardShaped(status: seq<seq<char>>)
  {
    |status| == ROWS && forall r :: 0 <= r < ROWS ==> |status[r]| == WORD_LEN
  }

  /** What every transition relies on to index the board and the counters. */
  predicate Shaped(s: State)
  {
    && BoardShaped(s.status)
    && s.inPlay <= ROWS
    && (s.game == InPlay ==> s.inPlay < ROWS)
    && |s.results| == 7
  }

  function Row(s: State): seq<char>
    requires Shaped(s) && s.game == InPlay
  {
    s.status[s.inPlay]
  }

  function SetCell(s: State, idx: nat, ch: char): State
    requires Shaped(s) && s.game == InPlay && idx < WORD_LEN
  {
    s.(status := s.status[s.inPlay := s.status[s.inPlay][idx := ch]])
  }

  /** `used` after pushing each letter of `word` not yet present. */
  function AddUsed(used: seq<char>, word: seq<char>): (r: seq<char>)
    ensures |used| <= |r| <= |used| + |word|
    ensures r[..|used|] == used
    decreases |word|
  {
    if |word| == 0 then used
    else
      var before := AddUsed(used, word[..|word| - 1]);
      if word[|word| - 1] in before then before else before + [word[|word| - 1]]
  }

  function Max(x: nat, y: nat): nat
  {
    if x >= y then x else y
  }

  /** Bookkeeping for an accepted word (the `else` branch after the list check). */
  function Commit(s: State): (r: State)
    requires Shaped(s) && s.game == InPlay
    ensures r.inPlay == s.inPlay + 1 && r.status == s.status
    ensures r.game == Won <==> Row(s) == s.answer
    ensures r.game == Lost <==> Row(s) != s.answer && s.inPlay + 1 == ROWS
    ensures r.game == InPlay ==> r.results == s.results && r.streak == s.streak && r.wordIndex == s.wordIndex
  {
    var row := Row(s);
    var ended :=
      if row == s.answer then
        s.(wordIndex := s.wordIndex + 1,
           results := s.results[s.inPlay := s.results[s.inPlay] + 1],
           streak := (s.streak.0 + 1, Max(s.streak.1, s.streak.0 + 1)),
           game := Won)
      else if s.inPlay == 5 then
        s.(wordIndex := s.wordIndex + 1,
           results := s.results[LOSSES := s.results[LOSSES] + 1],
           streak := (0, s.streak.1),
           game := Lost)
      else s;
    ended.(used := AddUsed(s.used, row), inPlay := s.inPlay + 1)
  }

  /** `mutate_state_new_game` */
  function NewGame(s: State, play: seq<string>): (r: State)
    requires s.wordIndex < |play|
    ensures r.game == InPlay && r.inPlay == 0 && r.answer == play[s.wordIndex]
    ensures r.results == s.results && r.streak == s.streak && r.wordIndex == s.wordIndex
    ensures Shaped(s) ==> Wf(r)
  {
    s.(game := InPlay, answer := play[s.wordIndex], inPlay := 0, status := EmptyBoard, used := [])
  }

  /** What `mutate_state_on_input` may rely on: the board's shape, and a next answer to pick. */
  predicate InputAllowed(s: State, key: string, play: seq<string>)
  {
    Shaped(s) && (s.game != InPlay && key == "enter" ==> s.wordIndex < |play|)
  }

  /** `mutate_state_on_input`: the new record after `key`. */
  function Input(s: State, key: string, play: seq<string>, valid: seq<string>): (r: State)
    requires InputAllowed(s, key, play)
    ensures s.game != InPlay && key != "enter" ==> r == s
  {
    if s.game == InPlay then
      var row := Row(s);
      var index := Position(row, BLANK);
      var upper := ToUpper(key);
      if IsValidKey(upper) && index.Some? then SetCell(s, index.value, upper[0])
      else if key == "enter" && index.None? then
        if row !in valid && row !in play then s else Commit(s)
      else if key == "delete" && row[0] != BLANK then
        var idx := if index.Some? then index.value else 5;
        if idx > 0 then SetCell(s, idx - 1, BLANK) else SetCell(s, 0, BLANK)
      else s
    else if key == "enter" then NewGame(s, play)
    else s
  }

  /**
   * The animator `mutate_state_on_input` launches: the shake for a full row
   * in neither list, the reveal for an accepted word when the element's look
   * has more than ten rows.
   */
  function InputAnimation(s: State, key: string, play: seq<string>, valid: seq<string>, lookRows: nat): (a: Animation)
    requires InputAllowed(s, key, play)
    ensures a == Shake <==>
              s.game == InPlay && key == "enter" && BLANK !in Row(s) && Row(s) !in valid && Row(s) !in play
    ensures a == Reveal <==>
              s.game == InPlay && key == "enter" && BLANK !in Row(s) && (Row(s) in valid || Row(s) in play) && lookRows > 10
  {
    if s.game != InPlay then NoAnimation
    else
      var row := Row(s);
      var index := Position(row, BLANK);
      if IsValidKey(ToUpper(key)) && index.Some? then NoAnimation
      else if key == "enter" && index.None? then
        if row !in valid && row !in play then Shake
        else if lookRows > 10 then Reveal
        else NoAnimation
      else NoAnimation
  }

  /**
   * The animator request with the shake guarded as the reveal is: only the
   * board, whose look has more than ten rows, is ever animated.
   */
  function InputAnimationGuarded(s: State, key: string, play: seq<string>, valid: seq<string>, lookRows: nat): (a: Animation)
    requires InputAllowed(s, key, play)
    ensures lookRows <= 10 ==> a == NoAnimation
    ensures lookRows > 10 ==> a == InputAnimation(s, key, play, valid, lookRows)
  {
    var a := InputAnimation(s, key, play, valid, lookRows);
    if a == Shake && lookRows <= 10 then NoAnimation else a
  }

  /**
   * "enter" from the on-screen Enter key, whose look has three rows, on a
   * full attempt past the first that is in neither list asks for the shake
   * of rows 3*in_play..3*in_play+2, which that look does not have.
   */
  lemma EnterKeyShakeOutOfRange(s: State, play: seq<string>, valid: seq<string>)
    requires Shaped(s) && s.game == InPlay && s.inPlay >= 1 && BLANK !in Row(s)
    requires Row(s) !in valid && Row(s) !in play
    ensures InputAnimation(s, "enter", play, valid, 3) == Shake
  {
    assert !IsValidKey(ToUpper("enter"));
  }

  /**
   * With the guard, an animation is only requested of a look with more than
   * ten rows; an 18-row board look holds the three rows of every attempt
   * that can be in play.
   */
  lemma GuardedAnimationFits(s: State, key: string, play: seq<string>, valid: seq<string>, lookRows: nat)
    requires InputAllowed(s, key, play)
    ensures InputAnimationGuarded(s, key, play, valid, lookRows) != NoAnimation ==>
              lookRows > 10 && s.game == InPlay && (lookRows == 18 ==> 3 * s.inPlay + 2 < lookRows)
  {
  }

  /** `exit_ui`: the loop ends once the flag is set. */
  function ExitUi(s: State): bool
  {
    s.exitFlag
  }

  /** No input clears or sets the exit flag. */
  lemma InputKeepsExitFlag(s: State, key: string, play: seq<string>, valid: seq<string>)
    requires InputAllowed(s, key, play)
    ensures ExitUi(Input(s, key, play, valid)) == ExitUi(s)
  {
  }

  // ---------------------------------------------------------------------
  // The record's invariant
  // ---------------------------------------------------------------------

  function Elements(u: seq<char>): set<char>
  {
    set c | c in u
  }

  predicate NoDuplicates(u: seq<char>)
  {
    forall i, j :: 0 <= i < j < |u| ==> u[i] != u[j]
  }

  /** Every letter on rows 0..n-1. */
  function RowLetters(status: seq<seq<char>>, n: nat): set<char>
    requires n <= |status|
  {
    set r, k | 0 <= r < n && 0 <= k < |status[r]| :: status[r][k]
  }

  predicate Full(row: seq<char>)
  {
    forall k :: 0 <= k < |row| ==> IsLetter(row[k])
  }

  predicate Blank(row: seq<char>)
  {
    forall k :: 0 <= k < |row| ==> row[k] == BLANK
  }

  /** Letters first, then blanks. */
  predicate Packed(row: seq<char>)
  {
    && (forall k :: 0 <= k < |row| ==> IsLetter(row[k]) || row[k] == BLANK)
    && (forall i, j :: 0 <= i < j < |row| && row[i] == BLANK ==> row[j] == BLANK)
  }

  /**
   * The board and `used` as the game keeps them: committed attempts are
   * full, the attempt in play holds letters then blanks, later attempts are
   * blank, and `used` lists each letter of the committed attempts once.
   */
  predicate Wf(s: State)
  {
    && Shaped(s)
    && (forall r :: 0 <= r < s.inPlay ==> Full(s.status[r]))
    && (s.inPlay < ROWS ==> Packed(s.status[s.inPlay]))
    && (forall r :: s.inPlay < r < ROWS ==> Blank(s.status[r]))
    && NoDuplicates(s.used)
    && Elements(s.used) == RowLetters(s.status, s.inPlay)
  }

  function Sum(xs: seq<nat>): nat
  {
    if |xs| == 0 then 0 else Sum(xs[..|xs| - 1]) + xs[|xs| - 1]
  }

  // ---------------------------------------------------------------------
  // Lemmas
  // ---------------------------------------------------------------------

  lemma {:induction false} AddUsedFacts(used: seq<char>, word: seq<char>)
    ensures Elements(AddUsed(used, word)) == Elements(used) + Elements(word)
    ensures NoDuplicates(used) ==> NoDuplicates(AddUsed(used, word))
    decreases |word|
  {
    if |word| > 0 {
      var w := word[..|word| - 1];
      AddUsedFacts(used, w);
      assert word == w + [word[|word| - 1]];
      assert Elements(word) == Elements(w) + {word[|word| - 1]};
      var before := AddUsed(used, w);
      assert Elements(before + [word[|word| - 1]]) == Elements(before) + {word[|word| - 1]};
    }
  }

  /** An accepted word's letters are appended in order, each at most once, keeping the old list in front. */
  lemma AddUsedSpec(used: seq<char>, word: seq<char>)
    requires NoDuplicates(used)
    ensures var u := AddUsed(used, word);
            && u[..|used|] == used
            && NoDuplicates(u)
            && Elements(u) == Elements(used) + Elements(word)
  {
    AddUsedFacts(used, word);
  }

  lemma RowLettersNext(status: seq<seq<char>>, n: nat)
    requires n < |status|
    ensures RowLetters(status, n + 1) == RowLetters(status, n) + Elements(status[n])
  {
    var a := RowLetters(status, n + 1);
    var b := RowLetters(status, n) + Elements(status[n]);
    forall c | c in b ensures c in a {
      if c in Elements(status[n]) {
        var k :| 0 <= k < |status[n]| && status[n][k] == c;
        assert status[n][k] in a;
      }
    }
  }

  lemma RowLettersEmpty(status: seq<seq<char>>)
    ensures RowLetters(status, 0) == {}
  {
  }

  lemma RowLettersFrame(status: seq<seq<char>>, status': seq<seq<char>>, n: nat)
    requires n <= |status| && n <= |status'|
    requires forall r :: 0 <= r < n ==> status[r] == status'[r]
    ensures RowLetters(status, n) == RowLetters(status', n)
  {
    forall c | c in RowLetters(status, n) ensures c in RowLetters(status', n) {
      var r, k :| 0 <= r < n && 0 <= k < |status[r]| && status[r][k] == c;
      assert status'[r][k] == c;
    }
    forall c | c in RowLetters(status', n) ensures c in RowLetters(status, n) {
      var r, k :| 0 <= r < n && 0 <= k < |status'[r]| && status'[r][k] == c;
      assert status[r][k] == c;
    }
  }

  lemma FirstBlank(row: seq<char>)
    ensures Position(row, BLANK).Some? ==>
              var i := Position(row, BLANK).value;
              i < |row| && row[i] == BLANK && forall j :: 0 <= j < i ==> row[j] != BLANK
    decreases |row|
  {
    if |row| > 0 && row[0] != BLANK {
      FirstBlank(row[1..]);
    }
  }

  /** A row is full exactly when it holds no blank, given it holds letters or blanks. */
  lemma NoBlankIsFull(row: seq<char>)
    requires Packed(row)
    ensures Position(row, BLANK).None? <==> Full(row)
  {
    if Position(row, BLANK).Some? {
      FirstBlank(row);
    }
  }

  lemma TypeKeepsWf(s: State, idx: nat, ch: char)
    requires Wf(s) && s.game == InPlay && IsLetter(ch)
    requires idx < WORD_LEN && Row(s)[idx] == BLANK && forall j :: 0 <= j < idx ==> Row(s)[j] != BLANK
    ensures Wf(SetCell(s, idx, ch))
  {
    var s' := SetCell(s, idx, ch);
    RowLettersFrame(s.status, s'.status, s.inPlay);
    var row' := s'.status[s.inPlay];
    forall i, j | 0 <= i < j < |row'| && row'[i] == BLANK ensures row'[j] == BLANK {
      assert Row(s)[i] == BLANK;
    }
  }

  lemma DeleteKeepsWf(s: State, idx: nat)
    requires Wf(s) && s.game == InPlay && 0 < idx <= WORD_LEN
    requires forall j :: idx <= j < WORD_LEN ==> Row(s)[j] == BLANK
    ensures Wf(SetCell(s, idx - 1, BLANK))
  {
    var s' := SetCell(s, idx - 1, BLANK);
    RowLettersFrame(s.status, s'.status, s.inPlay);
    var row := Row(s);
    var row' := s'.status[s.inPlay];
    forall i, j | 0 <= i < j < |row'| && row'[i] == BLANK ensures row'[j] == BLANK {
      if i < idx - 1 {
        assert row[i] == BLANK;
      }
    }
  }

  lemma CommitKeepsWf(s: State)
    requires Wf(s) && s.game == InPlay && Full(Row(s))
    ensures Wf(Commit(s))
  {
    var s' := Commit(s);
    var row := Row(s);
    RowLettersNext(s.status, s.inPlay);
    AddUsedFacts(s.used, row);
    if s'.inPlay < ROWS {
      assert Blank(s.status[s'.inPlay]);
    }
  }

  lemma NewGameWf(s: State, play: seq<string>)
    requires Shaped(s) && s.wordIndex < |play|
    ensures Wf(NewGame(s, play))
  {
    RowLettersEmpty(EmptyBoard);
  }

  /** Every input keeps the board and `used` well formed. */
  lemma InputKeepsWf(s: State, key: string, play: seq<string>, valid: seq<string>)
    requires Wf(s) && InputAllowed(s, key, play)
    ensures Wf(Input(s, key, play, valid))
  {
    if s.game == InPlay {
      var row := Row(s);
      var index := Position(row, BLANK);
      var upper := ToUpper(key);
      FirstBlank(row);
      if IsValidKey(upper) && index.Some? {
        TypeKeepsWf(s, index.value, upper[0]);
      } else if key == "enter" && index.None? {
        NoBlankIsFull(row);
        if !(row !in valid && row !in play) {
          CommitKeepsWf(s);
        }
      } else if key == "delete" && row[0] != BLANK {
        var idx := if index.Some? then index.value else 5;
        assert idx > 0;
        forall j | idx <= j < WORD_LEN ensures row[j] == BLANK {
          assert row[idx] == BLANK;
        }
        DeleteKeepsWf(s, idx);
      }
    } else if key == "enter" {
      NewGameWf(s, play);
    }
  }

  /**
   * A key whose capital is one ASCII letter goes, as 'A'..'Z', into the
   * leftmost blank of the attempt in play; nothing else changes.
   */
  lemma TypingFillsLeftmostBlank(s: State, key: string, play: seq<string>, valid: seq<string>, i: nat)
    requires Shaped(s) && s.game == InPlay && IsValidKey(ToUpper(key))
    requires i < WORD_LEN && Row(s)[i] == BLANK && forall j :: 0 <= j < i ==> Row(s)[j] != BLANK
    ensures IsLetter(ToUpper(key)[0])
    ensures Input(s, key, play, valid) == s.(status := s.status[s.inPlay := Row(s)[i := ToUpper(key)[0]]])
  {
    FirstBlank(Row(s));
  }

  /** With the attempt full, neither a letter nor any other key but "enter" and "delete" changes anything. */
  lemma FullRowIgnoresOtherKeys(s: State, key: string, play: seq<string>, valid: seq<string>)
    requires Shaped(s) && s.game == InPlay && BLANK !in Row(s)
    requires key != "enter" && key != "delete"
    ensures Input(s, key, play, valid) == s
  {
  }

  /** "enter" on an attempt that still has a blank changes nothing. */
  lemma EnterOnOpenRowIgnored(s: State, play: seq<string>, valid: seq<string>)
    requires Shaped(s) && s.game == InPlay && BLANK in Row(s)
    ensures Input(s, "enter", play, valid) == s
  {
    assert !IsValidKey(ToUpper("enter"));
  }

  /** A key that is neither a letter, "enter" nor "delete" changes nothing; so does the empty key. */
  lemma OtherKeysIgnored(s: State, key: string, play: seq<string>, valid: seq<string>)
    requires InputAllowed(s, key, play)
    requires !IsValidKey(ToUpper(key)) && key != "enter" && key != "delete"
    ensures Input(s, key, play, valid) == s
  {
  }

  lemma EmptyKeyIgnored(s: State, play: seq<string>, valid: seq<string>)
    requires InputAllowed(s, "", play)
    ensures Input(s, "", play, valid) == s
  {
    OtherKeysIgnored(s, "", play, valid);
  }

  /** "delete" on an attempt whose first cell is blank does nothing. */
  lemma DeleteOnEmptyRowIgnored(s: State, play: seq<string>, valid: seq<string>)
    requires Shaped(s) && s.game == InPlay && Row(s)[0] == BLANK
    ensures Input(s, "delete", play, valid) == s
  {
    assert !IsValidKey(ToUpper("delete"));
  }

  /**
   * "delete" on an attempt holding `i` letters then blanks blanks the
   * `i`-th cell, the last letter; nothing else changes.
   */
  lemma DeleteBlanksLastLetter(s: State, play: seq<string>, valid: seq<string>, i: nat)
    requires Shaped(s) && s.game == InPlay && 0 < i <= WORD_LEN
    requires forall j :: 0 <= j < i ==> IsLetter(Row(s)[j])
    requires forall j :: i <= j < WORD_LEN ==> Row(s)[j] == BLANK
    ensures Input(s, "delete", play, valid) == s.(status := s.status[s.inPlay := Row(s)[i - 1 := BLANK]])
  {
    var row := Row(s);
    assert !IsValidKey(ToUpper("delete"));
    FirstBlank(row);
    var index := Position(row, BLANK);
    if i < WORD_LEN {
      assert row[i] == BLANK;
      assert index.Some?;
    } else {
      assert BLANK !in row by {
        forall k | 0 <= k < |row| ensures row[k] != BLANK {
          assert IsLetter(row[k]);
        }
      }
    }
  }

  /** A full attempt in neither word list is refused: the record is unchanged. */
  lemma UnknownWordRefused(s: State, play: seq<string>, valid: seq<string>)
    requires Shaped(s) && s.game == InPlay && BLANK !in Row(s)
    requires Row(s) !in valid && Row(s) !in play
    ensures Input(s, "enter", play, valid) == s
    ensures InputAnimation(s, "enter", play, valid, 18) == Shake
  {
    assert !IsValidKey(ToUpper("enter"));
  }

  /**
   * An accepted word moves play to the next attempt and appends its letters
   * not seen before to `used`, in order and without duplicates.
   */
  lemma AcceptedWordAdvances(s: State, play: seq<string>, valid: seq<string>)
    requires Wf(s) && s.game == InPlay && BLANK !in Row(s)
    requires Row(s) in valid || Row(s) in play
    ensures var s' := Input(s, "enter", play, valid);
            && s'.inPlay == s.inPlay + 1
            && s'.status == s.status
            && s'.used[..|s.used|] == s.used
            && NoDuplicates(s'.used)
            && Elements(s'.used) == Elements(s.used) + Elements(Row(s))
  {
    assert !IsValidKey(ToUpper("enter"));
    AddUsedSpec(s.used, Row(s));
  }

  /** The win bookkeeping. */
  lemma WinBookkeeping(s: State, play: seq<string>, valid: seq<string>)
    requires Shaped(s) && s.game == InPlay && BLANK !in Row(s)
    requires Row(s) == s.answer && (Row(s) in valid || Row(s) in play)
    ensures var s' := Input(s, "enter", play, valid);
            && s'.game == Won
            && s'.wordIndex == s.wordIndex + 1
            && s'.results[s.inPlay] == s.results[s.inPlay] + 1
            && (forall k :: 0 <= k < 7 && k != s.inPlay ==> s'.results[k] == s.results[k])
            && s'.streak.0 == s.streak.0 + 1
            && s'.streak.1 == (if s.streak.0 + 1 > s.streak.1 then s.streak.0 + 1 else s.streak.1)
  {
    assert !IsValidKey(ToUpper("enter"));
  }

  /** The loss bookkeeping, on the sixth attempt. */
  lemma LossBookkeeping(s: State, play: seq<string>, valid: seq<string>)
    requires Shaped(s) && s.game == InPlay && s.inPlay == 5 && BLANK !in Row(s)
    requires Row(s) != s.answer && (Row(s) in valid || Row(s) in play)
    ensures var s' := Input(s, "enter", play, valid);
            && s'.game == Lost
            && s'.wordIndex == s.wordIndex + 1
            && s'.results == s.results[LOSSES := s.results[LOSSES] + 1]
            && s'.streak == (0, s.streak.1)
            && s'.inPlay == ROWS
  {
    assert !IsValidKey(ToUpper("enter"));
  }

  lemma {:induction false} SumUpdate(xs: seq<nat>, k: nat, v: nat)
    requires k < |xs|
    ensures Sum(xs[k := v]) + xs[k] == Sum(xs) + v
    decreases |xs|
  {
    var ys := xs[k := v];
    if k < |xs| - 1 {
      SumUpdate(xs[..|xs| - 1], k, v);
      assert ys[..|ys| - 1] == xs[..|xs| - 1][k := v];
    } else {
      assert ys[..|ys| - 1] == xs[..|xs| - 1];
    }
  }

  /**
   * The counters grow by exactly one when, and only when, a game ends; the
   * current streak never overtakes the maximum; and the record leaves play
   * with the sixth attempt used only by winning or losing.
   */
  lemma InputBookkeeping(s: State, key: string, play: seq<string>, valid: seq<string>)
    requires InputAllowed(s, key, play)
    ensures var s' := Input(s, key, play, valid);
            && Sum(s'.results) == Sum(s.results) + (if s.game == InPlay && s'.game != InPlay then 1 else 0)
            && (s.streak.0 <= s.streak.1 ==> s'.streak.0 <= s'.streak.1)
            && Shaped(s')
            && (s'.inPlay == ROWS ==> s'.game != InPlay)
  {
    var s' := Input(s, key, play, valid);
    if s.game == InPlay {
      var row := Row(s);
      var index := Position(row, BLANK);
      if IsValidKey(ToUpper(key)) && index.Some? {
        assert s' == SetCell(s, index.value, ToUpper(key)[0]);
      } else if key == "enter" && index.None? {
        if row in valid || row in play {
          assert s' == Commit(s);
          CommitBookkeeping(s);
        }
      }
    }
  }

  /** The bookkeeping of `Commit`: one more game counted exactly when it ends the game. */
  lemma CommitBookkeeping(s: State)
    requires Shaped(s) && s.game == InPlay
    ensures var s' := Commit(s);
            && Sum(s'.results) == Sum(s.results) + (if s'.game != InPlay then 1 else 0)
            && (s.streak.0 <= s.streak.1 ==> s'.streak.0 <= s'.streak.1)
            && Shaped(s')
            && (s'.inPlay == ROWS ==> s'.game != InPlay)
  {
    if Row(s) == s.answer {
      SumUpdate(s.results, s.inPlay, s.results[s.inPlay] + 1);
    } else if s.inPlay == 5 {
      SumUpdate(s.results, LOSSES, s.results[LOSSES] + 1);
    }
  }

  /**
   * Outside play only "enter" acts: it starts a blank game on the next
   * answer and keeps the counters, the streak and the word index.
   */
  lemma NewGameOnEnter(s: State, key: string, play: seq<string>, valid: seq<string>)
    requires InputAllowed(s, key, play) && s.game != InPlay
    ensures key != "enter" ==> Input(s, key, play, valid) == s
    ensures key == "enter" ==>
              var s' := Input(s, key, play, valid);
              && s'.game == InPlay && s'.inPlay == 0 && s'.used == []
              && s'.answer == play[s.wordIndex]
              && |s'.status| == ROWS && (forall r :: 0 <= r < ROWS ==> Blank(s'.status[r]))
              && s'.results == s.results && s'.streak == s.streak && s'.wordIndex == s.wordIndex
  {
  }
}
