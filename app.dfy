/**
 * The application record (`AppState`) as an object whose handlers update
 * its fields in place: the input state machine, the board's `on_loop`
 * word-status machine, the screen's viewport tracking and the Exit and
 * Next buttons. Each handler is proved to move the record exactly as the
 * matching function on `State` in game.dfy does, so every lemma there
 * applies to it.
 *
 * Looks are passed in and the animation frames a handler draws are
 * returned; the word lists are parameters.
 */
module App {
  import opened Text
  import opened Style
  import opened Scorer
  import opened Game
  import opened Animators
  import opened Storage
  import opened Screen

  /** The board element's look: 18 rows of at least 25 cells. */
  predicate BoardLook(look: Look)
  {
    |look| == 18 && forall y :: 0 <= y < 18 ==> |look[y]| >= 25
  }

  /** `event.key.unwrap_or_default()` */
  function KeyOrEmpty(key: Option<string>): string
  {
    if key.Some? then key.value else ""
  }

  class AppState {
    var appX: nat
    var appY: nat
    var game: GameStatus
    var wordIndex: nat
    var answer: string
    var status: seq<seq<char>>
    var inPlay: nat
    var used: seq<char>
    var results: seq<nat>
    var streak: (nat, nat)
    var exitFlag: bool
    var wordStatus: WordStatus

    /** The record's fields as a value. */
    function Value(): State
      reads this
    {
      State(appX, appY, game, wordIndex, answer, status, inPlay, used, results, streak, exitFlag, wordStatus)
    }

    /** `main`: the record built from the stored lines, read in the shape `save` writes them. */
    constructor (file: Option<string>, play: seq<string>)
      requires ParseStored(ReadChecked(file)).wordIndex < |play|
      ensures Value() == Startup(file, play)
      ensures Wf(Value())
    {
      var lines := ReadChecked(file);
      var stats := ParseStored(lines);
      appX := 0;
      appY := 0;
      game := InPlay;
      wordIndex := stats.wordIndex;
      answer := play[stats.wordIndex];
      status := EmptyBoard;
      inPlay := 0;
      used := [];
      results := stats.results;
      streak := stats.streak;
      exitFlag := false;
      wordStatus := Pending;
    }

    /** `mutate_state_new_game` */
    method NewGame(play: seq<string>)
      requires wordIndex < |play|
      modifies this
      ensures Value() == Game.NewGame(old(Value()), play)
    {
      game := InPlay;
      answer := play[wordIndex];
      inPlay := 0;
      status := EmptyBoard;
      used := [];
    }

    /** A letter key: `ch` goes into cell `idx` of the attempt in play. */
    method TypeLetter(idx: nat, ch: char)
      requires Shaped(Value()) && game == InPlay && idx < WORD_LEN
      modifies this
      ensures Value() == SetCell(old(Value()), idx, ch)
    {
      status := status[inPlay := status[inPlay][idx := ch]];
    }

    /** "delete": the cell before the first blank, or the last cell of a full attempt, is blanked. */
    method DeleteLetter(index: Option<nat>)
      requires Shaped(Value()) && game == InPlay
      requires index.Some? ==> index.value < WORD_LEN
      modifies this
      ensures var idx := if index.Some? then index.value else 5;
              Value() == if idx > 0 then SetCell(old(Value()), idx - 1, BLANK) else SetCell(old(Value()), 0, BLANK)
    {
      var lineInPlay := status[inPlay];
      var idx := if index.Some? then index.value else 5;
      if idx > 0 {
        status := status[inPlay := lineInPlay[idx - 1 := BLANK]];
      } else {
        status := status[inPlay := lineInPlay[0 := BLANK]];
      }
    }

    /** "enter" on an accepted word: the win or loss bookkeeping, the new letters, the next attempt. */
    method CommitAttempt()
      requires Shaped(Value()) && game == InPlay
      modifies this
      ensures Value() == Commit(old(Value()))
    {
      var lineInPlay := status[inPlay];
      if lineInPlay == answer {
        RecordWin();
      } else if inPlay == 5 {
        RecordLoss();
      }
      PushUsed(lineInPlay);
      inPlay := inPlay + 1;
    }

    /** A win: the next word, one more win on this attempt, the streak extended and its best kept. */
    method RecordWin()
      requires inPlay < |results|
      modifies this
      ensures Value() == old(Value()).(wordIndex := old(wordIndex) + 1,
                                       results := old(results)[old(inPlay) := old(results)[old(inPlay)] + 1],
                                       streak := (old(streak).0 + 1, Max(old(streak).1, old(streak).0 + 1)),
                                       game := Won)
    {
      wordIndex := wordIndex + 1;
      results := results[inPlay := results[inPlay] + 1];
      streak := (streak.0 + 1, streak.1);
      if streak.0 > streak.1 {
        streak := (streak.0, streak.0);
      }
      game := Won;
    }

    /** A loss: the next word, one more loss, the streak reset. */
    method RecordLoss()
      requires LOSSES < |results|
      modifies this
      ensures Value() == old(Value()).(wordIndex := old(wordIndex) + 1,
                                       results := old(results)[LOSSES := old(results)[LOSSES] + 1],
                                       streak := (0, old(streak).1),
                                       game := Lost)
    {
      wordIndex := wordIndex + 1;
      results := results[LOSSES := results[LOSSES] + 1];
      streak := (0, streak.1);
      game := Lost;
    }

    /** Each letter of `word` not yet in `used` is pushed onto it, in order. */
    method PushUsed(word: seq<char>)
      modifies this
      ensures Value() == old(Value()).(used := AddUsed(old(used), word))
    {
      for i := 0 to |word|
        invariant Value() == old(Value()).(used := AddUsed(old(used), word[..i]))
      {
        assert word[..i + 1][..i] == word[..i];
        if word[i] !in used {
          used := used + [word[i]];
        }
      }
      assert word[..|word|] == word;
    }

    /**
     * `mutate_state_on_input` for the element whose look is `look`. The
     * record moves as `Input` says; the frames are those of the animator
     * `InputAnimationGuarded` picks, none for a look of ten rows or fewer.
     */
    method OnInput(key: string, play: seq<string>, valid: seq<string>, look: Look) returns (frames: seq<Look>)
      requires InputAllowed(Value(), key, play)
      requires |look| > 10 ==> BoardLook(look)
      modifies this
      ensures Value() == Input(old(Value()), key, play, valid)
      ensures Wf(old(Value())) ==> Wf(Value())
      ensures var a := InputAnimationGuarded(old(Value()), key, play, valid, |look|);
              && (a == NoAnimation ==> frames == [])
              && (a == Shake ==> old(inPlay) < ROWS && frames == ShakeFrames(look, old(inPlay)))
              && (a == Reveal ==>
                    old(inPlay) < ROWS && frames == RevealFrames(look, old(inPlay), old(status)[old(inPlay)], old(answer), 5))
    {
      ghost var s := Value();
      if Wf(s) {
        InputKeepsWf(s, key, play, valid);
      }
      frames := [];
      if game == InPlay {
        frames := PlayInput(key, play, valid, look);
      } else if key == "enter" {
        NewGame(play);
      }
    }

    /** `mutate_state_on_input` while the game is in play: a letter, "enter" on a full row, or "delete". */
    method PlayInput(key: string, play: seq<string>, valid: seq<string>, look: Look) returns (frames: seq<Look>)
      requires InputAllowed(Value(), key, play) && game == InPlay
      requires |look| > 10 ==> BoardLook(look)
      modifies this
      ensures Value() == Input(old(Value()), key, play, valid)
      ensures var a := InputAnimationGuarded(old(Value()), key, play, valid, |look|);
              && (a == NoAnimation ==> frames == [])
              && (a == Shake ==> frames == ShakeFrames(look, old(inPlay)))
              && (a == Reveal ==> frames == RevealFrames(look, old(inPlay), old(status)[old(inPlay)], old(answer), 5))
    {
      ghost var a := InputAnimationGuarded(Value(), key, play, valid, |look|);
      frames := [];
      var lineInPlay := status[inPlay];
      var index := Position(lineInPlay, BLANK);
      var upper := ToUpper(key);
      if IsValidKey(upper) && index.Some? {
        assert a == NoAnimation;
        TypeLetter(index.value, upper[0]);
      } else if key == "enter" && index.None? {
        frames := EnterFullRow(play, valid, look);
      } else {
        assert a == NoAnimation;
        if key == "delete" && lineInPlay[0] != BLANK {
          DeleteLetter(index);
        }
      }
    }

    /**
     * "enter" on a full attempt: a word in neither list is refused and
     * shaken, an accepted one is revealed and committed; only a look of more
     * than ten rows is animated.
     */
    method EnterFullRow(play: seq<string>, valid: seq<string>, look: Look) returns (frames: seq<Look>)
      requires Shaped(Value()) && game == InPlay && BLANK !in status[inPlay]
      requires |look| > 10 ==> BoardLook(look)
      modifies this
      ensures var row := old(status)[old(inPlay)];
              Value() == if row !in valid && row !in play then old(Value()) else Commit(old(Value()))
      ensures var row := old(status)[old(inPlay)];
              && (|look| <= 10 ==> frames == [])
              && (|look| > 10 && row !in valid && row !in play ==> frames == ShakeFrames(look, old(inPlay)))
              && (|look| > 10 && (row in valid || row in play) ==>
                    frames == RevealFrames(look, old(inPlay), row, old(answer), 5))
    {
      var lineInPlay := status[inPlay];
      frames := [];
      if lineInPlay !in valid && lineInPlay !in play {
        if |look| > 10 {
          frames := InvalidWordAnimator(look, inPlay);
        }
        return;
      }
      if |look| > 10 {
        frames := RevealAnimator(look, inPlay, status, answer);
      }
      CommitAttempt();
    }

    /** The board's `on_keypress`: the key, or "" when the event has none, goes to the input machine. */
    method BoardKeypress(key: Option<string>, play: seq<string>, valid: seq<string>, look: Look)
      returns (frames: seq<Look>)
      requires InputAllowed(Value(), KeyOrEmpty(key), play) && BoardLook(look)
      modifies this
      ensures Value() == Input(old(Value()), KeyOrEmpty(key), play, valid)
      ensures key.None? ==> Value() == old(Value()) && frames == []
    {
      if key.None? {
        EmptyKeyIgnored(Value(), play, valid);
      }
      frames := OnInput(KeyOrEmpty(key), play, valid, look);
    }

    /**
     * `on_click` of a letter key, Enter or Delete: when the pointer is over
     * it, the key's own input goes to the machine with the key's own
     * three-row look. The animation request is the guarded one of the
     * corrected Finding 3, which never animates a three-row look; as written
     * the Enter key's look receives the unguarded shake (`EnterKeyLookShake`).
     */
    method KeyClick(key: string, hit: bool, play: seq<string>, valid: seq<string>, keyLook: Look)
      requires hit ==> InputAllowed(Value(), key, play)
      requires |keyLook| == 3
      modifies this
      ensures Value() == if hit then Input(old(Value()), key, play, valid) else old(Value())
    {
      if hit {
        var frames := OnInput(key, play, valid, keyLook);
      }
    }

    /**
     * The board's `on_loop` (the elements version): a pending shake runs and
     * is cleared before the reveal is looked at, so at most one animation
     * runs; after the reveal the caller applies `mutate_state_new_word`.
     */
    method BoardOnLoop(look: Look) returns (frames: seq<Look>, newWord: bool)
      requires wordStatus != Pending ==> inPlay < ROWS && |status| == ROWS && |status[inPlay]| == WORD_LEN && Fits(look, inPlay)
      modifies this
      ensures Value() == old(Value()).(wordStatus := Pending)
      ensures old(wordStatus) == Pending ==> frames == [] && !newWord
      ensures old(wordStatus) == Invalid ==> frames == ShakeFrames(look, inPlay) && !newWord
      ensures old(wordStatus) == Valid ==> frames == RevealFrames(look, inPlay, status[inPlay], answer, 5) && newWord
    {
      frames := [];
      newWord := false;
      if wordStatus == Invalid {
        frames := InvalidWordAnimator(look, inPlay);
        wordStatus := Pending;
      }
      if wordStatus == Valid {
        frames := RevealAnimator(look, inPlay, status, answer);
        wordStatus := Pending;
        newWord := true;
      }
    }

    /**
     * The screen's `on_loop`: the viewport origin is recomputed from the
     * terminal size and stored, with the screen cleared, only when it moved.
     */
    method ScreenOnLoop(cols: nat, rows: nat) returns (cleared: bool)
      modifies this
      ensures Value() == old(Value()).(appX := Origin(cols, APP_WIDTH), appY := Origin(rows, APP_HEIGHT))
      ensures cleared <==> (old(appX), old(appY)) != (Origin(cols, APP_WIDTH), Origin(rows, APP_HEIGHT))
    {
      var x := SatSub(cols, APP_WIDTH) / 2;
      var y := SatSub(rows, APP_HEIGHT) / 2;
      cleared := false;
      if x != appX || y != appY {
        cleared := true;
        appX := x;
        appY := y;
      }
    }

    /** The Exit button's `on_keypress`: only "c" with the "ctrl" modifier sets the exit flag. */
    method ExitKeypress(key: Option<string>, modifiers: seq<string>)
      modifies this
      ensures Value() == old(Value()).(exitFlag := old(exitFlag) || (key == Some("c") && "ctrl" in modifiers))
    {
      if key == Some("c") && "ctrl" in modifiers {
        exitFlag := true;
      }
    }

    /** The Exit button's `on_click`: a click on it sets the exit flag. */
    method ExitClick(hit: bool)
      modifies this
      ensures Value() == old(Value()).(exitFlag := old(exitFlag) || hit)
    {
      if hit {
        exitFlag := true;
      }
    }

    /** The Next button's `on_click`: a new game, only once play has ended and the click is on it. */
    method NextClick(hit: bool, play: seq<string>)
      requires game != InPlay && hit ==> wordIndex < |play|
      modifies this
      ensures Value() == if old(game) != InPlay && hit then Game.NewGame(old(Value()), play) else old(Value())
    {
      if game != InPlay {
        if hit {
          NewGame(play);
        }
      }
    }
  }

  /**
   * The Enter key's `on_click` hands its own three-row look to the shake:
   * on the first attempt the shake would move the key itself, and from the
   * second attempt on the look lacks the attempt's rows, so the animator's
   * precondition fails exactly where the unguarded shake indexes past the
   * end. The guarded request asks nothing of that look.
   */
  lemma EnterKeyLookShake(s: State, play: seq<string>, valid: seq<string>, keyLook: Look)
    requires Shaped(s) && s.game == InPlay && BLANK !in Game.Row(s)
    requires Game.Row(s) !in valid && Game.Row(s) !in play
    requires |keyLook| == 3
    ensures InputAnimation(s, "enter", play, valid, |keyLook|) == Shake
    ensures HasAttempt(keyLook, s.inPlay) <==> s.inPlay == 0
    ensures InputAnimationGuarded(s, "enter", play, valid, |keyLook|) == NoAnimation
  {
    assert !IsValidKey(ToUpper("enter"));
  }
}
