/**
 * The letter scorer (`wordle_highlight` and `get_letter_status`).
 *
 * The answer is copied into a working map in which every exact hit is
 * "punched out" (overwritten with '-'). The guess is then scanned left to
 * right: an exact hit scores 2; a letter absent from the answer scores 0;
 * otherwise the first remaining copy in the map is punched and the letter
 * scores 1, or, when no copy is left, 0.
 *
 * The punch mark is itself a character, so a guess containing '-' can
 * match punched slots; the counting lemmas are stated for letters other
 * than '-', which covers every guess the game builds (A-Z and ' ').
 */
module Scorer {
  import opened Text

  const EXACT: nat := 2
  const EXISTS: nat := 1
  const DOES_NOT_EXIST: nat := 0
  const PUNCHED: char := '-'

  predicate IsExact(guess: seq<char>, answer: seq<char>, i: nat)
  {
    i < |guess| && i < |answer| && guess[i] == answer[i]
  }

  /** Step 1: the answer with every exact hit punched out. */
  function Punch(guess: seq<char>, answer: seq<char>): seq<char>
  {
    seq(|answer|, k requires 0 <= k < |answer| => if IsExact(guess, answer, k) then PUNCHED else answer[k])
  }

  /** `iter().position(|&ch| ch == c)`: the first index holding `c`. */
  function Position(m: seq<char>, c: char): (p: Option<nat>)
    ensures p.Some? ==> p.value < |m| && m[p.value] == c
    ensures p.None? <==> c !in m
    decreases |m|
  {
    if |m| == 0 then None
    else if m[0] == c then Some(0)
    else match Position(m[1..], c)
      case None => None
      case Some(k) => Some(k + 1)
  }

  /** The statuses produced so far and the working map after them. */
  datatype Pass = Pass(statuses: seq<nat>, remaining: seq<char>)

  /** One iteration of step 2, at guess position `i`, against map `m`. */
  function Step(guess: seq<char>, answer: seq<char>, m: seq<char>, i: nat): (r: Pass)
    requires i < |guess|
    ensures |r.statuses| == 1 && |r.remaining| == |m|
  {
    if IsExact(guess, answer, i) then Pass([EXACT], m)
    else if guess[i] !in answer then Pass([DOES_NOT_EXIST], m)
    else match Position(m, guess[i])
      case Some(pos) => Pass([EXISTS], m[pos := PUNCHED])
      case None => Pass([DOES_NOT_EXIST], m)
  }

  /** The first `n` iterations of step 2. */
  function Run(guess: seq<char>, answer: seq<char>, n: nat): (r: Pass)
    requires n <= |guess|
    ensures |r.statuses| == n && |r.remaining| == |answer|
    ensures forall k :: 0 <= k < n ==> r.statuses[k] <= EXACT
    decreases n
  {
    if n == 0 then Pass([], Punch(guess, answer))
    else
      var before := Run(guess, answer, n - 1);
      var step := Step(guess, answer, before.remaining, n - 1);
      Pass(before.statuses + step.statuses, step.remaining)
  }

  /** `wordle_highlight(guess, answer)`: one status per guess position. */
  function Highlight(guess: seq<char>, answer: seq<char>): seq<nat>
  {
    Run(guess, answer, |guess|).statuses
  }

  /** The loop of `wordle_highlight`, punching a working copy of the answer in place. */
  method WordleHighlight(guess: seq<char>, answer: seq<char>) returns (result: seq<nat>)
    ensures result == Highlight(guess, answer)
    ensures |result| == |guess|
  {
    var answerMap := Punch(guess, answer);
    result := [];
    var i := 0;
    while i < |guess|
      invariant 0 <= i <= |guess|
      invariant Run(guess, answer, i) == Pass(result, answerMap)
    {
      var guessCh := guess[i];
      if i < |answer| && answer[i] == guessCh {
        result := result + [EXACT];
      } else if guessCh !in answer {
        result := result + [DOES_NOT_EXIST];
      } else {
        var pos := Position(answerMap, guessCh);
        if pos.Some? {
          result := result + [EXISTS];
          answerMap := answerMap[pos.value := PUNCHED];
        } else {
          result := result + [DOES_NOT_EXIST];
        }
      }
      i := i + 1;
    }
  }

  /** `get_letter_status(pos, guess, answer)`: the status at `pos`, 0 past the end. */
  function GetLetterStatus(pos: nat, guess: seq<char>, answer: seq<char>): (s: nat)
    ensures s <= EXACT
    ensures pos >= |guess| ==> s == DOES_NOT_EXIST
    ensures pos < |guess| ==> s == Highlight(guess, answer)[pos]
  {
    var h := Highlight(guess, answer);
    if pos < |h| then h[pos] else DOES_NOT_EXIST
  }

  // ---------------------------------------------------------------------
  // Per-position facts
  // ---------------------------------------------------------------------

  /** Later iterations never rewrite an earlier status. */
  lemma {:induction false} RunPrefix(guess: seq<char>, answer: seq<char>, n: nat, m: nat)
    requires n <= m <= |guess|
    ensures Run(guess, answer, m).statuses[..n] == Run(guess, answer, n).statuses
    decreases m - n
  {
    if n < m {
      RunPrefix(guess, answer, n, m - 1);
      assert Run(guess, answer, m).statuses[..m - 1] == Run(guess, answer, m - 1).statuses;
    }
  }

  /** The status at `i` is the one step `i` computed against the map left by steps 0..i-1. */
  lemma HighlightAt(guess: seq<char>, answer: seq<char>, i: nat)
    requires i < |guess|
    ensures Highlight(guess, answer)[i]
         == Step(guess, answer, Run(guess, answer, i).remaining, i).statuses[0]
  {
    RunPrefix(guess, answer, i + 1, |guess|);
    assert Highlight(guess, answer)[i] == Highlight(guess, answer)[..i + 1][i];
  }

  /** A position scores 2 exactly when its letter equals the answer's letter there. */
  lemma ExactIffTwo(guess: seq<char>, answer: seq<char>, i: nat)
    requires i < |guess|
    ensures Highlight(guess, answer)[i] == EXACT <==> IsExact(guess, answer, i)
  {
    HighlightAt(guess, answer, i);
  }

  /** A letter that does not occur in the answer scores 0. */
  lemma AbsentScoresZero(guess: seq<char>, answer: seq<char>, i: nat)
    requires i < |guess| && guess[i] !in answer
    ensures Highlight(guess, answer)[i] == DOES_NOT_EXIST
  {
    HighlightAt(guess, answer, i);
  }

  /** Scoring the answer against itself gives 2 everywhere. */
  lemma SelfScoresAllExact(answer: seq<char>)
    ensures Highlight(answer, answer) == seq(|answer|, _ => EXACT)
  {
    forall i | 0 <= i < |answer|
      ensures Highlight(answer, answer)[i] == EXACT
    {
      ExactIffTwo(answer, answer, i);
    }
  }

  /** A guess sharing no letter with the answer scores 0 everywhere. */
  lemma DisjointScoresAllAbsent(guess: seq<char>, answer: seq<char>)
    requires forall i :: 0 <= i < |guess| ==> guess[i] !in answer
    ensures Highlight(guess, answer) == seq(|guess|, _ => DOES_NOT_EXIST)
  {
    forall i | 0 <= i < |guess|
      ensures Highlight(guess, answer)[i] == DOES_NOT_EXIST
    {
      AbsentScoresZero(guess, answer, i);
    }
  }

  // ---------------------------------------------------------------------
  // Counting
  // ---------------------------------------------------------------------

  function Count(c: char, s: seq<char>): nat
    decreases |s|
  {
    if |s| == 0 then 0 else Count(c, s[..|s| - 1]) + (if s[|s| - 1] == c then 1 else 0)
  }

  /** Positions j < n that are exact hits on letter c. */
  function ExactCount(guess: seq<char>, answer: seq<char>, c: char, n: nat): nat
  {
    if n == 0 then 0
    else ExactCount(guess, answer, c, n - 1) + (if IsExact(guess, answer, n - 1) && guess[n - 1] == c then 1 else 0)
  }

  /** Guess positions j < n holding c that are not exact hits. */
  function NonExactCount(guess: seq<char>, answer: seq<char>, c: char, n: nat): nat
    requires n <= |guess|
  {
    if n == 0 then 0
    else NonExactCount(guess, answer, c, n - 1) + (if guess[n - 1] == c && !IsExact(guess, answer, n - 1) then 1 else 0)
  }

  /** Guess positions j < n holding c whose status is 1 or 2. */
  function ScoredCount(guess: seq<char>, statuses: seq<nat>, c: char, n: nat): nat
    requires n <= |guess| && n <= |statuses|
  {
    if n == 0 then 0
    else ScoredCount(guess, statuses, c, n - 1) + (if guess[n - 1] == c && statuses[n - 1] != DOES_NOT_EXIST then 1 else 0)
  }

  function Min(x: nat, y: nat): nat
  {
    if x <= y then x else y
  }

  lemma {:induction false} CountZeroIff(c: char, s: seq<char>)
    ensures Count(c, s) == 0 <==> c !in s
    decreases |s|
  {
    if |s| > 0 {
      CountZeroIff(c, s[..|s| - 1]);
      assert s == s[..|s| - 1] + [s[|s| - 1]];
    }
  }

  lemma {:induction false} CountUpdate(c: char, s: seq<char>, pos: nat, x: char)
    requires pos < |s|
    ensures Count(c, s[pos := x]) + (if s[pos] == c then 1 else 0) == Count(c, s) + (if x == c then 1 else 0)
    decreases |s|
  {
    var t := s[pos := x];
    if pos < |s| - 1 {
      CountUpdate(c, s[..|s| - 1], pos, x);
      assert t[..|t| - 1] == s[..|s| - 1][pos := x];
    } else {
      assert t[..|t| - 1] == s[..|s| - 1];
    }
  }

  lemma {:induction false} ScoredCountPrefix(guess: seq<char>, r: seq<nat>, r': seq<nat>, c: char, n: nat)
    requires n <= |guess| && n <= |r| && n <= |r'| && r[..n] == r'[..n]
    ensures ScoredCount(guess, r, c, n) == ScoredCount(guess, r', c, n)
  {
    if n > 0 {
      assert r[n - 1] == r[..n][n - 1] == r'[..n][n - 1] == r'[n - 1];
      assert r[..n - 1] == r[..n][..n - 1] == r'[..n][..n - 1] == r'[..n - 1];
      ScoredCountPrefix(guess, r, r', c, n - 1);
    }
  }

  /** No exact hit lies beyond the shorter of the two words. */
  lemma {:induction false} ExactCountStable(guess: seq<char>, answer: seq<char>, c: char, n: nat)
    requires n >= Min(|guess|, |answer|)
    ensures ExactCount(guess, answer, c, n) == ExactCount(guess, answer, c, Min(|guess|, |answer|))
  {
    if n > Min(|guess|, |answer|) {
      ExactCountStable(guess, answer, c, n - 1);
    }
  }

  /** Punching removes exactly the exact hits: for c != '-', what is left plus the hits is the answer's count. */
  lemma {:induction false} PunchCountPrefix(guess: seq<char>, answer: seq<char>, c: char, n: nat)
    requires c != PUNCHED && n <= |answer|
    ensures Count(c, Punch(guess, answer)[..n]) + ExactCount(guess, answer, c, n) == Count(c, answer[..n])
  {
    if n > 0 {
      PunchCountPrefix(guess, answer, c, n - 1);
      var p := Punch(guess, answer);
      assert p[..n][..n - 1] == p[..n - 1];
      assert answer[..n][..n - 1] == answer[..n - 1];
    }
  }

  lemma PunchCount(guess: seq<char>, answer: seq<char>, c: char)
    requires c != PUNCHED
    ensures Count(c, Punch(guess, answer)) + ExactCount(guess, answer, c, |guess|) == Count(c, answer)
  {
    PunchCountPrefix(guess, answer, c, |answer|);
    assert Punch(guess, answer)[..|answer|] == Punch(guess, answer);
    assert answer[..|answer|] == answer;
    ExactCountStable(guess, answer, c, |guess|);
    ExactCountStable(guess, answer, c, |answer|);
  }

  /** Every copy of c in the guess is either an exact hit or not. */
  lemma {:induction false} GuessCountSplits(guess: seq<char>, answer: seq<char>, c: char, n: nat)
    requires n <= |guess|
    ensures Count(c, guess[..n]) == ExactCount(guess, answer, c, n) + NonExactCount(guess, answer, c, n)
  {
    if n > 0 {
      GuessCountSplits(guess, answer, c, n - 1);
      assert guess[..n][..n - 1] == guess[..n - 1];
    }
  }

  /**
   * The scan invariant, for a letter c other than '-': after n steps, the
   * non-exact copies of c seen so far have used up min(seen, pool) copies of
   * c from the punched map, and each of them that found one scored 1.
   */
  lemma {:induction false} RunCounts(guess: seq<char>, answer: seq<char>, c: char, n: nat)
    requires c != PUNCHED && n <= |guess|
    ensures var pool := Count(c, Punch(guess, answer));
            var r := Run(guess, answer, n);
            && Count(c, r.remaining) == pool - Min(NonExactCount(guess, answer, c, n), pool)
            && ScoredCount(guess, r.statuses, c, n)
               == ExactCount(guess, answer, c, n) + Min(NonExactCount(guess, answer, c, n), pool)
  {
    if n > 0 {
      var pool := Count(c, Punch(guess, answer));
      RunCounts(guess, answer, c, n - 1);
      var before := Run(guess, answer, n - 1);
      var r := Run(guess, answer, n);
      var i := n - 1;
      var step := Step(guess, answer, before.remaining, i);
      assert r.remaining == step.remaining && r.statuses[i] == step.statuses[0];
      ScoredCountPrefix(guess, r.statuses, before.statuses, c, i);
      PunchCount(guess, answer, c);
      StepCounts(guess, answer, before.remaining, i, c);
    }
  }

  /** How one step changes the count of c left in the map, and whether a copy of c scores. */
  lemma StepCounts(guess: seq<char>, answer: seq<char>, m: seq<char>, i: nat, c: char)
    requires c != PUNCHED && i < |guess| && Count(c, m) <= Count(c, answer)
    ensures var st := Step(guess, answer, m, i);
            && (IsExact(guess, answer, i) ==> st.remaining == m && st.statuses[0] != DOES_NOT_EXIST)
            && (!IsExact(guess, answer, i) && guess[i] != c ==> Count(c, st.remaining) == Count(c, m))
            && (!IsExact(guess, answer, i) && guess[i] == c && Count(c, m) > 0 ==>
                  Count(c, st.remaining) == Count(c, m) - 1 && st.statuses[0] != DOES_NOT_EXIST)
            && (!IsExact(guess, answer, i) && guess[i] == c && Count(c, m) == 0 ==>
                  Count(c, st.remaining) == 0 && st.statuses[0] == DOES_NOT_EXIST)
  {
    var ch := guess[i];
    if !IsExact(guess, answer, i) {
      if ch !in answer {
        if ch == c {
          CountZeroIff(c, answer);
        }
      } else {
        var p := Position(m, ch);
        CountZeroIff(c, m);
        if p.Some? {
          CountUpdate(c, m, p.value, PUNCHED);
        }
      }
    }
  }

  /**
   * The duplicate cap: for every letter c other than '-', the positions of
   * c that score 1 or 2 number min(copies of c in the guess, copies in the answer).
   */
  lemma DuplicateCap(guess: seq<char>, answer: seq<char>, c: char)
    requires c != PUNCHED
    ensures ScoredCount(guess, Highlight(guess, answer), c, |guess|) == Min(Count(c, guess), Count(c, answer))
  {
    RunCounts(guess, answer, c, |guess|);
    PunchCount(guess, answer, c);
    GuessCountSplits(guess, answer, c, |guess|);
    assert guess[..|guess|] == guess;
  }

  lemma {:induction false} NonExactCountMonotone(guess: seq<char>, answer: seq<char>, c: char, i: nat, j: nat)
    requires i <= j <= |guess|
    ensures NonExactCount(guess, answer, c, i) <= NonExactCount(guess, answer, c, j)
    decreases j - i
  {
    if i < j {
      NonExactCountMonotone(guess, answer, c, i, j - 1);
    }
  }

  /**
   * A non-exact copy of c scores 1 exactly when fewer non-exact copies of c
   * precede it than the punched map holds.
   */
  lemma ExistsIff(guess: seq<char>, answer: seq<char>, i: nat)
    requires i < |guess| && guess[i] != PUNCHED && !IsExact(guess, answer, i)
    ensures Highlight(guess, answer)[i] == EXISTS
        <==> NonExactCount(guess, answer, guess[i], i) < Count(guess[i], Punch(guess, answer))
  {
    var c := guess[i];
    HighlightAt(guess, answer, i);
    RunCounts(guess, answer, c, i);
    var before := Run(guess, answer, i);
    CountZeroIff(c, before.remaining);
    if c !in answer {
      CountZeroIff(c, answer);
      PunchCount(guess, answer, c);
    }
  }

  /** Among non-exact copies of one letter, 1s go to the leftmost copies first. */
  lemma LeftmostFirst(guess: seq<char>, answer: seq<char>, i: nat, j: nat)
    requires i < j < |guess| && guess[i] == guess[j] && guess[i] != PUNCHED
    requires !IsExact(guess, answer, i) && !IsExact(guess, answer, j)
    requires Highlight(guess, answer)[j] == EXISTS
    ensures Highlight(guess, answer)[i] == EXISTS
  {
    ExistsIff(guess, answer, i);
    ExistsIff(guess, answer, j);
    NonExactCountMonotone(guess, answer, guess[i], i + 1, j);
  }

  /** `position` finds the first index holding the character. */
  lemma {:induction false} PositionFirst(m: seq<char>, c: char, j: nat)
    requires j < |m| && m[j] == c
    requires forall k :: 0 <= k < j ==> m[k] != c
    ensures Position(m, c) == Some(j)
    decreases j
  {
    if j > 0 {
      PositionFirst(m[1..], c, j - 1);
    }
  }

  /** A guess letter absent from the answer adds a 0 and leaves the map alone. */
  lemma AbsentStep(guess: seq<char>, answer: seq<char>, n: nat)
    requires n < |guess| && guess[n] !in answer
    ensures Run(guess, answer, n + 1) ==
              Pass(Run(guess, answer, n).statuses + [DOES_NOT_EXIST], Run(guess, answer, n).remaining)
  {
  }

  /** A misplaced guess letter found in the map at `j` adds a 1 and punches `j`. */
  lemma FoundStep(guess: seq<char>, answer: seq<char>, n: nat, j: nat)
    requires n < |guess| && !IsExact(guess, answer, n) && guess[n] in answer
    requires Position(Run(guess, answer, n).remaining, guess[n]) == Some(j)
    ensures Run(guess, answer, n + 1) ==
              Pass(Run(guess, answer, n).statuses + [EXISTS], Run(guess, answer, n).remaining[j := PUNCHED])
  {
  }

  /** No letter of LLAMA is in place in HELLO, and its first L takes the first L of HELLO. */
  lemma LlamaFirstL(g: string, a: string)
    requires g == "LLAMA" && a == "HELLO"
    ensures Run(g, a, 1) == Pass([EXISTS], a[2 := PUNCHED])
  {
    assert Punch(g, a) == a by {
      forall k | 0 <= k < 5 ensures Punch(g, a)[k] == a[k] { assert !IsExact(g, a, k); }
    }
    PositionFirst(a, 'L', 2);
    FoundStep(g, a, 0, 2);
  }

  /** The two L's of LLAMA take the two L's of HELLO, leftmost first. */
  lemma LlamaTakesBothLs(g: string, a: string)
    requires g == "LLAMA" && a == "HELLO"
    ensures Run(g, a, 2) == Pass([EXISTS, EXISTS], a[2 := PUNCHED][3 := PUNCHED])
  {
    LlamaFirstL(g, a);
    var m1 := a[2 := PUNCHED];
    assert Position(m1, 'L') == Some(3) by {
      assert m1[3] == 'L' && m1[0] != 'L' && m1[1] != 'L' && m1[2] != 'L';
      PositionFirst(m1, 'L', 3);
    }
    assert !IsExact(g, a, 1) && g[1] == 'L' && g[1] in a;
    FoundStep(g, a, 1, 3);
  }

  /** After the two L's, the A, M and A of LLAMA are absent from HELLO and score 0. */
  lemma LlamaRun(g: string, a: string)
    requires g == "LLAMA" && a == "HELLO"
    ensures Run(g, a, 5).statuses == [EXISTS, EXISTS, DOES_NOT_EXIST, DOES_NOT_EXIST, DOES_NOT_EXIST]
  {
    var m := a[2 := PUNCHED][3 := PUNCHED];
    assert Run(g, a, 3) == Pass([EXISTS, EXISTS, DOES_NOT_EXIST], m) by {
      LlamaTakesBothLs(g, a);
      assert g[2] !in a;
      AbsentStep(g, a, 2);
    }
    assert Run(g, a, 4) == Pass([EXISTS, EXISTS, DOES_NOT_EXIST, DOES_NOT_EXIST], m) by {
      assert g[3] !in a;
      AbsentStep(g, a, 3);
    }
    assert g[4] !in a;
    AbsentStep(g, a, 4);
  }

  /**
   * Answer HELLO, guess LLAMA: no position matches, and HELLO holds two
   * L's, so both L's of the guess score 1 and the rest score 0.
   */
  lemma HelloLlama()
    ensures Highlight("LLAMA", "HELLO") == [EXISTS, EXISTS, DOES_NOT_EXIST, DOES_NOT_EXIST, DOES_NOT_EXIST]
  {
    LlamaRun("LLAMA", "HELLO");
  }
}
