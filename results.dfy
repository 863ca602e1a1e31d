/**
 * The statistics block (`results` element): games played, the win
 * percentage and the streaks, four lines drawn at (40, 4) in the viewport.
 */
module Results {
  import opened Text
  import opened Style
  import opened Game

  /** Games played: every counter, losses included. */
  function Played(results: seq<nat>): nat
  {
    Sum(results)
  }

  lemma {:induction false} SummandAtMost(xs: seq<nat>, k: nat)
    requires k < |xs|
    ensures xs[k] <= Sum(xs)
    decreases |xs|
  {
    if k < |xs| - 1 {
      SummandAtMost(xs[..|xs| - 1], k);
    }
  }

  /**
   * "Win %": games won over games played, out of 100 and rounded; 0 before
   * any game. The source reads the loss counter only when a game was played.
   */
  function WinPercent(results: seq<nat>): (w: nat)
    requires Played(results) > 0 ==> |results| > LOSSES
    ensures w <= 100
  {
    var p := Played(results);
    if p > 0 then
      SummandAtMost(results, LOSSES);
      RoundedRatioBound(p - results[LOSSES], p, 100);
      RoundedRatio(p - results[LOSSES], p, 100)
    else 0
  }

  /**
   * The percentage lies in 0..100: it is 0 before any game and when every
   * game was lost, and 100 when none was.
   */
  lemma WinPercentRange(results: seq<nat>)
    requires Played(results) > 0 ==> |results| > LOSSES
    ensures WinPercent(results) <= 100
    ensures Played(results) == 0 ==> WinPercent(results) == 0
    ensures Played(results) > 0 && results[LOSSES] == Played(results) ==> WinPercent(results) == 0
    ensures Played(results) > 0 && results[LOSSES] == 0 ==> WinPercent(results) == 100
  {
    var p := Played(results);
    if p > 0 {
      SummandAtMost(results, LOSSES);
      RoundedRatioBound(p - results[LOSSES], p, 100);
      if results[LOSSES] == p {
        RoundedRatioZero(p, 100);
      }
      if results[LOSSES] == 0 {
        RoundedRatioOne(p, 100);
      }
    }
  }

  /** The four lines, in order; the streak line ends in two spaces. */
  function ResultsLook(s: State): (look: Look)
    requires Played(s.results) > 0 ==> |s.results| > LOSSES
    ensures |look| == 4 && forall i :: 0 <= i < 4 ==> |look[i]| == 1
  {
    [[Txt("Played: " + NatToString(Played(s.results)))],
     [Txt("Win %: " + NatToString(WinPercent(s.results)))],
     [Txt("Streak: " + NatToString(s.streak.0) + "  ")],
     [Txt("Max Streak: " + NatToString(s.streak.1))]]
  }

  /** Ending a game adds one to the games played; no other input changes the number. */
  lemma PlayedCountsGames(s: State, key: string, play: seq<string>, valid: seq<string>)
    requires InputAllowed(s, key, play)
    ensures var s' := Input(s, key, play, valid);
            Played(s'.results) == Played(s.results) + (if s.game == InPlay && s'.game != InPlay then 1 else 0)
  {
    InputBookkeeping(s, key, play, valid);
  }
}
