/**
 * The six win-distribution bars (`create_bar_element`, `build`): bar
 * `num` shows how many games were won on attempt `num`, scaled against
 * the largest of the six win counters.
 */
module Graphs {
  import opened Text
  import opened Style

  const BARS: nat := 6
  const BAR_SCALE: nat := 10
  const BAR_ROOM: nat := 11
  const GRAPHS_X: nat := 57
  const GRAPHS_Y: nat := 4

  /** `iter().max().unwrap_or(0)`: the largest element, 0 for none. */
  function MaxOf(xs: seq<nat>): (m: nat)
    ensures forall k :: 0 <= k < |xs| ==> xs[k] <= m
    ensures |xs| == 0 ==> m == 0
    ensures |xs| > 0 ==> exists k :: 0 <= k < |xs| && xs[k] == m
    decreases |xs|
  {
    if |xs| == 0 then 0
    else
      var m := MaxOf(xs[..|xs| - 1]);
      if xs[|xs| - 1] > m then xs[|xs| - 1] else m
  }

  /** The scale: the largest of the six win counters; the loss counter is not looked at. */
  function Scale(results: seq<nat>): nat
    requires |results| >= BARS
  {
    MaxOf(results[..BARS])
  }

  /** The bar's length: `value` against `max`, out of ten and rounded; 0 when every counter is 0. */
  function BarLength(value: nat, max: nat): nat
  {
    if max > 0 then RoundedRatio(value, max, BAR_SCALE) else 0
  }

  /** `11usize.saturating_sub(len)` */
  function Padding(len: nat): nat
  {
    if len <= BAR_ROOM then BAR_ROOM - len else 0
  }

  /** The bar's text: name, space, the bar and the value in inverse video, then the padding. */
  function BarText(name: string, value: nat, max: nat): Styled
  {
    var len := BarLength(value, max);
    Cat(Txt(name + " "), Cat(Inv(Txt(Spaces(len))), Cat(Inv(Txt(NatToString(value))), Txt(Spaces(Padding(len))))))
  }

  /** Bar `num`'s look: counter `num - 1` on the scale of the six win counters. */
  function BarLook(num: nat, results: seq<nat>): (look: Look)
    requires 1 <= num <= BARS && |results| >= BARS
    ensures |look| == 1 && |look[0]| == 1
  {
    [[BarText(NatToString(num), results[num - 1], Scale(results))]]
  }

  /**
   * A bar never outgrows ten cells: it is empty while no game was won, full
   * for the largest counter, and the bar and its padding together take
   * eleven cells.
   */
  lemma BarLengthRange(num: nat, results: seq<nat>)
    requires 1 <= num <= BARS && |results| >= BARS
    ensures var len := BarLength(results[num - 1], Scale(results));
            && len <= BAR_SCALE
            && len + Padding(len) == BAR_ROOM
            && (Scale(results) == 0 ==> len == 0)
            && (Scale(results) > 0 && results[num - 1] == Scale(results) ==> len == BAR_SCALE)
  {
    var max := Scale(results);
    var value := results[num - 1];
    assert value == results[..BARS][num - 1];
    if max > 0 {
      RoundedRatioBound(value, max, BAR_SCALE);
      if value == max {
        RoundedRatioOne(max, BAR_SCALE);
      }
    }
  }

  /** The loss counter does not move any bar. */
  lemma BarsIgnoreLosses(num: nat, results: seq<nat>, losses: nat)
    requires 1 <= num <= BARS && |results| > BARS
    ensures BarLook(num, results[BARS := losses]) == BarLook(num, results)
  {
    assert results[BARS := losses][..BARS] == results[..BARS];
  }

  /** A bar element: where it goes in the viewport, its name and its counter number. */
  datatype Bar = Bar(x: nat, y: nat, name: string, num: nat)

  /** `build`: the six bars, labelled "1".."6", one per row from row 4 down at column 57. */
  method BuildGraphs() returns (bars: seq<Bar>)
    ensures |bars| == BARS
    ensures forall i :: 0 <= i < BARS ==>
              bars[i] == Bar(GRAPHS_X, GRAPHS_Y + i, NatToString(i + 1), i + 1)
  {
    var stats := ["1", "2", "3", "4", "5", "6"];
    bars := [];
    for index := 0 to |stats|
      invariant |bars| == index
      invariant forall i :: 0 <= i < index ==> bars[i] == Bar(GRAPHS_X, GRAPHS_Y + i, NatToString(i + 1), i + 1)
    {
      assert stats[index] == NatToString(index + 1);
      bars := bars + [Bar(57, 4 + index, stats[index], index + 1)];
    }
  }

  /** Each bar reads its own counter and sits on its own row. */
  lemma BarsDistinct(bars: seq<Bar>, i: nat, j: nat)
    requires |bars| == BARS
    requires forall k :: 0 <= k < BARS ==> bars[k] == Bar(GRAPHS_X, GRAPHS_Y + k, NatToString(k + 1), k + 1)
    requires i < j < BARS
    ensures bars[i].y != bars[j].y && bars[i].num != bars[j].num && bars[i].name != bars[j].name
  {
    assert bars[i].name[0] != bars[j].name[0];
  }
}
