/**
 * The colours the flow diagram and the donut chart hand to the chart
 * library. The source computes them in floating point (`d3.hsl`, `d3.rgb`),
 * so the model keeps a colour symbolic.
 */
module Palette {

  /**
   * `Hue(i, n)`: hsl(360 * i / n, 1.0, 0.65), the i-th of n evenly spaced hues.
   * `Unresolved`: what d3 renders for an undefined colour, "rgb(0, 0, 0)".
   * `RootGrey`: the fixed "rgb(230, 230, 230)" of the flow diagram's root node.
   */
  datatype Colour = Hue(index: nat, count: nat) | Unresolved | RootGrey

  /** The n evenly spaced hues, in order (`360 * (i / n)` for i = 0 .. n - 1). */
  function Spread(n: nat): (r: seq<Colour>)
    ensures |r| == n
    ensures forall i :: 0 <= i < n ==> r[i].Hue? && r[i].index == i && r[i].count == n
  {
    seq(n, i requires 0 <= i < n => Hue(i, n))
  }
}
