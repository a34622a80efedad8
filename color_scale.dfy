/**
 * `VizUtils.getHeatmapColor`: the diverging blue-white-red scale that colours
 * a similarity value. The source formats the channels as an `rgb(r, g, b)`
 * string; the model returns the three integers.
 */
module ColorScale {

  datatype Rgb = Rgb(r: int, g: int, b: int)

  const Blue := Rgb(0, 0, 255)
  const White := Rgb(255, 255, 255)
  const Red := Rgb(255, 0, 0)

  /** `Math.round`: the integer nearest to x, with halves rounded up. */
  function Round(x: real): (n: int)
    ensures x - 0.5 < n as real <= x + 0.5
  {
    (x + 0.5).Floor
  }

  /** Rounding never reverses the order of two values. */
  lemma RoundMonotonic(x: real, y: real)
    requires x <= y
    ensures Round(x) <= Round(y)
  {
  }

  predicate IsChannel(n: int) { 0 <= n <= 255 }

  /**
   * Below the midpoint red and green grow with the value at 255 * 2v and blue
   * is saturated; above it red is saturated and green and blue shrink at
   * 255 * 2(1 - v). Values outside [0, 1] are not clamped.
   */
  function HeatmapColor(v: real): (c: Rgb)
    ensures v > 0.5 ==> c.r == 255
    ensures v < 0.5 ==> c.b == 255
  {
    var r := if v > 0.5 then 255 else Round(255.0 * v * 2.0);
    var b := if v < 0.5 then 255 else Round(255.0 * (1.0 - v) * 2.0);
    var g := if v < 0.5 then Round(255.0 * v * 2.0) else Round(255.0 * (1.0 - v) * 2.0);
    Rgb(r, g, b)
  }

  /** The two ends of the scale are pure blue and pure red, and its midpoint is white. */
  lemma HeatmapColorAnchors()
    ensures HeatmapColor(0.0) == Blue
    ensures HeatmapColor(0.5) == White
    ensures HeatmapColor(1.0) == Red
  {
    assert Round(0.0) == 0;
    assert Round(255.0) == 255;
  }

  /** For values in [0, 1] every channel is a valid 8-bit intensity. */
  lemma HeatmapColorInRange(v: real)
    requires 0.0 <= v <= 1.0
    ensures IsChannel(HeatmapColor(v).r) && IsChannel(HeatmapColor(v).g) && IsChannel(HeatmapColor(v).b)
  {
    var up, down := 255.0 * v * 2.0, 255.0 * (1.0 - v) * 2.0;
    if v <= 0.5 {
      RoundMonotonic(0.0, up);
      RoundMonotonic(up, 255.0);
    }
    if v >= 0.5 {
      RoundMonotonic(0.0, down);
      RoundMonotonic(down, 255.0);
    }
  }

  /** Reflecting the value about the midpoint swaps red and blue and keeps green. */
  lemma HeatmapColorMirror(v: real)
    ensures HeatmapColor(1.0 - v) == Rgb(HeatmapColor(v).b, HeatmapColor(v).g, HeatmapColor(v).r)
  {
    assert 255.0 * (1.0 - (1.0 - v)) * 2.0 == 255.0 * v * 2.0;
  }

  /** Red never decreases and blue never increases as the value grows, whatever the value. */
  lemma HeatmapColorMonotonic(v: real, w: real)
    requires v <= w
    ensures HeatmapColor(v).r <= HeatmapColor(w).r
    ensures HeatmapColor(v).b >= HeatmapColor(w).b
  {
    if v <= 0.5 {
      RoundMonotonic(255.0 * v * 2.0, if w <= 0.5 then 255.0 * w * 2.0 else 255.0);
    }
    if w >= 0.5 {
      RoundMonotonic(255.0 * (1.0 - w) * 2.0, if v >= 0.5 then 255.0 * (1.0 - v) * 2.0 else 255.0);
    }
  }

  /** Every colour of the scale is a tint: green equals the smaller of red and blue. */
  lemma HeatmapColorIsTint(v: real)
    ensures var c := HeatmapColor(v); c.g == if c.r <= c.b then c.r else c.b
  {
    if v < 0.5 {
      RoundMonotonic(255.0 * v * 2.0, 255.0);
    } else {
      RoundMonotonic(255.0 * (1.0 - v) * 2.0, 255.0);
    }
  }

  /** A low similarity is mostly blue and a high one mostly red. */
  lemma HeatmapColorSamples()
    ensures HeatmapColor(0.2) == Rgb(102, 102, 255)
    ensures HeatmapColor(0.6) == Rgb(255, 204, 204)
  {
    assert Round(102.0) == 102;
    assert Round(204.0) == 204;
  }
}
