/** The progress bar component (src/components/ProgressBar/ProgressBar.js):
    a colour chosen by threshold and a filled width proportional to the percent.
    Props are JavaScript numbers, modelled as exact reals. */
module ProgressBar {
  import opened Wrappers
  import JsText

  datatype Props = Props(percent: real, width: real, height: real)

  const DefaultHeight: real := 5.0

  /** React fills `height` from `defaultProps` when the caller leaves it out. */
  function WithDefaults(percent: real, width: real, height: Option<real>): (p: Props)
    ensures p.percent == percent && p.width == width
    ensures p.height == if height.Some? then height.value else 5.0
  {
    Props(percent, width, match height case Some(h) => h case None => DefaultHeight)
  }

  /** `getColor(percent)`: green only at exactly 100, light green above 50, red otherwise. */
  function GetColor(percent: real): (color: string)
    ensures color == "green" <==> percent == 100.0
    ensures color == "lightgreen" <==> percent > 50.0 && percent != 100.0
    ensures color == "red" <==> percent <= 50.0
    ensures color in {"green", "lightgreen", "red"}
  {
    if percent == 100.0 then "green"
    else if percent > 50.0 then "lightgreen"
    else "red"
  }

  /** `getWidthAsPercentOfTotalWidth()`: `percent` percent of `width`, truncated toward zero. */
  function GetWidthAsPercentOfTotalWidth(props: Props): (filled: int)
    ensures var exact := props.width * (props.percent / 100.0);
            0.0 <= exact ==> filled >= 0 && filled as real <= exact < filled as real + 1.0
    ensures var exact := props.width * (props.percent / 100.0);
            exact < 0.0 ==> filled <= 0 && filled as real - 1.0 < exact <= filled as real
  {
    JsText.Truncate(props.width * (props.percent / 100.0))
  }

  /** An empty bar at 0 percent and the whole (truncated) width at 100 percent. */
  lemma WidthAtEnds(width: real, height: real)
    ensures GetWidthAsPercentOfTotalWidth(Props(0.0, width, height)) == 0
    ensures GetWidthAsPercentOfTotalWidth(Props(100.0, width, height)) == JsText.Truncate(width)
  {
  }

  /** For a percent in 0..100 and a non-negative width the fill stays inside the bar. */
  lemma {:induction false} WidthWithinBar(props: Props)
    requires 0.0 <= props.percent <= 100.0 && 0.0 <= props.width
    ensures 0 <= GetWidthAsPercentOfTotalWidth(props)
    ensures GetWidthAsPercentOfTotalWidth(props) as real <= props.width
  {
    var exact := props.width * (props.percent / 100.0);
    ScaleWithinWhole(props.width, props.percent / 100.0);
    JsText.TruncateBelow(exact, props.width);
  }

  /** A share between 0 and 1 of a non-negative whole lies between 0 and the whole. */
  lemma ScaleWithinWhole(w: real, s: real)
    requires 0.0 <= w && 0.0 <= s <= 1.0
    ensures 0.0 <= w * s <= w
  {
    assert w - w * s == w * (1.0 - s);
    assert 0.0 <= w * (1.0 - s);
  }

  /** A larger percent never gives a narrower fill on a bar of non-negative width. */
  lemma {:induction false} WidthMonotonic(p: Props, q: Props)
    requires p.width == q.width && 0.0 <= p.width
    requires p.percent <= q.percent
    ensures GetWidthAsPercentOfTotalWidth(p) <= GetWidthAsPercentOfTotalWidth(q)
  {
    var w := p.width;
    ScaleMonotonic(w, p.percent / 100.0, q.percent / 100.0);
    JsText.TruncateMonotonic(w * (p.percent / 100.0), w * (q.percent / 100.0));
  }

  /** Scaling a non-negative whole by a larger share gives a larger part. */
  lemma ScaleMonotonic(w: real, s: real, t: real)
    requires 0.0 <= w && s <= t
    ensures w * s <= w * t
  {
    assert w * t - w * s == w * (t - s);
    assert 0.0 <= w * (t - s);
  }
}
