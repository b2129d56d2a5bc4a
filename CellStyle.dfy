/** The grid-cell style of the archived accessibility map
    (analysis/archive/06_visualize_accessibility.py, `cell_style`): a
    red-to-green mix of the clamped score. */
module CellStyle {
  import opened Common

  /** A folium style: the fill colour and its parts, the line weight and the
      fill opacity (the line colour is always None). */
  datatype Style = Style(fillColor: string, r: int, g: int, b: int, weight: int, fillOpacity: real)

  /** `max(0, min(100, score))`. */
  function Clamp(score: real): (s: real)
    ensures 0.0 <= s <= 100.0
    ensures 0.0 <= score <= 100.0 ==> s == score
    ensures score < 0.0 ==> s == 0.0
    ensures score > 100.0 ==> s == 100.0
  {
    if score < 0.0 then 0.0 else if score > 100.0 then 100.0 else score
  }

  /** The red part, `int(255 * (100 - s) / 100)`: truncation is the floor
      because the value is not negative. */
  function Red(s: real): (r: int)
    requires 0.0 <= s <= 100.0
    ensures 0 <= r <= 255
    ensures r as real <= 255.0 * (100.0 - s) / 100.0 < r as real + 1.0
    ensures s == 0.0 ==> r == 255
    ensures s == 100.0 ==> r == 0
  {
    var x := 255.0 * (100.0 - s) / 100.0;
    assert x * 100.0 == 255.0 * (100.0 - s);
    x.Floor
  }

  /** The green part, `int(255 * s / 100)`. */
  function Green(s: real): (g: int)
    requires 0.0 <= s <= 100.0
    ensures 0 <= g <= 255
    ensures g as real <= 255.0 * s / 100.0 < g as real + 1.0
    ensures s == 0.0 ==> g == 0
    ensures s == 100.0 ==> g == 255
  {
    var y := 255.0 * s / 100.0;
    assert y * 100.0 == 255.0 * s;
    y.Floor
  }

  /** The numeric value of the `accessibility_score` property: 0 when
      absent; a number; a boolean counts as 0 or 1; any other value cannot
      be compared with 100 and raises TypeError. */
  function ScoreValue(score: Option<Json>): (v: Result<real>)
    ensures score.None? ==> v == Ok(0.0)
    ensures score.Some? && score.value.JNum? ==> v == Ok(score.value.x)
    ensures v.Err? ==> v.error == IncomparableScore && ExceptionOf(v.error) == TypeError
  {
    match score
    case None => Ok(0.0)
    case Some(j) =>
      match j
      case JNum(x) => Ok(x)
      case JBool(b) => Ok(if b then 1.0 else 0.0)
      case _ => Err(IncomparableScore)
  }

  /** `cell_style`: the red and green parts of the clamped score, written
      into the `rgb(r,g,0)` fill colour; at or below 0 the cell is pure red,
      at or above 100 pure green. */
  function StyleOf(score: Option<Json>): (st: Result<Style>)
    ensures st.Err? <==> ScoreValue(score).Err?
    ensures st.Ok? ==> st.value.weight == 0 && st.value.fillOpacity == 0.6 && st.value.b == 0
    ensures st.Ok? ==> var s := Clamp(ScoreValue(score).value);
      && st.value.r == Red(s) && st.value.g == Green(s)
      && st.value.fillColor == "rgb(" + IntText(st.value.r) + "," + IntText(st.value.g) + ",0)"
    ensures st.Ok? && ScoreValue(score).value <= 0.0 ==> st.value.r == 255 && st.value.g == 0
    ensures st.Ok? && ScoreValue(score).value >= 100.0 ==> st.value.r == 0 && st.value.g == 255
  {
    match ScoreValue(score)
    case Err(e) => Err(e)
    case Ok(v) =>
      var s := Clamp(v);
      var r := Red(s);
      var g := Green(s);
      Ok(Style("rgb(" + IntText(r) + "," + IntText(g) + ",0)", r, g, 0, 0, 0.6))
  }

  /** Each channel lies in 0..255; a score at or below 0 is pure red and one
      at or above 100 pure green. */
  lemma {:induction false} ChannelBounds(v: real)
    ensures 0 <= Red(Clamp(v)) <= 255 && 0 <= Green(Clamp(v)) <= 255
    ensures v <= 0.0 ==> Red(Clamp(v)) == 255 && Green(Clamp(v)) == 0
    ensures v >= 100.0 ==> Red(Clamp(v)) == 0 && Green(Clamp(v)) == 255
  {
    var s := Clamp(v);
    var x := 255.0 * (100.0 - s) / 100.0;
    var y := 255.0 * s / 100.0;
    assert x * 100.0 == 255.0 * (100.0 - s);
    assert y * 100.0 == 255.0 * s;
    assert 0.0 <= x <= 255.0 && 0.0 <= y <= 255.0;
    if v <= 0.0 {
      assert s == 0.0 && x == 255.0 && y == 0.0;
    }
    if v >= 100.0 {
      assert s == 100.0 && x == 0.0 && y == 255.0;
    }
  }

  lemma FloorMonotone(x: real, y: real)
    requires x <= y
    ensures x.Floor <= y.Floor
  {
    assert x.Floor as real <= y;
  }

  /** Red never increases and green never decreases with the score. */
  lemma {:induction false} ChannelsMonotone(v1: real, v2: real)
    requires v1 <= v2
    ensures Red(Clamp(v1)) >= Red(Clamp(v2))
    ensures Green(Clamp(v1)) <= Green(Clamp(v2))
  {
    var s1, s2 := Clamp(v1), Clamp(v2);
    assert s1 <= s2;
    assert 255.0 * (100.0 - s2) <= 255.0 * (100.0 - s1);
    assert 255.0 * s1 <= 255.0 * s2;
    FloorMonotone(255.0 * (100.0 - s2) / 100.0, 255.0 * (100.0 - s1) / 100.0);
    FloorMonotone(255.0 * s1 / 100.0, 255.0 * s2 / 100.0);
  }

  /** The two channels always add up to 254 or 255: 255 exactly when
      `255 * s / 100` is a whole number. */
  lemma {:induction false} ChannelsSum(v: real)
    ensures var s := Clamp(v);
      && (Red(s) + Green(s) == 255 || Red(s) + Green(s) == 254)
      && (Red(s) + Green(s) == 255 <==> (255.0 * s / 100.0).Floor as real == 255.0 * s / 100.0)
  {
    var s := Clamp(v);
    var y := 255.0 * s / 100.0;
    var x := 255.0 * (100.0 - s) / 100.0;
    assert x == 255.0 - y;
    var fy := y.Floor;
    assert fy as real <= y < fy as real + 1.0;
    if fy as real == y {
      assert x == (255 - fy) as real;
      assert x.Floor == 255 - fy;
    } else {
      assert (254 - fy) as real < x < (255 - fy) as real;
      assert x.Floor == 254 - fy;
    }
  }
}
