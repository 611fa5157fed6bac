/** The analytics page: which class it loads, and the geometry of the bar
    chart of student averages (canvas size, gridlines and one bar per
    student). Lengths are exact rationals; the drawing calls are not
    modelled. */
module Chart {
  import opened Base
  import opened Entities

  // ---------------------------------------------------------------------
  // Which class the analytics page loads

  /** The ids a rebuilt class select offers, in class order. */
  function ClassIds(classes: seq<ClassSection>): (ids: seq<string>)
    ensures |ids| == |classes|
    ensures forall i :: 0 <= i < |ids| ==> ids[i] == classes[i].id
  {
    seq(|classes|, i requires 0 <= i < |classes| => classes[i].id)
  }

  /** The value of a single-choice select whose options were just
      recreated with none marked selected: the first option is selected,
      and a select without options has the empty value. */
  function RebuiltSelectValue(options: seq<string>): (v: string)
    ensures options == [] ==> v == ""
    ensures options != [] ==> v == options[0]
  {
    if options == [] then "" else options[0]
  }

  /** The class the page's first class stands for, `state.classes[0]?.id`,
      as a truthy id or nothing. */
  function FirstClass(classes: seq<ClassSection>): (c: Option<string>)
    ensures c.Some? <==> classes != [] && Truthy(classes[0].id)
    ensures c.Some? ==> c.value == classes[0].id
  {
    if classes != [] && Truthy(classes[0].id) then Some(classes[0].id) else None
  }

  /** The class loaded as written: the select is emptied and refilled on
      every load, including the load its own change handler triggers, so
      its value is always the first class's id whatever the user chose
      before. */
  function AnalyticsClassAsWritten(classes: seq<ClassSection>, choice: string): (c: Option<string>)
    ensures c == FirstClass(classes)
  {
    var value := RebuiltSelectValue(ClassIds(classes));
    var chosen := if Truthy(value) then value else if classes != [] then classes[0].id else "";
    if Truthy(chosen) then Some(chosen) else None
  }

  /** A choice of the user that the select can show again. */
  predicate Offered(classes: seq<ClassSection>, choice: string) {
    Truthy(choice) && choice in ClassIds(classes)
  }

  /** The class loaded once the select keeps the user's choice after being
      refilled: that choice when it is still offered, the first class
      otherwise. */
  function AnalyticsClass(classes: seq<ClassSection>, choice: string): (c: Option<string>)
    ensures Offered(classes, choice) ==> c == Some(choice)
    ensures !Offered(classes, choice) ==> c == FirstClass(classes)
  {
    var options := ClassIds(classes);
    var value := if Offered(classes, choice) then choice else RebuiltSelectValue(options);
    var chosen := if Truthy(value) then value else if classes != [] then classes[0].id else "";
    if Truthy(chosen) then Some(chosen) else None
  }

  /** Picking any class other than the first reloads the first class's
      analytics as written, while the corrected page loads the class
      picked. */
  lemma AnalyticsChoiceDropped(classes: seq<ClassSection>, j: nat)
    requires j < |classes| && Truthy(classes[j].id) && classes[j].id != classes[0].id
    ensures AnalyticsClassAsWritten(classes, classes[j].id) != Some(classes[j].id)
    ensures AnalyticsClass(classes, classes[j].id) == Some(classes[j].id)
  {
    assert ClassIds(classes)[j] == classes[j].id;
  }

  /** The request the analytics page issues as written: for the first
      class, whichever class the user picked, and none without a first
      class. */
  function AnalyticsPath(classes: seq<ClassSection>, choice: string): (path: Option<string>)
    ensures path.Some? <==> classes != [] && Truthy(classes[0].id)
    ensures path.Some? ==> path.value == "/classes/" + classes[0].id + "/analytics"
  {
    match AnalyticsClassAsWritten(classes, choice)
    case Some(id) => Some("/classes/" + id + "/analytics")
    case None => None
  }

  // ---------------------------------------------------------------------
  // The bar chart

  function MinR(a: real, b: real): real { if a <= b then a else b }
  function MaxR(a: real, b: real): real { if a >= b then a else b }

  const CanvasHeight: real := 300.0
  const Padding: real := 40.0
  /** The percent scale: a value of 100 fills the chart height. */
  const MaxValue: real := 100.0
  /** The gap before each bar. */
  const Gap: real := 8.0
  const ChartHeight: real := CanvasHeight - Padding * 2.0

  /** The canvas width for `n` students: 50 per student, but never under
      600 nor over 900. */
  function CanvasWidth(n: nat): (w: real)
    ensures 600.0 <= w <= 900.0
    ensures w == 600.0 <==> n <= 12
    ensures w == 900.0 <==> n >= 18
    ensures 600.0 < w < 900.0 ==> w == 50.0 * n as real
  {
    MinR(900.0, MaxR(600.0, n as real * 50.0))
  }

  /** The width of the plot area between the paddings. */
  function ChartWidth(n: nat): (cw: real)
    ensures 520.0 <= cw <= 820.0
  {
    CanvasWidth(n) - Padding * 2.0
  }

  /** Each bar's width: the plot width shared out among the students, less
      the gap, but never under 12. */
  function BarWidth(n: nat): (bw: real)
    ensures bw >= 12.0
    ensures bw >= ChartWidth(n) / MaxR(1.0, n as real) - Gap
    ensures bw == 12.0 || bw == ChartWidth(n) / MaxR(1.0, n as real) - Gap
  {
    MaxR(12.0, ChartWidth(n) / MaxR(1.0, n as real) - Gap)
  }

  /** The height of gridline `i`, counted from the top. */
  function GridlineY(i: nat): (y: real)
    requires i <= 5
    ensures i == 0 ==> y == Padding
    ensures i == 5 ==> y == Padding + ChartHeight
  {
    Padding + (ChartHeight * i as real) / 5.0
  }

  /** The label of gridline `i`: the percentage it stands for. */
  function GridLabel(i: nat): (pct: int)
    requires i <= 5
    ensures pct == 100 - 20 * i
  {
    var x := (1.0 - i as real / 5.0) * MaxValue;
    assert x == (100 - 20 * i) as real;
    MathRound(x)
  }

  /** The six labels from the top gridline down. */
  function GridLabels(): (labels: seq<int>)
    ensures labels == [100, 80, 60, 40, 20, 0]
  {
    var labels := seq(6, i requires 0 <= i < 6 => GridLabel(i));
    assert labels[0] == 100 && labels[1] == 80 && labels[2] == 60;
    assert labels[3] == 40 && labels[4] == 20 && labels[5] == 0;
    labels
  }

  /** A bar: left edge, top edge, width and height. */
  datatype Bar = Bar(x: real, y: real, width: real, height: real)

  /** The left edge of bar `idx` of `n`. */
  function BarX(n: nat, idx: nat): real {
    Padding + idx as real * (BarWidth(n) + Gap) + Gap
  }

  /** The bar of value `v` at position `idx` of `n`: its height is `v`
      percent of the chart height and it stands on the bottom gridline. */
  function BarFor(n: nat, idx: nat, v: real): (b: Bar)
    ensures b.x == BarX(n, idx) && b.width == BarWidth(n)
    ensures b.height * MaxValue == v * ChartHeight
    ensures b.y + b.height == Padding + ChartHeight
    ensures 0.0 <= v <= MaxValue ==> Padding <= b.y <= Padding + ChartHeight
  {
    var h := (v / MaxValue) * ChartHeight;
    Bar(BarX(n, idx), Padding + ChartHeight - h, BarWidth(n), h)
  }

  /** The value a bar shows: `values[idx] || 0`, a missing average being
      drawn as 0. */
  function BarValue(values: seq<Option<real>>, idx: nat): (v: real)
    requires idx < |values|
    ensures values[idx].Some? ==> v == values[idx].value
    ensures values[idx].None? ==> v == 0.0
  {
    values[idx].GetOr(0.0)
  }

  /** The chart: one bar per student average, in order. */
  function Bars(values: seq<Option<real>>): (bars: seq<Bar>)
    ensures |bars| == |values|
    ensures forall idx :: 0 <= idx < |bars| ==> bars[idx] == BarFor(|values|, idx, BarValue(values, idx))
  {
    seq(|values|, idx requires 0 <= idx < |values| => BarFor(|values|, idx, BarValue(values, idx)))
  }

  /** Heights are proportional to values: two bars' heights stand in the
      ratio of their values. */
  lemma HeightsProportional(values: seq<Option<real>>, a: nat, b: nat)
    requires a < |values| && b < |values|
    ensures Bars(values)[a].height * BarValue(values, b) == Bars(values)[b].height * BarValue(values, a)
  {
    var ha, hb := Bars(values)[a].height, Bars(values)[b].height;
    var va, vb := BarValue(values, a), BarValue(values, b);
    assert ha * MaxValue == va * ChartHeight;
    assert hb * MaxValue == vb * ChartHeight;
    assert ha * vb * MaxValue == va * vb * ChartHeight == hb * va * MaxValue;
  }

  /** A bar whose value is a gridline's label tops out exactly on that
      gridline; in particular a value-100 bar reaches the top gridline. */
  lemma BarMeetsGridline(n: nat, idx: nat, i: nat)
    requires i <= 5
    ensures BarFor(n, idx, GridLabel(i) as real).y == GridlineY(i)
    ensures BarFor(n, idx, MaxValue).y == GridlineY(0) == Padding
  {
    var b := BarFor(n, idx, GridLabel(i) as real);
    assert b.height * MaxValue == (100 - 20 * i) as real * ChartHeight;
  }

  /** Consecutive bars are separated by the gap, so no two bars overlap. */
  lemma BarsApart(n: nat, i: nat, j: nat)
    requires i < j
    ensures BarX(n, i) + BarWidth(n) + Gap <= BarX(n, j)
  {
    var step := BarWidth(n) + Gap;
    assert (j - i) as real * step >= step by {
      assert (j - i) as real >= 1.0;
      assert step > 0.0;
    }
    assert BarX(n, j) - BarX(n, i) == (j - i) as real * step;
  }

  /** The right edge of bar `idx`. */
  function BarRight(n: nat, idx: nat): (r: real)
    ensures r == BarX(n, idx) + BarWidth(n)
  {
    Padding + (idx + 1) as real * (BarWidth(n) + Gap)
  }

  /** A bar lies horizontally within the plot area. */
  predicate InPlot(n: nat, idx: nat) {
    Padding <= BarX(n, idx) && BarRight(n, idx) <= Padding + ChartWidth(n)
  }

  /** The plot area gives each of `n` students at least 20 units exactly
      when there are at most 41 of them. */
  lemma RoomForBars(n: nat)
    requires n >= 1
    ensures ChartWidth(n) >= 20.0 * n as real <==> n <= 41
  {
    if n <= 12 {
      assert ChartWidth(n) == 520.0;
    } else if n < 18 {
      assert ChartWidth(n) == 50.0 * n as real - 80.0;
    } else {
      assert ChartWidth(n) == 820.0;
    }
  }

  /** With room for the minimum width the bars exactly fill the plot width;
      without it they are clamped to 12 and the last one overflows it. */
  lemma LastBarRight(n: nat)
    requires n >= 1
    ensures ChartWidth(n) >= 20.0 * n as real ==> BarRight(n, n - 1) == Padding + ChartWidth(n)
    ensures ChartWidth(n) < 20.0 * n as real ==> BarRight(n, n - 1) > Padding + ChartWidth(n)
  {
    var m := n as real;
    var cw := ChartWidth(n);
    assert MaxR(1.0, m) == m;
    assert BarRight(n, n - 1) == Padding + m * (BarWidth(n) + Gap);
    if cw >= 20.0 * m {
      assert cw / m >= 20.0;
      assert BarWidth(n) + Gap == cw / m;
      assert m * (cw / m) == cw;
    } else {
      assert cw / m < 20.0;
      assert BarWidth(n) == 12.0;
    }
  }

  /** No bar ends further right than the last one, nor starts left of the
      plot area. */
  lemma BarWithinLast(n: nat, idx: nat)
    requires idx < n
    ensures Padding <= BarX(n, idx)
    ensures BarRight(n, idx) <= BarRight(n, n - 1)
  {
    var step := BarWidth(n) + Gap;
    ScaleMonotonic(0.0, idx as real, step);
    ScaleMonotonic((idx + 1) as real, ((n - 1) + 1) as real, step);
    assert BarX(n, idx) == Padding + idx as real * step + Gap;
    assert BarRight(n, idx) == Padding + (idx + 1) as real * step;
    assert BarRight(n, n - 1) == Padding + ((n - 1) + 1) as real * step;
  }

  lemma ScaleMonotonic(a: real, b: real, c: real)
    requires a <= b && c > 0.0
    ensures a * c <= b * c
  {
    assert b * c - a * c == (b - a) * c;
  }

  /** Every bar lies within the plot area exactly when there are at most 41
      students; up to 41 the last bar ends on the plot's right edge. */
  lemma BarsFitIff(n: nat)
    ensures (forall idx :: 0 <= idx < n ==> InPlot(n, idx)) <==> n <= 41
    ensures 1 <= n <= 41 ==> BarRight(n, n - 1) == Padding + ChartWidth(n)
  {
    if n >= 1 {
      RoomForBars(n);
      LastBarRight(n);
      if n <= 41 {
        forall idx | 0 <= idx < n
          ensures InPlot(n, idx)
        {
          BarWithinLast(n, idx);
        }
      } else {
        assert !InPlot(n, n - 1);
      }
    }
  }
}
