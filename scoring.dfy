/** Score arithmetic shared by the test result screen and the dashboard: JavaScript's
    `Math.round` on exact reals, percentages, the three colour bands of a score, and the
    `NaN` and `Infinity` a division by zero questions produces. */
module Scoring {

  /** `Math.round(x)`: the nearest integer, halves rounded up (towards +infinity). */
  function Round(x: real): (r: int)
    ensures r as real - 0.5 <= x < r as real + 0.5
  {
    (x + 0.5).Floor
  }

  /** Rounding is the identity on integers. */
  lemma RoundOfInt(n: int)
    ensures Round(n as real) == n
  {
  }

  /** Rounding never reverses an order. */
  lemma RoundMonotone(x: real, y: real)
    requires x <= y
    ensures Round(x) <= Round(y)
  {
    assert Round(x) as real - 0.5 <= x <= y < Round(y) as real + 0.5;
  }

  /** `part / whole * 100` on exact reals. */
  function Percent(part: int, whole: int): real
    requires whole > 0
  {
    part as real / whole as real * 100.0
  }

  /** `Math.round(part / whole * 100)`: for `0 <= part <= whole` a whole percentage in
      [0, 100]: 0 when nothing was scored and 100 when everything was. */
  function RoundedPercent(part: nat, whole: nat): (p: int)
    requires whole > 0 && part <= whole
    ensures 0 <= p <= 100
    ensures part == 0 ==> p == 0
    ensures part == whole ==> p == 100
  {
    PercentBounds(part, whole);
    Round(Percent(part, whole))
  }

  lemma PercentBounds(part: nat, whole: nat)
    requires whole > 0 && part <= whole
    ensures 0.0 <= Percent(part, whole) <= 100.0
    ensures Round(Percent(part, whole)) <= 100
    ensures part == 0 ==> Round(Percent(part, whole)) == 0
    ensures part == whole ==> Round(Percent(part, whole)) == 100
  {
    var p, w := part as real, whole as real;
    DivideMonotone(0.0, p, w);
    DivideMonotone(p, w, w);
    assert w / w == 1.0;
    assert 0.0 <= p / w <= 1.0;
    RoundMonotone(Percent(part, whole), 100.0);
    RoundOfInt(100);
    if part == whole {
      assert Percent(part, whole) == 100.0;
    }
  }

  /** Dividing by a positive number keeps the order. */
  lemma DivideMonotone(a: real, b: real, w: real)
    requires a <= b && w > 0.0
    ensures a / w <= b / w
  {
    assert b / w - a / w == (b - a) / w;
  }

  /** A total of at most `n` times `m` has a mean of at most `m`. */
  lemma MeanAtMost(s: real, n: nat, m: real)
    requires n > 0 && s <= n as real * m
    ensures s / n as real <= m
  {
    assert s / n as real * n as real == s;
  }

  /** A mean of a total of at least 0 is at least 0. */
  lemma MeanAtLeastZero(s: real, n: nat)
    requires n > 0 && s >= 0.0
    ensures s / n as real >= 0.0
  {
    DivideMonotone(0.0, s, n as real);
  }

  /** A higher score never gets a lower rounded percentage. */
  lemma RoundedPercentMonotone(a: nat, b: nat, whole: nat)
    requires whole > 0 && a <= b <= whole
    ensures RoundedPercent(a, whole) <= RoundedPercent(b, whole)
  {
    var w := whole as real;
    assert (b as real - a as real) / w >= 0.0;
    assert (b as real - a as real) / w == b as real / w - a as real / w;
    RoundMonotone(Percent(a, whole), Percent(b, whole));
  }

  /** The colour a score is shown in. */
  datatype Band = Success | Warning | Destructive

  /** Success from 70, warning from 40, destructive below. */
  function BandOf(p: real): (b: Band)
    ensures b == Success <==> p >= 70.0
    ensures b == Warning <==> 40.0 <= p < 70.0
    ensures b == Destructive <==> p < 40.0
  {
    if p >= 70.0 then Success else if p >= 40.0 then Warning else Destructive
  }

  /** Bands ordered from worst to best. */
  function BandRank(b: Band): nat
  {
    match b
    case Destructive => 0
    case Warning => 1
    case Success => 2
  }

  /** A higher score never lands in a worse band. */
  lemma BandMonotone(p: real, q: real)
    requires p <= q
    ensures BandRank(BandOf(p)) <= BandRank(BandOf(q))
  {
  }

  // ---------------------------------------------------------------- JavaScript numbers

  /** A JavaScript number as a score computation can produce one: a finite value, `NaN`
      (`0 / 0`) or `Infinity` (a positive count divided by 0). Counts are never negative,
      so `-Infinity` does not arise. */
  datatype JsNum = Finite(v: real) | NaN | Infinity

  /** `part / whole * 100` on JavaScript numbers: finite exactly when there is a whole,
      `NaN` exactly for `0 / 0`, `Infinity` for anything else over 0. */
  function JsPercent(part: nat, whole: nat): (r: JsNum)
    ensures r.Finite? <==> whole > 0
    ensures r.Finite? ==> r.v == Percent(part, whole)
    ensures r == NaN <==> whole == 0 && part == 0
    ensures r == Infinity <==> whole == 0 && part > 0
  {
    if whole > 0 then Finite(Percent(part, whole)) else if part == 0 then NaN else Infinity
  }

  /** `a + b`: `NaN` when either is, else `Infinity` when either is. */
  function JsAdd(a: JsNum, b: JsNum): JsNum
  {
    if a == NaN || b == NaN then NaN
    else if a == Infinity || b == Infinity then Infinity
    else Finite(a.v + b.v)
  }

  /** `Math.max(a, b)`: `NaN` when either is, else the larger. */
  function JsMax(a: JsNum, b: JsNum): JsNum
  {
    if a == NaN || b == NaN then NaN
    else if a == Infinity || b == Infinity then Infinity
    else Finite(if a.v >= b.v then a.v else b.v)
  }

  /** `a / n` for a positive count `n`. */
  function JsDivide(a: JsNum, n: nat): JsNum
    requires n > 0
  {
    if a.Finite? then Finite(a.v / n as real) else a
  }

  /** `Math.round(a)`: the nearest integer of a finite value; `NaN` and `Infinity` stay. */
  function JsRound(a: JsNum): (r: JsNum)
    ensures a.Finite? <==> r.Finite?
    ensures a.Finite? ==> r.v == Round(a.v) as real
    ensures !a.Finite? ==> r == a
  {
    if a.Finite? then Finite(Round(a.v) as real) else a
  }

  /** `a >= t`: never for `NaN`, always for `Infinity`. */
  predicate JsAtLeast(a: JsNum, t: real)
  {
    match a
    case Finite(v) => v >= t
    case NaN => false
    case Infinity => true
  }

  /** `pct >= 70 ? success : pct >= 40 ? warning : destructive`: the band of a finite
      value, destructive for `NaN` (both comparisons fail), success for `Infinity`. */
  function JsBandOf(a: JsNum): (b: Band)
    ensures a.Finite? ==> b == BandOf(a.v)
    ensures a == NaN ==> b == Destructive
    ensures a == Infinity ==> b == Success
  {
    if JsAtLeast(a, 70.0) then Success else if JsAtLeast(a, 40.0) then Warning else Destructive
  }
}
