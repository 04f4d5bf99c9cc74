/** Calibration tables (simulator/src/calibration.cpp): clamped linear and bilinear lookup. */
module Calibration {
  import opened Arithmetic

  datatype Interval = Interval(lower: nat, upper: nat, fraction: real)

  predicate StrictlyIncreasing(axis: seq<real>) {
    forall i, j :: 0 <= i < j < |axis| ==> axis[i] < axis[j]
  }

  /** What the axis constructor accepts, texts aside. */
  predicate ValidAxis(axis: seq<real>) {
    |axis| >= 2 && StrictlyIncreasing(axis)
  }

  datatype Table1D = Table1D(axis: seq<real>, values: seq<real>)

  datatype Table2D = Table2D(rows: seq<real>, columns: seq<real>, values: seq<real>)

  predicate Valid1D(t: Table1D) {
    ValidAxis(t.axis) && |t.values| == |t.axis|
  }

  predicate Valid2D(t: Table2D) {
    ValidAxis(t.rows) && ValidAxis(t.columns) && |t.values| == |t.rows| * |t.columns|
  }

  /** `std::upper_bound` on a sorted axis: how many leading breakpoints are at or below `x`. */
  function UpperBound(axis: seq<real>, x: real): (n: nat)
    ensures n <= |axis|
    ensures n > 0 ==> axis[n - 1] <= x
  {
    if axis == [] || axis[|axis| - 1] <= x then |axis| else UpperBound(axis[..|axis| - 1], x)
  }

  lemma {:induction false} UpperBoundSplits(axis: seq<real>, x: real)
    requires StrictlyIncreasing(axis)
    ensures forall i :: UpperBound(axis, x) <= i < |axis| ==> x < axis[i]
    ensures forall i :: 0 <= i < UpperBound(axis, x) ==> axis[i] <= x
  {
    if axis != [] && x < axis[|axis| - 1] {
      UpperBoundSplits(axis[..|axis| - 1], x);
    }
  }

  function IntervalFor(axis: seq<real>, x: real): Interval
    requires ValidAxis(axis)
  {
    if x <= axis[0] then Interval(0, 0, 0.0)
    else if x >= axis[|axis| - 1] then Interval(|axis| - 1, |axis| - 1, 0.0)
    else
      UpperBoundSplits(axis, x);
      var upper := UpperBound(axis, x);
      var lower := upper - 1;
      Interval(lower, upper, (x - axis[lower]) / (axis[upper] - axis[lower]))
  }

  function Interpolate(lower: real, upper: real, fraction: real): real {
    lower + (upper - lower) * fraction
  }

  /** The interval is the cell that holds the coordinate, or an end of the axis. */
  lemma {:induction false} IntervalHolds(axis: seq<real>, x: real)
    requires ValidAxis(axis)
    ensures var i := IntervalFor(axis, x);
            && i.lower <= i.upper < |axis| && 0.0 <= i.fraction < 1.0
            && (i.lower == i.upper <==> x <= axis[0] || axis[|axis| - 1] <= x)
            && (i.lower == i.upper ==> i.fraction == 0.0 && (i.lower == 0 || i.lower == |axis| - 1))
            && (i.lower < i.upper ==> i.upper == i.lower + 1 && axis[i.lower] <= x < axis[i.upper])
  {
    UpperBoundSplits(axis, x);
    if axis[0] < x < axis[|axis| - 1] {
      var u := UpperBound(axis, x);
      ProperFraction(x - axis[u - 1], axis[u] - axis[u - 1]);
    }
  }

  lemma {:induction false} ProperFraction(part: real, whole: real)
    requires 0.0 <= part < whole
    ensures 0.0 <= part / whole < 1.0
  {
    var f := part / whole;
    assert f * whole == part;
    if f >= 1.0 {
      PartOf(whole, f);
    }
    if f < 0.0 {
      NegativeProduct(whole, f);
    }
  }

  lemma {:induction false} NegativeProduct(whole: real, f: real)
    requires whole > 0.0 && f < 0.0
    ensures f * whole < 0.0
  {
  }

  lemma {:induction false} PartOf(whole: real, f: real)
    requires whole >= 0.0
    ensures f >= 0.0 ==> whole * f >= 0.0
    ensures f >= 1.0 ==> f * whole >= whole
    ensures 0.0 <= f <= 1.0 ==> whole * f <= whole
  {
    if f >= 1.0 {
      assert (f - 1.0) * whole >= 0.0;
    }
    if 0.0 <= f <= 1.0 {
      assert (1.0 - f) * whole >= 0.0;
    }
  }

  /** In a cell, the fraction is the position of the coordinate between the two breakpoints. */
  lemma {:induction false} CellFraction(axis: seq<real>, k: nat, x: real)
    requires ValidAxis(axis) && k + 1 < |axis| && axis[k] <= x < axis[k + 1]
    ensures IntervalFor(axis, x).lower == k
    ensures x > axis[0] ==> IntervalFor(axis, x) == Interval(k, k + 1, (x - axis[k]) / (axis[k + 1] - axis[k]))
    ensures x == axis[0] ==> k == 0
  {
    UpperBoundSplits(axis, x);
    if x > axis[0] {
      var u := UpperBound(axis, x);
      assert !(u <= k) && !(k + 1 < u);
    }
  }

  function Lookup1D(t: Table1D, x: real): real
    requires Valid1D(t)
  {
    IntervalHolds(t.axis, x);
    var i := IntervalFor(t.axis, x);
    Interpolate(t.values[i.lower], t.values[i.upper], i.fraction)
  }

  // ---- one dimension ----

  /** The straight line of cell `k`. */
  function Line(t: Table1D, k: nat, x: real): real
    requires Valid1D(t) && k + 1 < |t.axis|
  {
    t.values[k] + (t.values[k + 1] - t.values[k]) * ((x - t.axis[k]) / (t.axis[k + 1] - t.axis[k]))
  }

  lemma {:induction false} LineEnds(t: Table1D, k: nat)
    requires Valid1D(t) && k + 1 < |t.axis|
    ensures Line(t, k, t.axis[k]) == t.values[k] && Line(t, k, t.axis[k + 1]) == t.values[k + 1]
  {
  }

  /** Breakpoints are hit exactly and the table is constant beyond its ends. */
  lemma {:induction false} GridIsExact(t: Table1D, k: nat)
    requires Valid1D(t) && k < |t.axis|
    ensures Lookup1D(t, t.axis[k]) == t.values[k]
  {
    hide StrictlyIncreasing, IntervalFor, Interpolate;
    StartOf(t.values[k]);
    if 0 < k < |t.axis| - 1 {
      NextIsGreater(t.axis, k);
      CellFraction(t.axis, k, t.axis[k]);
      NothingOf(t.axis[k + 1] - t.axis[k]);
      StartOfCell(t.values[k], t.values[k + 1]);
    } else {
      EndIntervals(t.axis);
    }
  }

  lemma {:induction false} NextIsGreater(axis: seq<real>, k: nat)
    requires ValidAxis(axis) && k + 1 < |axis|
    ensures axis[k] < axis[k + 1] && (k > 0 ==> axis[0] < axis[k])
  {
  }

  lemma {:induction false} EndIntervals(axis: seq<real>)
    requires ValidAxis(axis)
    ensures IntervalFor(axis, axis[0]) == Interval(0, 0, 0.0)
    ensures IntervalFor(axis, axis[|axis| - 1]) == Interval(|axis| - 1, |axis| - 1, 0.0)
  {
  }

  lemma {:induction false} NothingOf(w: real)
    requires w > 0.0
    ensures 0.0 / w == 0.0
  {
  }

  lemma {:induction false} StartOf(a: real)
    ensures Interpolate(a, a, 0.0) == a
  {
  }

  lemma {:induction false} StartOfCell(a: real, b: real)
    ensures Interpolate(a, b, 0.0) == a
  {
  }

  lemma {:induction false} BeyondTheEnds(t: Table1D, x: real)
    requires Valid1D(t)
    ensures x <= t.axis[0] ==> Lookup1D(t, x) == t.values[0]
    ensures x >= t.axis[|t.axis| - 1] ==> Lookup1D(t, x) == t.values[|t.axis| - 1]
  {
  }

  /** On each closed cell the lookup is the line of that cell, so neighbouring cells agree on the
      breakpoint they share. */
  lemma {:induction false} LookupIsLine(t: Table1D, k: nat, x: real)
    requires Valid1D(t) && k + 1 < |t.axis| && t.axis[k] <= x <= t.axis[k + 1]
    ensures Lookup1D(t, x) == Line(t, k, x)
  {
    LineEnds(t, k);
    if x == t.axis[k] {
      GridIsExact(t, k);
    } else if x == t.axis[k + 1] {
      GridIsExact(t, k + 1);
    } else {
      CellFraction(t.axis, k, x);
    }
  }

  function Min(a: real, b: real): real {
    if a <= b then a else b
  }

  function Max(a: real, b: real): real {
    if a >= b then a else b
  }

  lemma {:induction false} Between(a: real, b: real, f: real)
    requires 0.0 <= f <= 1.0
    ensures Min(a, b) <= Interpolate(a, b, f) <= Max(a, b)
  {
    if a <= b {
      BetweenAscending(a, b, f);
    } else {
      BetweenAscending(b, a, 1.0 - f);
      Mirrored(a, b, f);
    }
  }

  lemma {:induction false} Mirrored(a: real, b: real, f: real)
    ensures Interpolate(b, a, 1.0 - f) == Interpolate(a, b, f)
  {
  }

  lemma {:induction false} BetweenAscending(a: real, b: real, f: real)
    requires a <= b && 0.0 <= f <= 1.0
    ensures a <= Interpolate(a, b, f) <= b
  {
    var d := b - a;
    PartOf(d, f);
    var part := d * f;
    assert 0.0 <= part <= d;
    assert a + (b - a) * f == a + part;
  }

  /** A lookup lies between the two values of its cell. */
  lemma {:induction false} LookupIsBetween(t: Table1D, x: real)
    requires Valid1D(t)
    ensures var i := IntervalFor(t.axis, x);
            && i.lower < |t.values| && i.upper < |t.values|
            && Min(t.values[i.lower], t.values[i.upper]) <= Lookup1D(t, x) <= Max(t.values[i.lower], t.values[i.upper])
  {
    IntervalHolds(t.axis, x);
    var i := IntervalFor(t.axis, x);
    Between(t.values[i.lower], t.values[i.upper], i.fraction);
  }

  predicate AllWithin(values: seq<real>, low: real, high: real) {
    forall i :: 0 <= i < |values| ==> low <= values[i] <= high
  }

  lemma {:induction false} LookupStaysWithin(t: Table1D, x: real, low: real, high: real)
    requires Valid1D(t) && AllWithin(t.values, low, high)
    ensures low <= Lookup1D(t, x) <= high
  {
    LookupIsBetween(t, x);
  }

  /** A number strictly inside the axis lies in some cell. */
  lemma {:induction false} CellOf(axis: seq<real>, x: real) returns (k: nat)
    requires ValidAxis(axis) && axis[0] <= x <= axis[|axis| - 1]
    ensures k + 1 < |axis| && axis[k] <= x <= axis[k + 1]
    ensures x < axis[|axis| - 1] ==> x < axis[k + 1]
  {
    UpperBoundSplits(axis, x);
    if x == axis[|axis| - 1] {
      k := |axis| - 2;
    } else {
      k := UpperBound(axis, x) - 1;
    }
  }

  predicate Nondecreasing(values: seq<real>) {
    forall i, j :: 0 <= i <= j < |values| ==> values[i] <= values[j]
  }

  lemma {:induction false} LineIsMonotone(t: Table1D, k: nat, x: real, y: real)
    requires Valid1D(t) && k + 1 < |t.axis| && t.values[k] <= t.values[k + 1] && x <= y
    ensures Line(t, k, x) <= Line(t, k, y)
  {
    var w := t.axis[k + 1] - t.axis[k];
    var rise := t.values[k + 1] - t.values[k];
    assert (x - t.axis[k]) / w <= (y - t.axis[k]) / w;
    assert rise * ((x - t.axis[k]) / w) <= rise * ((y - t.axis[k]) / w);
  }

  lemma {:induction false} MonotoneInside(t: Table1D, x: real, y: real)
    requires Valid1D(t) && Nondecreasing(t.values) && t.axis[0] <= x <= y <= t.axis[|t.axis| - 1]
    ensures Lookup1D(t, x) <= Lookup1D(t, y)
  {
    hide Lookup1D, Line;
    var i := CellOf(t.axis, x);
    var j := CellOf(t.axis, y);
    LookupIsLine(t, i, x);
    LookupIsLine(t, j, y);
    if x == t.axis[|t.axis| - 1] {
    } else if y <= t.axis[i + 1] {
      LookupIsLine(t, i, y);
      LineIsMonotone(t, i, x, y);
    } else {
      assert i < j;
      LineIsMonotone(t, i, x, t.axis[i + 1]);
      LineEnds(t, i);
      LineIsMonotone(t, j, t.axis[j], y);
      LineEnds(t, j);
    }
  }

  function Clamp(x: real, low: real, high: real): real {
    Min(Max(x, low), high)
  }

  /** Clamping the coordinate to the axis changes nothing. */
  lemma {:induction false} LookupClamps(t: Table1D, x: real)
    requires Valid1D(t)
    ensures t.axis[0] <= Clamp(x, t.axis[0], t.axis[|t.axis| - 1]) <= t.axis[|t.axis| - 1]
    ensures Lookup1D(t, x) == Lookup1D(t, Clamp(x, t.axis[0], t.axis[|t.axis| - 1]))
  {
  }

  /** A table whose values never fall never falls. */
  lemma {:induction false} LookupIsMonotone(t: Table1D, x: real, y: real)
    requires Valid1D(t) && Nondecreasing(t.values) && x <= y
    ensures Lookup1D(t, x) <= Lookup1D(t, y)
  {
    hide Lookup1D;
    LookupClamps(t, x);
    LookupClamps(t, y);
    MonotoneInside(t, Clamp(x, t.axis[0], t.axis[|t.axis| - 1]), Clamp(y, t.axis[0], t.axis[|t.axis| - 1]));
  }

  function Abs(x: real): real {
    if x < 0.0 then -x else x
  }

  /** `slope` bounds the steepness of every cell. */
  predicate AtMostSteep(t: Table1D, slope: real)
    requires Valid1D(t)
  {
    forall k :: 0 <= k < |t.axis| - 1 ==> Abs(t.values[k + 1] - t.values[k]) <= slope * (t.axis[k + 1] - t.axis[k])
  }

  lemma {:induction false} LineIsLipschitz(t: Table1D, k: nat, x: real, y: real, slope: real)
    requires Valid1D(t) && k + 1 < |t.axis| && x <= y && AtMostSteep(t, slope)
    ensures Abs(Line(t, k, y) - Line(t, k, x)) <= slope * (y - x)
  {
    var w := t.axis[k + 1] - t.axis[k];
    var rise := t.values[k + 1] - t.values[k];
    var f := (y - x) / w;
    assert (y - t.axis[k]) / w - (x - t.axis[k]) / w == f;
    assert Line(t, k, y) - Line(t, k, x) == rise * f;
    ScaledBound(rise, slope * w, f);
    assert slope * w * f == slope * (y - x);
  }

  lemma {:induction false} ScaledBound(rise: real, bound: real, f: real)
    requires Abs(rise) <= bound && f >= 0.0
    ensures Abs(rise * f) <= bound * f
  {
    assert -bound <= rise <= bound;
    assert rise * f <= bound * f;
    assert (bound + rise) * f >= 0.0;
    assert -bound * f <= rise * f;
  }

  lemma {:induction false} GridIsLipschitz(t: Table1D, i: nat, j: nat, slope: real)
    requires Valid1D(t) && i <= j < |t.axis| && AtMostSteep(t, slope)
    ensures Abs(t.values[j] - t.values[i]) <= slope * (t.axis[j] - t.axis[i])
  {
    if i < j {
      GridIsLipschitz(t, i, j - 1, slope);
      assert slope * (t.axis[j] - t.axis[i]) ==
             slope * (t.axis[j] - t.axis[j - 1]) + slope * (t.axis[j - 1] - t.axis[i]);
    }
  }

  lemma {:induction false} LipschitzInside(t: Table1D, x: real, y: real, slope: real)
    requires Valid1D(t) && AtMostSteep(t, slope) && t.axis[0] <= x <= y <= t.axis[|t.axis| - 1]
    ensures Abs(Lookup1D(t, y) - Lookup1D(t, x)) <= slope * (y - x)
  {
    hide Lookup1D, Line, AtMostSteep, StrictlyIncreasing;
    var i := CellOf(t.axis, x);
    var j := CellOf(t.axis, y);
    LookupIsLine(t, i, x);
    LookupIsLine(t, j, y);
    if y <= t.axis[i + 1] {
      LookupIsLine(t, i, y);
      LineIsLipschitz(t, i, x, y, slope);
    } else {
      LaterCell(t.axis, i, j, y);
      LipschitzAcross(t, i, j, x, y, slope);
    }
  }

  lemma {:induction false} LaterCell(axis: seq<real>, i: nat, j: nat, y: real)
    requires ValidAxis(axis) && i + 1 < |axis| && j + 1 < |axis| && axis[i + 1] < y <= axis[j + 1]
    ensures i < j
  {
  }

  lemma {:induction false} LipschitzAcross(t: Table1D, i: nat, j: nat, x: real, y: real, slope: real)
    requires Valid1D(t) && AtMostSteep(t, slope) && i < j && j + 1 < |t.axis|
    requires x <= t.axis[i + 1] && t.axis[j] <= y
    ensures Abs(Line(t, j, y) - Line(t, i, x)) <= slope * (y - x)
  {
    hide Line, AtMostSteep, StrictlyIncreasing, Abs;
    LineIsLipschitz(t, i, x, t.axis[i + 1], slope);
    LineEnds(t, i);
    GridIsLipschitz(t, i + 1, j, slope);
    LineIsLipschitz(t, j, t.axis[j], y, slope);
    LineEnds(t, j);
    var p, q := slope * (t.axis[i + 1] - x), slope * (t.axis[j] - t.axis[i + 1]);
    var r := slope * (y - t.axis[j]);
    Telescope(slope, x, t.axis[i + 1], t.axis[j], y);
    Triangle(Line(t, i, x), t.values[i + 1], t.values[j], Line(t, j, y), p, q, r);
  }

  lemma {:induction false} Triangle(a: real, b: real, c: real, d: real, p: real, q: real, r: real)
    requires Abs(b - a) <= p && Abs(c - b) <= q && Abs(d - c) <= r
    ensures Abs(d - a) <= p + q + r
  {
  }

  lemma {:induction false} Telescope(s: real, a: real, b: real, c: real, d: real)
    ensures s * (b - a) + s * (c - b) + s * (d - c) == s * (d - a)
  {
  }

  /** The lookup is continuous: it never moves faster than the steepest cell, across breakpoints and
      beyond the ends too. */
  lemma {:induction false} LookupIsContinuous(t: Table1D, x: real, y: real, slope: real)
    requires Valid1D(t) && AtMostSteep(t, slope) && x <= y && slope >= 0.0
    ensures Abs(Lookup1D(t, y) - Lookup1D(t, x)) <= slope * (y - x)
  {
    hide Lookup1D, AtMostSteep;
    var low, high := t.axis[0], t.axis[|t.axis| - 1];
    LookupClamps(t, x);
    LookupClamps(t, y);
    LipschitzInside(t, Clamp(x, low, high), Clamp(y, low, high), slope);
    assert Clamp(y, low, high) - Clamp(x, low, high) <= y - x;
    assert slope * (Clamp(y, low, high) - Clamp(x, low, high)) <= slope * (y - x);
  }

  // ---- two dimensions ----

  lemma {:induction false} IndexInTable(t: Table2D, i: nat, j: nat)
    requires Valid2D(t) && i < |t.rows| && j < |t.columns|
    ensures 0 <= i * |t.columns| + j < |t.values|
  {
    RowEnds(i, |t.rows|, |t.columns|);
  }

  lemma {:induction false} RowEnds(i: nat, rows: nat, width: nat)
    requires i < rows
    ensures 0 <= i * width && i * width + width <= rows * width
  {
    MulKeepsOrder(i + 1, rows, width);
    assert (i + 1) * width == i * width + width;
  }

  function At(t: Table2D, i: nat, j: nat): real
    requires Valid2D(t) && i < |t.rows| && j < |t.columns|
  {
    IndexInTable(t, i, j);
    t.values[i * |t.columns| + j]
  }

  function Lookup2D(t: Table2D, r: real, c: real): real
    requires Valid2D(t)
  {
    IntervalHolds(t.rows, r);
    IntervalHolds(t.columns, c);
    var row := IntervalFor(t.rows, r);
    var column := IntervalFor(t.columns, c);
    var lowerRow := Interpolate(At(t, row.lower, column.lower), At(t, row.lower, column.upper), column.fraction);
    var upperRow := Interpolate(At(t, row.upper, column.lower), At(t, row.upper, column.upper), column.fraction);
    Interpolate(lowerRow, upperRow, row.fraction)
  }

  function RowTable(t: Table2D, i: nat): (r: Table1D)
    requires Valid2D(t) && i < |t.rows|
    ensures Valid1D(r) && r.axis == t.columns
    ensures forall j :: 0 <= j < |t.columns| ==> r.values[j] == At(t, i, j)
  {
    Table1D(t.columns, seq(|t.columns|, j requires 0 <= j < |t.columns| => At(t, i, j)))
  }

  function ColumnTable(t: Table2D, j: nat): (r: Table1D)
    requires Valid2D(t) && j < |t.columns|
    ensures Valid1D(r) && r.axis == t.rows
    ensures forall i :: 0 <= i < |t.rows| ==> r.values[i] == At(t, i, j)
  {
    Table1D(t.rows, seq(|t.rows|, i requires 0 <= i < |t.rows| => At(t, i, j)))
  }

  /** Every row looked up at column coordinate `c`. */
  function AcrossRows(t: Table2D, c: real): (r: Table1D)
    requires Valid2D(t)
    ensures Valid1D(r) && r.axis == t.rows
    ensures forall i :: 0 <= i < |t.rows| ==> r.values[i] == Lookup1D(RowTable(t, i), c)
  {
    Table1D(t.rows, seq(|t.rows|, i requires 0 <= i < |t.rows| => Lookup1D(RowTable(t, i), c)))
  }

  /** Every column looked up at row coordinate `r`. */
  function AcrossColumns(t: Table2D, r: real): (c: Table1D)
    requires Valid2D(t)
    ensures Valid1D(c) && c.axis == t.columns
    ensures forall j :: 0 <= j < |t.columns| ==> c.values[j] == Lookup1D(ColumnTable(t, j), r)
  {
    Table1D(t.columns, seq(|t.columns|, j requires 0 <= j < |t.columns| => Lookup1D(ColumnTable(t, j), r)))
  }

  /** Bilinear lookup is two nested linear lookups, columns inside rows. */
  lemma {:induction false} RowFirst(t: Table2D, r: real, c: real)
    requires Valid2D(t)
    ensures Lookup2D(t, r, c) == Lookup1D(AcrossRows(t, c), r)
  {
    hide IntervalFor, At;
    IntervalHolds(t.rows, r);
    IntervalHolds(t.columns, c);
  }

  lemma {:induction false} Bilinear(a: real, b: real, c: real, d: real, f: real, g: real)
    ensures Interpolate(Interpolate(a, b, f), Interpolate(c, d, f), g) ==
            Interpolate(Interpolate(a, c, g), Interpolate(b, d, g), f)
  {
  }

  /** The order of the two interpolations does not matter. */
  lemma {:induction false} ColumnFirst(t: Table2D, r: real, c: real)
    requires Valid2D(t)
    ensures Lookup2D(t, r, c) == Lookup1D(AcrossColumns(t, r), c)
  {
    hide IntervalFor, At, Interpolate;
    IntervalHolds(t.rows, r);
    IntervalHolds(t.columns, c);
    var row := IntervalFor(t.rows, r);
    var column := IntervalFor(t.columns, c);
    Bilinear(At(t, row.lower, column.lower), At(t, row.lower, column.upper),
             At(t, row.upper, column.lower), At(t, row.upper, column.upper), column.fraction, row.fraction);
  }

  lemma {:induction false} Grid2DIsExact(t: Table2D, i: nat, j: nat)
    requires Valid2D(t) && i < |t.rows| && j < |t.columns|
    ensures Lookup2D(t, t.rows[i], t.columns[j]) == At(t, i, j)
  {
    hide Lookup1D, Lookup2D, At;
    RowFirst(t, t.rows[i], t.columns[j]);
    GridIsExact(AcrossRows(t, t.columns[j]), i);
    GridIsExact(RowTable(t, i), j);
  }

  /** A bilinear lookup lies between the least and the greatest corner of the cell around the
      coordinates. */
  lemma {:induction false} Lookup2DIsInCell(t: Table2D, r: real, c: real)
    requires Valid2D(t)
    ensures var row, column := IntervalFor(t.rows, r), IntervalFor(t.columns, c);
            && row.lower < |t.rows| && row.upper < |t.rows| && column.lower < |t.columns| && column.upper < |t.columns|
            && var a, b := At(t, row.lower, column.lower), At(t, row.lower, column.upper);
               var d, e := At(t, row.upper, column.lower), At(t, row.upper, column.upper);
               Min(Min(a, b), Min(d, e)) <= Lookup2D(t, r, c) <= Max(Max(a, b), Max(d, e))
  {
    hide IntervalFor, At, Interpolate;
    IntervalHolds(t.rows, r);
    IntervalHolds(t.columns, c);
    var row, column := IntervalFor(t.rows, r), IntervalFor(t.columns, c);
    var a, b := At(t, row.lower, column.lower), At(t, row.lower, column.upper);
    var d, e := At(t, row.upper, column.lower), At(t, row.upper, column.upper);
    Between(a, b, column.fraction);
    Between(d, e, column.fraction);
    Between(Interpolate(a, b, column.fraction), Interpolate(d, e, column.fraction), row.fraction);
  }

  lemma {:induction false} Lookup2DStaysWithin(t: Table2D, r: real, c: real, low: real, high: real)
    requires Valid2D(t) && AllWithin(t.values, low, high)
    ensures low <= Lookup2D(t, r, c) <= high
  {
    hide IntervalFor, Lookup2D, At;
    Lookup2DIsInCell(t, r, c);
    var row, column := IntervalFor(t.rows, r), IntervalFor(t.columns, c);
    AtStaysWithin(t, row.lower, column.lower, low, high);
    AtStaysWithin(t, row.lower, column.upper, low, high);
    AtStaysWithin(t, row.upper, column.lower, low, high);
    AtStaysWithin(t, row.upper, column.upper, low, high);
  }

  lemma {:induction false} AtStaysWithin(t: Table2D, i: nat, j: nat, low: real, high: real)
    requires Valid2D(t) && AllWithin(t.values, low, high) && i < |t.rows| && j < |t.columns|
    ensures low <= At(t, i, j) <= high
  {
    IndexInTable(t, i, j);
  }

  /** Tables over one axis that differ by `low` to `high` everywhere on the grid differ by `low` to
      `high` everywhere. */
  lemma {:induction false} LookupsStayClose(s: Table1D, t: Table1D, x: real, low: real, high: real)
    requires Valid1D(s) && Valid1D(t) && s.axis == t.axis
    requires forall i :: 0 <= i < |s.axis| ==> low <= t.values[i] - s.values[i] <= high
    ensures low <= Lookup1D(t, x) - Lookup1D(s, x) <= high
  {
    hide IntervalFor, Interpolate, StrictlyIncreasing;
    IntervalHolds(s.axis, x);
    var i := IntervalFor(s.axis, x);
    var p, q := t.values[i.lower] - s.values[i.lower], t.values[i.upper] - s.values[i.upper];
    Between(p, q, i.fraction);
    Differences(s.values[i.lower], s.values[i.upper], t.values[i.lower], t.values[i.upper], i.fraction);
  }

  lemma {:induction false} Differences(a: real, b: real, c: real, d: real, f: real)
    ensures Interpolate(c, d, f) - Interpolate(a, b, f) == Interpolate(c - a, d - b, f)
  {
  }

  /** If no column ever falls, the lookup never falls in the row coordinate. */
  lemma {:induction false} Lookup2DIsMonotoneInRows(t: Table2D, r: real, s: real, c: real)
    requires Valid2D(t) && r <= s
    requires forall j :: 0 <= j < |t.columns| ==> Nondecreasing(ColumnTable(t, j).values)
    ensures Lookup2D(t, r, c) <= Lookup2D(t, s, c)
  {
    hide Lookup1D, Lookup2D, At;
    ColumnFirst(t, r, c);
    ColumnFirst(t, s, c);
    forall j | 0 <= j < |t.columns|
      ensures 0.0 <= AcrossColumns(t, s).values[j] - AcrossColumns(t, r).values[j]
    {
      LookupIsMonotone(ColumnTable(t, j), r, s);
    }
    LookupsStayOrdered(AcrossColumns(t, r), AcrossColumns(t, s), c);
  }

  lemma {:induction false} LookupsStayOrdered(s: Table1D, t: Table1D, x: real)
    requires Valid1D(s) && Valid1D(t) && s.axis == t.axis
    requires forall i :: 0 <= i < |s.axis| ==> 0.0 <= t.values[i] - s.values[i]
    ensures Lookup1D(s, x) <= Lookup1D(t, x)
  {
    hide IntervalFor, Interpolate, StrictlyIncreasing;
    IntervalHolds(s.axis, x);
    var i := IntervalFor(s.axis, x);
    var p, q := t.values[i.lower] - s.values[i.lower], t.values[i.upper] - s.values[i.upper];
    Between(p, q, i.fraction);
    Differences(s.values[i.lower], s.values[i.upper], t.values[i.lower], t.values[i.upper], i.fraction);
  }

  /** If no row ever falls, the lookup never falls in the column coordinate. */
  lemma {:induction false} Lookup2DIsMonotoneInColumns(t: Table2D, r: real, c: real, d: real)
    requires Valid2D(t) && c <= d
    requires forall i :: 0 <= i < |t.rows| ==> Nondecreasing(RowTable(t, i).values)
    ensures Lookup2D(t, r, c) <= Lookup2D(t, r, d)
  {
    hide Lookup1D, Lookup2D, At;
    RowFirst(t, r, c);
    RowFirst(t, r, d);
    forall i | 0 <= i < |t.rows|
      ensures 0.0 <= AcrossRows(t, d).values[i] - AcrossRows(t, c).values[i]
    {
      LookupIsMonotone(RowTable(t, i), c, d);
    }
    LookupsStayOrdered(AcrossRows(t, c), AcrossRows(t, d), r);
  }

  /** Of two tables over the same axes, one nowhere below the other on the grid is nowhere below it. */
  lemma {:induction false} Lookup2DKeepsOrder(s: Table2D, t: Table2D, r: real, c: real)
    requires Valid2D(s) && Valid2D(t) && s.rows == t.rows && s.columns == t.columns
    requires forall i :: 0 <= i < |s.values| ==> s.values[i] <= t.values[i]
    ensures Lookup2D(s, r, c) <= Lookup2D(t, r, c)
  {
    hide Lookup1D, Lookup2D;
    RowFirst(s, r, c);
    RowFirst(t, r, c);
    forall i | 0 <= i < |s.rows|
      ensures 0.0 <= AcrossRows(t, c).values[i] - AcrossRows(s, c).values[i]
    {
      RowsKeepOrder(s, t, i);
      LookupsStayOrdered(RowTable(s, i), RowTable(t, i), c);
    }
    LookupsStayOrdered(AcrossRows(s, c), AcrossRows(t, c), r);
  }

  lemma {:induction false} RowsKeepOrder(s: Table2D, t: Table2D, i: nat)
    requires Valid2D(s) && Valid2D(t) && s.rows == t.rows && s.columns == t.columns && i < |s.rows|
    requires forall k :: 0 <= k < |s.values| ==> s.values[k] <= t.values[k]
    ensures forall j :: 0 <= j < |s.columns| ==> 0.0 <= RowTable(t, i).values[j] - RowTable(s, i).values[j]
  {
    forall j | 0 <= j < |s.columns|
      ensures 0.0 <= RowTable(t, i).values[j] - RowTable(s, i).values[j]
    {
      IndexInTable(s, i, j);
    }
  }

  lemma {:induction false} MovesAlongRows(t: Table2D, r: real, s: real, c: real, slope: real)
    requires Valid2D(t) && slope >= 0.0
    requires forall j :: 0 <= j < |t.columns| ==> AtMostSteep(ColumnTable(t, j), slope)
    ensures Abs(Lookup2D(t, s, c) - Lookup2D(t, r, c)) <= slope * Abs(s - r)
    decreases r > s
  {
    hide Lookup1D, Lookup2D, At, AtMostSteep;
    if r > s {
      MovesAlongRows(t, s, r, c, slope);
    } else {
      ColumnFirst(t, r, c);
      ColumnFirst(t, s, c);
      var change := slope * (s - r);
      forall j | 0 <= j < |t.columns|
        ensures -change <= AcrossColumns(t, s).values[j] - AcrossColumns(t, r).values[j] <= change
      {
        LookupIsContinuous(ColumnTable(t, j), r, s, slope);
      }
      LookupsStayClose(AcrossColumns(t, r), AcrossColumns(t, s), c, -change, change);
    }
  }

  lemma {:induction false} MovesAlongColumns(t: Table2D, r: real, c: real, d: real, slope: real)
    requires Valid2D(t) && slope >= 0.0
    requires forall i :: 0 <= i < |t.rows| ==> AtMostSteep(RowTable(t, i), slope)
    ensures Abs(Lookup2D(t, r, d) - Lookup2D(t, r, c)) <= slope * Abs(d - c)
    decreases c > d
  {
    hide Lookup1D, Lookup2D, At, AtMostSteep;
    if c > d {
      MovesAlongColumns(t, r, d, c, slope);
    } else {
      RowFirst(t, r, c);
      RowFirst(t, r, d);
      var change := slope * (d - c);
      forall i | 0 <= i < |t.rows|
        ensures -change <= AcrossRows(t, d).values[i] - AcrossRows(t, c).values[i] <= change
      {
        LookupIsContinuous(RowTable(t, i), c, d, slope);
      }
      LookupsStayClose(AcrossRows(t, c), AcrossRows(t, d), r, -change, change);
    }
  }

  /** The lookup is continuous: moving both coordinates, either way, moves it no faster than the steepest
      rows and columns together. */
  lemma {:induction false} Lookup2DIsContinuous(t: Table2D, r: real, s: real, c: real, d: real, rowSlope: real,
                                                columnSlope: real)
    requires Valid2D(t) && rowSlope >= 0.0 && columnSlope >= 0.0
    requires forall j :: 0 <= j < |t.columns| ==> AtMostSteep(ColumnTable(t, j), rowSlope)
    requires forall i :: 0 <= i < |t.rows| ==> AtMostSteep(RowTable(t, i), columnSlope)
    ensures Abs(Lookup2D(t, s, d) - Lookup2D(t, r, c)) <= rowSlope * Abs(s - r) + columnSlope * Abs(d - c)
  {
    hide Lookup1D, Lookup2D, At, AtMostSteep;
    MovesAlongRows(t, r, s, c, rowSlope);
    MovesAlongColumns(t, s, c, d, columnSlope);
  }
}
