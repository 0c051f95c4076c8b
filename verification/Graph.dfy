/** The player graph: up to two curves over the same axes.  A curve added first is
    stretched when a later one needs more axes. */
module Graph {
  import opened Axes

  const MAX_DATA := 48
  const MAX_CURVES := 2

  // ---- Datasets ----------------------------------------------------------------------

  class Dataset {
    const data: array<int>
    var ndata: nat
    var min: int
    var max: int

    ghost predicate Valid()
      reads this, data
    {
      && data.Length == MAX_DATA && ndata <= MAX_DATA
      && (if ndata == 0 then min == max == 0 else min in data[..ndata] && max in data[..ndata])
      && forall i :: 0 <= i < ndata ==> min <= data[i] <= max
    }

    ghost function Values(): seq<int>
      requires Valid()
      reads this, data
    {
      data[..ndata]
    }

    constructor ()
      ensures Valid() && Values() == []
    {
      data := new int[MAX_DATA];
      ndata, min, max := 0, 0, 0;
    }

    /** The bounds stay those of the values. */
    method Append(value: int)
      requires Valid() && ndata < 48
      modifies this, data
      ensures Valid() && Values() == old(Values()) + [value]
    {
      ghost var was := data[..ndata];
      data[ndata] := value;
      if ndata == 0 {
        min := value;
        max := value;
      } else if value > max {
        max := value;
      } else if value < min {
        min := value;
      }
      ndata := ndata + 1;
      assert data[..ndata] == was + [value];
    }
  }

  // ---- Curves ------------------------------------------------------------------------

  /** A curve, with a copy of its values. */
  datatype Curve = Curve(values: seq<int>, reversed: bool, ymin: int, ymax: int,
                         paddingTop: nat, paddingBottom: nat, gap: nat)

  /** The axes are evenly spaced between themselves and the borders, all at multiples of the
      gap, every value is between the borders, and the padding is split in halves. */
  ghost predicate Fits(c: Curve, naxes: nat) {
    && c.gap > 0 && c.ymin % c.gap == 0
    && c.ymax - c.ymin == (naxes + 1) * c.gap
    && (forall i :: 0 <= i < |c.values| ==> c.ymin <= c.values[i] <= c.ymax)
    && 0 <= c.paddingTop - c.paddingBottom <= 1
  }

  /** Where the axes of a curve are: "i" is 1 for the first one above the lower border. */
  function AxeData(c: Curve, i: nat): int {
    c.ymin + i * c.gap
  }

  lemma MoreAxes(naxes: nat, more: nat, gap: nat)
    ensures (naxes + more + 1) * gap == (naxes + 1) * gap + more * gap
  {
  }

  lemma Halves(bottom: nat, top: nat, gap: nat)
    ensures (bottom + top) * gap == bottom * gap + top * gap && bottom * gap >= 0 && top * gap >= 0
  {
  }

  lemma MultipleBelow(x: int, n: nat, gap: nat)
    requires gap > 0 && x % gap == 0
    ensures (x - n * gap) % gap == 0 && (x + n * gap) % gap == 0
  {
    var q := x / gap;
    assert x - n * gap == (q - n) * gap && x + n * gap == (q + n) * gap;
    IsMultiple(q - n, gap);
    IsMultiple(q + n, gap);
  }

  lemma IsMultiple(q: int, gap: nat)
    requires gap > 0
    ensures q * gap % gap == 0
  {
    var x := q * gap;
    assert x == x / gap * gap + x % gap;
    if x % gap != 0 {
      assert (q - x / gap) * gap == x % gap;
      Between(q - x / gap, gap);
    }
  }

  lemma Between(d: int, gap: nat)
    ensures !(0 < d * gap < gap)
  {
    if d <= 0 {
      assert d * gap <= 0;
    } else {
      assert d * gap >= gap;
    }
  }

  /** Every axis is at a multiple of the gap. */
  lemma AxesAtMultiples(c: Curve, naxes: nat, i: nat)
    requires Fits(c, naxes)
    ensures AxeData(c, i) % c.gap == 0
  {
    MultipleBelow(c.ymin, i, c.gap);
  }

  method ScaleCurve(c: Curve, oldNaxes: nat, newNaxes: nat) returns (r: Curve)
    requires Fits(c, oldNaxes) && newNaxes > oldNaxes
    ensures Fits(r, newNaxes) && r.values == c.values && r.gap == c.gap && r.reversed == c.reversed
    ensures r.paddingTop + r.paddingBottom == c.paddingTop + c.paddingBottom + (newNaxes - oldNaxes)
    ensures r.ymin == c.ymin - (r.paddingBottom - c.paddingBottom) * c.gap
  {
    var half := (newNaxes - oldNaxes) / 2;
    var remainder := (newNaxes - oldNaxes) % 2;
    var top, bottom;
    if c.paddingTop == c.paddingBottom {
      top, bottom := half + remainder, half;
    } else {
      top, bottom := half, half + remainder;
    }
    r := c.(paddingTop := c.paddingTop + top, paddingBottom := c.paddingBottom + bottom,
            ymin := c.ymin - bottom * c.gap, ymax := c.ymax + top * c.gap);
    MoreAxes(oldNaxes, newNaxes - oldNaxes, c.gap);
    Halves(bottom, top, c.gap);
    MultipleBelow(c.ymin, bottom, c.gap);
  }

  method ChooseAxes(ds: Dataset) returns (gap: nat, n: nat)
    requires ds.Valid() && ds.min >= 0
    ensures gap > 0 && ds.min <= ds.max && IsBestGap(ds.max - ds.min, gap)
    ensures IsAxesNumber(ds.min, ds.max, gap, n) && MIN_NAXES <= n <= MAX_NAXES
  {
    var min, max := ds.min, ds.max;
    assert min <= max;
    gap := BestAxesGap(max - min);
    BestGapCovers(max - min, gap);
    n := NumberOfAxes(min, max, gap);
    BetweenThreeAndEight(min, max, gap, n);
  }

  class Graph {
    var naxes: nat
    var ncurves: nat
    const curves: array<Curve>

    ghost predicate Valid()
      reads this, curves
    {
      && curves.Length == MAX_CURVES && ncurves <= MAX_CURVES
      && (if ncurves == 0 then naxes == 0 else MIN_NAXES <= naxes <= MAX_NAXES)
      && forall i :: 0 <= i < ncurves ==> Fits(curves[i], naxes)
    }

    constructor ()
      ensures Valid() && ncurves == 0
    {
      curves := new Curve[MAX_CURVES](_ => Curve([], false, 0, 0, 0, 0, 0));
      naxes, ncurves := 0, 0;
    }

    /** Makes room for more axes in the curves there are. */
    method Widen(more: nat)
      requires Valid() && naxes < more <= MAX_NAXES && more >= MIN_NAXES && ncurves < MAX_CURVES
      modifies this`naxes, curves
      ensures naxes == more
      ensures forall i :: 0 <= i < ncurves ==>
        Fits(curves[i], naxes) && Stretched(old(curves[i]), curves[i], naxes - old(naxes))
    {
      for i := 0 to ncurves
        invariant naxes == old(naxes)
        invariant forall j :: 0 <= j < i ==>
          Fits(curves[j], more) && Stretched(old(curves[j]), curves[j], more - naxes)
        invariant forall j :: i <= j < ncurves ==> curves[j] == old(curves[j])
      {
        curves[i] := ScaleCurve(curves[i], naxes, more);
      }
      naxes := more;
    }

    /** Adds a curve; those already there keep their values and gaps.  There are more axes
        only when it needs more than there are. */
    method AddCurve(ds: Dataset, reversed: bool) returns (ghost need: nat)
      requires Valid() && ncurves < 2 && ds.Valid() && ds.min >= 0
      modifies this, curves
      ensures Valid() && ncurves == old(ncurves) + 1
      ensures curves[ncurves - 1].values == ds.Values() && curves[ncurves - 1].reversed == reversed
      ensures IsBestGap(ds.max - ds.min, curves[ncurves - 1].gap)
      ensures IsAxesNumber(ds.min, ds.max, curves[ncurves - 1].gap, need)
      ensures naxes == if need > old(naxes) then need else old(naxes)
      ensures var c := curves[ncurves - 1];
              c.ymin <= ds.min < c.ymin + c.gap && c.paddingTop == c.paddingBottom == 0
      ensures forall i :: 0 <= i < ncurves - 1 ==> Stretched(old(curves[i]), curves[i], naxes - old(naxes))
    {
      hide Fits, IsBestGap, IsAxesNumber, Dataset.Valid, Stretched;
      forall c: Curve
        ensures Stretched(c, c, 0)
      {
        NotStretched(c);
      }
      var gap, n := ChooseAxes(ds);
      if n > naxes {
        Widen(n);
      }
      var curve := NewCurve(ds, reversed, gap, n, naxes);
      curves[ncurves] := curve;
      ncurves := ncurves + 1;
      need := n;
    }
  }

  /** A curve that needs "n" axes and gets "naxes".  The borders are rounded so that axes
      are evenly spaced between themselves and the borders. */
  method NewCurve(ds: Dataset, reversed: bool, gap: nat, n: nat, naxes: nat) returns (c: Curve)
    requires ds.Valid() && ds.min >= 0 && gap > 0 && IsAxesNumber(ds.min, ds.max, gap, n) && n <= naxes
    ensures Fits(c, naxes) && c.values == ds.Values() && c.gap == gap && c.reversed == reversed
    ensures c.ymin <= ds.min < c.ymin + gap && c.paddingTop == c.paddingBottom == 0
  {
    MoreAxes(n, naxes - n, gap);
    Halves(naxes - n, 0, gap);
    var ymin := ds.min - ds.min % gap;
    assert ymin == ds.min / gap * gap;
    IsMultiple(ds.min / gap, gap);
    c := Curve(ds.data[..ds.ndata], reversed, ymin, ymin + (naxes + 1) * gap, 0, 0, gap);
  }

  /** The same curve, with padding for some more axes. */
  ghost predicate Stretched(a: Curve, b: Curve, more: int) {
    && a.values == b.values && a.gap == b.gap && a.reversed == b.reversed
    && b.paddingTop + b.paddingBottom == a.paddingTop + a.paddingBottom + more
    && b.ymin == a.ymin - (b.paddingBottom - a.paddingBottom) * a.gap
  }

  lemma NotStretched(c: Curve)
    ensures Stretched(c, c, 0)
  {
  }

  // ---- Coordinates -------------------------------------------------------------------

  function Unclamped(range: real, value: real, reversed: bool): real
    requires range != 0.0
  {
    var p := value / range * 100.0;
    if reversed then p else 100.0 - p
  }

  function Percentage(range: real, value: real, reversed: bool): (r: real)
    ensures 0.0 <= r <= 100.0
  {
    if range == 0.0 then 0.0
    else
      var p := Unclamped(range, value, reversed);
      if p < 0.0 then 0.0 else if p > 100.0 then 100.0 else p
  }

  function YCoord(c: Curve, data: int): real {
    Percentage((c.ymax - c.ymin) as real, (data - c.ymin) as real, c.reversed)
  }

  lemma Share(range: real, value: real)
    requires 0.0 <= value <= range && range > 0.0
    ensures 0.0 <= value / range <= 1.0
  {
  }

  /** No value of a curve, and no axis, is ever clamped. */
  lemma NeverClamped(c: Curve, naxes: nat, data: int)
    requires Fits(c, naxes) && c.ymin <= data <= c.ymax
    ensures c.ymax > c.ymin
    ensures YCoord(c, data) == Unclamped((c.ymax - c.ymin) as real, (data - c.ymin) as real, c.reversed)
  {
    MoreAxes(naxes, 0, c.gap);
    Halves(naxes, 1, c.gap);
    Share((c.ymax - c.ymin) as real, (data - c.ymin) as real);
  }

  /** A greater value is plotted strictly higher, or strictly lower on a reversed curve. */
  lemma OrderIsSeen(c: Curve, naxes: nat, i: nat, j: nat)
    requires Fits(c, naxes) && i < |c.values| && j < |c.values| && c.values[i] < c.values[j]
    ensures if c.reversed then YCoord(c, c.values[i]) < YCoord(c, c.values[j])
            else YCoord(c, c.values[i]) > YCoord(c, c.values[j])
  {
    NeverClamped(c, naxes, c.values[i]);
    NeverClamped(c, naxes, c.values[j]);
    StrictShare((c.ymax - c.ymin) as real, (c.values[i] - c.ymin) as real, (c.values[j] - c.ymin) as real);
  }

  lemma StrictShare(range: real, x: real, y: real)
    requires range > 0.0 && x < y
    ensures x / range < y / range
  {
    assert y / range - x / range == (y - x) / range;
  }

  lemma Ratio(naxes: nat, i: nat, gap: nat)
    requires gap > 0
    ensures (naxes + 1) * gap > 0
    ensures (i * gap) as real / ((naxes + 1) * gap) as real == i as real / (naxes + 1) as real
  {
    var g, n, k := gap as real, (naxes + 1) as real, i as real;
    assert ((naxes + 1) * gap) as real == n * g && (i * gap) as real == k * g;
    assert k * g / (n * g) == k / n;
  }

  /** Curves share axes: the "i"-th axis of every curve is at the same place, which
      depends only on how many there are. */
  lemma AxesShared(a: Curve, b: Curve, naxes: nat, i: nat)
    requires Fits(a, naxes) && Fits(b, naxes) && a.reversed == b.reversed && i <= naxes + 1
    ensures YCoord(a, AxeData(a, i)) == YCoord(b, AxeData(b, i))
  {
    AxisPlace(a, naxes, i);
    AxisPlace(b, naxes, i);
  }

  /** Axes are evenly spaced. */
  lemma AxisPlace(c: Curve, naxes: nat, i: nat)
    requires Fits(c, naxes) && i <= naxes + 1
    ensures var p := i as real / (naxes + 1) as real * 100.0;
            YCoord(c, AxeData(c, i)) == if c.reversed then p else 100.0 - p
  {
    Halves(i, naxes + 1 - i, c.gap);
    NeverClamped(c, naxes, AxeData(c, i));
    Ratio(naxes, i, c.gap);
  }
}
