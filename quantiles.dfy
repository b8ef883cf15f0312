/** pandas' default `Series.quantile(q)`: over the n sorted non-missing values, take
    the position h = (n - 1) * q and interpolate linearly between the values at
    floor(h) and floor(h) + 1. Exact reals stand for the floats. */
module Quantiles {
  import opened Values
  import opened Sequences

  /** The interpolation position (n - 1) * q of a quantile over n values. */
  function Position(n: nat, q: real): (h: real)
    requires n > 0 && 0.0 <= q <= 1.0
    ensures 0.0 <= h <= (n - 1) as real
    ensures 0 <= h.Floor < n
  {
    var m := (n - 1) as real;
    ProductNonnegative(m, q);
    ProductNonnegative(m, 1.0 - q);
    m * q
  }

  /** The q-quantile of the sorted values `s`. */
  function Quantile(s: seq<real>, q: real): (r: real)
    requires |s| > 0 && IsSorted(s) && 0.0 <= q <= 1.0
    ensures s[0] <= r <= s[|s| - 1]
  {
    var h := Position(|s|, q);
    var lo := h.Floor;
    var frac := h - lo as real;
    if lo + 1 < |s| then Lerp(s[lo], s[lo + 1], frac) else s[lo]
  }

  /** The point a fraction `t` of the way from `a` to `b`: linear interpolation with
      a weight in [0, 1] stays between its two ends. */
  function Lerp(a: real, b: real, t: real): (r: real)
    requires a <= b && 0.0 <= t <= 1.0
    ensures a <= r <= b
  {
    var d := b - a;
    ProductNonnegative(t, d);
    ProductNonnegative(1.0 - t, d);
    assert (1.0 - t) * d == d - t * d;
    a + t * d
  }

  lemma ProductNonnegative(x: real, y: real)
    requires x >= 0.0 && y >= 0.0
    ensures x * y >= 0.0
  {
  }

  lemma WeightMonotone(t: real, u: real, d: real)
    requires t <= u && d >= 0.0
    ensures t * d <= u * d && d * t <= d * u
  {
    ProductNonnegative(u - t, d);
  }

  /** The quantile lies between the two sorted values it interpolates. */
  lemma QuantileNeighbours(s: seq<real>, q: real)
    requires |s| > 0 && IsSorted(s) && 0.0 <= q <= 1.0
    ensures var lo := Position(|s|, q).Floor;
      s[lo] <= Quantile(s, q) && (lo + 1 < |s| ==> Quantile(s, q) <= s[lo + 1])
  {
    var h := Position(|s|, q);
    var lo := h.Floor;
    if lo + 1 < |s| {
      assert Quantile(s, q) == Lerp(s[lo], s[lo + 1], h - lo as real);
    } else {
      assert Quantile(s, q) == s[lo];
    }
  }

  lemma FloorMonotone(x: real, y: real)
    requires x <= y
    ensures x.Floor <= y.Floor
  {
    assert x.Floor as real <= x <= y < y.Floor as real + 1.0;
  }

  /** The first quartile never exceeds the third. */
  lemma QuartilesOrdered(s: seq<real>)
    requires |s| > 0 && IsSorted(s)
    ensures Quantile(s, 0.25) <= Quantile(s, 0.75)
  {
    var hp, hq := Position(|s|, 0.25), Position(|s|, 0.75);
    FloorMonotone(hp, hq);
    var lp, lq := hp.Floor, hq.Floor;
    QuantileNeighbours(s, 0.25);
    QuantileNeighbours(s, 0.75);
    if lp < lq {
      assert Quantile(s, 0.25) <= s[lp + 1] <= s[lq];
    } else if lp + 1 < |s| {
      var t, u, d := hp - lp as real, hq - lq as real, s[lp + 1] - s[lp];
      assert Quantile(s, 0.25) == s[lp] + t * d;
      assert Quantile(s, 0.75) == s[lp] + u * d;
      WeightMonotone(t, u, d);
    } else {
      assert Quantile(s, 0.25) == s[lp] == Quantile(s, 0.75);
    }
  }

  /** The first and third quartiles of a column's values; none when it has no
      values (pandas then yields NaN). */
  function Quartiles(values: seq<real>): (r: Option<(real, real)>)
    ensures r.Some? <==> |values| > 0
    ensures r.Some? ==> r.value.0 <= r.value.1
    ensures r.Some? ==> exists i :: 0 <= i < |values| && values[i] <= r.value.0
    ensures r.Some? ==> exists j :: 0 <= j < |values| && r.value.1 <= values[j]
  {
    if values == [] then
      None
    else
      var sorted := SortedOf(values);
      QuartilesOrdered(sorted);
      QuartilesWithin(values, sorted);
      Some((Quantile(sorted, 0.25), Quantile(sorted, 0.75)))
  }

  /** Each quartile is bounded by one of the values: the least below Q1, the
      greatest above Q3. */
  lemma QuartilesWithin(values: seq<real>, sorted: seq<real>)
    requires |values| > 0 && sorted == SortedOf(values)
    ensures exists i :: 0 <= i < |values| && values[i] <= Quantile(sorted, 0.25)
    ensures exists j :: 0 <= j < |values| && Quantile(sorted, 0.75) <= values[j]
  {
    assert |sorted| == |multiset(values)|;
    assert sorted[0] in multiset(sorted);
    var i :| 0 <= i < |values| && values[i] == sorted[0];
    assert sorted[|sorted| - 1] in multiset(sorted);
    var j :| 0 <= j < |values| && values[j] == sorted[|sorted| - 1];
  }

  /** The quartiles depend on the values, not on their order. */
  lemma QuartilesPermutation(v: seq<real>, w: seq<real>)
    requires multiset(v) == multiset(w)
    ensures Quartiles(v) == Quartiles(w)
  {
    SortedOfPermutation(v, w);
    assert |v| == |multiset(v)| == |multiset(w)| == |w|;
  }
}
