/** The statistics pandas computes for the rules: sums, means and the
    linearly interpolated quantile (pandas' default `interpolation="linear"`). */
module Stats {
  import opened Wrappers

  function Sum(s: seq<real>): real {
    if s == [] then 0.0 else s[0] + Sum(s[1..])
  }

  lemma {:induction false} SumConcat(a: seq<real>, b: seq<real>)
    ensures Sum(a + b) == Sum(a) + Sum(b)
    decreases |a|
  {
    if a != [] {
      assert (a + b)[0] == a[0];
      assert (a + b)[1..] == a[1..] + b;
      SumConcat(a[1..], b);
      assert Sum(a + b) == (a + b)[0] + Sum((a + b)[1..]);
    } else {
      assert a + b == b;
    }
  }

  predicate Sorted(s: seq<real>) {
    forall i, j :: 0 <= i < j < |s| ==> s[i] <= s[j]
  }

  function Insert(x: real, s: seq<real>): (r: seq<real>)
    requires Sorted(s)
    ensures |r| == |s| + 1
    ensures r[0] == if s == [] || x <= s[0] then x else s[0]
    ensures Sorted(r)
    ensures multiset(r) == multiset(s) + multiset{x}
  {
    if s == [] || x <= s[0] then [x] + s
    else
      assert s == [s[0]] + s[1..];
      [s[0]] + Insert(x, s[1..])
  }

  /** The values in ascending order (insertion sort). */
  function Sort(s: seq<real>): (r: seq<real>)
    ensures |r| == |s|
    ensures Sorted(r)
    ensures multiset(r) == multiset(s)
  {
    if s == [] then []
    else
      assert s == [s[0]] + s[1..];
      Insert(s[0], Sort(s[1..]))
  }

  /** Linear interpolation in the sorted values x at the fractional position h:
      x[lo] + (x[lo + 1] - x[lo]) * (h - lo) with lo = floor h, or x[lo] at the last position. */
  function Interpolate(x: seq<real>, h: real): real
    requires 0.0 <= h <= (|x| - 1) as real
  {
    var lo := h.Floor;
    if lo + 1 < |x| then x[lo] + (x[lo + 1] - x[lo]) * (h - lo as real) else x[lo]
  }

  /** The fractional position (n - 1) * q of the q-quantile among n sorted values. */
  function Position(n: nat, q: real): (h: real)
    requires n > 0 && 0.0 <= q <= 1.0
    ensures 0.0 <= h <= (n - 1) as real
  {
    ProductBounds((n - 1) as real, q);
    (n - 1) as real * q
  }

  lemma PositionMonotone(n: nat, q1: real, q2: real)
    requires n > 0 && 0.0 <= q1 <= q2 <= 1.0
    ensures Position(n, q1) <= Position(n, q2)
  {
    ProductBounds((n - 1) as real, q2 - q1);
  }

  /** The q-quantile of `values` as pandas computes it by default: the sorted values
      interpolated linearly at position h = (n - 1) * q. None (NaN) for an empty series. */
  function Quantile(values: seq<real>, q: real): (r: Option<real>)
    requires 0.0 <= q <= 1.0
    ensures r.None? <==> values == []
  {
    if values == [] then None else Some(Interpolate(Sort(values), Position(|values|, q)))
  }

  lemma ProductBounds(n: real, q: real)
    requires n >= 0.0 && 0.0 <= q <= 1.0
    ensures 0.0 <= n * q <= n
  {
  }

  /** The interpolated value lies between the two neighbouring sorted values. */
  lemma InterpolateBetween(x: seq<real>, h: real)
    requires Sorted(x) && 0.0 <= h <= (|x| - 1) as real
    ensures var lo := h.Floor;
            0 <= lo < |x| && x[lo] <= Interpolate(x, h) &&
            (lo + 1 < |x| ==> Interpolate(x, h) <= x[lo + 1]) &&
            (lo + 1 == |x| ==> Interpolate(x, h) == x[lo])
  {
    var lo := h.Floor;
    assert lo as real <= h < lo as real + 1.0;
    if lo + 1 < |x| {
      var d, f := x[lo + 1] - x[lo], h - lo as real;
      assert d >= 0.0;
      ProductBounds(d, f);
      assert Interpolate(x, h) == x[lo] + d * f;
    }
  }

  lemma InterpolateMonotone(x: seq<real>, h1: real, h2: real)
    requires Sorted(x) && 0.0 <= h1 <= h2 <= (|x| - 1) as real
    ensures Interpolate(x, h1) <= Interpolate(x, h2)
  {
    var lo1, lo2 := h1.Floor, h2.Floor;
    InterpolateBetween(x, h1);
    InterpolateBetween(x, h2);
    if lo1 == lo2 {
      if lo1 + 1 < |x| {
        var d := x[lo1 + 1] - x[lo1];
        assert d * (h2 - h1) >= 0.0 by { ProductBounds(d, 0.0); }
        assert d * (h1 - lo1 as real) <= d * (h2 - lo1 as real);
      }
    } else {
      assert x[lo1 + 1] <= x[lo2];
    }
  }

  lemma {:induction false} SortedElementIn(values: seq<real>, k: nat)
    requires k < |values|
    ensures Sort(values)[k] in values
  {
    var x := Sort(values);
    assert x[k] in multiset(x);
    assert x[k] in multiset(values);
  }

  /** A bound that holds for every value holds for every quantile of them. */
  lemma QuantileBounded(values: seq<real>, q: real, b: real)
    requires 0.0 <= q <= 1.0 && values != []
    ensures (forall i :: 0 <= i < |values| ==> values[i] <= b) ==> Quantile(values, q).value <= b
    ensures (forall i :: 0 <= i < |values| ==> b <= values[i]) ==> b <= Quantile(values, q).value
  {
    var x := Sort(values);
    var h := Position(|values|, q);
    var lo := h.Floor;
    InterpolateBetween(x, h);
    SortedElementIn(values, lo);
    var j := lo + 1;
    if j < |x| {
      SortedElementIn(values, j);
    } else {
      j := lo;
    }
    assert x[lo] in values && x[j] in values;
    assert x[lo] <= Interpolate(x, h) <= x[j];
  }

  /** A higher quantile level never gives a lower quantile. */
  lemma QuantileMonotone(values: seq<real>, q1: real, q2: real)
    requires 0.0 <= q1 <= q2 <= 1.0 && values != []
    ensures Quantile(values, q1).value <= Quantile(values, q2).value
  {
    PositionMonotone(|values|, q1, q2);
    InterpolateMonotone(Sort(values), Position(|values|, q1), Position(|values|, q2));
  }

  /** The largest value. */
  function Max(values: seq<real>): (m: real)
    requires values != []
    ensures forall i :: 0 <= i < |values| ==> values[i] <= m
    ensures exists i :: 0 <= i < |values| && values[i] == m
  {
    if |values| == 1 then values[0]
    else
      var rest := Max(values[1..]);
      var i :| 0 <= i < |values[1..]| && values[1..][i] == rest;
      assert values[i + 1] == rest;
      if values[0] >= rest then values[0] else rest
  }

  /** Mean of the values; None (NaN) when there are none. */
  function Mean(values: seq<real>): (r: Option<real>)
    ensures r.None? <==> values == []
  {
    if values == [] then None else Some(Sum(values) / |values| as real)
  }
}
