/** The read-side aggregates recomputed from the ratings on every read:
    the total, the mean (exact for the user detail, rounded to one decimal
    for store rows and dashboards) and the 1..5 distribution. */
module Aggregates {
  import opened Schema

  /** The rating values of some rows, in order. */
  function Values(rs: seq<RatingRow>): (vs: seq<int>)
    ensures |vs| == |rs|
    ensures forall i :: 0 <= i < |rs| ==> vs[i] == rs[i].rating
  {
    seq(|rs|, i requires 0 <= i < |rs| => rs[i].rating)
  }

  /** `reduce((sum, r) => sum + r.rating, 0)`: a left fold. */
  function Sum(vs: seq<int>): int
    decreases |vs|
  {
    if |vs| == 0 then 0 else Sum(vs[..|vs| - 1]) + vs[|vs| - 1]
  }

  /** How many of `vs` equal `v`. */
  function CountOf(vs: seq<int>, v: int): nat
    decreases |vs|
  {
    if |vs| == 0 then 0
    else CountOf(vs[..|vs| - 1], v) + (if vs[|vs| - 1] == v then 1 else 0)
  }

  predicate AllStars(vs: seq<int>) {
    forall i :: 0 <= i < |vs| ==> 1 <= vs[i] <= 5
  }

  /** The unrounded mean, 0 when there are no values. */
  function Mean(vs: seq<int>): real {
    if |vs| == 0 then 0.0 else Sum(vs) as real / |vs| as real
  }

  /** Floor division by a positive divisor, stated without `/`. */
  lemma FloorDivision(n: int, d: int)
    requires d > 0
    ensures d * (n / d) <= n < d * (n / d) + d
  {
  }

  /** The mean rounded to one decimal, as a whole number of tenths (37 is
      3.7); exact halves round up. 0 when there are no values. */
  function AverageTenths(vs: seq<int>): (t: int)
    ensures |vs| == 0 ==> t == 0
    ensures |vs| > 0 ==> |vs| * (2 * t - 1) <= 20 * Sum(vs) < |vs| * (2 * t + 1)
  {
    if |vs| == 0 then 0
    else
      var c := |vs|;
      var q := (20 * Sum(vs) + c) / (2 * c);
      FloorDivision(20 * Sum(vs) + c, 2 * c);
      assert c * (2 * q - 1) == 2 * c * q - c && c * (2 * q + 1) == 2 * c * q + c;
      q
  }

  lemma {:induction false} SumBounds(vs: seq<int>)
    requires AllStars(vs)
    ensures |vs| <= Sum(vs) <= 5 * |vs|
    decreases |vs|
  {
    if |vs| > 0 {
      SumBounds(vs[..|vs| - 1]);
    }
  }

  lemma CancelLe(c: int, a: int, b: int)
    requires c > 0 && c * a <= c * b
    ensures a <= b
  {
  }

  lemma CancelLt(c: int, a: int, b: int)
    requires c > 0 && c * a < c * b
    ensures a < b
  {
  }

  lemma RealCancelLe(c: real, a: real, b: real)
    requires c > 0.0 && a * c <= b * c
    ensures a <= b
  {
  }

  lemma RealCancelLt(c: real, a: real, b: real)
    requires c > 0.0 && a * c < b * c
    ensures a < b
  {
  }

  /** With every value in 1..5 and at least one value, the rounded average
      lies in 1.0..5.0 and the exact mean in 1..5. */
  lemma AverageBounds(vs: seq<int>)
    requires AllStars(vs) && |vs| > 0
    ensures 10 <= AverageTenths(vs) <= 50
    ensures 1.0 <= Mean(vs) <= 5.0
  {
    SumBounds(vs);
    TenthsBounds(|vs|, Sum(vs), AverageTenths(vs));
    MeanBounds(|vs| as real, Sum(vs) as real, Mean(vs));
  }

  lemma TenthsBounds(c: int, s: int, t: int)
    requires c > 0 && c <= s <= 5 * c
    requires c * (2 * t - 1) <= 20 * s < c * (2 * t + 1)
    ensures 10 <= t <= 50
  {
    CancelLe(c, 2 * t - 1, 100);
    CancelLt(c, 20, 2 * t + 1);
  }

  lemma MeanBounds(c: real, s: real, m: real)
    requires c > 0.0 && c <= s <= 5.0 * c && m == s / c
    ensures 1.0 <= m <= 5.0
  {
    assert m * c == s;
    RealCancelLe(c, 1.0, m);
    RealCancelLe(c, m, 5.0);
  }

  /** The rounded average is within half a tenth of the exact mean. */
  lemma AverageNearMean(vs: seq<int>)
    requires |vs| > 0
    ensures AverageTenths(vs) as real - 0.5 <= 10.0 * Mean(vs) < AverageTenths(vs) as real + 0.5
  {
    var c, s, t := |vs|, Sum(vs), AverageTenths(vs);
    var cr, m := c as real, Mean(vs);
    assert m * cr == s as real;
    assert (c * (2 * t - 1)) as real == cr * (2.0 * t as real - 1.0);
    assert (c * (2 * t + 1)) as real == cr * (2.0 * t as real + 1.0);
    assert (20 * s) as real == (20.0 * m) * cr;
    RealCancelLe(cr, 2.0 * t as real - 1.0, 20.0 * m);
    RealCancelLt(cr, 20.0 * m, 2.0 * t as real + 1.0);
  }

  /** Every stored rating is 1..5, so the values of any store's ratings are. */
  lemma RatingsOfStoreAreStars(t: Tables, storeId: nat)
    requires TablesValid(t)
    ensures AllStars(Values(RatingsOfStore(t.ratings, storeId)))
  {
    var mine := RatingsOfStore(t.ratings, storeId);
    forall i | 0 <= i < |mine| ensures 1 <= Values(mine)[i] <= 5 {
      assert mine[i] in t.ratings;
    }
  }

  /** With every value in 1..5, the five counts add up to the number of values. */
  lemma {:induction false} CountsCoverAll(vs: seq<int>)
    requires AllStars(vs)
    ensures CountOf(vs, 1) + CountOf(vs, 2) + CountOf(vs, 3) + CountOf(vs, 4) + CountOf(vs, 5) == |vs|
    decreases |vs|
  {
    if |vs| > 0 {
      CountsCoverAll(vs[..|vs| - 1]);
    }
  }

  /** `ratingDistribution`: starts with the five keys at 0 and adds one to
      the entry of each value in turn. */
  method RatingDistribution(vs: seq<int>) returns (d: map<int, nat>)
    requires AllStars(vs)
    ensures d.Keys == {1, 2, 3, 4, 5}
    ensures forall v :: v in d ==> d[v] == CountOf(vs, v)
    ensures d[1] + d[2] + d[3] + d[4] + d[5] == |vs|
  {
    d := map[1 := 0, 2 := 0, 3 := 0, 4 := 0, 5 := 0];
    for i := 0 to |vs|
      invariant d.Keys == {1, 2, 3, 4, 5}
      invariant forall v :: v in d ==> d[v] == CountOf(vs[..i], v)
    {
      assert vs[..i + 1][..i] == vs[..i];
      d := d[vs[i] := d[vs[i]] + 1];
    }
    assert vs[..|vs|] == vs;
    CountsCoverAll(vs);
  }
}
