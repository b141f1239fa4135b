/**
  The bipolar vector algebra of the numpy backend: binding, majority bundling with arbitrary tie-breaks,
  rotation and similarity. Column sums are taken in a wide integer type, so nothing wraps.
 */
module Hypervectors {
  import opened Integers

  type Vector = seq<int>

  ghost predicate Bipolar(v: Vector, d: nat) {
    |v| == d && forall i :: 0 <= i < d ==> v[i] == 1 || v[i] == -1
  }

  ghost predicate AllBipolar(vs: seq<Vector>, d: nat) {
    forall k :: 0 <= k < |vs| ==> Bipolar(vs[k], d)
  }

  function Bind(a: Vector, b: Vector): (r: Vector)
    requires |a| == |b|
    ensures |r| == |a|
  {
    seq(|a|, i requires 0 <= i < |a| => a[i] * b[i])
  }

  function Dot(a: Vector, b: Vector): int
    requires |a| == |b|
  {
    if a == [] then 0 else Dot(a[..|a| - 1], b[..|b| - 1]) + a[|a| - 1] * b[|b| - 1]
  }

  function Similarity(a: Vector, b: Vector): real
    requires |a| == |b| && a != []
  {
    Dot(a, b) as real / |a| as real
  }

  function ColumnSum(vs: seq<Vector>, i: nat): int
    requires forall k :: 0 <= k < |vs| ==> i < |vs[k]|
  {
    if vs == [] then 0 else ColumnSum(vs[..|vs| - 1], i) + vs[|vs| - 1][i]
  }

  function Sign(s: int, tie: int): int {
    if s > 0 then 1 else if s < 0 then -1 else tie
  }

  /** The majority in every dimension; tied dimensions take the tie-break; no vectors give the zero vector. */
  function Bundle(vs: seq<Vector>, d: nat, ties: Vector): (r: Vector)
    requires |ties| == d && forall k :: 0 <= k < |vs| ==> |vs[k]| == d
    ensures |r| == d
  {
    if vs == [] then seq(d, _ => 0) else seq(d, i requires 0 <= i < d => Sign(ColumnSum(vs, i), ties[i]))
  }

  /** np.roll: element i moves to position (i + shifts) mod n. */
  function Permute(v: Vector, shifts: int): (r: Vector)
    ensures |r| == |v|
  {
    if v == [] then v
    else
      var k := |v| - shifts % |v|;
      v[k..] + v[..k]
  }

  // ----- bundling as an array algorithm -----

  method BundleVectors(vs: seq<Vector>, d: nat, ties: Vector) returns (result: array<int>)
    requires |ties| == d && forall k :: 0 <= k < |vs| ==> |vs[k]| == d
    ensures fresh(result) && result[..] == Bundle(vs, d, ties)
  {
    result := new int[d](_ => 0);
    if vs == [] {
      return;
    }
    var summed := SumColumns(vs, d);
    for i := 0 to d
      invariant forall j :: 0 <= j < d ==> result[j] == if j < i then Sign(summed[j], -1) else 0
      invariant forall j :: 0 <= j < d ==> summed[j] == ColumnSum(vs, j)
    {
      result[i] := if summed[i] > 0 then 1 else -1;
    }
    for i := 0 to d
      invariant forall j :: 0 <= j < d ==> result[j] == if j < i then Sign(summed[j], ties[j]) else Sign(summed[j], -1)
      invariant forall j :: 0 <= j < d ==> summed[j] == ColumnSum(vs, j)
    {
      if summed[i] == 0 {
        result[i] := ties[i];
      }
    }
  }

  method SumColumns(vs: seq<Vector>, d: nat) returns (summed: array<int>)
    requires forall k :: 0 <= k < |vs| ==> |vs[k]| == d
    ensures fresh(summed) && summed.Length == d
    ensures forall i :: 0 <= i < d ==> summed[i] == ColumnSum(vs, i)
  {
    summed := new int[d](_ => 0);
    for k := 0 to |vs|
      invariant forall i :: 0 <= i < d ==> summed[i] == ColumnSum(vs[..k], i)
    {
      assert vs[..k + 1][..k] == vs[..k];
      for i := 0 to d
        invariant forall j :: 0 <= j < d ==> summed[j] == ColumnSum(vs[..k], j) + if j < i then vs[k][j] else 0
      {
        summed[i] := summed[i] + vs[k][i];
      }
    }
    assert vs[..|vs|] == vs;
  }

  // ----- bundling is optimal -----

  /** The total dot product of w with all inputs. */
  function TotalDot(vs: seq<Vector>, w: Vector): int
    requires forall k :: 0 <= k < |vs| ==> |vs[k]| == |w|
  {
    if vs == [] then 0 else TotalDot(vs[..|vs| - 1], w) + Dot(vs[|vs| - 1], w)
  }

  /** The same total, dimension by dimension, over the first n dimensions. */
  function Weighted(vs: seq<Vector>, w: Vector, n: nat): int
    requires n <= |w| && forall k :: 0 <= k < |vs| ==> |vs[k]| == |w|
  {
    if n == 0 then 0 else Weighted(vs, w, n - 1) + ColumnSum(vs, n - 1) * w[n - 1]
  }

  function Abs(x: int): nat {
    if x < 0 then -x else x
  }

  function SumAbs(vs: seq<Vector>, n: nat): nat
    requires forall k :: 0 <= k < |vs| ==> n <= |vs[k]|
  {
    if n == 0 then 0 else SumAbs(vs, n - 1) + Abs(ColumnSum(vs, n - 1))
  }

  lemma {:induction false} WeightedGrows(vs: seq<Vector>, w: Vector, n: nat)
    requires vs != [] && n <= |w| && forall k :: 0 <= k < |vs| ==> |vs[k]| == |w|
    ensures Weighted(vs, w, n) == Weighted(vs[..|vs| - 1], w, n) + Dot(vs[|vs| - 1][..n], w[..n])
  {
    if n > 0 {
      var init, v := vs[..|vs| - 1], vs[|vs| - 1];
      WeightedGrows(vs, w, n - 1);
      assert v[..n][..n - 1] == v[..n - 1] && w[..n][..n - 1] == w[..n - 1];
      assert ColumnSum(vs, n - 1) * w[n - 1] == ColumnSum(init, n - 1) * w[n - 1] + v[n - 1] * w[n - 1];
    }
  }

  lemma {:induction false} TotalIsWeighted(vs: seq<Vector>, w: Vector)
    requires forall k :: 0 <= k < |vs| ==> |vs[k]| == |w|
    ensures TotalDot(vs, w) == Weighted(vs, w, |w|)
  {
    if vs == [] {
      WeightedOfNone(w, |w|);
    } else {
      TotalIsWeighted(vs[..|vs| - 1], w);
      WeightedGrows(vs, w, |w|);
      var v := vs[|vs| - 1];
      assert v[..|w|] == v && w[..|w|] == w;
    }
  }

  lemma {:induction false} WeightedOfNone(w: Vector, n: nat)
    requires n <= |w|
    ensures Weighted([], w, n) == 0
  {
    if n > 0 {
      WeightedOfNone(w, n - 1);
    }
  }

  lemma {:induction false} WeightedAtMost(vs: seq<Vector>, w: Vector, n: nat)
    requires Bipolar(w, |w|) && n <= |w| && forall k :: 0 <= k < |vs| ==> |vs[k]| == |w|
    ensures Weighted(vs, w, n) <= SumAbs(vs, n)
  {
    if n > 0 {
      WeightedAtMost(vs, w, n - 1);
      var s := ColumnSum(vs, n - 1);
      assert s * w[n - 1] == s || s * w[n - 1] == -s;
    }
  }

  lemma {:induction false} WeightedOfBundle(vs: seq<Vector>, d: nat, ties: Vector, n: nat)
    requires vs != [] && n <= d && |ties| == d && forall k :: 0 <= k < |vs| ==> |vs[k]| == d
    ensures Weighted(vs, Bundle(vs, d, ties), n) == SumAbs(vs, n)
  {
    if n > 0 {
      WeightedOfBundle(vs, d, ties, n - 1);
      var s := ColumnSum(vs, n - 1);
      assert s * Sign(s, ties[n - 1]) == Abs(s);
    }
  }

  /**
    Majority bundling is an optimiser: whatever the tie-break, the bundle of a non-empty list of bipolar vectors
    is bipolar and maximises the total dot product with its inputs over all bipolar vectors; the maximum is the
    sum of the absolute column sums.
   */
  lemma BundleIsOptimal(vs: seq<Vector>, d: nat, ties: Vector, w: Vector)
    requires vs != [] && AllBipolar(vs, d) && Bipolar(ties, d) && Bipolar(w, d)
    ensures Bipolar(Bundle(vs, d, ties), d)
    ensures TotalDot(vs, w) <= TotalDot(vs, Bundle(vs, d, ties)) == SumAbs(vs, d)
  {
    var b := Bundle(vs, d, ties);
    TotalIsWeighted(vs, w);
    TotalIsWeighted(vs, b);
    WeightedAtMost(vs, w, d);
    WeightedOfBundle(vs, d, ties, d);
  }

  // ----- an odd number of vectors -----

  lemma {:induction false} ColumnParity(vs: seq<Vector>, d: nat, i: nat)
    requires AllBipolar(vs, d) && i < d
    ensures (ColumnSum(vs, i) + |vs|) % 2 == 0
  {
    if vs != [] {
      ColumnParity(vs[..|vs| - 1], d, i);
      assert Bipolar(vs[|vs| - 1], d);
    }
  }

  lemma {:induction false} OddSumAbs(vs: seq<Vector>, d: nat, n: nat)
    requires AllBipolar(vs, d) && |vs| % 2 == 1 && n <= d
    ensures SumAbs(vs, n) >= n
  {
    if n > 0 {
      OddSumAbs(vs, d, n - 1);
      ColumnParity(vs, d, n - 1);
    }
  }

  /** Some input's dot product reaches any total that m bounds on average. */
  lemma {:induction false} SomeReachesAverage(vs: seq<Vector>, w: Vector, m: int) returns (k: nat)
    requires vs != [] && (forall k :: 0 <= k < |vs| ==> |vs[k]| == |w|) && TotalDot(vs, w) * m >= |vs| * |w|
    requires m > 0
    ensures k < |vs| && Dot(vs[k], w) * m >= |w|
  {
    var n := |vs| - 1;
    assert n == 0 ==> TotalDot(vs[..n], w) == 0;
    if Dot(vs[n], w) * m >= |w| {
      k := n;
    } else {
      assert TotalDot(vs, w) * m == TotalDot(vs[..n], w) * m + Dot(vs[n], w) * m;
      assert |vs| * |w| == n * |w| + |w|;
      assert vs[..n] != [];
      k := SomeReachesAverage(vs[..n], w, m);
    }
  }

  /** For an odd number n of vectors some input has similarity at least 1/n with the bundle. */
  lemma OddBundleIsSimilar(vs: seq<Vector>, d: nat, ties: Vector) returns (k: nat)
    requires |vs| % 2 == 1 && d > 0 && AllBipolar(vs, d) && Bipolar(ties, d)
    ensures k < |vs| && Similarity(vs[k], Bundle(vs, d, ties)) >= 1.0 / |vs| as real
  {
    var b, n := Bundle(vs, d, ties), |vs|;
    BundleIsOptimal(vs, d, ties, ties);
    OddSumAbs(vs, d, d);
    MulAtLeast(d, TotalDot(vs, b), n);
    k := SomeReachesAverage(vs, b, n);
    RatioAtLeast(Dot(vs[k], b), n, d);
  }

  lemma RatioAtLeast(x: int, n: int, d: int)
    requires n > 0 && d > 0 && x * n >= d
    ensures x as real / d as real >= 1.0 / n as real
  {
    var rx, rn, rd := x as real, n as real, d as real;
    var a, b := rx / rd, 1.0 / rn;
    assert rx * rn == (x * n) as real;
    assert a * rd == rx && b * rn == 1.0;
    assert (a * rn) * rd == rx * rn;
    Cancel(a * rn, 1.0, rd);
    Cancel(a, b, rn);
  }

  lemma Cancel(u: real, v: real, m: real)
    requires m > 0.0 && u * m >= v * m
    ensures u >= v
  {
  }

  // ----- binding, rotation, similarity -----

  function Ones(d: nat): (r: Vector)
    ensures |r| == d
  {
    seq(d, _ => 1)
  }

  /** Binding marks agreement: an element is 1 where two bipolar vectors agree and -1 where they differ. */
  lemma BindMarksAgreement(a: Vector, b: Vector, d: nat)
    requires Bipolar(a, d) && Bipolar(b, d)
    ensures Bipolar(Bind(a, b), d)
    ensures forall i :: 0 <= i < d ==> (Bind(a, b)[i] == 1 <==> a[i] == b[i])
  {
    forall i | 0 <= i < d ensures (Bind(a, b)[i] == 1 || Bind(a, b)[i] == -1) && (Bind(a, b)[i] == 1 <==> a[i] == b[i]) {
      assert Bind(a, b)[i] == a[i] * b[i];
    }
  }

  /** How many of the vectors have a 1 in this dimension. */
  function Ayes(vs: seq<Vector>, i: nat): (n: nat)
    requires forall k :: 0 <= k < |vs| ==> i < |vs[k]|
    ensures n <= |vs|
  {
    if vs == [] then 0 else Ayes(vs[..|vs| - 1], i) + if vs[|vs| - 1][i] == 1 then 1 else 0
  }

  lemma {:induction false} ColumnCountsAyes(vs: seq<Vector>, d: nat, i: nat)
    requires AllBipolar(vs, d) && i < d
    ensures ColumnSum(vs, i) == 2 * Ayes(vs, i) - |vs|
  {
    if vs != [] {
      ColumnCountsAyes(vs[..|vs| - 1], d, i);
    }
  }

  /** A bundle is a vote: 1 where more than half of the bipolar vectors have 1, -1 where fewer, the tie-break at a draw; without voters it is 0. */
  lemma BundleIsMajority(vs: seq<Vector>, d: nat, ties: Vector, i: nat)
    requires AllBipolar(vs, d) && |ties| == d && i < d
    ensures Bundle(vs, d, ties)[i] ==
      if vs == [] then 0
      else if 2 * Ayes(vs, i) > |vs| then 1
      else if 2 * Ayes(vs, i) < |vs| then -1
      else ties[i]
  {
    ColumnCountsAyes(vs, d, i);
  }

  /** The all-ones vector binds nothing, and a bipolar vector bound with itself is it. */
  lemma BindUnit(v: Vector, d: nat)
    requires |v| == d
    ensures Bind(Ones(d), v) == v && Bind(v, Ones(d)) == v
    ensures Bipolar(v, d) ==> Bind(v, v) == Ones(d)
  {
    assert forall i :: 0 <= i < d ==> Bind(Ones(d), v)[i] == v[i] && Bind(v, Ones(d))[i] == v[i];
    if Bipolar(v, d) {
      BindMarksAgreement(v, v, d);
    }
  }

  /** In how many dimensions two vectors agree. */
  function Agreements(a: Vector, b: Vector): (n: nat)
    requires |a| == |b|
    ensures n <= |a| && (n == |a| <==> a == b)
  {
    if a == [] then 0
    else
      assert a == a[..|a| - 1] + [a[|a| - 1]] && b == b[..|b| - 1] + [b[|b| - 1]];
      Agreements(a[..|a| - 1], b[..|b| - 1]) + if a[|a| - 1] == b[|b| - 1] then 1 else 0
  }

  lemma {:induction false} DotCountsAgreements(a: Vector, b: Vector, d: nat)
    requires Bipolar(a, d) && Bipolar(b, d)
    ensures Dot(a, b) == 2 * Agreements(a, b) - d
  {
    if d > 0 {
      DotCountsAgreements(a[..d - 1], b[..d - 1], d - 1);
      assert a[d - 1] * b[d - 1] == if a[d - 1] == b[d - 1] then 1 else -1;
    }
  }

  /** The similarity of bipolar vectors is the share of agreeing less the share of differing dimensions: between -1 and 1, and 1 only for equal vectors. */
  lemma SimilarityCountsAgreements(a: Vector, b: Vector, d: nat)
    requires d > 0 && Bipolar(a, d) && Bipolar(b, d)
    ensures Similarity(a, b) == (Agreements(a, b) - (d - Agreements(a, b))) as real / d as real
    ensures -1.0 <= Similarity(a, b) <= 1.0
    ensures Similarity(a, b) == 1.0 <==> a == b
  {
    DotCountsAgreements(a, b, d);
    QuotientWithin(Dot(a, b) as real, d as real);
  }

  lemma QuotientWithin(x: real, d: real)
    requires d > 0.0 && -d <= x <= d
    ensures -1.0 <= x / d <= 1.0
    ensures x / d == 1.0 <==> x == d
  {
    var q := x / d;
    assert x == q * d;
    RealMul(q, 1.0, d);
    RealMul(1.0, q, d);
    RealMul(q, -1.0, d);
  }

  lemma RealMul(p: real, q: real, d: real)
    requires d > 0.0
    ensures p < q ==> p * d < q * d
  {
  }

  /** Unbinding: binding twice with a bipolar vector gives back the original, and binding with one keeps dot products. */
  lemma BindInverts(v: Vector, a: Vector)
    requires Bipolar(a, |v|)
    ensures Bind(Bind(v, a), a) == v
  {
    forall i | 0 <= i < |v| ensures v[i] * a[i] * a[i] == v[i] {}
  }

  lemma {:induction false} BindKeepsDot(v: Vector, w: Vector, a: Vector)
    requires Bipolar(a, |v|) && |v| == |w|
    ensures Dot(Bind(v, a), Bind(w, a)) == Dot(v, w)
  {
    if v != [] {
      var n := |v| - 1;
      BindKeepsDot(v[..n], w[..n], a[..n]);
      assert Bind(v, a)[..n] == Bind(v[..n], a[..n]) && Bind(w, a)[..n] == Bind(w[..n], a[..n]);
      assert v[n] * a[n] * (w[n] * a[n]) == v[n] * w[n];
    }
  }

  lemma {:induction false} DotConcat(a: Vector, b: Vector, x: Vector, y: Vector)
    requires |a| == |x| && |b| == |y|
    ensures Dot(a + b, x + y) == Dot(a, x) + Dot(b, y)
  {
    if b == [] {
      assert a + b == a && x + y == x;
    } else {
      var n := |b| - 1;
      DotConcat(a, b[..n], x, y[..n]);
      assert (a + b)[..|a| + n] == a + b[..n] && (x + y)[..|x| + n] == x + y[..n];
    }
  }

  lemma DotOfSwapped(a: Vector, b: Vector, x: Vector, y: Vector)
    requires |a| == |x| && |b| == |y|
    ensures Dot(b + a, y + x) == Dot(a + b, x + y)
  {
    DotConcat(a, b, x, y);
    DotConcat(b, a, y, x);
  }

  lemma DotOfRotated(v: Vector, w: Vector, k: nat)
    requires |v| == |w| && k <= |v|
    ensures Dot(v[k..] + v[..k], w[k..] + w[..k]) == Dot(v, w)
  {
    var a, b, x, y := v[..k], v[k..], w[..k], w[k..];
    DotOfSwapped(a, b, x, y);
    TakeDrop(v, k);
    TakeDrop(w, k);
  }

  lemma TakeDrop(v: Vector, k: nat)
    requires k <= |v|
    ensures v[..k] + v[k..] == v
  {
  }

  /** Rotating both vectors alike keeps their dot product. */
  lemma PermuteKeepsDot(v: Vector, w: Vector, shifts: int)
    requires |v| == |w|
    ensures Dot(Permute(v, shifts), Permute(w, shifts)) == Dot(v, w)
  {
    if v != [] {
      DotOfRotated(v, w, |v| - shifts % |v|);
    }
  }

  lemma PermuteAt(v: Vector, shifts: int, i: nat)
    requires i < |v|
    ensures Permute(v, shifts)[(i + shifts) % |v|] == v[i]
  {
    var n := |v|;
    var r := shifts % n;
    ModOfSum(i, shifts, n);
    assert Permute(v, shifts) == v[n - r..] + v[..n - r];
  }

  lemma ModOfSum(i: nat, s: int, n: nat)
    requires i < n
    ensures (i + s) % n == if i + s % n < n then i + s % n else i + s % n - n
  {
    var q, r := s / n, s % n;
    assert s == q * n + r;
    var t := if i + r < n then i + r else i + r - n;
    var p := if i + r < n then q else q + 1;
    assert i + s == p * n + t;
    UniqueRemainder(i + s, p, t, n);
  }

  lemma UniqueRemainder(x: int, p: int, t: int, n: nat)
    requires n > 0 && 0 <= t < n && x == p * n + t
    ensures x % n == t
  {
    var q, r := x / n, x % n;
    assert x == q * n + r;
    SmallMultiple(q - p, n, t - r);
  }

  lemma SmallMultiple(k: int, n: int, e: int)
    requires n > 0 && k * n == e && -n < e < n
    ensures k == 0
  {
    if k >= 1 {
      MulAtLeast(1, k, n);
    } else if k <= -1 {
      MulAtLeast(k, -1, n);
    }
  }

  /** Where each element of a rotated vector comes from. */
  lemma PermuteLookup(v: Vector, shifts: int, j: nat)
    requires j < |v|
    ensures Permute(v, shifts)[j] == v[(j - shifts) % |v|]
  {
    ShiftBack(j, shifts, |v|);
    PermuteAt(v, shifts, (j - shifts) % |v|);
  }

  /** r is v rotated: element j of r is the element of v at offset j - shifts. */
  ghost predicate Rotated(v: Vector, r: Vector, shifts: int) {
    |r| == |v| && forall j :: 0 <= j < |v| ==> r[j] == v[Source(j, shifts, |v|)]
  }

  function Source(j: int, shifts: int, n: nat): (i: nat)
    requires n > 0
    ensures i < n
  {
    (j - shifts) % n
  }

  lemma PermuteRotates(v: Vector, shifts: int)
    ensures Rotated(v, Permute(v, shifts), shifts)
  {
    forall j | 0 <= j < |v| ensures Permute(v, shifts)[j] == v[Source(j, shifts, |v|)] {
      PermuteLookup(v, shifts, j);
    }
  }

  lemma SourcesAdd(j: int, a: int, b: int, n: nat)
    requires n > 0
    ensures Source(Source(j, b, n), a, n) == Source(j, a + b, n)
  {
    ModAdds(j - b, -a, n);
    assert j - b + -a == j - (a + b);
  }

  /** Rotations add up. */
  lemma PermutesAdd(v: Vector, a: int, b: int)
    ensures Permute(Permute(v, a), b) == Permute(v, a + b)
  {
    PermuteRotates(v, a);
    PermuteRotates(Permute(v, a), b);
    RotatedTwice(v, Permute(v, a), Permute(Permute(v, a), b), a, b);
    RotatedIsPermuted(v, Permute(Permute(v, a), b), a + b);
  }

  lemma RotatedTwice(v: Vector, once: Vector, twice: Vector, a: int, b: int)
    requires Rotated(v, once, a) && Rotated(once, twice, b)
    ensures Rotated(v, twice, a + b)
  {
    forall j | 0 <= j < |v| ensures twice[j] == v[Source(j, a + b, |v|)] {
      SourcesAdd(j, a, b, |v|);
    }
  }

  lemma RotatedIsPermuted(v: Vector, r: Vector, shifts: int)
    requires Rotated(v, r, shifts)
    ensures r == Permute(v, shifts)
  {
    PermuteRotates(v, shifts);
  }

  lemma ModAdds(x: int, b: int, n: nat)
    requires n > 0
    ensures (x % n + b) % n == (x + b) % n
  {
    var q, r := (x % n + b) / n, (x % n + b) % n;
    assert x == (x / n) * n + x % n;
    assert x + b == (x / n + q) * n + r;
    UniqueRemainder(x + b, x / n + q, r, n);
  }

  lemma ShiftBack(j: nat, s: int, n: nat)
    requires j < n
    ensures ((j - s) % n + s) % n == j
  {
    ModAdds(j - s, s, n);
    UniqueRemainder(j, 0, j, n);
  }
}
