/**
 * Jain's fairness index over exact reals, and the check that every measurement
 * window of a device fleet is fair.
 */
module Fairness {
  import opened Common

  function Sum(rates: seq<real>): real {
    if rates == [] then 0.0 else Sum(rates[..|rates| - 1]) + rates[|rates| - 1]
  }

  function SquareSum(rates: seq<real>): real {
    if rates == [] then 0.0 else SquareSum(rates[..|rates| - 1]) + rates[|rates| - 1] * rates[|rates| - 1]
  }

  /** None when there is no device or nothing was transferred. */
  function JainFairness(rates: seq<real>): Option<real> {
    var squareSum := SquareSum(rates);
    if rates == [] || squareSum <= 0.0 then None
    else Some(Index(Sum(rates), squareSum, |rates| as real))
  }

  function Index(sum: real, squareSum: real, n: real): real
    requires n > 0.0 && squareSum > 0.0
  {
    sum * sum / (n * squareSum)
  }

  predicate Positive(rates: seq<real>) {
    forall i :: 0 <= i < |rates| ==> rates[i] > 0.0
  }

  predicate AllEqual(rates: seq<real>) {
    forall i, j :: 0 <= i < |rates| && 0 <= j < |rates| ==> rates[i] == rates[j]
  }

  // ----- How far a list is from constant

  /** Sum of squared distances from x. */
  function Spread(rates: seq<real>, x: real): real {
    if rates == [] then 0.0
    else
      var d := rates[|rates| - 1] - x;
      Spread(rates[..|rates| - 1], x) + d * d
  }

  /** A list of n rates with sum s and square sum q is this far from x. */
  function Expansion(q: real, s: real, n: real, x: real): real {
    q - 2.0 * x * s + n * x * x
  }

  lemma ExpansionStep(q: real, s: real, n: real, x: real, y: real, q': real, s': real, n': real, d: real)
    requires q' == q + y * y && s' == s + y && n' == n + 1.0 && d == y - x
    ensures Expansion(q', s', n', x) == Expansion(q, s, n, x) + d * d
  {
    assert d * d == y * y - 2.0 * x * y + x * x;
    assert x * s' == x * s + x * y;
    assert n' * x * x == n * x * x + x * x;
  }

  lemma {:induction false} SpreadExpands(rates: seq<real>, x: real)
    ensures Spread(rates, x) == Expansion(SquareSum(rates), Sum(rates), |rates| as real, x)
  {
    if rates != [] {
      var init, y := rates[..|rates| - 1], rates[|rates| - 1];
      SpreadExpands(init, x);
      ExpansionStep(SquareSum(init), Sum(init), |init| as real, x, y,
        SquareSum(rates), Sum(rates), |rates| as real, y - x);
    }
  }

  lemma {:induction false} SpreadSign(rates: seq<real>, x: real)
    ensures Spread(rates, x) >= 0.0
    ensures Spread(rates, x) == 0.0 <==> forall i :: 0 <= i < |rates| ==> rates[i] == x
  {
    if rates != [] {
      var init, y := rates[..|rates| - 1], rates[|rates| - 1];
      SpreadSign(init, x);
      SquareSign(y - x, (y - x) * (y - x));
      assert forall i :: 0 <= i < |init| ==> rates[i] == init[i];
    }
  }

  lemma SquareSign(d: real, p: real)
    requires p == d * d
    ensures p >= 0.0
    ensures p == 0.0 <==> d == 0.0
  {
    var e := if d < 0.0 then -d else d;
    assert e * e == d * d;
    MulSign(e, e, p);
  }

  lemma MulSign(a: real, b: real, p: real)
    requires a >= 0.0 && b >= 0.0 && p == a * b
    ensures p >= 0.0
    ensures a > 0.0 && b > 0.0 ==> p > 0.0
  {
  }

  /** n times the square sum minus the squared sum. */
  function Defect(rates: seq<real>): real {
    |rates| as real * SquareSum(rates) - Sum(rates) * Sum(rates)
  }

  lemma DefectStep(init: seq<real>, y: real)
    ensures Defect(init + [y]) == Defect(init) + Spread(init, y)
  {
    var rates := init + [y];
    assert rates[..|rates| - 1] == init;
    var q, s, n := SquareSum(init), Sum(init), |init| as real;
    SpreadExpands(init, y);
    assert |rates| as real == n + 1.0;
    DefectAlgebra(n, q, s, y);
  }

  lemma DefectAlgebra(n: real, q: real, s: real, y: real)
    ensures (n + 1.0) * (q + y * y) - (s + y) * (s + y) == n * q - s * s + Expansion(q, s, n, y)
  {
  }

  /** Cauchy-Schwarz with its equality case. */
  lemma {:induction false} DefectSign(rates: seq<real>)
    ensures Defect(rates) >= 0.0
    ensures Defect(rates) == 0.0 <==> AllEqual(rates)
  {
    if rates != [] {
      var init, y := rates[..|rates| - 1], rates[|rates| - 1];
      assert rates == init + [y];
      DefectSign(init);
      DefectStep(init, y);
      SpreadSign(init, y);
      assert forall i :: 0 <= i < |init| ==> rates[i] == init[i];
      assert AllEqual(rates) ==> AllEqual(init);
    }
  }

  lemma {:induction false} PositiveSums(rates: seq<real>)
    requires Positive(rates)
    ensures Sum(rates) >= 0.0 && SquareSum(rates) >= 0.0
    ensures rates != [] ==> Sum(rates) > 0.0 && SquareSum(rates) > 0.0
    ensures SquareSum(rates) <= Sum(rates) * Sum(rates)
  {
    if rates != [] {
      var init, y := rates[..|rates| - 1], rates[|rates| - 1];
      PositiveSums(init);
      SumOfSquaresStep(Sum(init), SquareSum(init), y);
    }
  }

  lemma SumOfSquaresStep(s: real, q: real, y: real)
    requires s >= 0.0 && q >= 0.0 && y > 0.0 && q <= s * s
    ensures 0.0 < q + y * y <= (s + y) * (s + y)
  {
    var yy, sy := y * y, s * y;
    MulSign(s, y, sy);
    MulSign(y, y, yy);
    assert (s + y) * (s + y) == s * s + 2.0 * sy + yy;
  }

  // ----- The index

  lemma Quotient(a: real, b: real, n: real)
    requires b > 0.0 && n > 0.0
    ensures a <= n * b <==> a / (n * b) <= 1.0
    ensures a == n * b <==> a / (n * b) == 1.0
    ensures b <= a ==> 1.0 / n <= a / (n * b)
  {
    var p := n * b;
    assert p > 0.0;
    var q := a / p;
    assert q * p == a;
    if q <= 1.0 { assert q * p <= p; } else { assert q * p > p; }
    if b <= a {
      assert 1.0 / n == b / p by { assert (1.0 / n) * p == b; }
      assert b / p <= a / p;
    }
  }

  /** Between 1/n and 1, and 1 exactly for equal rates. */
  lemma JainBounds(rates: seq<real>)
    requires rates != [] && Positive(rates)
    ensures JainFairness(rates).Some?
    ensures 1.0 / |rates| as real <= JainFairness(rates).value <= 1.0
    ensures JainFairness(rates).value == 1.0 <==> AllEqual(rates)
  {
    PositiveSums(rates);
    DefectSign(rates);
    Quotient(Sum(rates) * Sum(rates), SquareSum(rates), |rates| as real);
  }

  function Scaled(rates: seq<real>, c: real): (r: seq<real>)
    ensures |r| == |rates| && forall i :: 0 <= i < |r| ==> r[i] == c * rates[i]
  {
    seq(|rates|, i requires 0 <= i < |rates| => c * rates[i])
  }

  lemma {:induction false} SumScaled(rates: seq<real>, c: real)
    ensures Sum(Scaled(rates, c)) == c * Sum(rates)
  {
    if rates != [] {
      var init, y := rates[..|rates| - 1], rates[|rates| - 1];
      var scaled := Scaled(rates, c);
      assert scaled[..|scaled| - 1] == Scaled(init, c) by {
        forall i | 0 <= i < |init| ensures scaled[i] == Scaled(init, c)[i] {
          assert init[i] == rates[i];
        }
      }
      SumScaled(init, c);
      Distribute(c, Sum(init), y);
    }
  }

  lemma Distribute(c: real, x: real, y: real)
    ensures c * x + c * y == c * (x + y)
  {
  }

  function Squares(rates: seq<real>): (r: seq<real>)
    ensures |r| == |rates| && forall i :: 0 <= i < |r| ==> r[i] == rates[i] * rates[i]
  {
    seq(|rates|, i requires 0 <= i < |rates| => rates[i] * rates[i])
  }

  lemma {:induction false} SumOfSquares(rates: seq<real>)
    ensures SquareSum(rates) == Sum(Squares(rates))
  {
    if rates != [] {
      var init := rates[..|rates| - 1];
      SumOfSquares(init);
      assert Squares(rates)[..|rates| - 1] == Squares(init) by {
        forall i | 0 <= i < |init| ensures Squares(rates)[i] == Squares(init)[i] {
          assert init[i] == rates[i];
        }
      }
    }
  }

  lemma SquaresScaled(rates: seq<real>, c: real, k: real)
    requires k == c * c
    ensures Squares(Scaled(rates, c)) == Scaled(Squares(rates), k)
  {
    var left, right := Squares(Scaled(rates, c)), Scaled(Squares(rates), k);
    forall i | 0 <= i < |rates| ensures left[i] == right[i] {
      ScaleSquare(c, rates[i], Scaled(rates, c)[i], k);
    }
  }

  lemma SquareSumScaled(rates: seq<real>, c: real, k: real)
    requires k == c * c
    ensures SquareSum(Scaled(rates, c)) == k * SquareSum(rates)
  {
    SquaresScaled(rates, c, k);
    SumOfSquares(Scaled(rates, c));
    SumOfSquares(rates);
    SumScaled(Squares(rates), k);
  }

  lemma ScaleSquare(c: real, y: real, z: real, k: real)
    requires z == c * y && k == c * c
    ensures z * z == k * (y * y)
  {
    assert z * z == c * y * z;
    assert c * y * z == c * (y * z);
    assert y * z == c * (y * y);
  }

  /** The unit of the rates does not matter. */
  lemma JainScaleInvariant(rates: seq<real>, c: real)
    requires c > 0.0 && rates != [] && Positive(rates)
    ensures JainFairness(Scaled(rates, c)) == JainFairness(rates)
  {
    var scaled := Scaled(rates, c);
    SumScaled(rates, c);
    SquareSumScaled(rates, c, c * c);
    PositiveSums(rates);
    IndexScales(Sum(rates), SquareSum(rates), |rates| as real, c, Sum(scaled), SquareSum(scaled));
  }

  lemma IndexScales(s: real, q: real, n: real, c: real, s': real, q': real)
    requires q > 0.0 && n > 0.0 && c > 0.0 && s' == c * s && q' == c * c * q
    ensures q' > 0.0 && Index(s', q', n) == Index(s, q, n)
  {
    var k, nq := c * c, n * q;
    MulSign(c, c, k);
    MulSign(k, q, q');
    MulSign(n, q, nq);
    MulSign(n, q', n * q');
    ScaleSquare(c, s, s', k);
    assert n * q' == k * nq;
    CancelFactor(s * s, nq, k, s' * s', n * q');
  }

  lemma CancelFactor(a: real, b: real, k: real, a': real, b': real)
    requires b > 0.0 && b' > 0.0 && k > 0.0 && a' == k * a && b' == k * b
    ensures a' / b' == a / b
  {
    var q := a / b;
    assert q * b == a;
    assert q * b' == k * (q * b);
  }

  // ----- What the index measures

  function Copies(x: real, n: nat): (r: seq<real>)
    ensures |r| == n && forall i :: 0 <= i < n ==> r[i] == x
  {
    seq(n, _ => x)
  }

  lemma {:induction false} SumsOfCopies(x: real, n: nat)
    ensures Sum(Copies(x, n)) == n as real * x && SquareSum(Copies(x, n)) == n as real * (x * x)
  {
    if n > 0 {
      SumsOfCopies(x, n - 1);
      assert Copies(x, n)[..n - 1] == Copies(x, n - 1);
      Distribute(x, (n - 1) as real, 1.0);
      Distribute(x * x, (n - 1) as real, 1.0);
    }
  }

  lemma ShareOfIndex(k: real, n: real, x: real, s: real, q: real)
    requires k > 0.0 && n > 0.0 && x > 0.0 && s == k * x && q == k * (x * x)
    ensures q > 0.0 && Index(s, q, n) == k / n
  {
    var xx := x * x;
    MulSign(x, x, xx);
    MulSign(k, xx, q);
    MulSign(n, q, n * q);
    ScaleSquare(x, k, s, xx);
    assert s * s == xx * (k * k);
    assert n * q == (k * xx) * n;
    CancelFactor(k, n, k * xx, s * s, n * q);
  }

  /** When only k of n devices get anything, and these the same, the index is k/n. */
  lemma IndexIsShare(k: nat, n: nat, x: real)
    requires 0 < k <= n && x > 0.0
    ensures JainFairness(Copies(x, k) + Copies(0.0, n - k)) == Some(k as real / n as real)
  {
    var served, idle := Copies(x, k), Copies(0.0, n - k);
    SumsOfCopies(x, k);
    SumsOfCopies(0.0, n - k);
    SumsSplit(served, idle);
    ShareOfIndex(k as real, n as real, x, Sum(served + idle), SquareSum(served + idle));
  }

  // ----- Order does not matter

  lemma {:induction false} SumsSplit(a: seq<real>, b: seq<real>)
    ensures Sum(a + b) == Sum(a) + Sum(b) && SquareSum(a + b) == SquareSum(a) + SquareSum(b)
  {
    if b == [] {
      assert a + b == a;
    } else {
      SumsSplit(a, b[..|b| - 1]);
      assert (a + b)[..|a + b| - 1] == a + b[..|b| - 1];
    }
  }

  lemma SumsInsert(left: seq<real>, y: real, right: seq<real>)
    ensures Sum(left + [y] + right) == Sum(left + right) + y
    ensures SquareSum(left + [y] + right) == SquareSum(left + right) + y * y
  {
    SumsSplit(left, right);
    SumsSplit(left + [y], right);
    assert (left + [y])[..|left|] == left;
  }

  /** Taking out one occurrence of y. */
  lemma TakeOut(b: seq<real>, y: real) returns (rest: seq<real>)
    requires y in b
    ensures multiset(rest) == multiset(b) - multiset{y}
    ensures Sum(b) == Sum(rest) + y && SquareSum(b) == SquareSum(rest) + y * y && |b| == |rest| + 1
  {
    var k :| 0 <= k < |b| && b[k] == y;
    var left, right := b[..k], b[k + 1..];
    rest := left + right;
    assert b == left + [y] + right;
    SumsInsert(left, y, right);
    assert multiset(b) == multiset(left) + multiset{y} + multiset(right);
  }

  lemma {:induction false} PermutedSums(a: seq<real>, b: seq<real>)
    requires multiset(a) == multiset(b)
    ensures Sum(a) == Sum(b) && SquareSum(a) == SquareSum(b) && |a| == |b|
  {
    SameLength(a, b);
    if a != [] {
      var init, y := a[..|a| - 1], a[|a| - 1];
      WithoutLast(a);
      var rest := TakeOut(b, y);
      PermutedSums(init, rest);
    }
  }

  lemma SameLength(a: seq<real>, b: seq<real>)
    requires multiset(a) == multiset(b)
    ensures |a| == |b|
    ensures a != [] ==> a[|a| - 1] in b
  {
    assert |multiset(a)| == |a| && |multiset(b)| == |b|;
    assert a != [] ==> a[|a| - 1] in multiset(b);
  }

  lemma WithoutLast(a: seq<real>)
    requires a != []
    ensures multiset(a[..|a| - 1]) == multiset(a) - multiset{a[|a| - 1]}
  {
    assert a == a[..|a| - 1] + [a[|a| - 1]];
  }

  lemma JainPermutationInvariant(a: seq<real>, b: seq<real>)
    requires multiset(a) == multiset(b)
    ensures JainFairness(a) == JainFairness(b)
  {
    PermutedSums(a, b);
  }

  // ----- Measurement windows

  datatype Sample = Sample(id: string, rate: real)

  datatype Window = Window(durationMs: int, samples: seq<Sample>)

  const WINDOW_MS := 5000
  const MINIMUM_FAIRNESS := 0.95
  const TOLERANCE := 0.000_000_000_001

  function Ids(samples: seq<Sample>): seq<string> {
    seq(|samples|, i requires 0 <= i < |samples| => samples[i].id)
  }

  function Rates(samples: seq<Sample>): seq<real> {
    seq(|samples|, i requires 0 <= i < |samples| => samples[i].rate)
  }

  /** Five seconds long, and a positive rate for every device of the fleet exactly once. */
  ghost predicate CoversFleet(w: Window, fleet: set<string>) {
    && w.durationMs == WINDOW_MS
    && Distinct(Ids(w.samples)) && (set id | id in Ids(w.samples)) == fleet
    && Positive(Rates(w.samples))
  }

  ghost predicate Fair(w: Window) {
    var fairness := JainFairness(Rates(w.samples));
    fairness.Some? && fairness.value + TOLERANCE >= MINIMUM_FAIRNESS
  }

  lemma {:induction false} DistinctCount(s: seq<string>)
    requires Distinct(s)
    ensures |set id | id in s| == |s|
  {
    if s != [] {
      var init := s[..|s| - 1];
      DistinctCount(init);
      assert (set id | id in s) == (set id | id in init) + {s[|s| - 1]};
    }
  }

  lemma SameSizeSubset<T>(s: set<T>, t: set<T>)
    requires s <= t && |s| == |t|
    ensures s == t
  {
    assert t == s + (t - s);
  }

  /** The part of a window that has been read: distinct known devices with positive rates. */
  ghost predicate GoodPrefix(samples: seq<Sample>, i: nat, fleet: set<string>, seen: set<string>)
    requires i <= |samples|
  {
    && (forall k :: 0 <= k < i ==> samples[k].rate > 0.0 && samples[k].id in seen)
    && (forall j, k :: 0 <= j < k < i ==> samples[j].id != samples[k].id)
    && (forall id :: id in seen ==> id in fleet && exists k :: 0 <= k < i && samples[k].id == id)
  }

  lemma GoodPrefixCovers(samples: seq<Sample>, fleet: set<string>, seen: set<string>)
    requires GoodPrefix(samples, |samples|, fleet, seen) && |samples| == |fleet|
    ensures CoversFleet(Window(WINDOW_MS, samples), fleet)
  {
    var ids := Ids(samples);
    assert Distinct(ids);
    DistinctCount(ids);
    assert (set id | id in ids) <= fleet;
    SameSizeSubset((set id | id in ids), fleet);
  }

  lemma CoversFleetFacts(w: Window, fleet: set<string>)
    requires CoversFleet(w, fleet)
    ensures |w.samples| == |fleet|
    ensures forall k :: 0 <= k < |w.samples| ==> w.samples[k].rate > 0.0 && w.samples[k].id in fleet
    ensures forall j, k :: 0 <= j < k < |w.samples| ==> w.samples[j].id != w.samples[k].id
  {
    var ids := Ids(w.samples);
    DistinctCount(ids);
    assert forall k :: 0 <= k < |ids| ==> ids[k] == w.samples[k].id && ids[k] in ids;
    assert forall k :: 0 <= k < |ids| ==> Rates(w.samples)[k] == w.samples[k].rate;
  }

  method CheckWindow(w: Window, fleet: set<string>) returns (rates: Option<seq<real>>)
    ensures rates.Some? <==> CoversFleet(w, fleet)
    ensures rates.Some? ==> rates.value == Rates(w.samples)
  {
    if CoversFleet(w, fleet) { CoversFleetFacts(w, fleet); }
    if w.durationMs != 5000 || |w.samples| != |fleet| { return None; }
    var seen: set<string> := {};
    var numeric: seq<real> := [];
    for i := 0 to |w.samples|
      invariant numeric == Rates(w.samples)[..i]
      invariant GoodPrefix(w.samples, i, fleet, seen)
    {
      var sample := w.samples[i];
      if sample.id !in fleet || sample.id in seen { return None; }
      seen := seen + {sample.id};
      if sample.rate <= 0.0 { return None; }
      numeric := numeric + [sample.rate];
    }
    GoodPrefixCovers(w.samples, fleet, seen);
    return Some(numeric);
  }

  /** Accepts exactly the non-empty lists of fair windows over the fleet and returns the least fairness among them. */
  method MinimumFairness(windows: seq<Window>, fleet: set<string>) returns (r: Option<real>)
    ensures r.Some? <==> windows != [] && forall w :: w in windows ==> CoversFleet(w, fleet) && Fair(w)
    ensures r.Some? ==> exists w :: w in windows && JainFairness(Rates(w.samples)) == r
    ensures r.Some? ==> forall w :: w in windows ==> r.value <= JainFairness(Rates(w.samples)).value
  {
    if windows == [] { return None; }
    var minimum := 1.0;
    for i := 0 to |windows|
      invariant forall k :: 0 <= k < i ==> CoversFleet(windows[k], fleet) && Fair(windows[k])
      invariant forall k :: 0 <= k < i ==> minimum <= JainFairness(Rates(windows[k].samples)).value
      invariant i == 0 ==> minimum == 1.0
      invariant i > 0 ==> exists k :: 0 <= k < i && JainFairness(Rates(windows[k].samples)) == Some(minimum)
    {
      var rates := CheckWindow(windows[i], fleet);
      if rates.None? { return None; }
      var fairness := JainFairness(rates.value);
      if fairness.None? { return None; }
      JainBounds(rates.value);
      minimum := if fairness.value < minimum then fairness.value else minimum;
      assert i == 0 ==> JainFairness(Rates(windows[0].samples)) == Some(minimum);
      if fairness.value + 0.000_000_000_001 < 0.95 { return None; }
    }
    return Some(minimum);
  }
}
