/**
 * The exact two-sided sign test that guards against performance regressions.
 * The reference is its definition by counting: among all equally likely sign
 * vectors, the fraction at least as one-sided as the observed one.
 */
module SignTest {
  import opened Common

  // ----- The computation (samples are exact reals)

  function Choose(n: nat, k: int): nat {
    if k < 0 || k > n then 0
    else if n == 0 then 1
    else Choose(n - 1, k - 1) + Choose(n - 1, k)
  }

  /** Sum of the binomial coefficients 0..tail of row n. */
  function TailSum(n: nat, tail: int): nat {
    if tail < 0 then 0 else TailSum(n, tail - 1) + Choose(n, tail)
  }

  /** Pairs whose first sample is the larger one. */
  function Wins(left: seq<real>, right: seq<real>): nat
    requires |left| == |right|
  {
    if left == [] then 0
    else Wins(left[1..], right[1..]) + (if left[0] > right[0] then 1 else 0)
  }

  /** The value before it is clamped to one. */
  function Unclamped(n: nat, tail: nat): real {
    2.0 * (TailSum(n, tail) as real) / (Pow2(n) as real)
  }

  /** None when the sample counts differ. */
  function PairedSignTestPValue(left: seq<real>, right: seq<real>): Option<real> {
    if |left| != |right| then None
    else
      var positive := Wins(left, right);
      var negative := Wins(right, left);
      var count := positive + negative;
      if count == 0 then Some(1.0)
      else
        var tail := Min(positive, negative);
        Some(if Unclamped(count, tail) < 1.0 then Unclamped(count, tail) else 1.0)
  }

  // ----- The reference: counting sign vectors

  ghost predicate AreVectors(s: set<seq<bool>>, n: nat) {
    forall v {:trigger v in s} :: v in s <==> |v| == n
  }

  /** All vectors of n signs. */
  ghost function Vectors(n: nat): (s: set<seq<bool>>)
    ensures AreVectors(s, n)
  {
    VectorsExist(n);
    var s :| AreVectors(s, n);
    s
  }

  lemma {:induction false} VectorsExist(n: nat)
    ensures exists s :: AreVectors(s, n)
  {
    if n == 0 {
      assert AreVectors({[]}, 0);
    } else {
      VectorsExist(n - 1);
      var shorter :| AreVectors(shorter, n - 1);
      AppendedMembers(shorter, true);
      AppendedMembers(shorter, false);
      assert AreVectors(Appended(shorter, true) + Appended(shorter, false), n);
    }
  }

  ghost function Appended(s: set<seq<bool>>, b: bool): set<seq<bool>> {
    set v | v in s :: v + [b]
  }

  lemma AppendedMembers(s: set<seq<bool>>, b: bool)
    ensures forall v {:trigger v in Appended(s, b)} :: v in Appended(s, b) <==> |v| > 0 && v[|v| - 1] == b && v[..|v| - 1] in s
  {
    forall v ensures v in Appended(s, b) <==> |v| > 0 && v[|v| - 1] == b && v[..|v| - 1] in s {
      if v in Appended(s, b) {
        var w :| w in s && v == w + [b];
        assert v[..|v| - 1] == w;
      }
      if |v| > 0 && v[|v| - 1] == b && v[..|v| - 1] in s {
        assert v == v[..|v| - 1] + [b];
      }
    }
  }

  function Positives(v: seq<bool>): nat {
    if v == [] then 0 else Positives(v[..|v| - 1]) + (if v[|v| - 1] then 1 else 0)
  }

  /** At most `tail` signs disagree with the majority. */
  predicate AsExtreme(v: seq<bool>, tail: nat) {
    Positives(v) <= tail || |v| - Positives(v) <= tail
  }

  ghost function Extreme(n: nat, tail: nat): set<seq<bool>> {
    set v | v in Vectors(n) && AsExtreme(v, tail)
  }

  ghost function WithPositives(n: nat, k: int): set<seq<bool>> {
    set v | v in Vectors(n) && Positives(v) == k
  }

  // ----- Counting lemmas

  lemma DisjointUnionSize<T>(a: set<T>, b: set<T>, c: set<T>)
    requires a !! b && c == a + b
    ensures |c| == |a| + |b|
  {
  }

  lemma {:induction false} AppendedSize(s: set<seq<bool>>, b: bool)
    ensures |Appended(s, b)| == |s|
  {
    if s != {} {
      var v :| v in s;
      var rest := s - {v};
      AppendedSize(rest, b);
      AppendedMembers(s, b);
      AppendedMembers(rest, b);
      assert (v + [b])[..|v|] == v;
      forall w ensures w in Appended(s, b) <==> w in Appended(rest, b) + {v + [b]} {
        if w in Appended(s, b) && w[..|w| - 1] == v { assert w == v + [b]; }
      }
      assert Appended(s, b) == Appended(rest, b) + {v + [b]};
    }
  }

  lemma {:induction false} VectorCount(n: nat)
    ensures |Vectors(n)| == Pow2(n)
  {
    if n == 0 {
      assert Vectors(0) == {[]};
    } else {
      VectorCount(n - 1);
      VectorsDouble(n);
    }
  }

  lemma VectorsDouble(n: nat)
    requires n > 0
    ensures |Vectors(n)| == 2 * |Vectors(n - 1)|
  {
    var shorter := Vectors(n - 1);
    AppendedMembers(shorter, true);
    AppendedMembers(shorter, false);
    assert Vectors(n) == Appended(shorter, true) + Appended(shorter, false);
    AppendedSize(shorter, true);
    AppendedSize(shorter, false);
    DisjointEnds(shorter, shorter);
    DisjointUnionSize(Appended(shorter, true), Appended(shorter, false), Vectors(n));
  }

  lemma DisjointEnds(s: set<seq<bool>>, t: set<seq<bool>>)
    ensures Appended(s, true) !! Appended(t, false)
  {
    AppendedMembers(s, true);
    AppendedMembers(t, false);
  }

  lemma {:induction false} PositivesBound(v: seq<bool>)
    ensures 0 <= Positives(v) <= |v|
  {
    if v != [] { PositivesBound(v[..|v| - 1]); }
  }

  /** Binomial coefficients count vectors by their positive signs. */
  lemma {:induction false} ChooseCounts(n: nat, k: int)
    ensures |WithPositives(n, k)| == Choose(n, k)
  {
    if k < 0 || k > n {
      forall v | v in Vectors(n) ensures Positives(v) != k { PositivesBound(v); }
      assert WithPositives(n, k) == {};
    } else if n == 0 {
      assert WithPositives(n, k) == {[]};
    } else {
      ChooseCounts(n - 1, k - 1);
      ChooseCounts(n - 1, k);
      SplitByLastSign(n, k);
    }
  }

  lemma SplitByLastSign(n: nat, k: int)
    requires n > 0
    ensures |WithPositives(n, k)| == |WithPositives(n - 1, k - 1)| + |WithPositives(n - 1, k)|
  {
    var up, down := WithPositives(n - 1, k - 1), WithPositives(n - 1, k);
    AppendedMembers(up, true);
    AppendedMembers(down, false);
    assert WithPositives(n, k) == Appended(up, true) + Appended(down, false);
    AppendedSize(up, true);
    AppendedSize(down, false);
    DisjointEnds(up, down);
    DisjointUnionSize(Appended(up, true), Appended(down, false), WithPositives(n, k));
  }

  lemma {:induction false} ChooseSymmetric(n: nat, k: int)
    ensures Choose(n, k) == Choose(n, n - k)
    ensures 0 <= k <= n ==> Choose(n, k) > 0
  {
    if n > 0 && 0 <= k <= n {
      ChooseSymmetric(n - 1, k - 1);
      ChooseSymmetric(n - 1, k);
    }
  }

  /** The vectors with exactly `tail` signs of one kind. */
  ghost function Shell(n: nat, tail: nat): set<seq<bool>> {
    WithPositives(n, tail) + WithPositives(n, n - tail)
  }

  lemma ShellParts(n: nat, tail: nat)
    requires 2 * tail < n
    ensures |Shell(n, tail)| == |WithPositives(n, tail)| + |WithPositives(n, n - tail)|
  {
    DisjointUnionSize(WithPositives(n, tail), WithPositives(n, n - tail), Shell(n, tail));
  }

  /** One more minority sign adds one shell. */
  lemma ExtremeGrows(n: nat, tail: nat)
    requires 2 * tail <= n
    ensures |Extreme(n, tail)| == |Shell(n, tail)| + (if tail == 0 then 0 else |Extreme(n, tail - 1)|)
  {
    forall v | v in Vectors(n) ensures 0 <= Positives(v) <= |v| == n { PositivesBound(v); }
    if tail == 0 {
      assert Extreme(n, tail) == Shell(n, tail);
    } else {
      assert Extreme(n, tail) == Extreme(n, tail - 1) + Shell(n, tail);
      DisjointUnionSize(Extreme(n, tail - 1), Shell(n, tail), Extreme(n, tail));
    }
  }

  lemma ExtremeStep(n: nat, tail: nat)
    requires 2 * tail < n
    ensures |Extreme(n, tail)| == 2 * Choose(n, tail) + (if tail == 0 then 0 else |Extreme(n, tail - 1)|)
  {
    ExtremeGrows(n, tail);
    ShellParts(n, tail);
    ChooseCounts(n, tail);
    ChooseCounts(n, n - tail);
    ChooseSymmetric(n, tail);
  }

  /** Below the middle, the two tails are disjoint and of equal size. */
  lemma {:induction false} ExtremeCount(n: nat, tail: nat)
    requires 2 * tail < n
    ensures |Extreme(n, tail)| == 2 * TailSum(n, tail)
  {
    ExtremeStep(n, tail);
    if tail > 0 { ExtremeCount(n, tail - 1); }
    assert TailSum(n, tail) == TailSum(n, tail - 1) + Choose(n, tail);
  }

  lemma MiddleIsAll(n: nat, tail: nat)
    requires 2 * tail == n
    ensures Extreme(n, tail) == Vectors(n) && Shell(n, tail) == WithPositives(n, tail)
  {
    forall v | v in Vectors(n) ensures v in Extreme(n, tail) { PositivesBound(v); }
  }

  /** At the middle every vector is extreme, and the two tails overlap in it. */
  lemma MiddleTail(n: nat, tail: nat)
    requires 2 * tail == n
    ensures Extreme(n, tail) == Vectors(n)
    ensures 2 * TailSum(n, tail) == Pow2(n) + Choose(n, tail) > Pow2(n)
  {
    MiddleIsAll(n, tail);
    VectorCount(n);
    ChooseCounts(n, tail);
    ChooseSymmetric(n, tail);
    if tail == 0 {
      assert TailSum(0, 0) == 1;
    } else {
      ExtremeCount(n, tail - 1);
      ExtremeGrows(n, tail);
    }
  }

  lemma SubsetSize<T>(s: set<T>, t: set<T>)
    requires s <= t
    ensures |s| <= |t|
    ensures s != t ==> |s| < |t|
  {
    assert t == s + (t - s);
    assert s != t ==> t - s != {};
  }

  // ----- Main results

  /** The fraction of sign vectors at least as extreme as one with `tail` minority signs. */
  ghost function PValue(n: nat, tail: nat): real {
    |Extreme(n, tail)| as real / Pow2(n) as real
  }

  /** Twice the tail sum against the number of all vectors. */
  lemma TailAgainstAll(n: nat, tail: nat)
    requires 2 * tail <= n
    ensures 2 * TailSum(n, tail) > Pow2(n) <==> 2 * tail == n
    ensures |Extreme(n, tail)| == Min(2 * TailSum(n, tail), Pow2(n))
  {
    VectorCount(n);
    if 2 * tail == n {
      MiddleTail(n, tail);
    } else {
      ExtremeCount(n, tail);
      SubsetSize(Extreme(n, tail), Vectors(n));
    }
  }

  lemma UnclampedFraction(n: nat, tail: nat)
    ensures Unclamped(n, tail) == (2 * TailSum(n, tail)) as real / Pow2(n) as real
    ensures Unclamped(n, tail) > 1.0 <==> 2 * TailSum(n, tail) > Pow2(n)
  {
    assert 2.0 * TailSum(n, tail) as real == (2 * TailSum(n, tail)) as real;
    FractionRange(2 * TailSum(n, tail), Pow2(n));
  }

  /** The clamped sum as a fraction of all vectors. */
  lemma ClampedFraction(n: nat, tail: nat)
    requires 2 * tail <= n
    ensures PValue(n, tail) == if Unclamped(n, tail) < 1.0 then Unclamped(n, tail) else 1.0
  {
    TailAgainstAll(n, tail);
    UnclampedFraction(n, tail);
    FractionRange(|Extreme(n, tail)|, Pow2(n));
  }

  /** The clamped sum is the exact fraction of sign vectors at least as extreme as the observed one. */
  lemma SignTestMeaning(left: seq<real>, right: seq<real>)
    requires |left| == |right|
    ensures var positive, negative := Wins(left, right), Wins(right, left);
            PairedSignTestPValue(left, right) == Some(PValue(positive + negative, Min(positive, negative)))
  {
    var positive, negative := Wins(left, right), Wins(right, left);
    ClampedFraction(positive + negative, Min(positive, negative));
    if positive + negative == 0 { assert Unclamped(0, 0) == 2.0 by { assert TailSum(0, 0) == 1 && Pow2(0) == 1; } }
  }

  /** Before clamping the value exceeds one exactly when wins and losses are equal in number. */
  lemma UnclampedExceedsOne(positive: nat, negative: nat)
    ensures Unclamped(positive + negative, Min(positive, negative)) > 1.0 <==> positive == negative
  {
    var n, tail := positive + negative, Min(positive, negative);
    TailAgainstAll(n, tail);
    UnclampedFraction(n, tail);
  }

  /** The p-value lies in (0, 1], and is one exactly when the counts differ by at most one. */
  lemma PValueRange(n: nat, tail: nat)
    requires 2 * tail <= n
    ensures 0.0 < PValue(n, tail) <= 1.0
    ensures PValue(n, tail) == 1.0 <==> n <= 2 * tail + 1
  {
    VectorCount(n);
    FractionRange(|Extreme(n, tail)|, Pow2(n));
    SubsetSize(Extreme(n, tail), Vectors(n));
    var v := VectorWithPositives(n, tail);
    assert v in Extreme(n, tail);
    if n > 2 * tail + 1 {
      var w := VectorWithPositives(n, tail + 1);
      assert w in Vectors(n) && w !in Extreme(n, tail);
    } else {
      forall u | u in Vectors(n) ensures u in Extreme(n, tail) { PositivesBound(u); }
      assert Extreme(n, tail) == Vectors(n);
    }
  }

  lemma VectorWithPositives(n: nat, k: nat) returns (v: seq<bool>)
    requires k <= n
    ensures v in Vectors(n) && Positives(v) == k
  {
    ChooseCounts(n, k);
    ChooseSymmetric(n, k);
    v :| v in WithPositives(n, k);
  }

  /** For a fixed number of untied pairs the p-value grows strictly with the smaller tail. */
  lemma PValueGrows(n: nat, tail: nat, larger: nat)
    requires tail < larger && 2 * larger <= n
    ensures PValue(n, tail) < PValue(n, larger)
  {
    var v := VectorWithPositives(n, larger);
    assert v in Extreme(n, larger) && v !in Extreme(n, tail);
    SubsetSize(Extreme(n, tail), Extreme(n, larger));
    FractionGrows(|Extreme(n, tail)|, |Extreme(n, larger)|, Pow2(n));
  }

  lemma FractionRange(a: nat, b: nat)
    requires b > 0
    ensures 0.0 < a as real / b as real <==> a > 0
    ensures a as real / b as real <= 1.0 <==> a <= b
    ensures a as real / b as real == 1.0 <==> a == b
  {
  }

  lemma FractionGrows(a: nat, b: nat, c: nat)
    requires a < b && c > 0
    ensures a as real / c as real < b as real / c as real
  {
  }

  /** Swapping the two samples changes nothing. */
  lemma SignTestSymmetric(left: seq<real>, right: seq<real>)
    ensures PairedSignTestPValue(left, right) == PairedSignTestPValue(right, left)
  {
  }

  /** Dropping a tied pair changes nothing. */
  lemma {:induction false} SignTestIgnoresTie(left: seq<real>, right: seq<real>, i: nat)
    requires |left| == |right| && i < |left| && left[i] == right[i]
    ensures PairedSignTestPValue(left, right)
         == PairedSignTestPValue(left[..i] + left[i + 1..], right[..i] + right[i + 1..])
  {
    WinsIgnoreTie(left, right, i);
    WinsIgnoreTie(right, left, i);
  }

  lemma {:induction false} WinsIgnoreTie(left: seq<real>, right: seq<real>, i: nat)
    requires |left| == |right| && i < |left| && left[i] == right[i]
    ensures Wins(left, right) == Wins(left[..i] + left[i + 1..], right[..i] + right[i + 1..])
  {
    var l, r := left[..i] + left[i + 1..], right[..i] + right[i + 1..];
    if i == 0 {
      assert l == left[1..] && r == right[1..];
    } else {
      WinsIgnoreTie(left[1..], right[1..], i - 1);
      assert l[1..] == left[1..][..i - 1] + left[1..][i..];
      assert r[1..] == right[1..][..i - 1] + right[1..][i..];
    }
  }

  /** Every accepted pair of samples gets a p-value in (0, 1]. */
  lemma SignTestRange(left: seq<real>, right: seq<real>)
    ensures PairedSignTestPValue(left, right).Some? <==> |left| == |right|
    ensures |left| == |right| ==> 0.0 < PairedSignTestPValue(left, right).value <= 1.0
  {
    if |left| == |right| {
      SignTestMeaning(left, right);
      PValueRange(Wins(left, right) + Wins(right, left), Min(Wins(left, right), Wins(right, left)));
    }
  }
}
