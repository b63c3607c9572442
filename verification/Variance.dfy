/** The sample variance in one pass, over exact reals. */
module Variance {
  import opened Prelude

  function SumOf(s: seq<real>, f: real -> real): real {
    if s == [] then 0.0 else SumOf(s[..|s| - 1], f) + f(s[|s| - 1])
  }

  function Times(a: real, b: real): real { a * b }

  function Sq(x: real): real { x * x }

  function Same(): real -> real { x => x }

  function Square(): real -> real { x => Sq(x) }

  function SquaredDistance(m: real): real -> real { x => Sq(x - m) }

  function Mean(s: seq<real>): real
    requires s != []
  {
    SumOf(s, Same()) / |s| as real
  }

  /** The definition in two passes: the mean first, then the squared deviations from it. */
  function TwoPass(s: seq<real>): real
    requires s != []
  {
    SumOf(s, SquaredDistance(Mean(s)))
  }

  /** One more sample x, the n-th, when the samples up to it sum to t. */
  function Increment(n: real, x: real, t: real): real
    requires n >= 2.0
  {
    Sq(n * x - t) / (n * (n - 1.0))
  }

  function OnePass(s: seq<real>): real {
    if |s| < 2 then 0.0
    else OnePass(s[..|s| - 1]) + Increment(|s| as real, s[|s| - 1], SumOf(s, Same()))
  }

  // ---------- arithmetic ----------

  /** For n samples with sum t and sum of squares q, the squared distances from m add up to this. */
  function Shifted(n: real, q: real, t: real, m: real): real {
    q - 2.0 * m * t + n * m * m
  }

  /** n times the sum of the squared distances from the mean. */
  function Moments(n: real, q: real, t: real): real {
    n * q - t * t
  }

  lemma ShiftedStep(n: real, q: real, t: real, m: real, x: real)
    ensures Shifted(n + 1.0, q + Sq(x), t + x, m) == Shifted(n, q, t, m) + Sq(x - m)
  {
    assert Sq(x - m) == x * x - 2.0 * m * x + m * m;
    assert 2.0 * m * (t + x) == 2.0 * m * t + 2.0 * m * x;
    assert (n + 1.0) * m * m == n * m * m + m * m;
  }

  lemma ShiftedAtMean(n: real, q: real, t: real, m: real)
    requires n > 0.0 && m == t / n
    ensures Times(n, Shifted(n, q, t, m)) == Moments(n, q, t)
  {
    assert n * m == t;
    assert n * (2.0 * m * t) == 2.0 * t * (n * m);
    assert n * (n * m * m) == (n * m) * (n * m);
  }

  /** The increment brings the moments of i samples to those of i + 1. */
  lemma MomentsStep(i: real, v: real, q: real, t: real, x: real)
    requires i >= 1.0 && Times(i, v) == Moments(i, q, t)
    ensures Times(i + 1.0, v + Increment(i + 1.0, x, t + x)) == Moments(i + 1.0, q + Sq(x), t + x)
  {
    hide Times; hide Moments; hide Increment; hide Sq;
    Cleared(i, x, t + x);
    Expanded(i, v, q, t, x, Increment(i + 1.0, x, t + x));
  }

  lemma Cleared(i: real, x: real, t: real)
    requires i >= 1.0
    ensures Times(Increment(i + 1.0, x, t), Times(i + 1.0, i)) == Sq(Times(i + 1.0, x) - t)
  {
    var den, num := Times(i + 1.0, i), Sq(Times(i + 1.0, x) - t);
    assert den > 0.0;
    Divided(num, den);
  }

  lemma Divided(num: real, den: real)
    requires den > 0.0
    ensures num / den * den == num
  {
  }

  lemma Expanded(i: real, v: real, q: real, t: real, x: real, d: real)
    requires i >= 1.0 && Times(i, v) == Moments(i, q, t)
    requires Times(d, Times(i + 1.0, i)) == Sq(Times(i + 1.0, x) - (t + x))
    ensures Times(i + 1.0, v + d) == Moments(i + 1.0, q + Sq(x), t + x)
  {
    hide Times; hide Moments; hide Sq;
    LeftScaled(i, v, d);
    MomentsAre(i, q, t);
    Distributes(i, Times(i, q), Times(t, t));
    SquareIs(i, x, t);
    RightScaled(i, q, t, x);
    Cancel(i, Times(i + 1.0, v + d), Moments(i + 1.0, q + Sq(x), t + x));
  }

  lemma LeftScaled(i: real, v: real, d: real)
    ensures Times(i, Times(i + 1.0, v + d)) == Times(i, Times(i, v)) + Times(i, v) + Times(d, Times(i + 1.0, i))
  {
    var w := v + d;
    assert (i + 1.0) * w == i * w + w;
    assert i * w == i * v + i * d;
    assert i * (i * w + w) == i * (i * w) + i * w;
    assert i * (i * v + i * d) == i * (i * v) + i * (i * d);
    assert d * ((i + 1.0) * i) == i * (i * d) + i * d;
  }

  lemma MomentsAre(n: real, q: real, t: real)
    ensures Moments(n, q, t) == Times(n, q) - Times(t, t)
  {
  }

  lemma Distributes(i: real, a: real, b: real)
    ensures Times(i, a - b) == Times(i, a) - Times(i, b)
  {
  }

  lemma SquareIs(i: real, x: real, t: real)
    ensures Sq(Times(i + 1.0, x) - (t + x)) == Times(i, Times(i, Sq(x))) - 2.0 * Times(i, Times(t, x)) + Times(t, t)
  {
    var c := i * x;
    assert (i + 1.0) * x - (t + x) == c - t;
    assert (c - t) * (c - t) == c * c - 2.0 * (c * t) + t * t;
    assert c * c == i * (i * (x * x));
    assert c * t == i * (t * x);
  }

  lemma RightScaled(i: real, q: real, t: real, x: real)
    ensures Times(i, Moments(i + 1.0, q + Sq(x), t + x)) ==
            Times(i, Times(i, q)) + Times(i, q) + Times(i, Times(i, Sq(x))) -
            Times(i, Times(t, t)) - 2.0 * Times(i, Times(t, x))
  {
    var xx := x * x;
    assert (i + 1.0) * (q + xx) == i * q + q + (i * xx + xx);
    assert (t + x) * (t + x) == t * t + 2.0 * (t * x) + xx;
    assert i * (i * q + q + (i * xx + xx) - (t * t + 2.0 * (t * x) + xx)) ==
           i * (i * q) + i * q + i * (i * xx) - i * (t * t) - 2.0 * (i * (t * x));
  }

  lemma SqIsPositive(x: real)
    ensures Sq(x) >= 0.0 && (Sq(x) == 0.0 <==> x == 0.0)
  {
    if Sq(x) == 0.0 && x != 0.0 {
      ZeroFactor(x, x);
    }
  }

  lemma ZeroFactor(x: real, y: real)
    requires y != 0.0 && x * y == 0.0
    ensures x == 0.0
  {
    assert x == x * y / y;
  }

  lemma Cancel(n: real, a: real, b: real)
    requires n > 0.0 && Times(n, a) == Times(n, b)
    ensures a == b
  {
  }

  // ---------- one pass computes the two-pass sum ----------

  lemma {:induction false} ShiftedSquares(s: seq<real>, m: real)
    ensures SumOf(s, SquaredDistance(m)) == Shifted(|s| as real, SumOf(s, Square()), SumOf(s, Same()), m)
  {
    if s == [] {
    } else {
      hide Sq; hide Shifted;
      var front, x := s[..|s| - 1], s[|s| - 1];
      ShiftedSquares(front, m);
      ShiftedStep(|front| as real, SumOf(front, Square()), SumOf(front, Same()), m, x);
    }
  }

  lemma TwoPassByMoments(s: seq<real>)
    requires s != []
    ensures Times(|s| as real, TwoPass(s)) == Moments(|s| as real, SumOf(s, Square()), SumOf(s, Same()))
  {
    hide Sq; hide Shifted; hide Times; hide Moments;
    ShiftedSquares(s, Mean(s));
    ShiftedAtMean(|s| as real, SumOf(s, Square()), SumOf(s, Same()), Mean(s));
  }

  lemma {:induction false} OnePassByMoments(s: seq<real>)
    requires s != []
    ensures Times(|s| as real, OnePass(s)) == Moments(|s| as real, SumOf(s, Square()), SumOf(s, Same()))
  {
    var front, x := s[..|s| - 1], s[|s| - 1];
    if front == [] {
      assert SumOf(front, Same()) == 0.0 && SumOf(front, Square()) == 0.0;
    } else {
      hide Sq; hide Times; hide Moments; hide Increment;
      OnePassByMoments(front);
      MomentsStep(|front| as real, OnePass(front), SumOf(front, Square()), SumOf(front, Same()), x);
    }
  }

  /** The running form loses nothing. */
  lemma OnePassIsTwoPass(s: seq<real>)
    requires s != []
    ensures OnePass(s) == TwoPass(s)
  {
    hide Times; hide Moments; hide OnePass; hide TwoPass;
    OnePassByMoments(s);
    TwoPassByMoments(s);
    Cancel(|s| as real, OnePass(s), TwoPass(s));
  }

  // ---------- what the result means ----------

  lemma {:induction false} SquaresAddUp(s: seq<real>, m: real)
    ensures SumOf(s, SquaredDistance(m)) >= 0.0
    ensures SumOf(s, SquaredDistance(m)) == 0.0 <==> forall i :: 0 <= i < |s| ==> s[i] == m
  {
    hide Sq;
    if s != [] {
      var front, x := s[..|s| - 1], s[|s| - 1];
      SquaresAddUp(front, m);
      SqIsPositive(x - m);
      assert s == front + [x];
    }
  }

  /** The running sum is never negative, and 0 only if the samples do not vary. */
  lemma ZeroIffConstant(s: seq<real>)
    requires s != []
    ensures OnePass(s) >= 0.0
    ensures OnePass(s) == 0.0 <==> forall i :: 0 <= i < |s| ==> s[i] == Mean(s)
  {
    OnePassIsTwoPass(s);
    SquaresAddUp(s, Mean(s));
  }

  lemma {:induction false} SumWithout(s: seq<real>, f: real -> real, k: nat)
    requires k < |s|
    ensures SumOf(s, f) == SumOf(RemoveAt(s, k), f) + f(s[k])
  {
    var last := |s| - 1;
    if k == last {
      assert RemoveAt(s, k) == s[..last];
    } else {
      SumWithout(s[..last], f, k);
      assert RemoveAt(s, k)[..last - 1] == RemoveAt(s[..last], k);
    }
  }

  lemma {:induction false} SumOfPermutation(a: seq<real>, b: seq<real>, f: real -> real)
    requires multiset(a) == multiset(b)
    ensures SumOf(a, f) == SumOf(b, f)
    decreases |a|
  {
    assert |a| == |multiset(a)| == |multiset(b)| == |b|;
    if a != [] {
      var front, x := a[..|a| - 1], a[|a| - 1];
      assert a == front + [x];
      assert x in multiset(b);
      var k :| 0 <= k < |b| && b[k] == x;
      assert b == b[..k] + [x] + b[k + 1..];
      assert multiset(RemoveAt(b, k)) == multiset(b) - multiset{x};
      SumOfPermutation(front, RemoveAt(b, k), f);
      SumWithout(b, f, k);
    }
  }

  /** The order of the samples does not matter. */
  lemma OrderDoesNotMatter(a: seq<real>, b: seq<real>)
    requires multiset(a) == multiset(b) && a != []
    ensures b != [] && OnePass(a) == OnePass(b)
  {
    assert |a| == |multiset(a)| == |multiset(b)| == |b|;
    SumOfPermutation(a, b, Same());
    SumOfPermutation(a, b, SquaredDistance(Mean(a)));
    OnePassIsTwoPass(a);
    OnePassIsTwoPass(b);
  }

  // ---------- the program ----------

  lemma SameIncrement(i: nat, x: real, t: real)
    requires i >= 1
    ensures var diff := (i + 1) as real * x - t;
            diff * diff / ((i as real + 1.0) * i as real) == Increment((i + 1) as real, x, t)
  {
  }

  method Average(samples: seq<real>) returns (avg: real)
    requires samples != []
    ensures avg == Mean(samples)
  {
    var size := |samples|;
    avg := 0.0;
    for i := 0 to size
      invariant avg == SumOf(samples[..i], Same())
    {
      assert samples[..i + 1][..i] == samples[..i];
      avg := avg + samples[i];
    }
    assert samples[..size] == samples;
    avg := avg / size as real;
  }

  /** The running loop. */
  method SumOfSquares(samples: seq<real>) returns (variance: real)
    requires samples != []
    ensures variance == OnePass(samples)
  {
    hide Increment; hide Sq;
    var size := |samples|;
    variance := 0.0;
    var t := samples[0];
    assert samples[..1][..0] == [] && SumOf(samples[..1], Same()) == SumOf([], Same()) + samples[0];
    for i := 1 to size
      invariant t == SumOf(samples[..i], Same()) && variance == OnePass(samples[..i])
    {
      assert samples[..i + 1][..i] == samples[..i];
      t := t + samples[i];
      var diff := (i + 1) as real * samples[i] - t;
      SameIncrement(i, samples[i], t);
      variance := variance + diff * diff / ((i as real + 1.0) * i as real);
    }
    assert samples[..size] == samples;
  }

  /** @return  the mean and the sample variance (the square of the standard deviation) */
  method AvgAndVariance(samples: seq<real>) returns (avg: real, stdVar: real)
    requires |samples| >= 2
    ensures avg == Mean(samples)
    ensures stdVar == TwoPass(samples) / (|samples| - 1) as real
  {
    avg := Average(samples);
    var variance := SumOfSquares(samples);
    OnePassIsTwoPass(samples);
    stdVar := variance / (|samples| - 1) as real;
  }
}
