/** The fairness index of the throughput graph (scripts/pcap-tpt-graph.py). Throughputs and times are
    exact reals. */
module JainIndex {
  function Times(x: real, y: real): real {
    x * y
  }

  lemma Positive(x: real, y: real)
    requires x > 0.0 && y > 0.0
    ensures Times(x, y) > 0.0
  {
  }

  lemma NegateBoth(x: real, y: real)
    ensures Times(-x, -y) == Times(x, y)
  {
  }

  function Sq(x: real): (y: real)
    ensures y >= 0.0 && (y == 0.0 <==> x == 0.0)
  {
    hide Times;
    SquareSign(x);
    Times(x, x)
  }

  lemma SquareSign(x: real)
    ensures Times(x, x) >= 0.0 && (Times(x, x) == 0.0 <==> x == 0.0)
  {
    if x == 0.0 {
      assert Times(0.0, 0.0) == 0.0;
    } else {
      hide Times;
      if x > 0.0 {
        Positive(x, x);
      } else {
        Positive(-x, -x);
        NegateBoth(x, x);
      }
    }
  }

  function Sum(xs: seq<real>): real {
    if xs == [] then 0.0 else Sum(xs[..|xs| - 1]) + xs[|xs| - 1]
  }

  function Squares(xs: seq<real>): real {
    if xs == [] then 0.0 else Squares(xs[..|xs| - 1]) + Sq(xs[|xs| - 1])
  }

  /** Squared distances of the elements from `a`. */
  function Distance(xs: seq<real>, a: real): (d: real)
    ensures d >= 0.0
  {
    if xs == [] then 0.0 else Distance(xs[..|xs| - 1], a) + Sq(xs[|xs| - 1] - a)
  }

  /** Squared distances of all pairs. */
  function Spread(xs: seq<real>): (d: real)
    ensures d >= 0.0
  {
    if xs == [] then 0.0 else Spread(xs[..|xs| - 1]) + Distance(xs[..|xs| - 1], xs[|xs| - 1])
  }

  ghost predicate AllPositive(xs: seq<real>) {
    forall i :: 0 <= i < |xs| ==> xs[i] > 0.0
  }

  ghost predicate AllEqual(xs: seq<real>) {
    forall i :: 0 <= i < |xs| ==> xs[i] == xs[0]
  }

  // ----- Lagrange's identity -------------------------------------------------------------------------

  /** The distances of `n` numbers from `a`, from their sum and their squares. */
  function Expanded(n: real, s: real, q: real, a: real): real {
    q - 2.0 * a * s + n * (a * a)
  }

  lemma ExpandedStep(n: real, s: real, q: real, a: real, x: real)
    ensures Expanded(n, s, q, a) + Sq(x - a) == Expanded(n + 1.0, s + x, q + Sq(x), a)
  {
  }

  lemma {:induction false} DistanceIs(xs: seq<real>, a: real)
    ensures Distance(xs, a) == Expanded(|xs| as real, Sum(xs), Squares(xs), a)
    decreases |xs|
  {
    if xs == [] {
      assert 2.0 * a * 0.0 == 0.0 && 0.0 * (a * a) == 0.0;
    } else {
      hide Expanded, Sq;
      var init := xs[..|xs| - 1];
      DistanceIs(init, a);
      ExpandedStep(|init| as real, Sum(init), Squares(init), a, xs[|xs| - 1]);
      assert |xs| as real == |init| as real + 1.0;
    }
  }

  lemma SpreadStep(n: real, s: real, q: real, x: real)
    ensures Times(n + 1.0, q + Sq(x)) - Sq(s + x) == Times(n, q) - Sq(s) + Expanded(n, s, q, x)
  {
  }

  /** `n` times the sum of squares exceeds the square of the sum by the spread. */
  lemma {:induction false} SpreadIs(xs: seq<real>)
    ensures Times(|xs| as real, Squares(xs)) == Sq(Sum(xs)) + Spread(xs)
    decreases |xs|
  {
    if xs == [] {
      assert Times(0.0, 0.0) == 0.0;
    } else {
      hide Expanded, Sq, Times;
      var init, x := xs[..|xs| - 1], xs[|xs| - 1];
      SpreadIs(init);
      DistanceIs(init, x);
      SpreadStep(|init| as real, Sum(init), Squares(init), x);
      assert |xs| as real == |init| as real + 1.0;
    }
  }

  lemma {:induction false} DistanceZero(xs: seq<real>, a: real)
    ensures Distance(xs, a) == 0.0 <==> forall i :: 0 <= i < |xs| ==> xs[i] == a
    decreases |xs|
  {
    hide Sq;
    if xs != [] {
      var init, x := xs[..|xs| - 1], xs[|xs| - 1];
      DistanceZero(init, a);
      assert (forall i :: 0 <= i < |xs| ==> xs[i] == a) <==> (forall i :: 0 <= i < |init| ==> init[i] == a) && x == a;
    }
  }

  lemma {:induction false} SpreadZero(xs: seq<real>)
    ensures Spread(xs) == 0.0 <==> AllEqual(xs)
    decreases |xs|
  {
    if xs != [] {
      var init, x := xs[..|xs| - 1], xs[|xs| - 1];
      SpreadZero(init);
      DistanceZero(init, x);
      assert forall i :: 0 <= i < |init| ==> init[i] == xs[i];
      assert AllEqual(xs) <==> AllEqual(init) && (init == [] || x == init[0]);
    }
  }

  // ----- The index -----------------------------------------------------------------------------------

  /** The index of the flows in one interval; no flows at all count as 0. */
  function Jain(xs: seq<real>): real
    requires AllPositive(xs)
  {
    if xs == [] then 0.0
    else
      PositiveSums(xs);
      Sq(Sum(xs)) / Times(|xs| as real, Squares(xs))
  }

  /** The index times n times the sum of the squares is the square of the sum. */
  lemma JainIs(xs: seq<real>)
    requires AllPositive(xs) && xs != []
    ensures Times(Jain(xs), Times(|xs| as real, Squares(xs))) == Sq(Sum(xs))
  {
    hide Sq, Sum, Squares;
    PositiveSums(xs);
    QuotientIs(Sq(Sum(xs)), Times(|xs| as real, Squares(xs)));
  }

  lemma QuotientIs(x: real, y: real)
    requires y > 0.0
    ensures Times(x / y, y) == x
  {
  }

  lemma OneMore(xs: seq<real>, x: real)
    ensures Sum(xs + [x]) == Sum(xs) + x && Squares(xs + [x]) == Squares(xs) + Sq(x)
    ensures Sum([]) == 0.0 && Squares([]) == 0.0
  {
    assert (xs + [x])[..|xs|] == xs;
  }

  /** For two flows, written out. */
  lemma JainOfTwo(a: real, b: real)
    requires a > 0.0 && b > 0.0
    ensures Times(Jain([a, b]), 2.0 * (Times(a, a) + Times(b, b))) == Times(a + b, a + b)
  {
    hide Sum, Squares, Jain, Times;
    OneMore([], a);
    OneMore([a], b);
    assert [] + [a] == [a] && [a] + [b] == [a, b];
    JainIs([a, b]);
    TwoTimes(Squares([a, b]));
  }

  lemma TwoTimes(x: real)
    ensures Times(2.0, x) == 2.0 * x
  {
  }

  lemma SquareOfSum(s: real, x: real)
    requires s > 0.0 && x > 0.0
    ensures Sq(s + x) > Sq(s) + Sq(x)
  {
  }

  lemma {:induction false} PositiveSums(xs: seq<real>)
    requires AllPositive(xs) && xs != []
    ensures Sum(xs) > 0.0 && 0.0 < Squares(xs) <= Sq(Sum(xs))
    ensures Squares(xs) == Sq(Sum(xs)) <==> |xs| == 1
    ensures Times(|xs| as real, Squares(xs)) > 0.0
    decreases |xs|
  {
    PositiveParts(xs);
    Positive(|xs| as real, Squares(xs));
  }

  lemma {:induction false} PositiveParts(xs: seq<real>)
    requires AllPositive(xs) && xs != []
    ensures Sum(xs) > 0.0 && 0.0 < Squares(xs) <= Sq(Sum(xs))
    ensures Squares(xs) == Sq(Sum(xs)) <==> |xs| == 1
    decreases |xs|
  {
    hide Sq;
    var init, x := xs[..|xs| - 1], xs[|xs| - 1];
    if init == [] {
      assert Sum(xs) == x && Squares(xs) == Sq(x);
    } else {
      PositiveParts(init);
      SquareOfSum(Sum(init), x);
    }
  }

  /** A fraction `t / (n * q)` with `q <= t <= n * q`. */
  lemma FractionBetween(t: real, n: real, q: real)
    requires n > 0.0 && q > 0.0 && Times(n, q) > 0.0 && q <= t <= Times(n, q)
    ensures 1.0 / n <= t / Times(n, q) <= 1.0
    ensures t / Times(n, q) == 1.0 <==> t == Times(n, q)
    ensures t / Times(n, q) == 1.0 / n <==> t == q
  {
  }

  /** The index of `n` positive shares is at least `1/n`, with equality for one share only, and at most
      1, with equality exactly when all shares are equal. */
  lemma JainBounds(xs: seq<real>)
    requires AllPositive(xs) && xs != []
    ensures 1.0 / |xs| as real <= Jain(xs) <= 1.0
    ensures Jain(xs) == 1.0 <==> AllEqual(xs)
    ensures Jain(xs) == 1.0 / |xs| as real <==> |xs| == 1
  {
    hide Sq, Times;
    PositiveSums(xs);
    SpreadIs(xs);
    SpreadZero(xs);
    FractionBetween(Sq(Sum(xs)), |xs| as real, Squares(xs));
  }

  // ----- Rates in place of byte counts ---------------------------------------------------------------

  function Over(xs: seq<real>, d: real): (ys: seq<real>)
    requires d != 0.0
    ensures |ys| == |xs|
  {
    seq(|xs|, i requires 0 <= i < |xs| => xs[i] / d)
  }

  lemma OverStep(s: real, q: real, x: real, d: real)
    requires d > 0.0
    ensures Times(s + x / d, d) == Times(s, d) + x
    ensures Times(q + Sq(x / d), Sq(d)) == Times(q, Sq(d)) + Sq(x)
  {
  }

  lemma {:induction false} OverSums(xs: seq<real>, d: real)
    requires d > 0.0
    ensures Times(Sum(Over(xs, d)), d) == Sum(xs)
    ensures Times(Squares(Over(xs, d)), Sq(d)) == Squares(xs)
    decreases |xs|
  {
    if xs == [] {
      assert Times(0.0, d) == 0.0 && Times(0.0, Sq(d)) == 0.0;
    } else {
      hide Times, Sq;
      var init, x := xs[..|xs| - 1], xs[|xs| - 1];
      OverSums(init, d);
      assert Over(xs, d)[..|init|] == Over(init, d);
      OverStep(Sum(Over(init, d)), Squares(Over(init, d)), x, d);
    }
  }

  lemma OverPositive(xs: seq<real>, d: real)
    requires AllPositive(xs) && d > 0.0
    ensures AllPositive(Over(xs, d))
  {
  }

  lemma Cross(s: real, q: real, n: real, d: real)
    requires Times(n, q) > 0.0 && d > 0.0 && Times(n, Times(q, Sq(d))) > 0.0
    ensures Sq(Times(s, d)) / Times(n, Times(q, Sq(d))) == Sq(s) / Times(n, q)
  {
  }

  /** Dividing a bucket by its interval leaves the index as it was. */
  lemma JainScales(xs: seq<real>, d: real)
    requires AllPositive(xs) && d > 0.0
    ensures AllPositive(Over(xs, d)) && Jain(Over(xs, d)) == Jain(xs)
  {
    hide Times, Sq;
    OverPositive(xs, d);
    if xs != [] {
      var ys := Over(xs, d);
      OverSums(xs, d);
      PositiveSums(xs);
      PositiveSums(ys);
      Cross(Sum(ys), Squares(ys), |xs| as real, d);
    }
  }
}
