/**
 * combined_rate: the chance that at least one of several independent rolls on
 * one kill succeeds, 1 - (1 - r1)(1 - r2)...(1 - rn).
 */
module CombinedRates {
  import opened RealArith


  /** The chance that one roll at rate r misses. */
  function Miss(r: real): real
  {
    1.0 - r
  }

  /** The chance that none of the rolls succeeds: (1 - r1)(1 - r2)...(1 - rn). */
  function ProbNone(rates: seq<real>): real
  {
    Product(Map(Miss, rates))
  }

  /** The chance that at least one of the rolls succeeds. */
  function AtLeastOne(rates: seq<real>): (p: real)
    ensures rates == [] ==> p == 0.0
    ensures |rates| == 1 ==> p == rates[0]
  {
    ProbNoneShort(rates);
    1.0 - ProbNone(rates)
  }

  lemma ProbNoneShort(rates: seq<real>)
    ensures rates == [] ==> ProbNone(rates) == 1.0
    ensures |rates| == 1 ==> ProbNone(rates) == 1.0 - rates[0]
  {
    if |rates| == 1 {
      assert rates == [rates[0]];
      MapSingle(Miss, rates[0]);
      ProductSingle(Miss(rates[0]));
    }
  }

  lemma ProbNoneSnoc(rates: seq<real>, x: real)
    ensures ProbNone(rates + [x]) == ProbNone(rates) * (1.0 - x)
  {
    MapAppend(Miss, rates, [x]);
    MapSingle(Miss, x);
    ProductAppend(Map(Miss, rates), [Miss(x)]);
    ProductSingle(Miss(x));
  }

  /** combined_rate: multiplies the miss chances in a loop and complements the product. */
  method CombinedRate(rates: seq<real>) returns (p: real)
    ensures p == AtLeastOne(rates)
  {
    var probNone := 1.0;
    for i := 0 to |rates|
      invariant probNone == ProbNone(rates[..i])
    {
      assert rates[..i + 1] == rates[..i] + [rates[i]];
      ProbNoneSnoc(rates[..i], rates[i]);
      probNone := probNone * (1.0 - rates[i]);
    }
    assert rates[..|rates|] == rates;
    p := 1.0 - probNone;
  }

  /** Miss chances of two groups of rolls multiply. */
  lemma ProbNoneAppend(a: seq<real>, b: seq<real>)
    ensures ProbNone(a + b) == ProbNone(a) * ProbNone(b)
  {
    MapAppend(Miss, a, b);
    ProductAppend(Map(Miss, a), Map(Miss, b));
  }

  /** Grouping does not matter: combining two combined rates gives the rate of all rolls. */
  lemma AtLeastOneGrouping(a: seq<real>, b: seq<real>)
    ensures AtLeastOne(a + b) == AtLeastOne([AtLeastOne(a), AtLeastOne(b)])
  {
    ProbNoneAppend(a, b);
    var pa, pb := AtLeastOne(a), AtLeastOne(b);
    ProbNoneShort([pa]);
    ProbNoneShort([pb]);
    ProbNoneAppend([pa], [pb]);
    assert [pa] + [pb] == [pa, pb];
  }

  /** Order does not matter: any rearrangement of the rolls has the same combined rate. */
  lemma AtLeastOnePermutation(a: seq<real>, b: seq<real>)
    requires multiset(a) == multiset(b)
    ensures AtLeastOne(a) == AtLeastOne(b)
  {
    MapPermutation(Miss, a, b);
    ProductPermutation(Map(Miss, a), Map(Miss, b));
  }

  ghost predicate AllInUnit(rates: seq<real>)
  {
    forall i :: 0 <= i < |rates| ==> 0.0 <= rates[i] <= 1.0
  }

  lemma {:induction false} ProbNoneInUnit(rates: seq<real>)
    requires AllInUnit(rates)
    ensures 0.0 <= ProbNone(rates) <= 1.0
  {
    if rates != [] {
      var n := |rates| - 1;
      var front := rates[..n];
      assert AllInUnit(front);
      ProbNoneInUnit(front);
      assert rates == front + [rates[n]];
      ProbNoneSnoc(front, rates[n]);
      MulInUnit(ProbNone(front), 1.0 - rates[n]);
    }
  }

  /** Missing with every roll is no likelier than missing with any one of them. */
  lemma {:induction false} ProbNoneBelowEach(rates: seq<real>, i: nat)
    requires AllInUnit(rates) && i < |rates|
    ensures ProbNone(rates) <= 1.0 - rates[i]
  {
    var n := |rates| - 1;
    var front := rates[..n];
    assert AllInUnit(front);
    ProbNoneInUnit(front);
    assert rates == front + [rates[n]];
    ProbNoneSnoc(front, rates[n]);
    var a, b := ProbNone(front), 1.0 - rates[n];
    MulInUnit(a, b);
    var ab := a * b;
    assert ProbNone(rates) == ab;
    if i < n {
      ProbNoneBelowEach(front, i);
      assert front[i] == rates[i];
      assert ab <= a <= 1.0 - rates[i];
    } else {
      assert ab <= b == 1.0 - rates[i];
    }
  }

  /** "P(at least one)": for rates in [0, 1] the combined rate is in [0, 1] and no smaller than any one rate. */
  lemma AtLeastOneBounds(rates: seq<real>)
    requires AllInUnit(rates)
    ensures 0.0 <= AtLeastOne(rates) <= 1.0
    ensures forall i :: 0 <= i < |rates| ==> rates[i] <= AtLeastOne(rates)
  {
    ProbNoneInUnit(rates);
    forall i | 0 <= i < |rates|
      ensures rates[i] <= AtLeastOne(rates)
    {
      ProbNoneBelowEach(rates, i);
    }
  }

  /** With at least one rate and every rate strictly inside (0, 1), the combined rate is strictly inside too. */
  lemma {:induction false} AtLeastOneOpenUnit(rates: seq<real>)
    requires |rates| > 0
    requires forall i :: 0 <= i < |rates| ==> 0.0 < rates[i] < 1.0
    ensures 0.0 < AtLeastOne(rates) < 1.0
    decreases |rates|
  {
    var n := |rates| - 1;
    var front := rates[..n];
    var a := ProbNone(front);
    if n == 0 {
      ProbNoneShort(front);
    } else {
      AtLeastOneOpenUnit(front);
    }
    assert rates == front + [rates[n]];
    ProbNoneSnoc(front, rates[n]);
    var b := 1.0 - rates[n];
    MulStrictLeft(b, 0.0, a);
    MulMonoLeft(b, a, 1.0);
    var ab := a * b;
    assert ProbNone(rates) == ab;
    assert 0.0 < ab < 1.0;
  }
}
