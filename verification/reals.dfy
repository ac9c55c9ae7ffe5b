/**
 * Facts about real arithmetic that the estimates rest on: products, weighted
 * averages (one kill either drops or does not), powers and products of
 * sequences. Each fact is stated on plain variables so that the solver never
 * has to discover it inside a larger formula.
 */
module RealArith {

  /**
   * Multiplication as a function: Fold can take it as a value, and lemmas that
   * pass a product from one proof to another state it with Mul.
   */
  function Mul(x: real, y: real): real
  {
    x * y
  }

  lemma MulNonneg(a: real, b: real)
    requires 0.0 <= a && 0.0 <= b
    ensures 0.0 <= a * b
  {
  }

  lemma MulMonoLeft(c: real, a: real, b: real)
    requires 0.0 <= c && a <= b
    ensures c * a <= c * b
  {
    var d := b - a;
    MulNonneg(c, d);
    assert c * b - c * a == c * d;
  }

  lemma MulStrictLeft(c: real, a: real, b: real)
    requires 0.0 < c && a < b
    ensures c * a < c * b
  {
    var d := b - a;
    assert c * b - c * a == c * d;
  }

  /** Multiplying both sides on the right by a non-negative number keeps the order. */
  lemma MulMonoRight(c: real, a: real, b: real)
    requires 0.0 <= c && a <= b
    ensures Mul(a, c) <= Mul(b, c)
  {
    MulMonoLeft(c, a, b);
  }

  lemma MulLe(c: real, a: real, b: real)
    requires 0.0 <= c && a <= b
    ensures Mul(c, a) <= Mul(c, b)
  {
    MulMonoLeft(c, a, b);
  }

  lemma MulAssoc(a: real, b: real, c: real)
    ensures (a * b) * c == a * (b * c)
  {
  }

  lemma MulSwap(a: real, b: real, c: real)
    ensures (a * b) * c == (a * c) * b
  {
  }

  lemma MulInUnit(a: real, b: real)
    requires 0.0 <= a <= 1.0 && 0.0 <= b <= 1.0
    ensures 0.0 <= a * b <= a && a * b <= b
  {
    MulNonneg(a, b);
    MulMonoLeft(a, b, 1.0);
    MulMonoLeft(b, a, 1.0);
  }

  /** With chance p the outcome a, otherwise the outcome b. */
  function Mix(p: real, a: real, b: real): real
  {
    p * a + (1.0 - p) * b
  }

  /** A weighted average of a and b moves up when a and b do. */
  lemma MixMono(p: real, a: real, b: real, a': real, b': real)
    requires 0.0 <= p <= 1.0 && a <= a' && b <= b'
    ensures Mix(p, a, b) <= Mix(p, a', b')
  {
    var q, da, db := 1.0 - p, a' - a, b' - b;
    MulNonneg(p, da);
    MulNonneg(q, db);
    assert Mix(p, a', b') - Mix(p, a, b) == p * da + q * db;
  }

  lemma MixInUnit(p: real, a: real, b: real)
    requires 0.0 <= p <= 1.0 && 0.0 <= a <= 1.0 && 0.0 <= b <= 1.0
    ensures 0.0 <= Mix(p, a, b) <= 1.0
  {
    MixMono(p, 0.0, 0.0, a, b);
    MixMono(p, a, b, 1.0, 1.0);
  }

  /** Moving weight towards the larger value never lowers a mix. */
  lemma MixRateMono(p: real, p': real, a: real, b: real)
    requires 0.0 <= p <= p' <= 1.0 && b <= a
    ensures Mix(p, a, b) <= Mix(p', a, b)
  {
    var dp, d := p' - p, a - b;
    MulNonneg(dp, d);
    assert Mix(p', a, b) - Mix(p, a, b) == dp * d;
  }

  lemma MixSame(p: real, a: real)
    ensures Mix(p, a, a) == a
  {
  }

  lemma MixScale(p: real, a: real, b: real, y: real)
    ensures Mix(p, a, b) * y == Mix(p, a * y, b * y)
  {
  }

  // ---------------------------------------------------------------------------
  // Powers
  // ---------------------------------------------------------------------------

  function Pow(x: real, n: nat): real
  {
    if n == 0 then 1.0 else Pow(x, n - 1) * x
  }


  lemma PowStep(x: real, n: nat, n': nat)
    requires n == n' + 1
    ensures Pow(x, n) == Mul(Pow(x, n'), x)
  {
  }

  lemma {:induction false} PowInUnit(x: real, n: nat)
    requires 0.0 <= x <= 1.0
    ensures 0.0 <= Pow(x, n) <= 1.0
  {
    if n > 0 {
      PowInUnit(x, n - 1);
      MulInUnit(Pow(x, n - 1), x);
    }
  }

  /** Powers of a number in [0, 1] do not grow with the exponent. */
  lemma {:induction false} PowAntitone(x: real, m: nat, n: nat)
    requires 0.0 <= x <= 1.0 && m <= n
    ensures Pow(x, n) <= Pow(x, m)
    decreases n - m
  {
    if m < n {
      PowAntitone(x, m, n - 1);
      PowInUnit(x, n - 1);
      var a, d := Pow(x, n - 1), 1.0 - x;
      MulNonneg(a, d);
      assert a - Pow(x, n) == a * d;
    }
  }

  /** Powers of non-negative numbers grow with the base. */
  lemma {:induction false} PowMonotoneBase(x: real, y: real, n: nat)
    requires 0.0 <= x <= y
    ensures 0.0 <= Pow(x, n) <= Pow(y, n)
  {
    if n > 0 {
      PowMonotoneBase(x, y, n - 1);
      var a, b := Pow(x, n - 1), Pow(y, n - 1);
      MulNonneg(a, x);
      MulMonoLeft(x, a, b);
      MulMonoLeft(b, x, y);
    }
  }

  /** One step of Bernoulli's inequality, on plain numbers: a stands for (1 - p)^m, b for (1 - p)^(m + 1). */
  lemma BernoulliStep(p: real, m: real, m': real, a: real, b: real)
    requires 0.0 < p < 1.0 && 0.0 <= m && m' == m + 1.0 && 0.0 <= a
    requires b == Mul(a, 1.0 - p)
    requires Mul(a, 1.0 + Mul(m, p)) <= 1.0
    ensures Mul(b, 1.0 + Mul(m', p)) <= 1.0
  {
    var q, x, t := 1.0 - p, 1.0 + m * p, 1.0 + m' * p;
    var y := m' * (p * p);
    MulNonneg(p, p);
    MulNonneg(m', p * p);
    assert q * t == x - y;
    MulAssoc(a, q, t);
    MulNonneg(a, y);
    assert a * (x - y) == a * x - a * y;
  }

  /** Bernoulli's inequality in the form (1 - p)^n * (1 + n p) <= 1. */
  lemma {:induction false} PowBernoulli(p: real, n: nat)
    requires 0.0 < p < 1.0
    ensures Mul(Pow(1.0 - p, n), 1.0 + Mul(n as real, p)) <= 1.0
  {
    if n > 0 {
      var n1 := n - 1;
      PowBernoulli(p, n1);
      PowInUnit(1.0 - p, n1);
      PowStep(1.0 - p, n, n1);
      BernoulliStep(p, n1 as real, n as real, Pow(1.0 - p, n1), Pow(1.0 - p, n));
    }
  }

  /** Bernoulli's inequality in the form (1 - x)^n >= 1 - n x. */
  lemma {:induction false} PowBernoulliLower(x: real, n: nat)
    requires 0.0 <= x <= 1.0
    ensures Pow(1.0 - x, n) >= 1.0 - Mul(n as real, x)
  {
    if n > 0 {
      PowBernoulliLower(x, n - 1);
      var a := Pow(1.0 - x, n - 1);
      var m := (n - 1) as real;
      MulMonoLeft(1.0 - x, 1.0 - m * x, a);
      MulNonneg(x, x);
      MulNonneg(m, x * x);
      assert (1.0 - x) * (1.0 - m * x) == 1.0 - (m + 1.0) * x + m * (x * x);
    }
  }

  // ---------------------------------------------------------------------------
  // Products of sequences
  // ---------------------------------------------------------------------------

  /** Folds s from the left with f, starting from e. */
  function Fold(f: (real, real) -> real, e: real, s: seq<real>): real
  {
    if s == [] then e else f(Fold(f, e, s[..|s| - 1]), s[|s| - 1])
  }

  /** f is associative and commutative, with e as its unit. */
  ghost predicate IsCommutativeMonoid(f: (real, real) -> real, e: real)
  {
    && (forall x, y :: f(x, y) == f(y, x))
    && (forall x, y, z :: f(f(x, y), z) == f(x, f(y, z)))
    && (forall x :: f(x, e) == x)
  }

  lemma {:induction false} FoldAppend(f: (real, real) -> real, e: real, a: seq<real>, b: seq<real>)
    requires IsCommutativeMonoid(f, e)
    ensures Fold(f, e, a + b) == f(Fold(f, e, a), Fold(f, e, b))
    decreases |b|
  {
    if b == [] {
      assert a + b == a;
    } else {
      var b' := b[..|b| - 1];
      assert (a + b)[..|a + b| - 1] == a + b';
      FoldAppend(f, e, a, b');
      var fa, fb, x := Fold(f, e, a), Fold(f, e, b'), b[|b| - 1];
      assert Fold(f, e, a + b) == f(f(fa, fb), x);
      assert f(f(fa, fb), x) == f(fa, f(fb, x));
    }
  }

  lemma FoldSingle(f: (real, real) -> real, e: real, x: real)
    requires IsCommutativeMonoid(f, e)
    ensures Fold(f, e, [x]) == x
  {
    assert [x][..0] == [];
  }

  lemma FoldRemove(f: (real, real) -> real, e: real, left: seq<real>, x: real, right: seq<real>)
    requires IsCommutativeMonoid(f, e)
    ensures Fold(f, e, left + [x] + right) == f(Fold(f, e, left + right), x)
  {
    FoldAppend(f, e, left + [x], right);
    FoldAppend(f, e, left, [x]);
    FoldAppend(f, e, left, right);
    FoldSingle(f, e, x);
    var l, r := Fold(f, e, left), Fold(f, e, right);
    assert f(f(l, x), r) == f(l, f(x, r));
    assert f(x, r) == f(r, x);
    assert f(l, f(r, x)) == f(f(l, r), x);
  }

  /** An element of the multiset of b sits at some index of b. */
  lemma IndexOf<T>(b: seq<T>, x: T) returns (j: nat)
    requires x in multiset(b)
    ensures j < |b| && b[j] == x
  {
    assert x in b;
    j :| 0 <= j < |b| && b[j] == x;
  }

  /** Removing the same element from two permutations of each other leaves permutations. */
  lemma SameAfterRemoval<T>(a: seq<T>, b: seq<T>, j: nat)
    requires multiset(a) == multiset(b) && a != [] && j < |b| && b[j] == a[|a| - 1]
    ensures multiset(a[..|a| - 1]) == multiset(b[..j] + b[j + 1..])
  {
    var n, x := |a| - 1, b[j];
    var left, right := b[..j], b[j + 1..];
    assert a == a[..n] + [x];
    assert multiset(a) == multiset(a[..n]) + multiset{x};
    assert b == left + [x] + right;
    assert multiset(b) == multiset(left) + multiset{x} + multiset(right);
    assert multiset(left + right) == multiset(left) + multiset(right);
    assert multiset(a[..n]) == multiset(a) - multiset{x};
    assert multiset(left + right) == multiset(b) - multiset{x};
  }

  /** A commutative, associative fold does not depend on the order of the sequence. */
  lemma {:induction false} FoldPermutation(f: (real, real) -> real, e: real, a: seq<real>, b: seq<real>)
    requires IsCommutativeMonoid(f, e)
    requires multiset(a) == multiset(b)
    ensures Fold(f, e, a) == Fold(f, e, b)
    decreases |a|
  {
    if a != [] {
      var n := |a| - 1;
      var x := a[n];
      assert x in multiset(a);
      var j := IndexOf(b, x);
      var left, right := b[..j], b[j + 1..];
      SameAfterRemoval(a, b, j);
      FoldPermutation(f, e, a[..n], left + right);
      assert b == left + [x] + right;
      FoldRemove(f, e, left, x, right);
    }
  }

  lemma MulMonoid()
    ensures IsCommutativeMonoid(Mul, 1.0)
  {
  }

  /** The product of a sequence of reals, multiplied from the left. */
  function Product(s: seq<real>): real
  {
    Fold(Mul, 1.0, s)
  }

  /** A product does not depend on the order of its factors. */
  lemma ProductPermutation(a: seq<real>, b: seq<real>)
    requires multiset(a) == multiset(b)
    ensures Product(a) == Product(b)
  {
    MulMonoid();
    FoldPermutation(Mul, 1.0, a, b);
  }

  lemma ProductSnoc(s: seq<real>, x: real)
    ensures Product(s + [x]) == Product(s) * x
  {
    assert (s + [x])[..|s|] == s;
  }

  lemma ProductSingle(x: real)
    ensures Product([x]) == x
  {
    MulMonoid();
    FoldSingle(Mul, 1.0, x);
  }

  lemma ProductAppendMul(a: seq<real>, b: seq<real>)
    ensures Product(a + b) == Mul(Product(a), Product(b))
  {
    MulMonoid();
    FoldAppend(Mul, 1.0, a, b);
  }

  lemma ProductAppend(a: seq<real>, b: seq<real>)
    ensures Product(a + b) == Product(a) * Product(b)
  {
    ProductAppendMul(a, b);
  }

  // ---------------------------------------------------------------------------
  // Element-wise maps of sequences
  // ---------------------------------------------------------------------------

  /** f applied to every element of s, in order. */
  function Map(f: real -> real, s: seq<real>): (m: seq<real>)
    ensures |m| == |s|
  {
    if s == [] then [] else Map(f, s[..|s| - 1]) + [f(s[|s| - 1])]
  }

  lemma {:induction false} MapAppend(f: real -> real, a: seq<real>, b: seq<real>)
    ensures Map(f, a + b) == Map(f, a) + Map(f, b)
    decreases |b|
  {
    if b == [] {
      assert a + b == a;
    } else {
      var b' := b[..|b| - 1];
      assert (a + b)[..|a + b| - 1] == a + b';
      MapAppend(f, a, b');
    }
  }

  /** Any index splits a sequence into the part before, the element and the part after. */
  lemma SplitAt(s: seq<real>, j: nat)
    requires j < |s|
    ensures s == s[..j] + [s[j]] + s[j + 1..]
  {
  }

  lemma MapSingle(f: real -> real, x: real)
    ensures Map(f, [x]) == [f(x)]
  {
    assert [x][..0] == [];
  }

  lemma MapAt(f: real -> real, b: seq<real>, j: nat)
    requires j < |b|
    ensures Map(f, b) == Map(f, b[..j]) + [f(b[j])] + Map(f, b[j + 1..])
    ensures Map(f, b[..j] + b[j + 1..]) == Map(f, b[..j]) + Map(f, b[j + 1..])
  {
    SplitAt(b, j);
    MapAppend(f, b[..j] + [b[j]], b[j + 1..]);
    MapAppend(f, b[..j], [b[j]]);
    MapAppend(f, b[..j], b[j + 1..]);
    MapSingle(f, b[j]);
  }

  lemma MultisetMiddle(l: seq<real>, x: real, r: seq<real>)
    ensures multiset(l + [x] + r) == multiset(l + r) + multiset{x}
  {
  }

  lemma MapAtMultiset(f: real -> real, b: seq<real>, j: nat)
    requires j < |b|
    ensures multiset(Map(f, b)) == multiset(Map(f, b[..j] + b[j + 1..])) + multiset{f(b[j])}
  {
    MapAt(f, b, j);
    MultisetMiddle(Map(f, b[..j]), f(b[j]), Map(f, b[j + 1..]));
  }

  /** Mapping two permutations of each other gives permutations of each other. */
  lemma {:induction false} MapPermutation(f: real -> real, a: seq<real>, b: seq<real>)
    requires multiset(a) == multiset(b)
    ensures multiset(Map(f, a)) == multiset(Map(f, b))
    decreases |a|
  {
    if a != [] {
      var n := |a| - 1;
      assert a[n] in multiset(a);
      var j := IndexOf(b, a[n]);
      SameAfterRemoval(a, b, j);
      MapPermutation(f, a[..n], b[..j] + b[j + 1..]);
      MapAtMultiset(f, a, n);
      MapAtMultiset(f, b, j);
      assert a[..n] + a[n + 1..] == a[..n];
    }
  }
}
