/** The statically sized vector `vec_t<T, S>` of mist.hpp and its free
    operators and reductions, for integer components (`ivec_t`).
    A vector is a `seq<int>`; its static size S is the sequence length.
    Every operator in the C++ code is a `for` loop filling `result`, so
    each is a method with a loop, proved against a specification function
    about which the algebraic facts are stated as lemmas. */
module Vec {

  // ---------------------------------------------------------------------
  // Specification functions
  // ---------------------------------------------------------------------

  /** Componentwise sum a + b. */
  function Plus(a: seq<int>, b: seq<int>): seq<int>
    requires |a| == |b|
  {
    seq(|a|, i requires 0 <= i < |a| => a[i] + b[i])
  }

  /** Componentwise difference a - b. */
  function Minus(a: seq<int>, b: seq<int>): seq<int>
    requires |a| == |b|
  {
    seq(|a|, i requires 0 <= i < |a| => a[i] - b[i])
  }

  /** Every component times the scalar s. */
  function Times(v: seq<int>, s: int): seq<int>
  {
    seq(|v|, i requires 0 <= i < |v| => v[i] * s)
  }

  /** C++ integer division: the quotient is truncated toward zero
      (Dafny's own `/` is Euclidean, so it is not used directly). */
  function TruncDiv(x: int, d: int): int
    requires d != 0
  {
    var q := Abs(x) / Abs(d);
    if (x < 0) == (d < 0) then q else -q
  }

  /** The C++ remainder that goes with TruncDiv: it has the sign of x. */
  function TruncRem(x: int, d: int): int
    requires d != 0
  {
    x - TruncDiv(x, d) * d
  }

  function Abs(x: int): nat
  {
    if x < 0 then -x else x
  }

  /** Every component divided by the scalar s, C++ style. */
  function Quot(v: seq<int>, s: int): seq<int>
    requires s != 0
  {
    seq(|v|, i requires 0 <= i < |v| => TruncDiv(v[i], s))
  }

  /** f applied to every component. */
  function MapOf(v: seq<int>, f: int -> int): seq<int>
  {
    seq(|v|, i requires 0 <= i < |v| => f(v[i]))
  }

  /** Sum of the components, accumulated from the front as the loop does. */
  function SumOf(v: seq<int>): int
  {
    if |v| == 0 then 0 else SumOf(v[..|v| - 1]) + v[|v| - 1]
  }

  /** Product of the components; the empty product is 1, the loop's
      initial value. */
  function ProductOf(v: seq<int>): int
  {
    if |v| == 0 then 1 else ProductOf(v[..|v| - 1]) * v[|v| - 1]
  }

  /** Sum of a[i] * b[i]. */
  function DotOf(a: seq<int>, b: seq<int>): int
    requires |a| == |b|
  {
    if |a| == 0 then 0 else DotOf(a[..|a| - 1], b[..|b| - 1]) + a[|a| - 1] * b[|b| - 1]
  }

  // ---------------------------------------------------------------------
  // The operators of mist.hpp
  // ---------------------------------------------------------------------

  /** operator+(vec, vec) */
  method Add(a: seq<int>, b: seq<int>) returns (r: seq<int>)
    requires |a| == |b|
    ensures r == Plus(a, b)
  {
    r := seq(|a|, _ => 0);
    for i := 0 to |a|
      invariant |r| == |a|
      invariant forall k :: 0 <= k < i ==> r[k] == a[k] + b[k]
    {
      r := r[i := a[i] + b[i]];
    }
  }

  /** operator-(vec, vec) */
  method Sub(a: seq<int>, b: seq<int>) returns (r: seq<int>)
    requires |a| == |b|
    ensures r == Minus(a, b)
  {
    r := seq(|a|, _ => 0);
    for i := 0 to |a|
      invariant |r| == |a|
      invariant forall k :: 0 <= k < i ==> r[k] == a[k] - b[k]
    {
      r := r[i := a[i] - b[i]];
    }
  }

  /** operator*(vec, scalar) */
  method Scale(v: seq<int>, s: int) returns (r: seq<int>)
    ensures r == Times(v, s)
  {
    r := seq(|v|, _ => 0);
    for i := 0 to |v|
      invariant |r| == |v|
      invariant forall k :: 0 <= k < i ==> r[k] == v[k] * s
    {
      r := r[i := v[i] * s];
    }
  }

  /** operator*(scalar, vec), which the C++ code forwards to v * scalar. */
  method ScaleLeft(s: int, v: seq<int>) returns (r: seq<int>)
    ensures |r| == |v|
    ensures forall i :: 0 <= i < |v| ==> r[i] == s * v[i]
  {
    r := Scale(v, s);
  }

  /** operator/(vec, scalar); dividing an integer by zero is undefined in
      C++, so the divisor must be non-zero. */
  method Div(v: seq<int>, s: int) returns (r: seq<int>)
    requires s != 0
    ensures r == Quot(v, s)
  {
    r := seq(|v|, _ => 0);
    for i := 0 to |v|
      invariant |r| == |v|
      invariant forall k :: 0 <= k < i ==> r[k] == TruncDiv(v[k], s)
    {
      r := r[i := TruncDiv(v[i], s)];
    }
  }

  /** dot(a, b) */
  method Dot(a: seq<int>, b: seq<int>) returns (r: int)
    requires |a| == |b|
    ensures r == DotOf(a, b)
  {
    r := 0;
    for i := 0 to |a|
      invariant r == DotOf(a[..i], b[..i])
    {
      assert a[..i + 1][..i] == a[..i] && b[..i + 1][..i] == b[..i];
      r := r + a[i] * b[i];
    }
    assert a[..|a|] == a && b[..|b|] == b;
  }

  /** map(v, func) */
  method Map(v: seq<int>, f: int -> int) returns (r: seq<int>)
    ensures r == MapOf(v, f)
  {
    r := seq(|v|, _ => 0);
    for i := 0 to |v|
      invariant |r| == |v|
      invariant forall k :: 0 <= k < i ==> r[k] == f(v[k])
    {
      r := r[i := f(v[i])];
    }
  }

  /** sum(v) */
  method Sum(v: seq<int>) returns (r: int)
    ensures r == SumOf(v)
  {
    r := 0;
    for i := 0 to |v|
      invariant r == SumOf(v[..i])
    {
      assert v[..i + 1][..i] == v[..i];
      r := r + v[i];
    }
    assert v[..|v|] == v;
  }

  /** product(v) */
  method Product(v: seq<int>) returns (r: int)
    ensures r == ProductOf(v)
  {
    r := 1;
    for i := 0 to |v|
      invariant r == ProductOf(v[..i])
    {
      assert v[..i + 1][..i] == v[..i];
      r := r * v[i];
    }
    assert v[..|v|] == v;
  }

  /** any(v): returns at the first true component. */
  method Any(v: seq<bool>) returns (r: bool)
    ensures r <==> exists i :: 0 <= i < |v| && v[i]
  {
    for i := 0 to |v|
      invariant forall k :: 0 <= k < i ==> !v[k]
    {
      if v[i] {
        return true;
      }
    }
    return false;
  }

  /** all(v): returns at the first false component. */
  method All(v: seq<bool>) returns (r: bool)
    ensures r <==> forall i :: 0 <= i < |v| ==> v[i]
  {
    for i := 0 to |v|
      invariant forall k :: 0 <= k < i ==> v[k]
    {
      if !v[i] {
        return false;
      }
    }
    return true;
  }

  /** range<S>(): the vector [0, 1, ..., S-1]; S must be positive as for
      every vec_t. */
  function Range(n: nat): (r: seq<int>)
    requires n > 0
    ensures |r| == n && forall i :: 0 <= i < n ==> r[i] == i
  {
    seq(n, i => i)
  }

  // ---------------------------------------------------------------------
  // Lemmas
  // ---------------------------------------------------------------------

  /** Subtraction undoes addition. */
  lemma MinusUndoesPlus(a: seq<int>, b: seq<int>)
    requires |a| == |b|
    ensures Minus(Plus(a, b), b) == a
  {
  }

  /** The C++ rule for integer division: (x/d)*d + x%d == x, the
      remainder is smaller than the divisor in magnitude and never has
      the opposite sign of x. */
  lemma TruncDivRule(x: int, d: int)
    requires d != 0
    ensures TruncDiv(x, d) * d + TruncRem(x, d) == x
    ensures Abs(TruncRem(x, d)) < Abs(d)
    ensures x >= 0 ==> TruncRem(x, d) >= 0
    ensures x <= 0 ==> TruncRem(x, d) <= 0
  {
    var q := Abs(x) / Abs(d);
    var m := Abs(x) % Abs(d);
    assert Abs(x) == q * Abs(d) + m;
    if (x < 0) == (d < 0) {
      assert TruncDiv(x, d) * d == q * Abs(d) || TruncDiv(x, d) * d == -(q * Abs(d));
      if x >= 0 {
        assert TruncDiv(x, d) * d == q * Abs(d);
      } else {
        assert TruncDiv(x, d) * d == -(q * Abs(d));
      }
    } else {
      if x >= 0 {
        assert TruncDiv(x, d) * d == q * Abs(d);
      } else {
        assert TruncDiv(x, d) * d == -(q * Abs(d));
      }
    }
  }

  /** Dividing every component and multiplying back gives each component
      up to its C++ remainder. */
  lemma QuotTimesRestores(v: seq<int>, s: int)
    requires s != 0
    ensures |Times(Quot(v, s), s)| == |v|
    ensures forall i :: 0 <= i < |v| ==>
              Times(Quot(v, s), s)[i] + TruncRem(v[i], s) == v[i] && Abs(TruncRem(v[i], s)) < Abs(s)
  {
    forall i | 0 <= i < |v|
      ensures Times(Quot(v, s), s)[i] + TruncRem(v[i], s) == v[i] && Abs(TruncRem(v[i], s)) < Abs(s)
    {
      TruncDivRule(v[i], s);
    }
  }

  /** The sum distributes over componentwise addition. */
  lemma {:induction false} SumOfPlus(a: seq<int>, b: seq<int>)
    requires |a| == |b|
    ensures SumOf(Plus(a, b)) == SumOf(a) + SumOf(b)
  {
    if |a| > 0 {
      var n := |a| - 1;
      assert Plus(a, b)[..n] == Plus(a[..n], b[..n]);
      SumOfPlus(a[..n], b[..n]);
    }
  }

  /** The dot product is symmetric. */
  lemma {:induction false} DotSymmetric(a: seq<int>, b: seq<int>)
    requires |a| == |b|
    ensures DotOf(a, b) == DotOf(b, a)
  {
    if |a| > 0 {
      DotSymmetric(a[..|a| - 1], b[..|b| - 1]);
    }
  }

  /** The dot product is the sum of the componentwise products. */
  lemma {:induction false} DotIsSumOfProducts(a: seq<int>, b: seq<int>)
    requires |a| == |b|
    ensures DotOf(a, b) == SumOf(seq(|a|, i requires 0 <= i < |a| => a[i] * b[i]))
  {
    if |a| > 0 {
      var n := |a| - 1;
      var p := seq(|a|, i requires 0 <= i < |a| => a[i] * b[i]);
      assert p[..n] == seq(n, i requires 0 <= i < n => a[..n][i] * b[..n][i]);
      DotIsSumOfProducts(a[..n], b[..n]);
    }
  }

  /** Scaling one argument scales the dot product. */
  lemma {:induction false} DotTimes(a: seq<int>, b: seq<int>, s: int)
    requires |a| == |b|
    ensures DotOf(Times(a, s), b) == s * DotOf(a, b)
  {
    if |a| > 0 {
      var n := |a| - 1;
      assert Times(a, s)[..n] == Times(a[..n], s);
      DotTimes(a[..n], b[..n], s);
      calc {
        DotOf(Times(a, s), b);
        DotOf(Times(a[..n], s), b[..n]) + (a[n] * s) * b[n];
        s * DotOf(a[..n], b[..n]) + (a[n] * s) * b[n];
        { assert (a[n] * s) * b[n] == s * (a[n] * b[n]); }
        s * (DotOf(a[..n], b[..n]) + a[n] * b[n]);
      }
    }
  }

  /** The product of a concatenation is the product of the parts. */
  lemma {:induction false} ProductOfAppend(a: seq<int>, b: seq<int>)
    ensures ProductOf(a + b) == ProductOf(a) * ProductOf(b)
  {
    if |b| == 0 {
      assert a + b == a;
    } else {
      var n := |b| - 1;
      assert (a + b)[..|a + b| - 1] == a + b[..n];
      ProductOfAppend(a, b[..n]);
      calc {
        ProductOf(a + b);
        ProductOf(a + b[..n]) * b[n];
        (ProductOf(a) * ProductOf(b[..n])) * b[n];
        ProductOf(a) * (ProductOf(b[..n]) * b[n]);
      }
    }
  }

  /** A product of naturals is a natural, and it is positive exactly when
      every factor is. */
  lemma {:induction false} ProductOfNaturals(v: seq<int>)
    requires forall i :: 0 <= i < |v| ==> v[i] >= 0
    ensures ProductOf(v) >= 0
    ensures ProductOf(v) > 0 <==> forall i :: 0 <= i < |v| ==> v[i] > 0
  {
    if |v| > 0 {
      var n := |v| - 1;
      ProductOfNaturals(v[..n]);
      var p := ProductOf(v[..n]);
      if p > 0 && v[n] > 0 {
        assert p * v[n] > 0;
      } else if p == 0 {
        var k :| 0 <= k < n && v[..n][k] <= 0;
        assert v[k] <= 0;
      }
    }
  }

  /** Summing range<S>() gives the triangular number S(S-1)/2. */
  lemma {:induction false} SumOfRange(n: nat)
    requires n > 0
    ensures SumOf(Range(n)) * 2 == n * (n - 1)
  {
    if n > 1 {
      assert Range(n)[..n - 1] == Range(n - 1);
      SumOfRange(n - 1);
    } else {
      assert Range(1)[..0] == [];
    }
  }

  /** The values demo.cpp prints for the reductions of sections 4 and 6. */
  lemma DemoReductions()
    ensures SumOf([1, 2, 3, 4]) == 10
    ensures ProductOf([2, 3, 4]) == 24
    ensures DotOf([1, 2, 3], [4, 5, 6]) == 32
  {
    assert [1, 2, 3, 4][..3] == [1, 2, 3] && [1, 2, 3][..2] == [1, 2] && [1, 2][..1] == [1];
    assert [2, 3, 4][..2] == [2, 3] && [2, 3][..1] == [2];
    assert [4, 5, 6][..2] == [4, 5] && [4, 5][..1] == [4];
  }
}
