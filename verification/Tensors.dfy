/** Tensors of real numbers, flattened: the pointwise operations of op traces, and the in-place
    operations of the reference optimizers. */
module Tensors {

  type Tensor = seq<real>

  function Full(n: nat, c: real): (r: Tensor)
    ensures |r| == n
  {
    seq(n, _ => c)
  }

  function Add(a: Tensor, b: Tensor): (r: Tensor)
    requires |a| == |b|
    ensures |r| == |a| && forall i | 0 <= i < |a| :: r[i] == a[i] + b[i]
  {
    seq(|a|, i requires 0 <= i < |a| => a[i] + b[i])
  }

  function Subtract(a: Tensor, b: Tensor): (r: Tensor)
    requires |a| == |b|
    ensures |r| == |a| && forall i | 0 <= i < |a| :: r[i] == a[i] - b[i]
  {
    seq(|a|, i requires 0 <= i < |a| => a[i] - b[i])
  }

  function Multiply(a: Tensor, b: Tensor): (r: Tensor)
    requires |a| == |b|
    ensures |r| == |a| && forall i | 0 <= i < |a| :: r[i] == a[i] * b[i]
  {
    seq(|a|, i requires 0 <= i < |a| => a[i] * b[i])
  }

  /** The square root and the value taken for 1/0, which the optimizers' equations never depend on. */
  datatype Math = Math(sqrt: real -> real, oneOverZero: real) {
    /** sqrt is the non-negative root. */
    ghost predicate Valid() {
      forall x: real :: x >= 0.0 ==> sqrt(x) >= 0.0 && sqrt(x) * sqrt(x) == x
    }

    function Inverse(x: real): real {
      if x == 0.0 then oneOverZero else 1.0 / x
    }

    function Sqrt(a: Tensor): (r: Tensor)
      ensures |r| == |a| && forall i | 0 <= i < |a| :: r[i] == sqrt(a[i])
    {
      seq(|a|, i requires 0 <= i < |a| => sqrt(a[i]))
    }

    function Reciprocal(a: Tensor): (r: Tensor)
      ensures |r| == |a| && forall i | 0 <= i < |a| :: r[i] == Inverse(a[i])
    {
      seq(|a|, i requires 0 <= i < |a| => Inverse(a[i]))
    }
  }

  ghost predicate NoneNegative(v: Tensor) {
    forall i | 0 <= i < |v| :: v[i] >= 0.0
  }

  ghost predicate Divides(denom: Tensor) {
    forall i | 0 <= i < |denom| :: denom[i] != 0.0
  }

  /** sqrt(v) + eps */
  function Denominator(m: Math, eps: real, v: Tensor): (r: Tensor)
    ensures |r| == |v|
  {
    Add(m.Sqrt(v), Full(|v|, eps))
  }

  lemma DenominatorPositive(m: Math, eps: real, v: Tensor)
    requires m.Valid() && eps > 0.0 && NoneNegative(v)
    ensures Divides(Denominator(m, eps, v))
  {
    forall i | 0 <= i < |v|
      ensures Denominator(m, eps, v)[i] != 0.0
    {
      assert m.sqrt(v[i]) >= 0.0;
    }
  }

  // ---------- Facts about reals ----------

  lemma TimesInverse(m: Math, a: real, d: real)
    requires d != 0.0
    ensures a * m.Inverse(d) == a / d
  {
    var r := 1.0 / d;
    assert r * d == 1.0;
    assert (a * r) * d == a;
  }

  lemma SquareNonNegative(x: real)
    ensures x * x >= 0.0
  {
    if x < 0.0 {
      assert x * x == (-x) * (-x);
    }
  }

  lemma NonNegative(a: real, b: real)
    requires a >= 0.0 && b >= 0.0
    ensures a * b >= 0.0
  {
  }

  lemma Monotone(a: real, b: real, c: real)
    requires a <= b && c >= 0.0
    ensures a * c <= b * c
  {
    NonNegative(b - a, c);
    assert (b - a) * c == b * c - a * c;
  }

  /** Non-negative numbers with equal squares are equal. */
  lemma SquaresDetermine(a: real, b: real)
    requires a >= 0.0 && b >= 0.0 && a * a == b * b
    ensures a == b
  {
    assert (a - b) * (a + b) == a * a - b * b;
    if a + b != 0.0 {
      QuotientUnique(a - b, 0.0, a + b);
    }
  }

  /** The root of a quotient is the quotient of the roots. */
  lemma SqrtOfQuotient(m: Math, x: real, y: real)
    requires m.Valid() && x >= 0.0 && y > 0.0
    ensures m.sqrt(y) > 0.0 && x / y >= 0.0 && m.sqrt(x / y) == m.sqrt(x) / m.sqrt(y)
  {
    var rx, ry := m.sqrt(x), m.sqrt(y);
    assert ry * ry == y && rx * rx == x;
    assert ry != 0.0;
    var q, z := rx / ry, x / y;
    assert q * ry == rx && z * y == x;
    assert (q * q) * y == x by {
      assert (q * ry) * (q * ry) == (q * q) * (ry * ry);
    }
    QuotientUnique(q * q, z, y);
    QuotientNonNegative(rx, ry);
    QuotientNonNegative(x, y);
    SquaresDetermine(q, m.sqrt(z));
  }

  lemma QuotientNonNegative(a: real, b: real)
    requires a >= 0.0 && b > 0.0
    ensures a / b >= 0.0
  {
  }

  lemma QuotientUnique(a: real, b: real, y: real)
    requires y != 0.0 && a * y == b * y
    ensures a == b
  {
    assert (a - b) * y == 0.0;
  }

  // ---------- In-place operations ----------

  function Scaled(a: Tensor, c: real): (r: Tensor)
    ensures |r| == |a| && forall i | 0 <= i < |a| :: r[i] == a[i] * c
  {
    seq(|a|, i requires 0 <= i < |a| => a[i] * c)
  }

  function Axpy(a: Tensor, b: Tensor, alpha: real): (r: Tensor)
    requires |a| == |b|
    ensures |r| == |a| && forall i | 0 <= i < |a| :: r[i] == a[i] + alpha * b[i]
  {
    seq(|a|, i requires 0 <= i < |a| => a[i] + alpha * b[i])
  }

  /** a.mul_(c) */
  method MulInPlace(a: array<real>, c: real)
    modifies a
    ensures a[..] == Scaled(old(a[..]), c)
  {
    ghost var was := a[..];
    for i := 0 to a.Length
      invariant forall k | 0 <= k < a.Length :: a[k] == if k < i then was[k] * c else was[k]
    {
      a[i] := a[i] * c;
    }
    ghost var goal := Scaled(was, c);
    assert forall k | 0 <= k < a.Length :: a[k] == goal[k];
    assert a[..] == goal;
  }

  /** a.add_(b, alpha=alpha) */
  method AddInPlace(a: array<real>, b: Tensor, alpha: real)
    requires |b| == a.Length
    modifies a
    ensures a[..] == Axpy(old(a[..]), b, alpha)
  {
    ghost var was := a[..];
    for i := 0 to a.Length
      invariant forall k | 0 <= k < a.Length :: a[k] == if k < i then was[k] + alpha * b[k] else was[k]
    {
      a[i] := a[i] + alpha * b[i];
    }
    assert a[..] == Axpy(was, b, alpha);
  }

  /** a += b */
  method PlusInPlace(a: array<real>, b: Tensor)
    requires |b| == a.Length
    modifies a
    ensures a[..] == Add(old(a[..]), b)
  {
    ghost var was := a[..];
    for i := 0 to a.Length
      invariant forall k | 0 <= k < a.Length :: a[k] == if k < i then was[k] + b[k] else was[k]
    {
      a[i] := a[i] + b[i];
    }
    assert a[..] == Add(was, b);
  }

  /** a.addcmul_(b, c, value=value) */
  method AddcmulInPlace(a: array<real>, b: Tensor, c: Tensor, value: real)
    requires |b| == |c| == a.Length
    modifies a
    ensures a[..] == Axpy(old(a[..]), Multiply(b, c), value)
  {
    ghost var was := a[..];
    for i := 0 to a.Length
      invariant forall k | 0 <= k < a.Length :: a[k] == if k < i then was[k] + value * (b[k] * c[k]) else was[k]
    {
      a[i] := a[i] + value * (b[i] * c[i]);
    }
    ghost var goal := Axpy(was, Multiply(b, c), value);
    assert forall k | 0 <= k < a.Length :: a[k] == goal[k];
    assert a[..] == goal;
  }

  function Quotients(a: Tensor, b: Tensor): (r: Tensor)
    requires |a| == |b| && forall i | 0 <= i < |b| :: b[i] != 0.0
    ensures |r| == |a| && forall i | 0 <= i < |a| :: r[i] == a[i] / b[i]
  {
    seq(|a|, i requires 0 <= i < |a| => a[i] / b[i])
  }

  /** a.addcdiv_(b, c, value=value) */
  method AddcdivInPlace(a: array<real>, b: Tensor, c: Tensor, value: real)
    requires |b| == |c| == a.Length && forall i | 0 <= i < |c| :: c[i] != 0.0
    modifies a
    ensures a[..] == Axpy(old(a[..]), Quotients(b, c), value)
  {
    ghost var was := a[..];
    for i := 0 to a.Length
      invariant forall k | 0 <= k < a.Length :: a[k] == if k < i then was[k] + value * (b[k] / c[k]) else was[k]
    {
      a[i] := a[i] + value * (b[i] / c[i]);
    }
    ghost var goal := Axpy(was, Quotients(b, c), value);
    assert forall k | 0 <= k < a.Length :: a[k] == goal[k];
    assert a[..] == goal;
  }
}
