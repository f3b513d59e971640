/** How the table's load policy turns counts into real load factors and back. */
module LoadFactor {
  import opened Bits

  /** The nearest admissible load factor. */
  ghost predicate IsClamped(x: real, ml: real) {
    && 0.1 <= x <= 0.95
    && (0.1 <= ml <= 0.95 ==> x == ml)
    && (ml < 0.1 ==> x == 0.1)
    && (ml > 0.95 ==> x == 0.95)
  }

  /** size_type(std::ceil(x / ml)) */
  function CeilDiv(x: nat, ml: real): (c: nat)
    requires 0.1 <= ml <= 0.95
    ensures x <= c <= 10 * x + 1 && (c == 0 <==> x == 0)
    ensures c as real * ml >= x as real
  {
    var q := x as real / ml;
    CeilFacts(x, ml, q, -((-q).Floor));
    -((-q).Floor)
  }

  lemma CeilFacts(x: nat, ml: real, q: real, c: int)
    requires 0.1 <= ml <= 0.95 && q * ml == x as real && (c - 1) as real < q <= c as real
    ensures x <= c <= 10 * x + 1 && (c == 0 <==> x == 0)
    ensures c as real * ml >= x as real
  {
    CeilCovers(q, c as real, ml, x as real);
    Between(q, ml, x as real);
    IntegerBetween(x, q, c);
  }

  lemma CeilCovers(q: real, c: real, ml: real, x: real)
    requires q <= c && ml >= 0.0 && q * ml == x
    ensures c * ml >= x
  {
    MulMonotone(q, c, ml);
  }

  lemma Between(q: real, ml: real, x: real)
    requires 0.1 <= ml <= 0.95 && q * ml == x && x >= 0.0
    ensures x <= q <= 10.0 * x
  {
    if q < 0.0 {
      MulMonotone(q, 0.0, ml);
      assert false;
    }
    NonNegative(q, 1.0 - ml);
    NonNegative(q, ml - 0.1);
    assert q * (1.0 - ml) == q - q * ml;
    assert q * (ml - 0.1) == q * ml - 0.1 * q;
  }

  lemma NonNegative(q: real, m: real)
    requires q >= 0.0 && m >= 0.0
    ensures q * m >= 0.0
  {
  }

  lemma IntegerBetween(x: nat, q: real, c: int)
    requires x as real <= q <= 10.0 * x as real && (c - 1) as real < q <= c as real
    ensures x <= c <= 10 * x + 1 && (c == 0 <==> x == 0)
  {
    var y := 10 * x;
    assert (c - 1) as real < y as real;
  }

  lemma MulMonotone(a: real, b: real, m: real)
    requires m >= 0.0
    ensures a <= b ==> a * m <= b * m
    ensures a < b && m > 0.0 ==> a * m < b * m
  {
  }

  /** size_type(float(bucket_count()) * ml) */
  function Threshold(n: nat, ml: real): (t: nat)
    requires 0.1 <= ml <= 0.95
    ensures t <= n && (n > 0 ==> t < n)
    ensures t as real <= n as real * ml < t as real + 1.0
  {
    MulMonotone(ml, 1.0, n as real);
    MulMonotone(0.0, n as real, ml);
    (n as real * ml).Floor
  }

  lemma ReservedFits(count: nat, n: nat, ml: real)
    requires 0.1 <= ml <= 0.95 && CeilDiv(count, ml) <= n
    ensures count <= Threshold(n, ml)
  {
    ReservedReal(count, CeilDiv(count, ml), n, ml);
    FloorAtLeast(count, Threshold(n, ml), n as real * ml);
  }

  lemma ReservedReal(count: nat, c: nat, n: nat, ml: real)
    requires ml >= 0.0 && c <= n && count as real <= c as real * ml
    ensures count as real <= n as real * ml
  {
    MulMonotone(c as real, n as real, ml);
  }

  lemma FloorAtLeast(count: nat, t: nat, x: real)
    requires count as real <= x < t as real + 1.0
    ensures count <= t
  {
  }

  /** What a rehash asserts of the number of buckets asked for: enough for the values. */
  predicate Covers(request: nat, x: nat, ml: real)
    requires 0.1 <= ml <= 0.95
  {
    CeilDiv(x, ml) <= request
  }

  /** Twice the buckets are enough for as many values as buckets, with a load factor of one half on. */
  lemma DoublingCovers(x: nat, n: nat, ml: real)
    requires 0.5 <= ml <= 0.95 && x <= n
    ensures Covers(2 * n, x, ml)
  {
    var q := x as real / ml;
    HalfDoubles(q, ml, x as real);
    assert q <= (2 * x) as real;
    CeilLeast(q, CeilDiv(x, ml), 2 * x);
  }

  lemma HalfDoubles(q: real, ml: real, x: real)
    requires 0.5 <= ml && q * ml == x && x >= 0.0
    ensures q <= 2.0 * x
  {
    if q > 0.0 {
      MulMonotone(0.5, ml, q);
      assert ml * q == q * ml;
    }
  }

  lemma CeilLeast(q: real, c: int, k: int)
    requires c == -((-q).Floor) && q <= k as real
    ensures c <= k
  {
  }

  /** Some power of two up to max is at least count. */
  ghost predicate RoundsWithin(count: nat, max: nat) {
    exists k: nat :: count <= Pow2(k) <= max
  }

  lemma RoundedFits(rounded: nat, count: nat, max: nat)
    requires LeastPow2AtLeast(rounded, count)
    ensures RoundsWithin(count, max) <==> rounded <= max
  {
  }

  /** The mask of a table with n buckets. */
  ghost predicate Masks(mask: nat, n: nat) {
    if n == 0 then mask == 0 else mask == n - 1 && IsPow2(n) && n <= HALF_WORD
  }

  /** The load policy of a table with n buckets. */
  ghost predicate Loads(n: nat, maxBucketCount: nat, maxLoadFactor: real, loadThreshold: nat) {
    && n <= maxBucketCount <= HALF_WORD
    && 0.1 <= maxLoadFactor <= 0.95
    && loadThreshold == Threshold(n, maxLoadFactor)
  }
}
