/** Unsigned machine words as naturals, with the bitwise operators the hash table uses. */
module Bits {

  const WORD := 0x1_0000_0000_0000_0000 // 2^64, the range of std::size_t
  const HALF_WORD := 0x1_0000_0000      // 2^32, the range of the truncated hash

  function Pow2(k: nat): (p: nat)
    ensures p > 0
  {
    if k == 0 then 1 else 2 * Pow2(k - 1)
  }

  function And(a: nat, b: nat): (r: nat)
    ensures r <= a && r <= b
  {
    if a == 0 || b == 0 then 0 else (if a % 2 == 1 && b % 2 == 1 then 1 else 0) + 2 * And(a / 2, b / 2)
  }

  function Or(a: nat, b: nat): (r: nat)
    ensures a <= r && b <= r
    decreases a + b
  {
    if a == 0 then b
    else if b == 0 then a
    else (if a % 2 == 1 || b % 2 == 1 then 1 else 0) + 2 * Or(a / 2, b / 2)
  }

  function ShiftRight(a: nat, k: nat): nat {
    if k == 0 then a else ShiftRight(a / 2, k - 1)
  }

  /** Whether bit j of v is set. */
  predicate Bit(v: nat, j: nat) {
    if j == 0 then v % 2 == 1 else Bit(v / 2, j - 1)
  }

  // ---------- Powers of two ----------

  lemma {:induction false} Pow2Adds(j: nat, k: nat)
    ensures Pow2(j + k) == Pow2(j) * Pow2(k)
  {
    if j > 0 {
      Pow2Adds(j - 1, k);
      assert Pow2(j + k) == 2 * Pow2(j - 1 + k);
    }
  }

  lemma {:induction false} Pow2Increases(j: nat, k: nat)
    requires j < k
    ensures 2 * Pow2(j) <= Pow2(k)
  {
    if j + 1 < k {
      Pow2Increases(j, k - 1);
    }
  }

  lemma Pow2Words()
    ensures Pow2(32) == HALF_WORD && Pow2(64) == WORD && Pow2(63) == WORD / 2
  {
    assert Pow2(8) == 256;
    Pow2Adds(8, 8);
    Pow2Adds(16, 16);
    Pow2Adds(32, 32);
    assert Pow2(64) == 2 * Pow2(63);
  }

  ghost predicate IsPow2(v: nat) {
    exists k: nat :: v == Pow2(k)
  }

  lemma {:induction false} AndSelf(v: nat)
    ensures And(v, v) == v
  {
    if v > 0 {
      AndSelf(v / 2);
    }
  }

  /** The branch-free test `v != 0 && (v & (v - 1)) == 0` decides being a power of two. */
  lemma {:induction false} PowerOfTwoTest(v: nat)
    requires v > 0
    ensures And(v, v - 1) == 0 <==> IsPow2(v)
  {
    var w := v / 2;
    if v == 1 {
      assert v == Pow2(0);
    } else if v % 2 == 1 {
      AndSelf(w);
      forall k: nat | k <= v
        ensures v != Pow2(k)
      {
        assert Pow2(k) == 1 || Pow2(k) % 2 == 0;
      }
    } else {
      PowerOfTwoTest(w);
      assert (v - 1) / 2 == w - 1;
      if IsPow2(w) {
        var k: nat :| w == Pow2(k);
        assert v == Pow2(k + 1);
      }
      if IsPow2(v) {
        var k: nat :| v == Pow2(k);
        assert k > 0 && Pow2(k) == 2 * Pow2(k - 1);
      }
    }
  }

  // ---------- Masks ----------

  lemma AndOdd(h: nat, m: nat)
    ensures And(h, 2 * m + 1) == h % 2 + 2 * And(h / 2, m)
  {
  }

  lemma DoubleSplit(h: nat, p: nat, q: nat, r: nat)
    requires h / 2 == p * q + r
    ensures h == (2 * p) * q + (h % 2 + 2 * r)
  {
    assert (2 * p) * q == 2 * (p * q);
  }

  /** The masked-off high bits are a multiple of 2^k. */
  lemma {:induction false} MaskSplits(h: nat, k: nat) returns (q: nat)
    ensures h == Pow2(k) * q + And(h, Pow2(k) - 1)
  {
    if k == 0 {
      q := h;
    } else {
      q := MaskSplits(h / 2, k - 1);
      DoubleSplit(h, Pow2(k - 1), q, And(h / 2, Pow2(k - 1) - 1));
      AndOdd(h, Pow2(k - 1) - 1);
    }
  }

  /** Masking with 2^k - 1 is reduction modulo 2^k. */
  lemma MaskIsMod(h: nat, k: nat)
    ensures And(h, Pow2(k) - 1) == h % Pow2(k)
  {
    var q := MaskSplits(h, k);
    ModUnique(h, Pow2(k), q, And(h, Pow2(k) - 1));
  }

  lemma ModUnique(h: nat, m: nat, q: nat, r: nat)
    requires h == m * q + r && r < m
    ensures h % m == r
  {
    var q', r' := h / m, h % m;
    assert m * q' + r' == h;
    assert m * (q - q') == m * q - m * q';
    if q > q' {
      MulGrows(m, q - q');
    } else if q < q' {
      assert m * (q' - q) == m * q' - m * q;
      MulGrows(m, q' - q);
    }
  }

  lemma MulGrows(m: nat, d: nat)
    requires d > 0
    ensures m * d >= m
  {
    assert m * d == m * (d - 1) + m;
  }

  lemma ModMod(h: nat, m: nat, c: nat)
    requires m > 0 && c > 0 && m * c > 0
    ensures (h % (m * c)) % m == h % m
  {
    var mc := m * c;
    var q, r := h / mc, h % mc;
    assert h == m * (c * q) + r by {
      assert m * (c * q) == mc * q;
    }
    Regroup(m, c * q, r / m, r % m);
    ModUnique(h, m, c * q + r / m, r % m);
  }

  lemma Regroup(m: nat, x: nat, y: nat, r: nat)
    ensures m * x + (m * y + r) == m * (x + y) + r
  {
  }

  lemma TruncatedMask(h: nat, k: nat)
    requires k <= 32
    ensures And(h, Pow2(k) - 1) == And(h % HALF_WORD, Pow2(k) - 1)
  {
    Pow2Words();
    Pow2Adds(k, 32 - k);
    ModMod(h, Pow2(k), Pow2(32 - k));
    MaskIsMod(h, k);
    MaskIsMod(h % HALF_WORD, k);
  }

  lemma LostBit(k: nat)
    requires k > 32
    ensures And(HALF_WORD, Pow2(k) - 1) == HALF_WORD
  {
    Pow2Words();
    Pow2Increases(32, k);
    MaskIsMod(HALF_WORD, k);
    ModUnique(HALF_WORD, Pow2(k), 0, HALF_WORD);
  }

  predicate SameBucket(h: nat, k: nat) {
    And(h, Pow2(k) - 1) == And(h % HALF_WORD, Pow2(k) - 1)
  }

  /** Keeping only the low 32 bits of a 64-bit hash never moves its bucket, exactly when there
      are at most 2^32 buckets. */
  lemma TruncationKeepsBucket(k: nat)
    ensures (forall h: nat | h < WORD :: SameBucket(h, k)) <==> k <= 32
  {
    if k <= 32 {
      forall h: nat | h < WORD
        ensures SameBucket(h, k)
      {
        TruncatedMask(h, k);
      }
    } else {
      LostBit(k);
      assert !SameBucket(HALF_WORD, k);
    }
  }

  // ---------- Rounding up ----------

  predicate IsPowerOfTwo(value: nat)
  {
    value != 0 && And(value, value - 1) == 0
  }

  lemma {:induction false} BitOfOr(a: nat, b: nat, j: nat)
    ensures Bit(Or(a, b), j) == (Bit(a, j) || Bit(b, j))
  {
    if a == 0 || b == 0 {
      ZeroBit(j);
    } else if j > 0 {
      BitOfOr(a / 2, b / 2, j - 1);
    }
  }

  lemma {:induction false} ZeroBit(j: nat)
    ensures !Bit(0, j)
  {
    if j > 0 {
      ZeroBit(j - 1);
    }
  }

  lemma {:induction false} BitOfShift(a: nat, k: nat, j: nat)
    ensures Bit(ShiftRight(a, k), j) == Bit(a, j + k)
  {
    if k > 0 {
      BitOfShift(a / 2, k - 1, j);
    }
  }

  /** A number whose lowest t + 1 bits are set and whose others are clear is 2^(t+1) - 1. */
  lemma {:induction false} AllOnes(v: nat, n: nat)
    requires forall j: nat :: Bit(v, j) <==> j < n
    ensures v == Pow2(n) - 1
    decreases v + n
  {
    assert Bit(v, 0) <==> 0 < n;
    if n == 0 {
      if v > 0 {
        forall j: nat
          ensures Bit(v / 2, j) <==> j < n
        {
          assert Bit(v, j + 1) == Bit(v / 2, j);
        }
        AllOnes(v / 2, 0);
      }
    } else {
      forall j: nat
        ensures Bit(v / 2, j) <==> j < n - 1
      {
        assert Bit(v, j + 1) == Bit(v / 2, j);
      }
      AllOnes(v / 2, n - 1);
    }
  }

  /** The position of the highest set bit. */
  lemma {:induction false} TopBit(v: nat) returns (t: nat)
    requires v > 0
    ensures Pow2(t) <= v < Pow2(t + 1)
    ensures Bit(v, t) && forall j: nat | j > t :: !Bit(v, j)
  {
    if v == 1 {
      t := 0;
      forall j: nat | j > 0
        ensures !Bit(v, j)
      {
        ZeroBit(j - 1);
      }
    } else {
      var s := TopBit(v / 2);
      t := s + 1;
      forall j: nat | j > t
        ensures !Bit(v, j)
      {
        assert !Bit(v / 2, j - 1);
      }
    }
  }

  /** After smearing by 1, 2, 4, ..., i/2 the i bits from the top one down are all set. */
  ghost predicate Smeared(v: nat, t: nat, i: nat) {
    && (forall j: nat | j > t :: !Bit(v, j))
    && (forall j: nat | j <= t && t < j + i :: Bit(v, j))
  }

  lemma SmearStep(v: nat, t: nat, i: nat)
    requires Smeared(v, t, i)
    ensures Smeared(Or(v, ShiftRight(v, i)), t, 2 * i)
  {
    var w := Or(v, ShiftRight(v, i));
    forall j: nat
      ensures j > t ==> !Bit(w, j)
      ensures j <= t && t < j + 2 * i ==> Bit(w, j)
    {
      BitOfOr(v, ShiftRight(v, i), j);
      BitOfShift(v, i, j);
      SmearedBit(v, t, i, j);
    }
  }

  lemma SmearedBit(v: nat, t: nat, i: nat, j: nat)
    requires Smeared(v, t, i)
    ensures j > t ==> !Bit(v, j) && !Bit(v, j + i)
    ensures j <= t && t < j + 2 * i ==> Bit(v, j) || Bit(v, j + i)
  {
    var k := j + i;
    assert k > t ==> !Bit(v, k);
    assert k <= t && t < k + i ==> Bit(v, k);
  }

  ghost predicate LeastPow2AtLeast(r: nat, v: nat) {
    IsPow2(r) && v <= r && forall k: nat :: v <= Pow2(k) ==> r <= Pow2(k)
  }

  lemma NextPow2(v: nat, t: nat)
    requires Pow2(t) <= v - 1 < Pow2(t + 1)
    ensures LeastPow2AtLeast(Pow2(t + 1), v)
  {
    forall k: nat | v <= Pow2(k)
      ensures Pow2(t + 1) <= Pow2(k)
    {
      if k < t + 1 {
        if k < t {
          Pow2Increases(k, t);
        }
        assert false;
      }
      if k > t + 1 {
        Pow2Increases(t + 1, k);
      }
    }
  }

  /** The shift-or smear. It meets its specification up to 2^63; above that the final increment
      wraps around and the result is 0. */
  method RoundUpToPowerOfTwo(value: nat) returns (r: nat)
    requires value < WORD
    ensures value <= WORD / 2 ==> LeastPow2AtLeast(r, value)
    ensures value > WORD / 2 ==> r == 0
  {
    if IsPowerOfTwo(value) {
      FixedPow2(value);
      return value;
    }
    if value == 0 {
      assert 1 == Pow2(0);
      return 1;
    }
    ghost var t := TopBit(value - 1);
    var v: nat, i := value - 1, 1;
    while i < 64
      invariant i == 1 || i == 2 || i == 4 || i == 8 || i == 16 || i == 32 || i == 64
      invariant Smeared(v, t, i)
    {
      SmearStep(v, t, i);
      v := Or(v, ShiftRight(v, i));
      i := i * 2;
    }
    SmearedWord(value, v, t);
    r := (v + 1) % WORD;
  }

  lemma FixedPow2(value: nat)
    requires value < WORD && IsPowerOfTwo(value)
    ensures value <= WORD / 2 && LeastPow2AtLeast(value, value)
  {
    PowerOfTwoTest(value);
    Pow2Words();
    var k: nat :| value == Pow2(k);
    if k >= 64 {
      if k > 64 {
        Pow2Increases(64, k);
      }
      assert false;
    } else if k < 63 {
      Pow2Increases(k, 63);
    }
  }

  lemma SmearedWord(value: nat, v: nat, t: nat)
    requires 0 < value < WORD && Pow2(t) <= value - 1 < Pow2(t + 1) && Smeared(v, t, 64)
    ensures v + 1 == Pow2(t + 1)
    ensures value <= WORD / 2 ==> v + 1 < WORD && LeastPow2AtLeast(v + 1, value)
    ensures value > WORD / 2 ==> v + 1 == WORD
  {
    Pow2Words();
    if t >= 64 {
      if t > 64 {
        Pow2Increases(64, t);
      }
      assert false;
    }
    AllOnes(v, t + 1);
    NextPow2(value, t);
    if t < 63 {
      Pow2Increases(t, 63);
      Pow2Increases(t + 1, 64);
    }
  }
}
