/** The 32-bit integer arithmetic behind JavaScript's bitwise operators:
    ToInt32 (section 7.1.6 of ECMA-262) and `x | 2`, whose result always
    carries the "ttl_seconds present" bit. */
module Int32 {

  const TWO31: int := 0x8000_0000
  const TWO32: int := 0x1_0000_0000

  predicate IsInt32(x: int) {
    -TWO31 <= x < TWO31
  }

  /** ToInt32 of an integral number: the unique signed 32-bit integer that
      is congruent to `n` modulo 2^32. */
  function ToInt32(n: int): (r: int)
    ensures IsInt32(r)
    ensures (n - r) % TWO32 == 0
    ensures IsInt32(n) ==> r == n
  {
    var m := n % TWO32;
    if m >= TWO31 then m - TWO32 else m
  }

  /** ToInt32 is determined by its two properties: range and congruence. */
  lemma ToInt32Unique(n: int, r: int)
    requires IsInt32(r)
    requires (n - r) % TWO32 == 0
    ensures ToInt32(n) == r
  {
    var d := ToInt32(n);
    var j := (n - r) / TWO32;
    var i := (n - d) / TWO32;
    assert n - r == TWO32 * j;
    assert n - d == TWO32 * i;
    assert d - r == TWO32 * (j - i);
    assert -1 < j - i < 1;
  }

  /** Bit `k` (of value 2^k) of the two's-complement pattern of `x`.
      Euclidean halving is floor halving, so negative numbers read as their
      two's-complement bits. */
  predicate Bit(x: int, k: nat)
    decreases k
  {
    if k == 0 then x % 2 == 1 else Bit(x / 2, k - 1)
  }

  /** JavaScript's `x | 2` on a signed 32-bit operand. */
  function OrTwo(x: int): (r: int)
    requires IsInt32(x)
    ensures IsInt32(r)
    ensures Bit(r, 1)
  {
    if Bit(x, 1) then x else x + 2
  }

  /** `x | 2` sets bit 1 (the bit of value 2) and leaves every other bit of `x` as it was: it is
      the bitwise OR of `x` with the pattern of 2. */
  lemma {:induction false} OrTwoBitwise(x: int, k: nat)
    requires IsInt32(x)
    requires k < 32
    ensures Bit(OrTwo(x), k) <==> (Bit(x, k) || k == 1)
  {
    if !Bit(x, 1) {
      var r := x + 2;
      assert OrTwo(x) == r;
      AddTwoWithBitClear(x);
      if k == 0 {
        assert Bit(r, 0) == Bit(x, 0);
      } else if k >= 2 {
        SameQuarterSameHighBits(r, x, k);
      }
    }
  }

  /** Adding 2 to a number whose bit 1 is clear changes neither its lowest
      bit nor its quotient by 4. */
  lemma AddTwoWithBitClear(x: int)
    requires (x / 2) % 2 == 0
    ensures (x + 2) % 2 == x % 2
    ensures (x + 2) / 4 == x / 4
  {
    var q := x / 4;
    var e := x % 4;
    assert x == 4 * q + e;
    assert e < 2 by {
      assert x / 2 == 2 * q + e / 2;
    }
    assert x + 2 == 4 * q + (e + 2);
  }

  /** Two numbers with the same quotient by 4 agree on every bit from 2 up. */
  lemma {:induction false} SameQuarterSameHighBits(a: int, b: int, k: nat)
    requires a / 4 == b / 4
    requires k >= 2
    ensures Bit(a, k) == Bit(b, k)
  {
    assert (a / 2) / 2 == a / 4;
    assert (b / 2) / 2 == b / 4;
    assert Bit(a, k) == Bit(a / 2 / 2, k - 2);
    assert Bit(b, k) == Bit(b / 2 / 2, k - 2);
  }

  /** Applying `| 2` twice is the same as applying it once. */
  lemma OrTwoIdempotent(x: int)
    requires IsInt32(x)
    ensures OrTwo(OrTwo(x)) == OrTwo(x)
  {
  }
}
