/** The table's 32-bit word tricks, the rounding and the masking, against the arithmetic they stand for. */
module Words {
  import opened Probing
  import opened KHash

  /** kroundup32 */
  function KRoundUp(x: bv32): bv32 {
    var x := x - 1;
    var x := x | (x >> 1);
    var x := x | (x >> 2);
    var x := x | (x >> 4);
    var x := x | (x >> 8);
    var x := x | (x >> 16);
    x + 1
  }

  // The operations used on words, by name.

  function Half(x: bv32): bv32 {
    x >> 1
  }

  predicate Odd(x: bv32) {
    x & 1 == 1
  }

  predicate Less(a: bv32, b: bv32) {
    a < b
  }

  /** One bit set. */
  predicate IsBit(r: bv32) {
    r != 0 && r & (r - 1) == 0
  }

  lemma HalfLess(b: bv32)
    ensures b != 0 ==> Half(b) < b
    ensures b == 0 ==> Half(b) == 0 && !Odd(b)
  {
  }

  lemma LessStrict(a: bv32, b: bv32)
    ensures !(Less(a, b) && Less(b, a)) && !Less(a, a)
  {
  }

  lemma HalfOrder(a: bv32, b: bv32)
    ensures Less(Half(a), Half(b)) ==> Less(a, b)
  {
  }

  lemma SameHalf(a: bv32, b: bv32)
    ensures Half(a) == Half(b) && Odd(a) == Odd(b) ==> a == b
  {
  }

  lemma LastBit(a: bv32, b: bv32)
    ensures Half(a) == Half(b) && Odd(a) && !Odd(b) ==> Less(b, a)
  {
  }

  /** Two words are in order one way or the other, decided at their first different bit. */
  lemma {:induction false} LessTotal(a: bv32, b: bv32)
    ensures Less(a, b) || a == b || Less(b, a)
    decreases a
  {
    HalfOrder(a, b);
    HalfOrder(b, a);
    SameHalf(a, b);
    LastBit(a, b);
    LastBit(b, a);
    HalfLess(a);
    ZeroLeast(b);
    hide Less, Half, Odd;
    if a != 0 {
      LessTotal(Half(a), Half(b));
    }
  }

  lemma ZeroLeast(b: bv32)
    ensures b != 0 <==> Less(0, b)
  {
  }

  lemma HalfOfBit(r: bv32)
    requires IsBit(r) && r != 1
    ensures IsBit(Half(r)) && !Odd(r)
  {
  }

  // ---------- Words as numbers ----------

  /** The number a word stands for. */
  function Val(x: bv32): (v: nat)
    ensures v == 0 <==> x == 0
  {
    HalfLess(x);
    SameHalf(x, 0);
    if x == 0 then 0 else 2 * Val(Half(x)) + if Odd(x) then 1 else 0
  }

  lemma ValHalf(x: bv32)
    ensures Val(x) == 2 * Val(Half(x)) + if Odd(x) then 1 else 0
  {
    HalfLess(x);
  }

  lemma {:induction false} ValMonotone(a: bv32, b: bv32)
    requires Less(a, b)
    ensures Val(a) < Val(b)
    decreases Val(b)
  {
    ValHalf(a);
    ValHalf(b);
    LessStrict(a, b);
    LessTotal(Half(a), Half(b));
    HalfOrder(b, a);
    SameHalf(a, b);
    LastBit(a, b);
    hide Less, Half, Odd, Val;
    if Less(Half(a), Half(b)) {
      LessNotZero(Half(a), Half(b));
      ValMonotone(Half(a), Half(b));
    }
  }

  lemma LessNotZero(a: bv32, b: bv32)
    requires Less(a, b)
    ensures b != 0
  {
  }

  lemma {:induction false} BitIsPow2(r: bv32)
    requires IsBit(r)
    ensures IsPow2(Val(r)) && (r != 1 ==> Val(r) == 2 * Val(Half(r)))
  {
    if r == 1 {
      assert Half(r) == 0;
    } else {
      HalfOfBit(r);
      HalfLess(r);
      ValHalf(r);
      hide IsBit, Half, Odd, Val;
      BitIsPow2(Half(r));
    }
  }

  /** On words: the smallest single bit at or above `x`; past the top bit the sum overflows. */
  lemma SmallestBit(x: bv32)
    ensures 0 < x <= 0x8000_0000 ==> var r := KRoundUp(x); IsBit(r) && !Less(r, x) && Less(Half(r), x)
    ensures x == 0 || 0x8000_0000 < x ==> KRoundUp(x) == 0
  {
  }

  lemma RoundsUpBelow(x: bv32, r: bv32)
    requires x != 0 && !Less(r, x) && IsBit(r) && Less(Half(r), x)
    ensures Val(r) == RoundUp(Val(x))
  {
    BitIsPow2(r);
    ValMonotone(Half(r), x);
    ValHalf(r);
    LessTotal(x, r);
    hide IsBit, IsPow2, RoundUp, Half, Odd, Less, Val;
    if x != r {
      ValMonotone(x, r);
    }
    RoundUpUnique(Val(x), Val(r));
  }

  /** The bit trick rounds up to a power of two exactly for the words up to 2^31. */
  lemma RoundsUp(x: bv32)
    ensures Val(KRoundUp(x)) == RoundUp(Val(x)) <==> x <= 0x8000_0000
    ensures 0x8000_0000 < x ==> KRoundUp(x) == 0
  {
    SmallestBit(x);
    hide KRoundUp, IsBit, RoundUp, Half, Less, Val;
    if 0 < x <= 0x8000_0000 {
      RoundsUpBelow(x, KRoundUp(x));
    }
  }

  // ---------- The mask ----------

  function Masked(k: bv32, n: bv32): bv32 {
    k & (n - 1)
  }

  lemma MaskedHalf(k: bv32, n: bv32)
    requires IsBit(n) && n != 1
    ensures Half(Masked(k, n)) == Masked(Half(k), Half(n)) && Odd(Masked(k, n)) == Odd(k)
  {
  }

  lemma MaskedOne(k: bv32)
    ensures Masked(k, 1) == 0
  {
  }

  lemma RemainderHalf(q: nat, n: nat, o: nat)
    requires 0 < n && o < 2
    ensures (2 * q + o) % (2 * n) == 2 * (q % n) + o
  {
    var r := 2 * (q % n) + o;
    assert 2 * q + o == (q / n) * (2 * n) + r by {
      assert q == (q / n) * n + q % n;
    }
    ModUnique(2 * q + o, q / n, r, 2 * n);
  }

  /** Masking with one less than a bucket count is the remainder modulo the bucket count. */
  lemma {:induction false} MaskIsRemainder(k: bv32, n: bv32)
    requires IsBit(n)
    ensures Val(n) != 0 && Val(Masked(k, n)) == Val(k) % Val(n)
    decreases n
  {
    if n == 1 {
      MaskedOne(k);
      BitIsPow2(n);
      ValHalf(n);
      assert Val(1) == 1;
    } else {
      HalfOfBit(n);
      HalfLess(n);
      MaskedHalf(k, n);
      ValHalf(k);
      ValHalf(n);
      ValHalf(Masked(k, n));
      hide IsBit, Half, Odd, Val, Masked;
      MaskIsRemainder(Half(k), Half(n));
      RemainderHalf(Val(Half(k)), Val(Half(n)), if Odd(k) then 1 else 0);
    }
  }
}
