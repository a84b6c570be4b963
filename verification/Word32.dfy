/** The operations on 32-bit words that the CRC uses, and their algebra.

    The CRC lemmas reason through these names, by equality alone; only the facts in this module are
    proved bit by bit.
 */
module Word32 {
  import opened Wrappers

  function Xor(a: bv32, b: bv32): bv32 {
    a ^ b
  }

  /** The word without its lowest bit. */
  function Half(a: bv32): bv32 {
    a >> 1
  }

  predicate Odd(a: bv32) {
    a & 1 == 1
  }

  /** A new lowest bit below w. */
  function Cons(bit: bool, w: bv32): bv32 {
    (w << 1) | (if bit then 1 else 0)
  }

  predicate TopIsClear(a: bv32) {
    a & 0x8000_0000 == 0
  }

  /** Every bit of w is a bit of m. */
  predicate Under(w: bv32, m: bv32) {
    w & !m == 0
  }

  lemma UnderNothing(m: bv32)
    ensures Under(0, m)
  {}

  lemma ConsTrueUnder(w: bv32, m: bv32)
    requires Under(w, m)
    ensures Under(Cons(true, w), Cons(true, m))
  {}

  lemma ConsFalseUnder(w: bv32, m: bv32)
    requires Under(w, m)
    ensures Under(Cons(false, w), Cons(true, m))
  {}

  lemma ConsUnder(bit: bool, w: bv32, m: bv32)
    requires Under(w, m)
    ensures Under(Cons(bit, w), Cons(true, m))
  {
    if bit { ConsTrueUnder(w, m); } else { ConsFalseUnder(w, m); }
  }

  lemma UnderTransitive(a: bv32, b: bv32, c: bv32)
    requires Under(a, b) && Under(b, c)
    ensures Under(a, c)
  {}

  lemma UnderClear(w: bv32, m: bv32)
    requires Under(w, m) && TopIsClear(m)
    ensures TopIsClear(w)
  {}

  lemma XorZero(a: bv32)
    ensures Xor(a, 0) == a
  {}

  lemma XorCommutes(a: bv32, b: bv32)
    ensures Xor(a, b) == Xor(b, a)
  {}

  lemma XorAssociates(a: bv32, b: bv32, c: bv32)
    ensures Xor(Xor(a, b), c) == Xor(a, Xor(b, c))
  {}

  lemma XorCancels(a: bv32, b: bv32)
    ensures Xor(a, Xor(a, b)) == b && Xor(Xor(a, b), b) == a
  {}

  lemma HalfXor(a: bv32, b: bv32)
    ensures Half(Xor(a, b)) == Xor(Half(a), Half(b))
  {}

  lemma OddXor(a: bv32, b: bv32)
    ensures Odd(Xor(a, b)) == (Odd(a) != Odd(b))
  {}

  lemma ConsTrue(w: bv32)
    requires TopIsClear(w)
    ensures Half(Cons(true, w)) == w && Odd(Cons(true, w))
  {}

  lemma ConsFalse(w: bv32)
    requires TopIsClear(w)
    ensures Half(Cons(false, w)) == w && !Odd(Cons(false, w))
  {}

  lemma HalfCons(bit: bool, w: bv32)
    requires TopIsClear(w)
    ensures Half(Cons(bit, w)) == w && Odd(Cons(bit, w)) == bit
  {
    if bit { ConsTrue(w); } else { ConsFalse(w); }
  }

  lemma OddSplits(a: bv32)
    requires Odd(a)
    ensures Cons(true, Half(a)) == a
  {}

  lemma EvenSplits(a: bv32)
    requires !Odd(a)
    ensures Cons(false, Half(a)) == a
  {}

  /** Every word is its lowest bit and the rest. */
  lemma ConsHalf(a: bv32)
    ensures Cons(Odd(a), Half(a)) == a && TopIsClear(Half(a))
  {
    if Odd(a) { OddSplits(a); } else { EvenSplits(a); }
  }

  /** The top bit of an xor with a word whose top bit is set. */
  lemma TopXor(p: bv32, w: bv32)
    requires !TopIsClear(p)
    ensures TopIsClear(Xor(p, w)) == !TopIsClear(w)
  {}

  function Low8(a: bv32): bv32 {
    a & 0xff
  }

  function Shr8(a: bv32): bv32 {
    a >> 8
  }

  function High24(a: bv32): bv32 {
    a & 0xffff_ff00
  }

  lemma LowAndHigh(a: bv32)
    ensures Xor(Low8(a), High24(a)) == a
  {}

  lemma HighIsAboveLow(a: bv32)
    ensures High24(a) & 0xff == 0 && Shr8(High24(a)) == Shr8(a)
  {}

  lemma ShiftDropsByte(a: bv32, b: bv32)
    requires Shr8(b) == 0
    ensures Shr8(Xor(a, b)) == Shr8(a)
  {}

  lemma LowIsOneByte(a: bv32)
    ensures Shr8(Low8(a)) == 0
  {}

  lemma FourBytesOut(a: bv32)
    ensures Shr8(Shr8(Shr8(Shr8(a)))) == 0
  {}

  /** The lowest n bits of w, lowest first. */
  function LowBits(n: nat, w: bv32): (bits: seq<bool>)
    ensures |bits| == n
  {
    if n == 0 then [] else [Odd(w)] + LowBits(n - 1, Half(w))
  }

  lemma {:induction false} BitAt(n: nat, j: nat, w: bv32)
    requires j < n
    ensures LowBits(n, w)[j] == Odd(Shr(j, w))
  {
    if j > 0 {
      BitAt(n - 1, j - 1, Half(w));
    }
  }

  lemma {:induction false} LowBitsSplit(n: nat, m: nat, w: bv32)
    ensures LowBits(n + m, w) == LowBits(n, w) + LowBits(m, Shr(n, w))
  {
    if n == 0 {
      assert [] + LowBits(m, w) == LowBits(m, w);
    } else {
      LowBitsSplit(n - 1, m, Half(w));
      Associative([Odd(w)], LowBits(n - 1, Half(w)), LowBits(m, Shr(n, w)));
    }
  }

  lemma {:induction false} ShrXor(n: nat, a: bv32, b: bv32)
    ensures Shr(n, Xor(a, b)) == Xor(Shr(n, a), Shr(n, b))
  {
    if n > 0 {
      HalfXor(a, b);
      ShrXor(n - 1, Half(a), Half(b));
    }
  }

  lemma LowBitsXor(n: nat, a: bv32, b: bv32, j: nat)
    requires j < n
    ensures LowBits(n, Xor(a, b))[j] == (LowBits(n, a)[j] != LowBits(n, b)[j])
  {
    BitAt(n, j, a);
    BitAt(n, j, b);
    BitAt(n, j, Xor(a, b));
    ShrXor(j, a, b);
    OddXor(Shr(j, a), Shr(j, b));
  }

  /** Bits as one word, the first bit lowest. */
  function Word(bits: seq<bool>): bv32 {
    if bits == [] then 0 else Cons(bits[0], Word(bits[1..]))
  }

  /** n single shifts to the right. */
  function Shr(n: nat, w: bv32): bv32 {
    if n == 0 then w else Shr(n - 1, Half(w))
  }

  lemma {:induction false} ShrCompose(n: nat, m: nat, v: bv32)
    ensures Shr(n + m, v) == Shr(n, Shr(m, v))
  {
    if m > 0 {
      ShrCompose(n, m - 1, Half(v));
    }
  }

  lemma ShiftBy2(v: bv32)
    ensures Shr(2, v) == v >> 2
  {
    ShrCompose(1, 1, v);
    assert (v >> 1) >> 1 == v >> 2;
  }

  lemma ShiftBy4(v: bv32)
    ensures Shr(4, v) == v >> 4
  {
    ShiftBy2(v);
    ShiftBy2(v >> 2);
    ShrCompose(2, 2, v);
    assert (v >> 2) >> 2 == v >> 4;
  }

  lemma ShiftBy8(v: bv32)
    ensures Shr(8, v) == Shr8(v)
  {
    ShiftBy4(v);
    ShiftBy4(v >> 4);
    ShrCompose(4, 4, v);
    assert (v >> 4) >> 4 == Shr8(v);
  }

  lemma ShiftBy32(v: bv32)
    ensures Shr(32, v) == 0
  {
    var v1 := Shr8(v);
    var v2 := Shr8(v1);
    var v3 := Shr8(v2);
    ShiftBy8(v);
    ShiftBy8(v1);
    ShiftBy8(v2);
    ShiftBy8(v3);
    ShrCompose(8, 8, v);
    ShrCompose(8, 16, v);
    ShrCompose(8, 24, v);
    FourBytesOut(v);
  }

  lemma {:induction false} WordOfLowBits(n: nat, w: bv32)
    requires Shr(n, w) == 0
    ensures Word(LowBits(n, w)) == w
  {
    if n > 0 {
      WordOfLowBits(n - 1, Half(w));
      ConsHalf(w);
      assert LowBits(n, w)[1..] == LowBits(n - 1, Half(w));
    }
  }

  // ----- numbers -----

  type byte = x: int | 0 <= x < 256

  /** The n lowest binary digits of k. */
  function IntBits(n: nat, k: nat): (bits: seq<bool>)
    ensures |bits| == n
  {
    if n == 0 then [] else [k % 2 == 1] + IntBits(n - 1, k / 2)
  }

  function IntOf(bits: seq<bool>): nat {
    if bits == [] then 0 else (if bits[0] then 1 else 0) + 2 * IntOf(bits[1..])
  }

  function Pow2(n: nat): nat {
    if n == 0 then 1 else 2 * Pow2(n - 1)
  }

  lemma {:induction false} IntBitsOfInt(bits: seq<bool>)
    ensures IntBits(|bits|, IntOf(bits)) == bits
  {
    if bits != [] {
      IntBitsOfInt(bits[1..]);
    }
  }

  lemma {:induction false} IntOfIntBits(n: nat, k: nat)
    requires k < Pow2(n)
    ensures IntOf(IntBits(n, k)) == k
  {
    if n > 0 {
      IntOfIntBits(n - 1, k / 2);
      assert IntBits(n, k)[1..] == IntBits(n - 1, k / 2);
    }
  }

  lemma {:induction false} IntOfIsBounded(bits: seq<bool>)
    ensures IntOf(bits) < Pow2(|bits|)
  {
    if bits != [] {
      IntOfIsBounded(bits[1..]);
    }
  }

  lemma Horner(d: nat, x: nat, p: nat, y: nat)
    ensures d + 2 * (x + p * y) == (d + 2 * x) + (2 * p) * y
  {}

  lemma IntOfCons(bit: bool, rest: seq<bool>)
    ensures IntOf([bit] + rest) == (if bit then 1 else 0) + 2 * IntOf(rest)
  {
    assert ([bit] + rest)[1..] == rest;
  }

  lemma {:induction false} IntOfConcat(a: seq<bool>, b: seq<bool>)
    ensures IntOf(a + b) == IntOf(a) + Pow2(|a|) * IntOf(b)
  {
    if a == [] {
      assert a + b == b;
    } else {
      var rest := a[1..];
      assert a == [a[0]] + rest && a + b == [a[0]] + (rest + b);
      IntOfCons(a[0], rest + b);
      IntOfConcat(rest, b);
      Horner(if a[0] then 1 else 0, IntOf(rest), Pow2(|rest|), IntOf(b));
    }
  }

  lemma Powers()
    ensures Pow2(8) == 256 && Pow2(32) == 0x1_0000_0000
  {
    assert Pow2(4) == 16;
    assert Pow2(8) == 256;
    assert Pow2(12) == 0x1000;
    assert Pow2(16) == 0x1_0000;
    assert Pow2(20) == 0x10_0000;
    assert Pow2(24) == 0x100_0000;
    assert Pow2(28) == 0x1000_0000;
  }

  /** A byte as a word. */
  function Widen(b: byte): bv32 {
    Word(IntBits(8, b))
  }

  /** The lowest byte of a word, as a number. */
  function ByteOf(w: bv32): (b: byte) {
    IntOfIsBounded(LowBits(8, w));
    Powers();
    IntOf(LowBits(8, w))
  }

  /** A word as a number. */
  function Number(w: bv32): (n: nat)
    ensures n < 0x1_0000_0000
  {
    IntOfIsBounded(LowBits(32, w));
    Powers();
    IntOf(LowBits(32, w))
  }

  lemma NumberIsInjective(a: bv32, b: bv32)
    requires Number(a) == Number(b)
    ensures a == b
  {
    IntBitsOfInt(LowBits(32, a));
    IntBitsOfInt(LowBits(32, b));
    ShiftBy32(a);
    ShiftBy32(b);
    WordOfLowBits(32, a);
    WordOfLowBits(32, b);
  }

  lemma LowDigits(n: nat, m: nat, w: bv32)
    ensures IntOf(LowBits(n + m, w)) == IntOf(LowBits(n, w)) + Pow2(n) * IntOf(LowBits(m, Shr(n, w)))
  {
    LowBitsSplit(n, m, w);
    IntOfConcat(LowBits(n, w), LowBits(m, Shr(n, w)));
  }

  lemma LowByteOf(low: int, high: int)
    requires 0 <= low < 256
    ensures (low + 256 * high) % 256 == low
  {}

  /** The lowest byte of a word's number holds its lowest eight bits. */
  lemma LowByteBits(w: bv32)
    ensures IntBits(8, Number(w) % 256) == LowBits(8, w)
  {
    var low, high := LowBits(8, w), LowBits(24, Shr(8, w));
    LowDigits(8, 24, w);
    Powers();
    IntOfIsBounded(low);
    IntBitsOfInt(low);
    LowByteOf(IntOf(low), IntOf(high));
  }
}
