/** The CRC of the PNG writer in kernel/src/desktop/compositor.ts.

    The specification is the bit-serial register of section 3.4 of RFC 2083: the register starts
    as all ones, takes the data bits of every byte from the least to the most significant one, and
    is complemented at the end.  The program instead works a byte at a time through a table.  This
    module proves the two equal on every input, and then proves which corruptions the CRC detects.
 */
module Crc32 {
  import opened Word32

  const POLYNOMIAL: bv32 := 0xedb8_8320
  const ALL_ONES: bv32 := 0xffff_ffff

  // ----- the bit-serial specification -----

  /** One clock of the shift register, fed with one data bit. */
  function SerialBit(c: bv32, bit: bool): bv32 {
    if Odd(c) != bit then Xor(Half(c), POLYNOMIAL) else Half(c)
  }

  function FeedBits(c: bv32, bits: seq<bool>): bv32
    decreases |bits|
  {
    if bits == [] then c else FeedBits(SerialBit(c, bits[0]), bits[1..])
  }

  /** The bits of a byte sequence in transmission order. */
  function Bits(data: seq<byte>): (bits: seq<bool>)
    ensures |bits| == 8 * |data|
  {
    if data == [] then [] else IntBits(8, data[0]) + Bits(data[1..])
  }

  function Crc(data: seq<byte>): bv32 {
    Xor(FeedBits(ALL_ONES, Bits(data)), ALL_ONES)
  }

  // ----- the step of the program, and its algebra -----

  /** The inner step of the table builder. */
  function Step(c: bv32): bv32 {
    if Odd(c) then Xor(POLYNOMIAL, Half(c)) else Half(c)
  }

  function StepN(n: nat, c: bv32): bv32 {
    if n == 0 then c else StepN(n - 1, Step(c))
  }

  /** The step backwards: the top bit tells which branch was taken. */
  function Unstep(d: bv32): bv32 {
    if TopIsClear(d) then Cons(false, d) else Cons(true, Xor(POLYNOMIAL, d))
  }

  /** The step is a bijection on 32-bit registers. */
  lemma StepIsBijective(c: bv32)
    ensures Unstep(Step(c)) == c
    ensures Step(Unstep(c)) == c
  {
    assert !TopIsClear(POLYNOMIAL);
    ConsHalf(c);
    TopXor(POLYNOMIAL, Half(c));
    XorCancels(POLYNOMIAL, Half(c));
    TopXor(POLYNOMIAL, c);
    XorCancels(POLYNOMIAL, c);
    if TopIsClear(c) {
      HalfCons(false, c);
    } else {
      HalfCons(true, Xor(POLYNOMIAL, c));
    }
  }

  /** The step is linear over xor. */
  lemma StepIsLinear(a: bv32, b: bv32)
    ensures Step(Xor(a, b)) == Xor(Step(a), Step(b))
  {
    HalfXor(a, b);
    OddXor(a, b);
    var x, y := Half(a), Half(b);
    XorAssociates(POLYNOMIAL, x, y);
    XorAssociates(POLYNOMIAL, x, Xor(POLYNOMIAL, y));
    XorCommutes(POLYNOMIAL, x);
    XorAssociates(x, POLYNOMIAL, y);
    XorAssociates(x, POLYNOMIAL, Xor(POLYNOMIAL, y));
    XorCancels(POLYNOMIAL, y);
  }

  lemma {:induction false} StepNIsLinear(n: nat, a: bv32, b: bv32)
    ensures StepN(n, Xor(a, b)) == Xor(StepN(n, a), StepN(n, b))
  {
    if n > 0 {
      StepIsLinear(a, b);
      StepNIsLinear(n - 1, Step(a), Step(b));
    }
  }

  lemma {:induction false} StepNIsInjective(n: nat, a: bv32, b: bv32)
    requires StepN(n, a) == StepN(n, b)
    ensures a == b
  {
    if n > 0 {
      StepNIsInjective(n - 1, Step(a), Step(b));
      StepIsBijective(a);
      StepIsBijective(b);
    }
  }

  /** Feeding the lowest bit of v and xoring in the rest is one step on the register xor v. */
  lemma SerialBitIsStep(c: bv32, v: bv32)
    ensures Xor(SerialBit(c, Odd(v)), Half(v)) == Step(Xor(c, v))
  {
    HalfXor(c, v);
    OddXor(c, v);
    var x, y := Half(c), Half(v);
    XorAssociates(POLYNOMIAL, x, y);
    XorCommutes(POLYNOMIAL, x);
  }

  predicate LowZero(n: nat, v: bv32) {
    n == 0 || (!Odd(v) && LowZero(n - 1, Half(v)))
  }

  lemma {:induction false} LowZeroCompose(n: nat, m: nat, v: bv32)
    requires LowZero(m, v) && LowZero(n, Shr(m, v))
    ensures LowZero(n + m, v)
  {
    if m > 0 {
      LowZeroCompose(n, m - 1, Half(v));
    }
  }

  lemma LowZero2(v: bv32)
    requires v & 3 == 0
    ensures LowZero(2, v)
  {
    assert v & 1 == 0 && (v >> 1) & 1 == 0;
    assert LowZero(1, Half(v));
  }

  lemma LowZero4(v: bv32)
    requires v & 0xf == 0
    ensures LowZero(4, v)
  {
    assert v & 3 == 0 && (v >> 2) & 3 == 0;
    LowZero2(v);
    LowZero2(v >> 2);
    ShiftBy2(v);
    LowZeroCompose(2, 2, v);
  }

  lemma LowZero8(v: bv32)
    requires v & 0xff == 0
    ensures LowZero(8, v)
  {
    assert v & 0xf == 0 && (v >> 4) & 0xf == 0;
    LowZero4(v);
    LowZero4(v >> 4);
    ShiftBy4(v);
    LowZeroCompose(4, 4, v);
  }

  lemma {:induction false} FeedConcat(c: bv32, a: seq<bool>, b: seq<bool>)
    ensures FeedBits(c, a + b) == FeedBits(FeedBits(c, a), b)
    decreases |a|
  {
    if a == [] {
      assert a + b == b;
    } else {
      assert (a + b)[1..] == a[1..] + b;
      FeedConcat(SerialBit(c, a[0]), a[1..], b);
    }
  }

  // ----- feeding up to 32 bits at once -----

  /** The n lowest bits. */
  function Mask(n: nat): bv32 {
    if n == 0 then 0 else Cons(true, Mask(n - 1))
  }

  lemma {:induction false} MaskGrows(n: nat, m: nat)
    requires n <= m
    ensures Under(Mask(n), Mask(m))
  {
    if n == 0 {
      UnderNothing(Mask(m));
    } else {
      MaskGrows(n - 1, m - 1);
      ConsUnder(true, Mask(n - 1), Mask(m - 1));
    }
  }

  lemma MaskAt31()
    ensures Mask(31) == 0x7fff_ffff
  {
    assert Mask(2) == 0x3;
    assert Mask(4) == 0xf;
    assert Mask(6) == 0x3f;
    assert Mask(8) == 0xff;
    assert Mask(10) == 0x3ff;
    assert Mask(12) == 0xfff;
    assert Mask(14) == 0x3fff;
    assert Mask(16) == 0xffff;
    assert Mask(18) == 0x3ffff;
    assert Mask(20) == 0xfffff;
    assert Mask(22) == 0x3fffff;
    assert Mask(24) == 0xffffff;
    assert Mask(26) == 0x3ffffff;
    assert Mask(28) == 0xfffffff;
    assert Mask(30) == 0x3fffffff;
  }

  lemma {:induction false} WordIsMasked(bits: seq<bool>)
    ensures Under(Word(bits), Mask(|bits|))
  {
    if bits == [] {
      UnderNothing(Mask(0));
    } else {
      WordIsMasked(bits[1..]);
      ConsUnder(bits[0], Word(bits[1..]), Mask(|bits| - 1));
    }
  }

  /** A word of at most 31 bits has room for one more. */
  lemma ShortWordHasRoom(bits: seq<bool>)
    requires |bits| <= 31
    ensures TopIsClear(Word(bits))
  {
    WordIsMasked(bits);
    MaskGrows(|bits|, 31);
    MaskAt31();
    UnderTransitive(Word(bits), Mask(|bits|), Mask(31));
    UnderClear(Word(bits), Mask(31));
  }

  lemma {:induction false} WordIsInjective(a: seq<bool>, b: seq<bool>)
    requires |a| == |b| <= 32 && Word(a) == Word(b)
    ensures a == b
  {
    if a != [] {
      ShortWordHasRoom(a[1..]);
      ShortWordHasRoom(b[1..]);
      HalfCons(a[0], Word(a[1..]));
      HalfCons(b[0], Word(b[1..]));
      WordIsInjective(a[1..], b[1..]);
      assert a == [a[0]] + a[1..] && b == [b[0]] + b[1..];
    }
  }

  lemma {:induction false} WordIsShort(bits: seq<bool>)
    requires |bits| <= 32
    ensures Shr(|bits|, Word(bits)) == 0
  {
    if bits != [] {
      ShortWordHasRoom(bits[1..]);
      HalfCons(bits[0], Word(bits[1..]));
      WordIsShort(bits[1..]);
    }
  }

  /** At most 32 bits enter the register like one word xored in before the clocking. */
  lemma {:induction false} FeedWord(c: bv32, bits: seq<bool>)
    requires |bits| <= 32
    ensures FeedBits(c, bits) == StepN(|bits|, Xor(c, Word(bits)))
    decreases |bits|
  {
    if bits == [] {
      XorZero(c);
    } else {
      FeedWord(SerialBit(c, bits[0]), bits[1..]);
      ShortWordHasRoom(bits[1..]);
      HalfCons(bits[0], Word(bits[1..]));
      SerialBitIsStep(c, Word(bits));
    }
  }

  // ----- a known value -----

  function Ones(n: nat): (bits: seq<bool>)
    ensures |bits| == n
  {
    seq(n, _ => true)
  }

  /** A register of k + 1 ones loses one of them with each one fed in. */
  lemma {:induction false} FeedOnes(k: nat)
    requires k <= 31
    ensures FeedBits(Mask(k + 1), Ones(k)) == Mask(1)
  {
    if k > 0 {
      MaskGrows(k, 31);
      MaskAt31();
      UnderClear(Mask(k), Mask(31));
      HalfCons(true, Mask(k));
      assert Ones(k)[1..] == Ones(k - 1);
      FeedOnes(k - 1);
    }
  }

  lemma OnesThenZero()
    ensures Bits([0xff, 0xff, 0xff, 0x7f]) == Ones(31) + [false]
  {
    var data: seq<byte> := [0xff, 0xff, 0xff, 0x7f];
    assert IntBits(8, 0xff) == Ones(8);
    assert IntBits(8, 0x7f) == Ones(7) + [false];
    assert data[1..] == [0xff, 0xff, 0x7f] && data[1..][1..] == [0xff, 0x7f] && data[1..][1..][1..] == [0x7f];
    assert Bits([0x7f]) == IntBits(8, 0x7f) + Bits([]);
    assert Bits([0xff, 0x7f]) == Ones(15) + [false];
    assert Bits([0xff, 0xff, 0x7f]) == Ones(23) + [false];
  }

  /** Of these four bytes only the last bit finds the register different, so that their CRC is the
      complement of the polynomial; and the CRC of nothing is 0. */
  lemma KnownValues()
    ensures Crc([]) == 0 && Crc([0xff, 0xff, 0xff, 0x7f]) == 0x1247_7cdf
  {
    MaskAt31();
    assert Mask(32) == ALL_ONES;
    FeedOnes(31);
    OnesThenZero();
    FeedConcat(ALL_ONES, Ones(31), [false]);
    OneZero();
    assert Xor(POLYNOMIAL, ALL_ONES) == 0x1247_7cdf;
  }

  lemma OneZero()
    ensures FeedBits(Mask(1), [false]) == POLYNOMIAL
  {
    assert Mask(1) == Cons(true, 0);
    HalfCons(true, 0);
    XorCommutes(0, POLYNOMIAL);
    XorZero(POLYNOMIAL);
    assert [false][1..] == [] && SerialBit(Mask(1), false) == POLYNOMIAL;
  }

  // ----- the table-driven form -----

  /** Entry n of the table: the register n clocked eight times. */
  function TableEntry(n: byte): bv32 {
    StepN(8, Widen(n))
  }

  /** What CRC_TABLE holds. */
  ghost predicate IsTable(t: seq<bv32>) {
    |t| == 256 && forall m: byte :: t[m] == TableEntry(m)
  }

  method MakeTable() returns (t: array<bv32>)
    ensures fresh(t) && IsTable(t[..])
  {
    t := new bv32[256];
    var n := 0;
    while n < 256
      invariant 0 <= n <= 256
      invariant forall m: byte :: m < n ==> t[m] == TableEntry(m)
    {
      t[n] := BuildEntry(n);
      n := n + 1;
    }
  }

  method BuildEntry(n: byte) returns (c: bv32)
    ensures c == TableEntry(n)
  {
    c := ClockEight(Widen(n));
  }

  /** The inner loop of the table builder. */
  method ClockEight(start: bv32) returns (c: bv32)
    ensures c == StepN(8, start)
  {
    c := start;
    var k := 0;
    while k < 8
      invariant 0 <= k <= 8
      invariant StepN(8 - k, c) == StepN(8, start)
    {
      c := ClockOnce(c);
      k := k + 1;
    }
  }

  method ClockOnce(c: bv32) returns (d: bv32)
    ensures d == Step(c)
  {
    d := if c & 1 == 1 then POLYNOMIAL ^ (c >> 1) else c >> 1;
  }

  /** The byte step of `crc32`, with the table entry spelled out. */
  function ByteStep(c: bv32, b: byte): bv32 {
    Xor(StepN(8, Low8(Xor(c, Widen(b)))), Shr8(c))
  }

  lemma {:induction false} LowZerosShiftOut(n: nat, x: bv32)
    requires LowZero(n, x)
    ensures StepN(n, x) == Shr(n, x)
  {
    if n > 0 {
      LowZerosShiftOut(n - 1, Half(x));
    }
  }

  lemma ByteIsShort(b: byte)
    ensures Shr(8, Widen(b)) == 0
  {
    WordIsShort(IntBits(8, b));
  }

  /** One table step does what feeding the eight bits of the byte does. */
  lemma ByteStepIsSerial(c: bv32, b: byte)
    ensures ByteStep(c, b) == FeedBits(c, IntBits(8, b))
  {
    var x := Xor(c, Widen(b));
    var low, high := Low8(x), High24(x);
    LowAndHigh(x);
    HighIsAboveLow(x);
    ByteIsShort(b);
    ShiftBy8(Widen(b));
    ShiftDropsByte(c, Widen(b));
    StepNIsLinear(8, low, high);
    LowZero8(high);
    LowZerosShiftOut(8, high);
    ShiftBy8(high);
    FeedWord(c, IntBits(8, b));
  }

  lemma {:induction false} BitsConcat(a: seq<byte>, b: seq<byte>)
    ensures Bits(a + b) == Bits(a) + Bits(b)
  {
    if a == [] {
      assert a + b == b;
    } else {
      assert (a + b)[1..] == a[1..] + b;
      BitsConcat(a[1..], b);
    }
  }

  lemma TableLookup(t: seq<bv32>, a: bv32)
    requires IsTable(t)
    ensures t[ByteOf(Low8(a))] == StepN(8, Low8(a))
  {
    var bits := LowBits(8, Low8(a));
    IntBitsOfInt(bits);
    LowIsOneByte(a);
    ShiftBy8(Low8(a));
    WordOfLowBits(8, Low8(a));
    assert Widen(ByteOf(Low8(a))) == Low8(a);
  }

  /** `crc32`: the table-driven loop computes the bit-serial CRC, for every byte sequence. */
  method Compute(t: array<bv32>, buf: seq<byte>) returns (crc: bv32)
    requires IsTable(t[..])
    ensures crc == Crc(buf)
  {
    var c: bv32 := 0xffff_ffff;
    var i := 0;
    while i < |buf|
      invariant 0 <= i <= |buf|
      invariant c == FeedBits(ALL_ONES, Bits(buf[..i]))
    {
      TableLookup(t[..], Xor(c, Widen(buf[i])));
      ByteStepIsSerial(c, buf[i]);
      c := Xor(t[ByteOf(Low8(Xor(c, Widen(buf[i]))))], Shr8(c));
      OneMoreByte(buf, i);
      i := i + 1;
    }
    assert buf[..|buf|] == buf;
    crc := Xor(c, 0xffff_ffff);
  }

  lemma OneMoreByte(buf: seq<byte>, i: nat)
    requires i < |buf|
    ensures FeedBits(ALL_ONES, Bits(buf[..i + 1]))
         == FeedBits(FeedBits(ALL_ONES, Bits(buf[..i])), IntBits(8, buf[i]))
  {
    assert buf[..i + 1] == buf[..i] + [buf[i]];
    BitsConcat(buf[..i], [buf[i]]);
    assert Bits([buf[i]]) == IntBits(8, buf[i]);
    FeedConcat(ALL_ONES, Bits(buf[..i]), IntBits(8, buf[i]));
  }

  // ----- error detection -----

  /** From equal registers, at most 32 bits are determined by where the register ends. */
  lemma FeedIsInjectiveInBits(c: bv32, a: seq<bool>, b: seq<bool>)
    requires |a| == |b| <= 32 && FeedBits(c, a) == FeedBits(c, b)
    ensures a == b
  {
    FeedWord(c, a);
    FeedWord(c, b);
    StepNIsInjective(|a|, Xor(c, Word(a)), Xor(c, Word(b)));
    XorCancels(c, Word(a));
    XorCancels(c, Word(b));
    WordIsInjective(a, b);
  }

  /** The bit step backwards. */
  lemma SerialBitIsUndone(c: bv32, bit: bool)
    ensures Xor(Unstep(SerialBit(c, bit)), Cons(bit, 0)) == c
  {
    var v := Cons(bit, 0);
    HalfCons(bit, 0);
    SerialBitIsStep(c, v);
    XorZero(SerialBit(c, bit));
    StepIsBijective(Xor(c, v));
    XorCancels(c, v);
  }

  lemma {:induction false} FeedIsInjectiveInState(c: bv32, d: bv32, bits: seq<bool>)
    requires FeedBits(c, bits) == FeedBits(d, bits)
    ensures c == d
    decreases |bits|
  {
    if bits != [] {
      FeedIsInjectiveInState(SerialBit(c, bits[0]), SerialBit(d, bits[0]), bits[1..]);
      SerialBitIsUndone(c, bits[0]);
      SerialBitIsUndone(d, bits[0]);
    }
  }

  lemma {:induction false} BitsAreInjective(a: seq<byte>, b: seq<byte>)
    requires Bits(a) == Bits(b)
    ensures a == b
  {
    assert |a| == |b|;
    if a != [] {
      var x, y := Bits(a), Bits(b);
      assert x[..8] == IntBits(8, a[0]) && y[..8] == IntBits(8, b[0]);
      assert x[8..] == Bits(a[1..]) && y[8..] == Bits(b[1..]);
      Powers();
      IntOfIntBits(8, a[0]);
      IntOfIntBits(8, b[0]);
      BitsAreInjective(a[1..], b[1..]);
      assert a == [a[0]] + a[1..] && b == [b[0]] + b[1..];
    }
  }

  /** a and b differ at most in the n bits from bit i on. */
  ghost predicate DifferOnlyInBits(a: seq<byte>, b: seq<byte>, i: nat, n: nat) {
    && |a| == |b| && i + n <= 8 * |a|
    && Bits(a)[..i] == Bits(b)[..i]
    && Bits(a)[i + n..] == Bits(b)[i + n..]
  }

  /** Every error burst of at most 32 bits, at any bit position, changes the CRC. */
  lemma BurstIsDetected(a: seq<byte>, b: seq<byte>, i: nat, n: nat)
    requires n <= 32 && DifferOnlyInBits(a, b, i, n)
    ensures Crc(a) == Crc(b) <==> a == b
  {
    if Crc(a) == Crc(b) {
      var x, y := Bits(a), Bits(b);
      var pre, post := x[..i], x[i + n..];
      var u, v := x[i..i + n], y[i..i + n];
      assert x == pre + (u + post) && y == pre + (v + post);
      var c := FeedBits(ALL_ONES, pre);
      FeedConcat(ALL_ONES, pre, u + post);
      FeedConcat(ALL_ONES, pre, v + post);
      FeedConcat(c, u, post);
      FeedConcat(c, v, post);
      XorCancels(FeedBits(ALL_ONES, x), ALL_ONES);
      XorCancels(FeedBits(ALL_ONES, y), ALL_ONES);
      FeedIsInjectiveInState(FeedBits(c, u), FeedBits(c, v), post);
      FeedIsInjectiveInBits(c, u, v);
      BitsAreInjective(a, b);
    }
  }

  lemma XorOfXors(c: bv32, a: bv32, b: bv32)
    ensures Xor(Xor(c, a), Xor(c, b)) == Xor(a, b)
    ensures Xor(Xor(a, c), Xor(b, c)) == Xor(a, b)
  {
    XorCommutes(c, a);
    XorCommutes(c, b);
    XorAssociates(a, c, Xor(c, b));
    XorCancels(c, b);
  }

  lemma SerialBitIsLinear(c: bv32, d: bv32, bit: bool)
    ensures Xor(SerialBit(c, bit), SerialBit(d, bit)) == Step(Xor(c, d))
  {
    var v := Cons(bit, 0);
    HalfCons(bit, 0);
    SerialBitIsStep(c, v);
    SerialBitIsStep(d, v);
    XorZero(SerialBit(c, bit));
    XorZero(SerialBit(d, bit));
    StepIsLinear(Xor(c, v), Xor(d, v));
    XorOfXors(v, c, d);
  }

  /** The same bits carry a difference of registers on as plain clocking does. */
  lemma {:induction false} FeedIsLinear(c: bv32, d: bv32, bits: seq<bool>)
    ensures Xor(FeedBits(c, bits), FeedBits(d, bits)) == StepN(|bits|, Xor(c, d))
    decreases |bits|
  {
    if bits != [] {
      SerialBitIsLinear(c, d, bits[0]);
      FeedIsLinear(SerialBit(c, bits[0]), SerialBit(d, bits[0]), bits[1..]);
    }
  }

  lemma {:induction false} StepNCompose(n: nat, m: nat, c: bv32)
    ensures StepN(n + m, c) == StepN(m, StepN(n, c))
  {
    if n > 0 {
      StepNCompose(n - 1, m, Step(c));
    }
  }

  /** Two stretches of at most 32 bits between the same bits. */
  lemma MiddleDifference(c: bv32, u: seq<bool>, v: seq<bool>, post: seq<bool>)
    requires |u| == |v| <= 32
    ensures Xor(FeedBits(c, u + post), FeedBits(c, v + post)) == StepN(|u| + |post|, Xor(Word(u), Word(v)))
  {
    FeedConcat(c, u, post);
    FeedConcat(c, v, post);
    FeedWord(c, u);
    FeedWord(c, v);
    FeedIsLinear(FeedBits(c, u), FeedBits(c, v), post);
    StepNIsLinear(|u|, Xor(c, Word(u)), Xor(c, Word(v)));
    XorOfXors(c, Word(u), Word(v));
    StepNCompose(|u|, |post|, Xor(Word(u), Word(v)));
  }

  /** What a burst does to the CRC: it depends on the burst and on how much comes after, and on
      nothing else of the data. */
  function Syndrome(u: seq<bool>, v: seq<bool>, after: nat): bv32 {
    StepN(|u| + after, Xor(Word(u), Word(v)))
  }

  lemma FeedDifference(c: bv32, pre: seq<bool>, u: seq<bool>, v: seq<bool>, post: seq<bool>)
    requires |u| == |v| <= 32
    ensures Xor(FeedBits(c, pre + (u + post)), FeedBits(c, pre + (v + post))) == Syndrome(u, v, |post|)
  {
    FeedConcat(c, pre, u + post);
    FeedConcat(c, pre, v + post);
    MiddleDifference(FeedBits(c, pre), u, v, post);
  }

  lemma Parts(x: seq<bool>, i: nat, n: nat)
    requires i + n <= |x|
    ensures x == x[..i] + (x[i..i + n] + x[i + n..])
  {}

  /** The syndrome of the n bits from bit i on. */
  function BurstSyndrome(a: seq<byte>, b: seq<byte>, i: nat, n: nat): bv32
    requires |a| == |b| && i + n <= 8 * |a|
  {
    Syndrome(Bits(a)[i..i + n], Bits(b)[i..i + n], 8 * |a| - i - n)
  }

  lemma CrcDifference(a: seq<byte>, b: seq<byte>, i: nat, n: nat)
    requires n <= 32 && DifferOnlyInBits(a, b, i, n)
    ensures Crc(b) == Xor(Crc(a), BurstSyndrome(a, b, i, n))
  {
    var x, y := Bits(a), Bits(b);
    Parts(x, i, n);
    Parts(y, i, n);
    FeedDifference(ALL_ONES, x[..i], x[i..i + n], y[i..i + n], x[i + n..]);
    XorOfXors(ALL_ONES, FeedBits(ALL_ONES, x), FeedBits(ALL_ONES, y));
    XorCancels(Crc(a), Crc(b));
  }

  /** Two sequences that differ only inside four consecutive bytes have different CRCs. */
  lemma FourByteWindowIsDetected(a: seq<byte>, b: seq<byte>, i: nat, n: nat)
    requires |a| == |b| && i + n <= |a| && n <= 4
    requires a[..i] == b[..i] && a[i + n..] == b[i + n..]
    ensures Crc(a) == Crc(b) <==> a == b
  {
    assert a == a[..i] + (a[i..i + n] + a[i + n..]);
    assert b == a[..i] + (b[i..i + n] + a[i + n..]);
    BitsConcat(a[..i], a[i..i + n] + a[i + n..]);
    BitsConcat(a[..i], b[i..i + n] + a[i + n..]);
    BitsConcat(a[i..i + n], a[i + n..]);
    BitsConcat(b[i..i + n], a[i + n..]);
    BurstIsDetected(a, b, 8 * i, 8 * n);
  }

  /** These two 33-bit inputs differ and drive every register alike. */
  lemma SameRegister(c: bv32)
    ensures FeedBits(c, [false] + LowBits(32, 0)) == FeedBits(c, [true] + LowBits(32, POLYNOMIAL))
  {
    var a, b := [false] + LowBits(32, 0), [true] + LowBits(32, POLYNOMIAL);
    assert a[1..] == LowBits(32, 0) && b[1..] == LowBits(32, POLYNOMIAL);
    ShiftBy32(0);
    ShiftBy32(POLYNOMIAL);
    WordOfLowBits(32, 0);
    WordOfLowBits(32, POLYNOMIAL);
    FeedWord(SerialBit(c, false), LowBits(32, 0));
    FeedWord(SerialBit(c, true), LowBits(32, POLYNOMIAL));
    XorZero(SerialBit(c, false));
    XorCancels(Half(c), POLYNOMIAL);
  }

  /** Bits packed into bytes, in transmission order. */
  function BytesOf(bits: seq<bool>): (data: seq<byte>)
    requires |bits| % 8 == 0
    ensures 8 * |data| == |bits|
  {
    if bits == [] then []
    else
      IntOfIsBounded(bits[..8]);
      Powers();
      [IntOf(bits[..8])] + BytesOf(bits[8..])
  }

  lemma {:induction false} BitsOfBytes(bits: seq<bool>)
    requires |bits| % 8 == 0
    ensures Bits(BytesOf(bits)) == bits
  {
    if bits != [] {
      BitsOfBytes(bits[8..]);
      IntBitsOfInt(bits[..8]);
      assert bits == bits[..8] + bits[8..];
    }
  }

  const GAP := [false, false, false, false, false, false, false]

  /** Five zero bytes, and five bytes that hold the polynomial with its leading term. */
  function Silence(): seq<byte> {
    BytesOf([false] + LowBits(32, 0) + GAP)
  }

  function Burst(): seq<byte> {
    BytesOf([true] + LowBits(32, POLYNOMIAL) + GAP)
  }

  /** The bound on bursts is sharp: in every message, these five bytes can take each other's place
      unnoticed, and they differ in the first and the last of 33 bits and in none after. */
  lemma LongerBurstsEscape(before: seq<byte>, after: seq<byte>)
    ensures var a, b := before + (Silence() + after), before + (Burst() + after);
            && |a| == |b| && Crc(a) == Crc(b)
            && DifferOnlyInBits(a, b, 8 * |before|, 33)
            && Bits(a)[8 * |before|] != Bits(b)[8 * |before|]
            && Bits(a)[8 * |before| + 32] != Bits(b)[8 * |before| + 32]
  {
    var x, y := [false] + LowBits(32, 0), [true] + LowBits(32, POLYNOMIAL);
    BitsOfBytes(x + GAP);
    BitsOfBytes(y + GAP);
    SameRegister(FeedBits(ALL_ONES, Bits(before)));
    BurstEnds();
    Interchangeable(before, Silence(), Burst(), after, x, y);
  }

  lemma Interchangeable(before: seq<byte>, m: seq<byte>, m': seq<byte>, after: seq<byte>, x: seq<bool>, y: seq<bool>)
    requires Bits(m) == x + GAP && Bits(m') == y + GAP
    requires |x| == |y| == 33 && x[0] != y[0] && x[32] != y[32]
    requires var c := FeedBits(ALL_ONES, Bits(before)); FeedBits(c, x) == FeedBits(c, y)
    ensures var a, b := before + (m + after), before + (m' + after);
            && |a| == |b| && Crc(a) == Crc(b)
            && DifferOnlyInBits(a, b, 8 * |before|, 33)
            && Bits(a)[8 * |before|] != Bits(b)[8 * |before|]
            && Bits(a)[8 * |before| + 32] != Bits(b)[8 * |before| + 32]
  {
    InMessage(before, m, after, x);
    InMessage(before, m', after, y);
    EndsDiffer(before + (m + after), before + (m' + after), Bits(before), x, y, GAP + Bits(after));
  }

  lemma EndsDiffer(a: seq<byte>, b: seq<byte>, pre: seq<bool>, x: seq<bool>, y: seq<bool>, post: seq<bool>)
    requires |a| == |b| && |x| == |y| == 33 && x[0] != y[0] && x[32] != y[32]
    requires Bits(a) == pre + (x + post) && Bits(b) == pre + (y + post)
    ensures DifferOnlyInBits(a, b, |pre|, 33)
    ensures Bits(a)[|pre|] != Bits(b)[|pre|] && Bits(a)[|pre| + 32] != Bits(b)[|pre| + 32]
  {
    MiddlesDiffer(pre, x, y, post);
    assert Bits(a)[|pre| + 0] == x[0] && Bits(b)[|pre| + 0] == y[0];
  }

  lemma MiddlesDiffer(pre: seq<bool>, x: seq<bool>, y: seq<bool>, post: seq<bool>)
    requires |x| == |y|
    ensures var a, b, i, j := pre + (x + post), pre + (y + post), |pre|, |pre| + |x|;
            && a[..i] == b[..i] && a[j..] == b[j..] && a[i..j] == x && b[i..j] == y
            && forall k :: 0 <= k < |x| ==> a[i + k] == x[k] && b[i + k] == y[k]
  {
    Surrounded(pre, x, post);
    Surrounded(pre, y, post);
  }

  lemma Surrounded(pre: seq<bool>, x: seq<bool>, post: seq<bool>)
    ensures var a, i, j := pre + (x + post), |pre|, |pre| + |x|;
            && a[..i] == pre && a[i..j] == x && a[j..] == post
            && forall k :: 0 <= k < |x| ==> a[i + k] == x[k]
  {}

  /** The bits of a message with `bits` and a gap in the middle, and where they leave the register. */
  lemma InMessage(before: seq<byte>, middle: seq<byte>, after: seq<byte>, bits: seq<bool>)
    requires Bits(middle) == bits + GAP
    ensures var all, pre := Bits(before + (middle + after)), Bits(before);
            && all == pre + (bits + (GAP + Bits(after)))
            && FeedBits(ALL_ONES, all) == FeedBits(FeedBits(FeedBits(ALL_ONES, pre), bits), GAP + Bits(after))
  {
    var pre, post := Bits(before), GAP + Bits(after);
    BitsConcat(before, middle + after);
    BitsConcat(middle, after);
    assert bits + GAP + Bits(after) == bits + post;
    FeedConcat(ALL_ONES, pre, bits + post);
    FeedConcat(FeedBits(ALL_ONES, pre), bits, post);
  }

  lemma BurstEnds()
    ensures !LowBits(32, 0)[31] && LowBits(32, POLYNOMIAL)[31]
  {
    BitAt(32, 31, 0);
    BitAt(32, 31, POLYNOMIAL);
    ShrOfZero(31);
    TopOfPolynomial();
  }

  lemma ShrOfZero(n: nat)
    ensures Shr(n, 0) == 0
  {}

  lemma TopOfPolynomial()
    ensures Shr(31, POLYNOMIAL) == 1
  {
    var v1 := Shr8(POLYNOMIAL);
    var v2 := Shr8(v1);
    var v3 := Shr8(v2);
    ShiftBy8(POLYNOMIAL);
    ShiftBy8(v1);
    ShiftBy8(v2);
    ShrCompose(8, 8, POLYNOMIAL);
    ShrCompose(8, 16, POLYNOMIAL);
    ShrCompose(7, 24, POLYNOMIAL);
    ShiftBy4(v3);
    ShiftBy2(v3 >> 4);
    ShrCompose(2, 4, v3);
    ShrCompose(1, 6, v3);
    assert v3 == 0xed;
  }

  /** Flipping the last bit xors the CRC with the polynomial. */
  lemma LastBitFlipped(a: seq<byte>, b: seq<byte>, pre: seq<bool>, x: bool)
    requires Bits(a) == pre + [x] && Bits(b) == pre + [!x]
    ensures Crc(b) == Xor(Crc(a), POLYNOMIAL)
  {
    FeedDifference(ALL_ONES, pre, [x], [!x], []);
    assert [x] + [] == [x] && [!x] + [] == [!x];
    OneBitSyndrome(x);
    XorOfXors(ALL_ONES, FeedBits(ALL_ONES, Bits(a)), FeedBits(ALL_ONES, Bits(b)));
    XorCancels(Crc(a), Crc(b));
  }

  lemma OneBitSyndrome(x: bool)
    ensures Syndrome([x], [!x], 0) == POLYNOMIAL
  {
    var one := Cons(true, 0);
    assert Word([x]) == Cons(x, 0) && Word([!x]) == Cons(!x, 0);
    assert Xor(Cons(true, 0), Cons(false, 0)) == one && Xor(Cons(false, 0), Cons(true, 0)) == one;
    HalfCons(true, 0);
    XorZero(POLYNOMIAL);
    assert StepN(1, one) == StepN(0, Step(one));
  }

  /** The polynomial has no bits 6 and 7. */
  lemma PolynomialGap()
    ensures !LowBits(8, POLYNOMIAL)[6] && !LowBits(8, POLYNOMIAL)[7]
  {
    var p4 := POLYNOMIAL >> 4;
    BitAt(8, 6, POLYNOMIAL);
    BitAt(8, 7, POLYNOMIAL);
    ShiftBy4(POLYNOMIAL);
    ShiftBy2(p4);
    ShrCompose(2, 4, POLYNOMIAL);
    ShrCompose(1, 6, POLYNOMIAL);
    assert p4 >> 2 == 0x3b6_e20c;
  }
}
