/** The check value of CRC32C: the shift register as a 32-bit word, and the sum of nine bytes. */
module CrcCheck {
  import opened Basics
  import opened Words
  import opened Crc
  import opened CrcTheorems

  /** The word with bit i alone. */
  function Mask(i: nat): bv32
    requires i < 32
  {
    if i == 0 then 1 else Mask(i - 1) << 1
  }

  predicate Single(m: bv32) {
    m != 0 && m & (m - 1) == 0
  }

  lemma MaskValues()
    ensures Mask(0) == 0x1 && Mask(1) == 0x2 && Mask(2) == 0x4 && Mask(3) == 0x8
    ensures Mask(4) == 0x10 && Mask(5) == 0x20 && Mask(6) == 0x40 && Mask(7) == 0x80
    ensures Mask(8) == 0x100 && Mask(9) == 0x200 && Mask(10) == 0x400 && Mask(11) == 0x800
    ensures Mask(12) == 0x1000 && Mask(13) == 0x2000 && Mask(14) == 0x4000 && Mask(15) == 0x8000
    ensures Mask(16) == 0x10000 && Mask(17) == 0x20000 && Mask(18) == 0x40000 && Mask(19) == 0x80000
    ensures Mask(20) == 0x100000 && Mask(21) == 0x200000 && Mask(22) == 0x400000 && Mask(23) == 0x800000
    ensures Mask(24) == 0x1000000 && Mask(25) == 0x2000000 && Mask(26) == 0x4000000 && Mask(27) == 0x8000000
    ensures Mask(28) == 0x10000000 && Mask(29) == 0x20000000 && Mask(30) == 0x40000000 && Mask(31) == 0x80000000
  {
  }

  lemma {:induction false} MaskFits(i: nat)
    requires i < 32
    ensures Mask(i) != 0 && (i < 31 ==> Mask(i) != 0x8000_0000)
    decreases 31 - i
  {
    if i == 31 {
      MaskValues();
    } else {
      MaskFits(i + 1);
    }
  }

  lemma SingleShifted(m: bv32)
    requires Single(m) && m != 0x8000_0000
    ensures Single(m << 1)
  {
  }

  lemma {:induction false} MaskSingle(i: nat)
    requires i < 32
    ensures Single(Mask(i))
    decreases i
  {
    if i > 0 {
      MaskFits(i - 1);
      MaskSingle(i - 1);
      SingleShifted(Mask(i - 1));
    }
  }

  predicate Masked(v: bv32, m: bv32) {
    v & m != 0
  }

  predicate BitAt(v: bv32, i: nat)
    requires i < 32
  {
    Masked(v, Mask(i))
  }

  lemma XorMasked(a: bv32, b: bv32, m: bv32)
    requires Single(m)
    ensures Masked(a ^ b, m) <==> Masked(a, m) != Masked(b, m)
  {
  }

  lemma ShiftMasked(v: bv32, m: bv32)
    ensures Masked(v >> 1, m) <==> Masked(v, m << 1)
  {
  }

  /** One shift of a word. */
  function Next(v: bv32, bit: bool): bv32 {
    (v >> 1) ^ if Masked(v, 1) != bit then 0x82F6_3B78 else 0
  }

  /** One shift seen through two neighbouring masks. */
  lemma NextMasked(v: bv32, bit: bool, m: bv32, above: bv32)
    requires Single(m) && above == m << 1
    ensures Masked(Next(v, bit), m) <==> Masked(v, above) != (Masked(v, 1) != bit && Masked(0x82F6_3B78, m))
  {
    ShiftMasked(v, m);
    XorMasked(v >> 1, 0x82F6_3B78, m);
    assert (v >> 1) ^ 0 == v >> 1;
  }

  /** The mask above bit i; none above the highest. */
  function Above(i: nat): bv32
    requires i < 32
  {
    if i < 31 then Mask(i + 1) else 0
  }

  lemma AboveShifted(i: nat)
    requires i < 32
    ensures Above(i) == Mask(i) << 1
  {
    if i == 31 {
      MaskValues();
    }
  }

  lemma NextBit(v: bv32, bit: bool, i: nat)
    requires i < 32
    ensures BitAt(Next(v, bit), i)
       <==> (i < 31 && BitAt(v, i + 1)) != (Masked(v, 1) != bit && BitAt(0x82F6_3B78, i))
  {
    MaskSingle(i);
    AboveShifted(i);
    NextMasked(v, bit, Mask(i), Above(i));
    assert i == 31 ==> !Masked(v, Above(i));
  }

  function RegisterOf(v: bv32): (s: Register)
    ensures forall i :: 0 <= i < 32 ==> s[i] == BitAt(v, i)
  {
    seq(32, i requires 0 <= i < 32 => BitAt(v, i))
  }

  lemma NotMasked(v: bv32, m: bv32)
    requires Single(m)
    ensures Masked(!v, m) <==> !Masked(v, m)
  {
  }

  lemma InvertedWord(v: bv32)
    ensures Inverted(RegisterOf(v)) == RegisterOf(!v)
  {
    forall i: nat | i < 32
      ensures BitAt(!v, i) == !BitAt(v, i)
    {
      MaskSingle(i);
      NotMasked(v, Mask(i));
    }
  }

  // ----- Words as numbers -----

  /** Eight more bits below a number. */
  lemma EightBits(bits: seq<bool>, k: nat)
    requires k + 8 <= |bits|
    ensures FromBits(bits[k..])
         == 256 * FromBits(bits[k + 8..])
            + 128 * Digit(bits[k + 7]) + 64 * Digit(bits[k + 6]) + 32 * Digit(bits[k + 5])
            + 16 * Digit(bits[k + 4]) + 8 * Digit(bits[k + 3]) + 4 * Digit(bits[k + 2])
            + 2 * Digit(bits[k + 1]) + Digit(bits[k])
  {
    OneBit(bits, k);
    OneBit(bits, k + 1);
    OneBit(bits, k + 2);
    OneBit(bits, k + 3);
    OneBit(bits, k + 4);
    OneBit(bits, k + 5);
    OneBit(bits, k + 6);
    OneBit(bits, k + 7);
  }

  lemma GeneratorWord(bits: Register)
    requires bits == RegisterOf(0x82F63B78)
    ensures FromBits(bits) == 0x82F63B78
  {
    MaskValues();
    assert bits[32..] == [] && bits[0..] == bits;
    EightBits(bits, 24);
    EightBits(bits, 16);
    EightBits(bits, 8);
    EightBits(bits, 0);
  }

  lemma CheckWord(bits: Register)
    requires bits == RegisterOf(0xE3069283)
    ensures FromBits(bits) == 0xE3069283
  {
    MaskValues();
    assert bits[32..] == [] && bits[0..] == bits;
    EightBits(bits, 24);
    EightBits(bits, 16);
    EightBits(bits, 8);
    EightBits(bits, 0);
  }

  lemma PolynomialWord()
    ensures RegisterOf(0x82F6_3B78) == Polynomial()
  {
    var bits := RegisterOf(0x82F6_3B78);
    GeneratorWord(bits);
    BitsOfFromBits(bits);
    RegisterIs(CASTAGNOLI, bits);
  }

  // ----- The register is the word -----

  lemma ShiftBitIs(poly: Register, s: Register, v: bv32, bit: bool, i: nat)
    requires poly == RegisterOf(0x82F6_3B78) && s == RegisterOf(v) && i < 32
    ensures Shift(poly, s, bit)[i] == BitAt(Next(v, bit), i)
  {
    NextBit(v, bit, i);
    assert s[0] == Masked(v, 1);
  }

  lemma ShiftWord(poly: Register, v: bv32, bit: bool)
    requires poly == RegisterOf(0x82F6_3B78)
    ensures Shift(poly, RegisterOf(v), bit) == RegisterOf(Next(v, bit))
  {
    var r, r' := Shift(poly, RegisterOf(v), bit), RegisterOf(Next(v, bit));
    forall i: nat | i < 32
      ensures r[i] == r'[i]
    {
      ShiftBitIs(poly, RegisterOf(v), v, bit, i);
    }
  }

  function Run(v: bv32, bits: seq<bool>): bv32
    decreases |bits|
  {
    if bits == [] then v else Run(Next(v, bits[0]), bits[1..])
  }

  /** The shift register of the model is a 32-bit word that is shifted right. */
  lemma {:induction false} FeedWord(poly: Register, v: bv32, bits: seq<bool>)
    requires poly == RegisterOf(0x82F6_3B78)
    ensures Feed(poly, RegisterOf(v), bits) == RegisterOf(Run(v, bits))
    decreases |bits|
  {
    if bits != [] {
      ShiftWord(poly, v, bits[0]);
      FeedWord(poly, Next(v, bits[0]), bits[1..]);
    }
  }

  /** The word after four bits. */
  function Four(v: bv32, a: bool, b: bool, c: bool, d: bool): bv32 {
    Next(Next(Next(Next(v, a), b), c), d)
  }

  lemma RunNext(v: bv32, n: nat, rest: nat, bit: bool, k: nat)
    requires n == 2 * rest + Digit(bit)
    ensures Run(v, Bits(n, k + 1)) == Run(Next(v, bit), Bits(rest, k))
  {
    assert n % 2 == Digit(bit) && n / 2 == rest;
    assert Bits(n, k + 1)[1..] == Bits(rest, k);
  }

  lemma RunFour(v: bv32, n: nat, rest: nat, a: bool, b: bool, c: bool, d: bool, k: nat)
    requires n == 16 * rest + 8 * Digit(d) + 4 * Digit(c) + 2 * Digit(b) + Digit(a)
    ensures Run(v, Bits(n, k + 4)) == Run(Four(v, a, b, c, d), Bits(rest, k))
  {
    var n3 := 2 * rest + Digit(d);
    var n2 := 2 * n3 + Digit(c);
    var n1 := 2 * n2 + Digit(b);
    var v1 := Next(v, a);
    var v2 := Next(v1, b);
    RunNext(v, n, n1, a, k + 3);
    RunNext(v1, n1, n2, b, k + 2);
    RunNext(v2, n2, n3, c, k + 1);
    RunNext(Next(v2, c), n3, rest, d, k);
  }

  /** A decimal digit is the byte 0x30 and more. */
  lemma RunDigit(v: bv32, n: nat, a: bool, b: bool, c: bool, d: bool, mid: bv32, v': bv32, width: nat)
    requires width == 8 && n == 0x30 + 8 * Digit(d) + 4 * Digit(c) + 2 * Digit(b) + Digit(a)
    requires mid == Four(v, a, b, c, d) && v' == Four(mid, true, true, false, false)
    ensures Run(v, Bits(n, width)) == v'
  {
    RunFour(v, n, 3, a, b, c, d, width - 4);
    RunFour(mid, 3, 0, true, true, false, false, width - 8);
  }

  // ----- The check value -----

  /** The register has become the word v after i bytes. */
  ghost predicate Reached(data: seq<Byte>, i: nat, v: bv32)
    requires i <= |data|
  {
    Feed(Polynomial(), AllSet(), Message(data[..i])) == RegisterOf(v)
  }

  lemma ReachedNext(
      data: seq<Byte>, i: nat, v: bv32, a: bool, b: bool, c: bool, d: bool, mid: bv32, v': bv32)
    requires i < |data| && Reached(data, i, v)
    requires data[i] == 0x30 + 8 * Digit(d) + 4 * Digit(c) + 2 * Digit(b) + Digit(a)
    requires mid == Four(v, a, b, c, d) && v' == Four(mid, true, true, false, false)
    ensures Reached(data, i + 1, v')
  {
    PolynomialWord();
    FeedByte(Polynomial(), AllSet(), data, i, 8);
    RunDigit(v, data[i], a, b, c, d, mid, v', 8);
    FeedWord(Polynomial(), v, Bits(data[i], 8));
  }

  lemma StartsFull(data: seq<Byte>)
    ensures Reached(data, 0, 0xFFFF_FFFF)
  {
    InvertedWord(0);
    forall i: nat | i < 32
      ensures RegisterOf(0xFFFF_FFFF)[i]
    {
      MaskSingle(i);
      NotMasked(0, Mask(i));
    }
    assert RegisterOf(0xFFFF_FFFF) == AllSet();
  }

  lemma SumOfWord(data: seq<Byte>, v: bv32)
    requires Reached(data, |data|, v)
    ensures Update(0, data) == FromBits(RegisterOf(!v))
  {
    assert data[..|data|] == data;
    StartsSet();
    InvertedWord(v);
  }

  /** The bytes "123456789". */
  ghost predicate Digits(data: seq<Byte>) {
    |data| == 9 && forall i :: 0 <= i < 9 ==> data[i] == 0x31 + i
  }

  lemma FirstDigits(data: seq<Byte>)
    requires Digits(data)
    ensures Reached(data, 3, 0xEF84_D04D)
  {
    StartsFull(data);
    assert Reached(data, 1, 0x6F0A_661C) by {
      ReachedNext(data, 0, 0xFFFF_FFFF, true, false, false, false, 0xECCF_57E5, 0x6F0A_661C);
    }
    assert Reached(data, 2, 0x8CAA_3B9F) by {
      ReachedNext(data, 1, 0x6F0A_661C, false, true, false, false, 0xE5C0_0E7B, 0x8CAA_3B9F);
    }
    assert Reached(data, 3, 0xEF84_D04D) by {
      ReachedNext(data, 2, 0x8CAA_3B9F, true, true, false, false, 0xCB47_857D, 0xEF84_D04D);
    }
  }

  lemma MiddleDigits(data: seq<Byte>)
    requires Digits(data) && Reached(data, 3, 0xEF84_D04D)
    ensures Reached(data, 6, 0xBECA_8E79)
  {
    assert Reached(data, 4, 0x09C5_0B11) by {
      ReachedNext(data, 3, 0xEF84_D04D, false, false, true, false, 0x9C50_B113, 0x09C5_0B11);
    }
    assert Reached(data, 5, 0xE72E_DCCA) by {
      ReachedNext(data, 4, 0x09C5_0B11, true, false, true, false, 0x41E7_4D0D, 0xE72E_DCCA);
    }
    assert Reached(data, 6, 0xBECA_8E79) by {
      ReachedNext(data, 5, 0xE72E_DCCA, false, true, true, false, 0xCDFF_CB08, 0xBECA_8E79);
    }
  }

  lemma LastDigits(data: seq<Byte>)
    requires Digits(data) && Reached(data, 6, 0xBECA_8E79)
    ensures Reached(data, 9, 0x1CF9_6D7C)
  {
    assert Reached(data, 7, 0xEDBD_6815) by {
      ReachedNext(data, 6, 0xBECA_8E79, true, true, true, false, 0xE8DC_00FD, 0xEDBD_6815);
    }
    assert Reached(data, 8, 0x9F78_7F65) by {
      ReachedNext(data, 7, 0xEDBD_6815, false, false, false, true, 0xDD08_372A, 0x9F78_7F65);
    }
    assert Reached(data, 9, 0x1CF9_6D7C) by {
      ReachedNext(data, 8, 0x9F78_7F65, true, false, false, true, 0xCA7A_A132, 0x1CF9_6D7C);
    }
  }

  /** The sum of the nine bytes "123456789" is 0xE3069283. */
  lemma CheckValue()
    ensures Update(0, [0x31, 0x32, 0x33, 0x34, 0x35, 0x36, 0x37, 0x38, 0x39]) == 0xE306_9283
  {
    var data: seq<Byte> := [0x31, 0x32, 0x33, 0x34, 0x35, 0x36, 0x37, 0x38, 0x39];
    DigitsSum(data);
  }

  lemma DigitsSum(data: seq<Byte>)
    requires Digits(data)
    ensures Update(0, data) == 0xE306_9283
  {
    FirstDigits(data);
    MiddleDigits(data);
    LastDigits(data);
    SumOfWord(data, 0x1CF9_6D7C);
    CheckWord(RegisterOf(0xE306_9283));
  }
}
