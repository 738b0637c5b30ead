/** What the sum is, apart from the register that computes it: the remainder of the message, taken as
    a polynomial over the two-element field, by the Castagnoli generator. */
module CrcTheorems {
  import opened Basics
  import opened Words
  import opened Crc

  // ----- Polynomials over the two-element field, as the sets of their exponents -----

  type Poly = set<nat>

  ghost function Plus(a: Poly, b: Poly): Poly {
    (a - b) + (b - a)
  }

  /** The product with x. */
  ghost function TimesX(a: Poly): (r: Poly)
    ensures forall e :: e in r <==> e > 0 && e - 1 in a
  {
    set e | e in a :: e + 1
  }

  /** The product with x^k. */
  ghost function Raised(a: Poly, k: nat): (r: Poly)
    ensures forall e :: e in r <==> e >= k && e - k in a
  {
    set e | e in a :: e + k
  }

  ghost function Constant(bit: bool, a: Poly): Poly {
    if bit then a else {}
  }

  /** The product of g with a quotient given by its coefficients, highest first. */
  ghost function Multiple(quotient: seq<bool>, g: Poly): Poly {
    if quotient == [] then {}
    else
      var n := |quotient| - 1;
      Plus(TimesX(Multiple(quotient[..n], g)), Constant(quotient[n], g))
  }

  /** The remainder is below x^32 and differs from the dividend by a multiple of g. */
  ghost predicate IsRemainder(dividend: Poly, g: Poly, remainder: Poly) {
    && (forall e :: e in remainder ==> e < 32)
    && exists quotient :: Plus(dividend, remainder) == Multiple(quotient, g)
  }

  lemma PlusDigits(a: Poly, b: Poly, x: bool, y: bool, g: Poly)
    ensures Plus(Plus(TimesX(a), Constant(x, g)), Plus(TimesX(b), Constant(y, g)))
         == Plus(TimesX(Plus(a, b)), Constant(x != y, g))
  {
  }

  lemma {:induction false} MultiplesAdd(a: seq<bool>, b: seq<bool>, g: Poly) returns (q: seq<bool>)
    ensures Multiple(q, g) == Plus(Multiple(a, g), Multiple(b, g))
    decreases |a|
  {
    if a == [] {
      q := b;
    } else if b == [] {
      q := a;
    } else {
      var n, m := |a| - 1, |b| - 1;
      var front := MultiplesAdd(a[..n], b[..m], g);
      q := front + [a[n] != b[m]];
      assert q[..|front|] == front;
      PlusDigits(Multiple(a[..n], g), Multiple(b[..m], g), a[n], b[m], g);
    }
  }

  ghost predicate Degree32(g: Poly) {
    32 in g && forall e :: e in g ==> e <= 32
  }

  ghost predicate Tops(a: Poly, top: nat) {
    top in a && forall e :: e in a ==> e <= top
  }

  /** A multiple that is not zero reaches x^32. */
  lemma {:induction false} MultipleTop(q: seq<bool>, g: Poly) returns (top: nat)
    requires Degree32(g) && Multiple(q, g) != {}
    ensures top >= 32 && Tops(Multiple(q, g), top)
    decreases |q|
  {
    var n := |q| - 1;
    var before := Multiple(q[..n], g);
    if before == {} {
      assert TimesX(before) == {};
      top := 32;
    } else {
      var t := MultipleTop(q[..n], g);
      top := t + 1;
    }
  }

  lemma PlusCancels(a: Poly, b: Poly, c: Poly)
    ensures Plus(Plus(a, b), Plus(a, c)) == Plus(b, c)
    ensures Plus(b, c) == {} ==> b == c
  {
    if Plus(b, c) == {} {
      forall e
        ensures e in b <==> e in c
      {
        assert e !in Plus(b, c);
      }
    }
  }

  /** There is only one remainder. */
  lemma RemainderUnique(dividend: Poly, g: Poly, r: Poly, r': Poly)
    requires Degree32(g) && IsRemainder(dividend, g, r) && IsRemainder(dividend, g, r')
    ensures r == r'
  {
    var a :| Plus(dividend, r) == Multiple(a, g);
    var b :| Plus(dividend, r') == Multiple(b, g);
    var q := MultiplesAdd(a, b, g);
    PlusCancels(dividend, r, r');
    if Multiple(q, g) != {} {
      var top := MultipleTop(q, g);
      assert top in Plus(r, r');
    }
  }

  // ----- The register as a polynomial -----

  /** Bit 0 of the register is the coefficient of x^31. */
  ghost function Value(s: Register): (r: Poly)
    ensures forall e: nat :: e in r <==> e < 32 && s[31 - e]
  {
    set i | 0 <= i < 32 && s[i] :: 31 - i
  }

  /** The polynomial with these coefficients, highest first. */
  ghost function PolyOf(bits: seq<bool>): (r: Poly)
    ensures forall e: nat :: e in r <==> e < |bits| && bits[|bits| - 1 - e]
  {
    set i | 0 <= i < |bits| && bits[i] :: |bits| - 1 - i
  }

  /** The register holds all of g but its highest term. */
  ghost predicate Holds(poly: Register, g: Poly) {
    Degree32(g) && Value(poly) == g - {32}
  }

  /** One shift multiplies by x, takes the message bit in at x^32, and reduces. */
  lemma ShiftReduces(poly: Register, g: Poly, s: Register, bit: bool)
    requires Holds(poly, g)
    ensures Value(Shift(poly, s, bit))
         == Plus(Plus(TimesX(Value(s)), Constant(bit, {32})), Constant(s[0] != bit, g))
  {
    var r, out := Shift(poly, s, bit), s[0] != bit;
    var v := Plus(Plus(TimesX(Value(s)), Constant(bit, {32})), Constant(out, g));
    forall e: nat
      ensures e in Value(r) <==> e in v
    {
      if e < 32 {
        assert e in g <==> poly[31 - e] by {
          assert e in Value(poly) <==> e in g - {32};
        }
        assert e in TimesX(Value(s)) <==> e > 0 && s[31 - (e - 1)];
      }
    }
  }

  lemma RaisedNext(a: Poly, k: nat)
    ensures TimesX(Raised(a, k)) == Raised(a, k + 1)
    ensures Raised(a, 0) == a
  {
  }

  lemma PolyNext(front: seq<bool>, bit: bool, bits: seq<bool>)
    requires bits == front + [bit]
    ensures Raised(PolyOf(bits), 32) == Plus(TimesX(Raised(PolyOf(front), 32)), Constant(bit, {32}))
  {
    var next := Plus(TimesX(Raised(PolyOf(front), 32)), Constant(bit, {32}));
    forall e: nat
      ensures e in Raised(PolyOf(bits), 32) <==> e in next
    {
      if e >= 33 {
        assert |bits| - 1 - (e - 32) == |front| - 1 - (e - 33);
      }
    }
  }

  lemma ReduceNext(v: Poly, a: Poly, p: Poly, m: Poly, bit: bool, out: bool, g: Poly)
    requires v == Plus(Plus(a, p), m)
    ensures Plus(Plus(TimesX(v), Constant(bit, {32})), Constant(out, g))
         == Plus(Plus(TimesX(a), Plus(TimesX(p), Constant(bit, {32}))), Plus(TimesX(m), Constant(out, g)))
  {
    var b, o := Constant(bit, {32}), Constant(out, g);
    var l := Plus(Plus(TimesX(v), b), o);
    var r := Plus(Plus(TimesX(a), Plus(TimesX(p), b)), Plus(TimesX(m), o));
    forall e: nat
      ensures e in l <==> e in r
    {
      if e > 0 {
        assert e - 1 in v <==> ((e - 1 in a) != (e - 1 in p)) != (e - 1 in m);
      }
    }
  }

  /** Shifting a message in divides: what is left differs from the message times x^32, and the register
      times x for each bit, by a multiple of the generator. */
  lemma {:induction false} FeedDivides(poly: Register, g: Poly, s: Register, bits: seq<bool>)
      returns (q: seq<bool>)
    requires Holds(poly, g)
    ensures Value(Feed(poly, s, bits))
         == Plus(Plus(Raised(Value(s), |bits|), Raised(PolyOf(bits), 32)), Multiple(q, g))
    decreases |bits|
  {
    if bits == [] {
      q := [];
      assert PolyOf(bits) == {} && Raised(PolyOf(bits), 32) == {};
      RaisedNext(Value(s), 0);
    } else {
      var n := |bits| - 1;
      var front, bit := bits[..n], bits[n];
      var before := FeedDivides(poly, g, s, front);
      var r := Feed(poly, s, front);
      var out := r[0] != bit;
      q := before + [out];
      FeedLast(poly, s, front, bit, bits);
      ShiftReduces(poly, g, r, bit);
      RaisedNext(Value(s), n);
      PolyNext(front, bit, bits);
      ReduceNext(Value(r), Raised(Value(s), n), Raised(PolyOf(front), 32), Multiple(before, g), bit, out, g);
      assert q[..|before|] == before;
    }
  }

  lemma FeedLast(poly: Register, s: Register, front: seq<bool>, bit: bool, bits: seq<bool>)
    requires bits == front + [bit]
    ensures Feed(poly, s, bits) == Shift(poly, Feed(poly, s, front), bit)
  {
    FeedJoins(poly, s, front, [bit]);
    assert Feed(poly, Feed(poly, s, front), [bit]) == Shift(poly, Feed(poly, s, front), bit);
  }

  // ----- The message and the sum -----

  /** The generator of CRC32C. */
  ghost function Generator(): (g: Poly)
    ensures Degree32(g)
  {
    set e | 0 <= e <= 32 && GeneratorTerm(e)
  }

  /** x^e is a term of x^32 + x^28 + x^27 + x^26 + x^25 + x^23 + x^22 + x^20 + x^19 + x^18 + x^14 + x^13
      + x^11 + x^10 + x^9 + x^8 + x^6 + 1. */
  predicate GeneratorTerm(e: nat) {
    || e == 32 || e == 28 || e == 27 || e == 26 || e == 25 || e == 23 || e == 22 || e == 20 || e == 19
    || e == 18 || e == 14 || e == 13 || e == 11 || e == 10 || e == 9 || e == 8 || e == 6 || e == 0
  }

  /** Bit j of the message: its bytes in order, each least significant bit first. */
  ghost predicate MessageBit(data: seq<Byte>, j: nat) {
    j < 8 * |data| && data[j / 8] / Pow(2, j % 8) % 2 == 1
  }

  /** The message followed by 32 zero bits, the first 32 bits complemented; the first bit is the
      coefficient of the highest power. */
  ghost function Dividend(data: seq<Byte>): Poly {
    set j: nat | j < 8 * |data| + 32 && (MessageBit(data, j) != (j < 32)) :: 8 * |data| + 31 - j
  }

  /** The complement of the sum; its bit i is the coefficient of x^(31 - i). */
  ghost function Complement(sum: Uint32): Poly {
    set i: nat | i < 32 && sum / Pow(2, i) % 2 == 0 :: 31 - i
  }

  lemma {:induction false} BitsAt(n: nat, k: nat, i: nat)
    requires i < k
    ensures Bits(n, k)[i] == (n / Pow(2, i) % 2 == 1)
    decreases i
  {
    if i > 0 {
      BitsAt(n / 2, k - 1, i - 1);
      assert n / 2 / Pow(2, i - 1) == n / Pow(2, i) by {
        DivideTwice(n, Pow(2, i - 1));
      }
    }
  }

  lemma DivideTwice(n: nat, p: nat)
    requires p > 0
    ensures n / 2 / p == n / (2 * p)
  {
    var q := n / 2 / p;
    assert n == 2 * (n / 2) + n % 2 && n / 2 == p * q + n / 2 % p;
    var r: nat := 2 * (n / 2 % p) + n % 2;
    assert n == (2 * p) * q + r && 0 <= r < 2 * p;
    QuotientIs(n, 2 * p, q, r);
  }

  lemma ProductBound(d: int, k: int)
    requires d > 0
    ensures k >= 1 ==> d * k >= d
    ensures k <= -1 ==> d * k <= -d
  {
  }

  lemma QuotientIs(n: nat, d: nat, q: nat, r: nat)
    requires d > 0 && n == d * q + r && r < d
    ensures n / d == q
  {
    var k: int := n / d - q;
    assert d * k == r - n % d;
    ProductBound(d, k);
  }

  lemma {:induction false} MessageAt(data: seq<Byte>, width: nat, j: nat)
    requires width == 8 && j < width * |data|
    ensures j < |Spread(data, width)| && Spread(data, width)[j] == MessageBit(data, j)
    decreases |data|
  {
    SpreadLength(data, width);
    if j < width {
      BitsAt(data[0], width, j);
    } else {
      MessageAt(data[1..], width, j - width);
      assert (j - 8) / 8 == j / 8 - 1 && (j - 8) % 8 == j % 8;
      assert data[1..][j / 8 - 1] == data[j / 8];
    }
  }

  ghost function AllSet(): (s: Register)
    ensures forall i :: 0 <= i < 32 ==> s[i]
  {
    seq(32, _ => true)
  }

  /** Starting from a register of ones complements the first 32 bits. */
  lemma DividendSplits(data: seq<Byte>, n: nat, bits: seq<bool>)
    requires n == 8 * |data| && bits == Message(data)
    ensures |bits| == n && Dividend(data) == Plus(Raised(Value(AllSet()), n), Raised(PolyOf(bits), 32))
  {
    SpreadLength(data, 8);
    var sum := Plus(Raised(Value(AllSet()), n), Raised(PolyOf(bits), 32));
    forall e: nat
      ensures e in Dividend(data) <==> e in sum
    {
      if e < n + 32 {
        var j: nat := n + 31 - e;
        assert e == 8 * |data| + 31 - j;
        if j < n {
          MessageAt(data, 8, j);
          assert n - 1 - (e - 32) == j;
        }
        assert e in Raised(Value(AllSet()), n) <==> j < 32;
        assert e in Raised(PolyOf(bits), 32) <==> MessageBit(data, j);
      }
    }
  }

  lemma StartsSet()
    ensures Inverted(ToRegister(0)) == AllSet()
  {
    forall i | 0 <= i < 32
      ensures !ToRegister(0)[i]
    {
      BitsAt(0, 32, i);
    }
  }

  lemma ComplementIs(f: Register, sum: Uint32)
    requires sum == ToNumber(Inverted(f))
    ensures Complement(sum) == Value(f)
  {
    NumberAndBack(Inverted(f));
    forall e: nat
      ensures e in Complement(sum) <==> e in Value(f)
    {
      if e < 32 {
        var i: nat := 31 - e;
        BitsAt(sum, 32, i);
        assert e == 31 - i && Inverted(f)[i] == !f[i];
      }
    }
  }

  ghost function Digit(bit: bool): nat {
    if bit then 1 else 0
  }

  lemma OneBit(bits: seq<bool>, k: nat)
    requires k < |bits|
    ensures FromBits(bits[k..]) == Digit(bits[k]) + 2 * FromBits(bits[k + 1..])
  {
    assert bits[k..][1..] == bits[k + 1..];
  }

  /** Four more bits below a number. */
  lemma Nibble(bits: seq<bool>, k: nat, n: nat, rest: nat)
    requires k + 4 <= |bits| && FromBits(bits[k + 4..]) == rest
    requires n == 16 * rest + 8 * Digit(bits[k + 3]) + 4 * Digit(bits[k + 2]) + 2 * Digit(bits[k + 1]) + Digit(bits[k])
    ensures FromBits(bits[k..]) == n
  {
    OneBit(bits, k);
    OneBit(bits, k + 1);
    OneBit(bits, k + 2);
    OneBit(bits, k + 3);
  }

  /** The generator without its highest term as a register. */
  ghost function Reflected(): (s: Register)
    ensures forall i :: 0 <= i < 32 ==> s[i] == GeneratorTerm(31 - i)
  {
    seq(32, i requires 0 <= i < 32 => GeneratorTerm(31 - i))
  }

  lemma GeneratorHigh(bits: Register)
    requires forall i :: 0 <= i < 32 ==> bits[i] == GeneratorTerm(31 - i)
    ensures FromBits(bits[16..]) == 0x82F6
  {
    assert bits[32..] == [];
    Nibble(bits, 28, 0x8, 0x0);
    Nibble(bits, 24, 0x82, 0x8);
    Nibble(bits, 20, 0x82F, 0x82);
    Nibble(bits, 16, 0x82F6, 0x82F);
  }

  lemma GeneratorValue(bits: Register)
    requires forall i :: 0 <= i < 32 ==> bits[i] == GeneratorTerm(31 - i)
    ensures FromBits(bits) == 0x82F6_3B78
  {
    GeneratorHigh(bits);
    Nibble(bits, 12, 0x82F63, 0x82F6);
    Nibble(bits, 8, 0x82F63B, 0x82F63);
    Nibble(bits, 4, 0x82F63B7, 0x82F63B);
    Nibble(bits, 0, 0x82F63B78, 0x82F63B7);
    assert bits[0..] == bits;
  }

  lemma GeneratorHeld()
    ensures Holds(Polynomial(), Generator())
  {
    var bits := Reflected();
    GeneratorValue(bits);
    BitsOfFromBits(bits);
    RegisterIs(CASTAGNOLI, bits);
    ReflectedHolds(bits);
  }

  lemma RegisterIs(n: nat, bits: Register)
    requires bits == Bits(n, 32)
    ensures bits == seq(32, i requires 0 <= i < 32 => n / Pow(2, i) % 2 == 1)
  {
    forall i: nat | i < 32
      ensures bits[i] == (n / Pow(2, i) % 2 == 1)
    {
      BitsAt(n, 32, i);
    }
  }

  lemma ReflectedHolds(bits: Register)
    requires bits == Reflected()
    ensures Holds(bits, Generator())
  {
    forall e: nat
      ensures e in Value(bits) <==> e in Generator() - {32}
    {
      if e < 32 {
        assert bits[31 - e] == GeneratorTerm(31 - (31 - e));
      }
    }
  }

  /** For every message, the complement of the sum is the remainder of the message by the generator of
      CRC32C: least significant bit of each byte first, the first 32 bits complemented, times x^32. */
  lemma SumIsRemainder(data: seq<Byte>)
    ensures IsRemainder(Dividend(data), Generator(), Complement(Update(0, data)))
  {
    var poly, bits, n := Polynomial(), Message(data), 8 * |data|;
    var f := Feed(poly, AllSet(), bits);
    StartsSet();
    GeneratorHeld();
    DividendSplits(data, n, bits);
    ComplementIs(f, Update(0, data));
    var q := FeedDivides(poly, Generator(), AllSet(), bits);
    Rearranged(Dividend(data), Multiple(q, Generator()), Value(f));
  }

  lemma Rearranged(dividend: Poly, multiple: Poly, remainder: Poly)
    requires remainder == Plus(dividend, multiple)
    ensures Plus(dividend, remainder) == multiple
  {
  }
}
