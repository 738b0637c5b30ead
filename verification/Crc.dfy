/** CRC32C, bit by bit: the reflected Castagnoli polynomial 0x82F63B78, as in RFC 9260 Appendix A.
    `Update` is what the codec (internal/overlay/protocol/frame.go) calls to sum a header and then
    a payload. */
module Crc {
  import opened Basics
  import opened Words

  /** The 32-bit shift register; bit 0 is shifted out next. */
  type Register = s: seq<bool> | |s| == 32 witness seq(32, _ => false)

  const CASTAGNOLI: nat := 0x82F6_3B78

  function Polynomial(): Register {
    seq(32, i requires 0 <= i < 32 => CASTAGNOLI / Pow(2, i) % 2 == 1)
  }

  /** Shift one message bit in; the polynomial is added when the bit shifted out is set. */
  function Shift(poly: Register, s: Register, bit: bool): (r: Register) {
    var out := s[0] != bit;
    seq(32, i requires 0 <= i < 32 => (i < 31 && s[i + 1]) != (out && poly[i]))
  }

  function Feed(poly: Register, s: Register, bits: seq<bool>): Register
    decreases |bits|
  {
    if bits == [] then s else Feed(poly, Shift(poly, s, bits[0]), bits[1..])
  }

  /** A message as bits: each byte goes in least significant bit first. */
  function Spread(data: seq<Byte>, width: nat): seq<bool>
    decreases |data|
  {
    if data == [] then [] else Bits(data[0], width) + Spread(data[1..], width)
  }

  function Message(data: seq<Byte>): seq<bool> {
    Spread(data, 8)
  }

  function Inverted(s: Register): Register {
    seq(32, i requires 0 <= i < 32 => !s[i])
  }

  function ToRegister(n: Uint32): Register {
    Bits(n, 32)
  }

  function ToNumber(s: Register): Uint32 {
    FromBitsBound(s);
    RegisterWidth();
    FromBits(s)
  }

  function Update(crc: Uint32, data: seq<Byte>): Uint32 {
    ToNumber(Inverted(Feed(Polynomial(), Inverted(ToRegister(crc)), Message(data))))
  }

  lemma PowNibble(k: nat)
    ensures Pow(2, k + 4) == 16 * Pow(2, k)
  {
    assert Pow(2, k + 1) == 2 * Pow(2, k);
    assert Pow(2, k + 2) == 2 * Pow(2, k + 1);
    assert Pow(2, k + 3) == 2 * Pow(2, k + 2);
  }

  lemma ByteWidth()
    ensures Pow(2, 8) == 256
  {
    PowNibble(0);
    PowNibble(4);
  }

  lemma RegisterWidth()
    ensures Pow(2, 32) == TWO_TO_32
  {
    ByteWidth();
    PowNibble(8);
    PowNibble(12);
    PowNibble(16);
    PowNibble(20);
    PowNibble(24);
    PowNibble(28);
  }

  lemma NumberAndBack(s: Register)
    ensures ToRegister(ToNumber(s)) == s
  {
    BitsOfFromBits(s);
  }

  lemma ToNumberInjective(s: Register, t: Register)
    requires ToNumber(s) == ToNumber(t)
    ensures s == t
  {
    NumberAndBack(s);
    NumberAndBack(t);
  }

  // ----- Summing in pieces -----

  lemma {:induction false} FeedJoins(poly: Register, s: Register, a: seq<bool>, b: seq<bool>)
    ensures Feed(poly, Feed(poly, s, a), b) == Feed(poly, s, a + b)
    decreases |a|
  {
    if a == [] {
      assert a + b == b;
    } else {
      FeedJoins(poly, Shift(poly, s, a[0]), a[1..], b);
      assert (a + b)[1..] == a[1..] + b;
    }
  }

  lemma SpreadHead(first: Byte, rest: seq<Byte>, data: seq<Byte>, width: nat)
    requires data == [first] + rest
    ensures Spread(data, width) == Bits(first, width) + Spread(rest, width)
  {
    assert data[1..] == rest;
  }

  lemma Regroup(a: seq<bool>, b: seq<bool>, c: seq<bool>)
    ensures a + b + c == a + (b + c)
  {
  }

  lemma {:induction false} SpreadJoins(a: seq<Byte>, b: seq<Byte>, width: nat)
    ensures Spread(a + b, width) == Spread(a, width) + Spread(b, width)
    decreases |a|
  {
    if a == [] {
      assert a + b == b;
    } else {
      var head, rest := Bits(a[0], width), a[1..];
      SpreadJoins(rest, b, width);
      assert a == [a[0]] + rest && a + b == [a[0]] + (rest + b);
      SpreadHead(a[0], rest + b, a + b, width);
      SpreadHead(a[0], rest, a, width);
      Regroup(head, Spread(rest, width), Spread(b, width));
    }
  }

  lemma {:induction false} SpreadLength(data: seq<Byte>, width: nat)
    ensures |Spread(data, width)| == width * |data|
    decreases |data|
  {
    if data != [] {
      SpreadLength(data[1..], width);
      assert width * |data| == width + width * (|data| - 1);
    }
  }

  lemma DoubleInversion(s: Register)
    ensures Inverted(Inverted(s)) == s
  {
  }

  /** Summing a header and then a payload gives the sum of the two joined. */
  lemma UpdateJoins(crc: Uint32, a: seq<Byte>, b: seq<Byte>)
    ensures Update(Update(crc, a), b) == Update(crc, a + b)
  {
    var s := Inverted(ToRegister(crc));
    var mid := Feed(Polynomial(), s, Message(a));
    NumberAndBack(Inverted(mid));
    DoubleInversion(mid);
    FeedJoins(Polynomial(), s, Message(a), Message(b));
    SpreadJoins(a, b, 8);
  }

  // ----- What an alteration does to the register -----

  /** The top bit of the new register tells whether the polynomial was added, so a shift loses
      nothing. */
  lemma ShiftTop(poly: Register, s: Register, bit: bool)
    requires poly[31]
    ensures Shift(poly, s, bit)[31] == (s[0] != bit)
  {
  }

  /** Registers that end alike agreed on all but their j low bits j shifts earlier. */
  lemma {:induction false} AgreeBefore(poly: Register, s: Register, t: Register, xs: seq<bool>, ys: seq<bool>)
    requires poly[31] && |xs| == |ys| < 32
    requires Feed(poly, s, xs) == Feed(poly, t, ys)
    ensures forall i :: |xs| <= i < 32 ==> s[i] == t[i]
    decreases |xs|
  {
    if xs != [] {
      var s', t' := Shift(poly, s, xs[0]), Shift(poly, t, ys[0]);
      AgreeBefore(poly, s', t', xs[1..], ys[1..]);
      ShiftTop(poly, s, xs[0]);
      ShiftTop(poly, t, ys[0]);
      forall i | |xs| <= i < 32
        ensures s[i] == t[i]
      {
        assert s'[i - 1] == t'[i - 1];
      }
    }
  }

  /** From one register, different bit strings of one length up to 32 lead to different ones. */
  lemma {:induction false} BurstChanges(poly: Register, s: Register, xs: seq<bool>, ys: seq<bool>)
    requires poly[31] && |xs| == |ys| <= 32
    requires Feed(poly, s, xs) == Feed(poly, s, ys)
    ensures xs == ys
    decreases |xs|
  {
    if xs != [] {
      var s', t' := Shift(poly, s, xs[0]), Shift(poly, s, ys[0]);
      AgreeBefore(poly, s', t', xs[1..], ys[1..]);
      ShiftTop(poly, s, xs[0]);
      ShiftTop(poly, s, ys[0]);
      assert s'[31] == t'[31];
      assert xs[0] == ys[0];
      BurstChanges(poly, s', xs[1..], ys[1..]);
    }
  }

  lemma {:induction false} FeedInjective(poly: Register, s: Register, t: Register, bits: seq<bool>)
    requires poly[31] && Feed(poly, s, bits) == Feed(poly, t, bits)
    ensures s == t
    decreases |bits|
  {
    if bits != [] {
      var s', t' := Shift(poly, s, bits[0]), Shift(poly, t, bits[0]);
      FeedInjective(poly, s', t', bits[1..]);
      ShiftTop(poly, s, bits[0]);
      ShiftTop(poly, t, bits[0]);
      forall i | 0 <= i < 32
        ensures s[i] == t[i]
      {
        assert i > 0 ==> s'[i - 1] == t'[i - 1];
      }
    }
  }

  /** An alteration confined to 32 consecutive bits of a message of any length shows in the
      register. */
  lemma BitBurstShows(poly: Register, s: Register, before: seq<bool>, xs: seq<bool>, ys: seq<bool>, after: seq<bool>)
    requires poly[31] && |xs| == |ys| <= 32 && xs != ys
    ensures Feed(poly, s, before + xs + after) != Feed(poly, s, before + ys + after)
  {
    FeedJoins(poly, s, before + xs, after);
    FeedJoins(poly, s, before + ys, after);
    FeedJoins(poly, s, before, xs);
    FeedJoins(poly, s, before, ys);
    if Feed(poly, s, before + xs + after) == Feed(poly, s, before + ys + after) {
      FeedInjective(poly, Feed(poly, s, before + xs), Feed(poly, s, before + ys), after);
      BurstChanges(poly, Feed(poly, s, before), xs, ys);
    }
  }

  // ----- The same for CRC32C and bytes -----

  lemma PolynomialTop()
    ensures Polynomial()[31]
  {
    RegisterWidth();
    var k := 31;
    assert Pow(2, k + 1) == 2 * Pow(2, k);
    assert Polynomial()[k];
  }

  lemma {:induction false} SpreadInjective(a: seq<Byte>, b: seq<Byte>, width: nat)
    requires |a| == |b| && Spread(a, width) == Spread(b, width) && Pow(2, width) == 256
    ensures a == b
    decreases |a|
  {
    if a != [] {
      assert Spread(a, width)[..width] == Bits(a[0], width) && Spread(b, width)[..width] == Bits(b[0], width);
      assert Spread(a, width)[width..] == Spread(a[1..], width) && Spread(b, width)[width..] == Spread(b[1..], width);
      FromBitsOfBits(a[0], width);
      FromBitsOfBits(b[0], width);
      SpreadInjective(a[1..], b[1..], width);
    }
  }

  /** An alteration confined to four consecutive bytes changes the sum, wherever it lies and
      however long the message is. */
  lemma BurstDetected(crc: Uint32, before: seq<Byte>, xs: seq<Byte>, ys: seq<Byte>, after: seq<Byte>)
    requires |xs| == |ys| <= 4 && xs != ys
    ensures Update(crc, before + xs + after) != Update(crc, before + ys + after)
  {
    var s := Inverted(ToRegister(crc));
    var mx, my := Message(xs), Message(ys);
    ByteWidth();
    SpreadLength(xs, 8);
    SpreadLength(ys, 8);
    if mx == my {
      SpreadInjective(xs, ys, 8);
    }
    PolynomialTop();
    BitBurstShows(Polynomial(), s, Message(before), mx, my, Message(after));
    SpreadJoins(before + xs, after, 8);
    SpreadJoins(before + ys, after, 8);
    SpreadJoins(before, xs, 8);
    SpreadJoins(before, ys, 8);
    SumsDiffer(Feed(Polynomial(), s, Message(before + xs + after)),
               Feed(Polynomial(), s, Message(before + ys + after)));
  }

  lemma SumsDiffer(s: Register, t: Register)
    requires s != t
    ensures ToNumber(Inverted(s)) != ToNumber(Inverted(t))
  {
    if ToNumber(Inverted(s)) == ToNumber(Inverted(t)) {
      ToNumberInjective(Inverted(s), Inverted(t));
      DoubleInversion(s);
      DoubleInversion(t);
    }
  }

  /** Eight shifts put one byte in. */
  method ShiftByte(poly: Register, s: Register, byte: Byte, width: nat) returns (r: Register)
    ensures r == Feed(poly, s, Bits(byte, width))
  {
    r := s;
    var b: nat := byte;
    for j := 0 to width
      invariant Feed(poly, r, Bits(b, width - j)) == Feed(poly, s, Bits(byte, width))
    {
      assert Bits(b, width - j)[1..] == Bits(b / 2, width - j - 1);
      r := Shift(poly, r, b % 2 == 1);
      b := b / 2;
    }
  }

  lemma SpreadOne(byte: Byte, width: nat)
    ensures Spread([byte], width) == Bits(byte, width)
  {
    assert Spread([byte][1..], width) == [];
  }

  lemma FeedByte(poly: Register, start: Register, data: seq<Byte>, i: nat, width: nat)
    requires i < |data|
    ensures Feed(poly, Feed(poly, start, Spread(data[..i], width)), Bits(data[i], width))
         == Feed(poly, start, Spread(data[..i + 1], width))
  {
    SpreadOne(data[i], width);
    SpreadJoins(data[..i], [data[i]], width);
    assert data[..i + 1] == data[..i] + [data[i]];
    FeedJoins(poly, start, Spread(data[..i], width), Bits(data[i], width));
  }

  method Sum(crc: Uint32, data: seq<Byte>) returns (r: Uint32)
    ensures r == Update(crc, data)
  {
    var s := Inverted(ToRegister(crc));
    ghost var start := s;
    for i := 0 to |data|
      invariant s == Feed(Polynomial(), start, Message(data[..i]))
    {
      FeedByte(Polynomial(), start, data, i, 8);
      s := ShiftByte(Polynomial(), s, data[i], 8);
    }
    assert data[..|data|] == data;
    assert s == Feed(Polynomial(), start, Message(data));
    r := ToNumber(Inverted(s));
    assert r == Update(crc, data);
  }
}
