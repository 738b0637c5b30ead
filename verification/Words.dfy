/** Numbers as bytes in network order, and as bits. */
module Words {
  import opened Basics

  function Pow(base: nat, k: nat): (r: nat)
    requires base > 0
    ensures r > 0
  {
    if k == 0 then 1 else base * Pow(base, k - 1)
  }

  /** The k low bytes of n, most significant first. */
  function BigEndian(n: nat, k: nat): (r: seq<Byte>)
    ensures |r| == k
    decreases k, n
  {
    if k == 0 then [] else BigEndian(n / 256, k - 1) + [n % 256]
  }

  function Number(bytes: seq<Byte>): nat {
    if bytes == [] then 0
    else Number(bytes[..|bytes| - 1]) * 256 + bytes[|bytes| - 1]
  }

  lemma {:induction false} NumberBound(bytes: seq<Byte>)
    ensures Number(bytes) < Pow(256, |bytes|)
    decreases |bytes|
  {
    if bytes != [] {
      NumberBound(bytes[..|bytes| - 1]);
    }
  }

  lemma {:induction false} NumberOfBigEndian(n: nat, k: nat)
    requires n < Pow(256, k)
    ensures Number(BigEndian(n, k)) == n
    decreases k
  {
    if k > 0 {
      NumberOfBigEndian(n / 256, k - 1);
      assert BigEndian(n, k)[..k - 1] == BigEndian(n / 256, k - 1);
    }
  }

  lemma {:induction false} BigEndianOfNumber(bytes: seq<Byte>)
    ensures BigEndian(Number(bytes), |bytes|) == bytes
    decreases |bytes|
  {
    if bytes != [] {
      var rest, last := bytes[..|bytes| - 1], bytes[|bytes| - 1];
      BigEndianOfNumber(rest);
      assert Number(bytes) / 256 == Number(rest) && Number(bytes) % 256 == last;
    }
  }

  lemma Widths()
    ensures Pow(256, 4) == 0x1_0000_0000 && Pow(256, 8) == 0x1_0000_0000_0000_0000
  {
    assert Pow(256, 1) == 256;
    assert Pow(256, 2) == 65536;
    assert Pow(256, 3) == 16777216;
    assert Pow(256, 4) == 4294967296;
    assert Pow(256, 5) == 1099511627776;
    assert Pow(256, 6) == 281474976710656;
    assert Pow(256, 7) == 72057594037927936;
  }

  lemma Uint32RoundTrip(n: Uint32)
    ensures Number(BigEndian(n, 4)) == n
  {
    Widths();
    NumberOfBigEndian(n, 4);
  }

  lemma Uint64RoundTrip(n: Uint64)
    ensures Number(BigEndian(n, 8)) == n
  {
    Widths();
    NumberOfBigEndian(n, 8);
  }

  // ----- Bits, least significant first -----

  function Bits(n: nat, k: nat): (r: seq<bool>)
    ensures |r| == k
    decreases k, n
  {
    if k == 0 then [] else [n % 2 == 1] + Bits(n / 2, k - 1)
  }

  function FromBits(bits: seq<bool>): nat {
    if bits == [] then 0 else (if bits[0] then 1 else 0) + 2 * FromBits(bits[1..])
  }

  lemma {:induction false} FromBitsBound(bits: seq<bool>)
    ensures FromBits(bits) < Pow(2, |bits|)
    decreases |bits|
  {
    if bits != [] {
      FromBitsBound(bits[1..]);
    }
  }

  lemma {:induction false} FromBitsOfBits(n: nat, k: nat)
    requires n < Pow(2, k)
    ensures FromBits(Bits(n, k)) == n
    decreases k
  {
    if k > 0 {
      FromBitsOfBits(n / 2, k - 1);
    }
  }

  lemma {:induction false} BitsOfFromBits(bits: seq<bool>)
    ensures Bits(FromBits(bits), |bits|) == bits
    decreases |bits|
  {
    if bits != [] {
      BitsOfFromBits(bits[1..]);
      assert FromBits(bits) / 2 == FromBits(bits[1..]);
    }
  }
}
