/**
  The CRC-32 of section 8 of RFC 1952: what it is, bit by bit, how it is computed, byte by
  byte from a table, and what it is worth.
*/
module Checksum {
  import opened Bytes
  import opened Bits

  const CRC_POLYNOMIAL := 0xEDB8_8320

  /** One bit of the reflected CRC-32 of section 8 of RFC 1952. */
  function CrcBit(c: u32): (d: u32) {
    Bounds();
    XorBound(c / 2, CRC_POLYNOMIAL, 32);
    if c % 2 == 1 then Xor(c / 2, CRC_POLYNOMIAL, 32) else c / 2
  }

  lemma Bounds()
    ensures Pow2(32) == 0x1_0000_0000
  {
    Pow2Values();
  }

  function CrcBits(c: u32, n: nat): u32
    decreases n
  {
    if n == 0 then c else CrcBits(CrcBit(c), n - 1)
  }

  function Xor32(a: u32, b: u32): u32 {
    Bounds();
    XorBound(a, b, 32);
    Xor(a, b, 32)
  }

  function CrcUpdate(c: u32, data: seq<byte>): u32
    decreases |data|
  {
    if data == [] then c else CrcUpdate(CrcBits(Xor32(c, data[0]), 8), data[1..])
  }

  function Crc(data: seq<byte>): u32 {
    Xor32(CrcUpdate(0xFFFF_FFFF, data), 0xFFFF_FFFF)
  }

  // ----- byte by byte

  /** Both sides of a bit step are sums without carry. */
  lemma BitLinear(a: u32, b: u32)
    ensures CrcBit(Xor32(a, b)) == Xor32(CrcBit(a), CrcBit(b))
  {
    hide Xor;
    Bounds();
    var p := CRC_POLYNOMIAL;
    var x, y := a / 2, b / 2;
    XorHalves(a, b, 32);
    XorTrim(x, y);
    XorAssoc(x, y, p, 32);
    XorAssoc(x, p, y, 32);
    XorSwap(y, p, 32);
    XorAssoc(Xor(x, p, 32), y, p, 32);
    XorAssoc(Xor(x, y, 32), p, p, 32);
    XorSame(p, 32);
    XorBound(x, y, 32);
    XorZero(Xor(x, y, 32), 32);
  }

  /** The top bit of numbers below 2^31 does not matter. */
  lemma XorTrim(x: nat, y: nat)
    requires x < 0x8000_0000 && y < 0x8000_0000
    ensures Xor(x, y, 31) == Xor(x, y, 32)
  {
    Pow2Values();
    XorShort(x, y, 31);
  }

  lemma {:induction false} XorShort(x: nat, y: nat, k: nat)
    requires x < Pow2(k) && y < Pow2(k)
    ensures Xor(x, y, k) == Xor(x, y, k + 1)
  {
    hide Xor;
    XorHalves(x, y, k + 1);
    if k > 0 {
      XorHalves(x, y, k);
      XorShort(x / 2, y / 2, k - 1);
    } else {
      XorNone(x, y);
      XorNone(x / 2, y / 2);
    }
  }

  lemma {:induction false} BitsLinear(a: u32, b: u32, n: nat)
    ensures CrcBits(Xor32(a, b), n) == Xor32(CrcBits(a, n), CrcBits(b, n))
    decreases n
  {
    hide CrcBit, Xor32;
    if n > 0 {
      BitLinear(a, b);
      BitsLinear(CrcBit(a), CrcBit(b), n - 1);
    }
  }

  /** Zeros below are shifted out. */
  lemma {:induction false} BitsShift(h: nat, n: nat)
    requires Pow2(n) * h < 0x1_0000_0000
    ensures CrcBits(Pow2(n) * h, n) == h
    decreases n
  {
    hide CrcBit;
    if n > 0 {
      var x := Pow2(n - 1) * h;
      assert Pow2(n) * h == 2 * x;
      BitEven(x);
      BitsShift(h, n - 1);
    }
  }

  lemma BitEven(x: nat)
    requires 2 * x < 0x1_0000_0000
    ensures CrcBit(2 * x) == x
  {
  }

  /** An upper part and a lower part do not get into each other's way. */
  lemma {:induction false} XorParts(q: nat, l: nat, n: nat, k: nat)
    requires n <= k && l < Pow2(n) && Pow2(n) * q + l < Pow2(k)
    ensures Xor(Pow2(n) * q, l, k) == Pow2(n) * q + l
  {
    hide Xor;
    if n > 0 {
      var y := Pow2(n - 1) * q;
      assert Pow2(n) * q == 2 * y;
      XorParts(q, l / 2, n - 1, k - 1);
      FromHalves(2 * y + l, 2 * y, l, k);
    } else {
      XorZero(q, k);
    }
  }

  lemma FromHalves(x: nat, a: nat, b: nat, k: nat)
    requires k > 0 && Xor(a / 2, b / 2, k - 1) == x / 2 && a % 2 == 0 && b % 2 == x % 2
    ensures Xor(a, b, k) == x
  {
    hide Xor;
    XorHalves(a, b, k);
  }

  /** Eight bits at once: the lower byte decides what is added to the upper bytes. */
  lemma TableStep(x: u32)
    ensures CrcBits(x, 8) == Xor32(CrcBits(x % 256, 8), x / 256)
  {
    hide CrcBits, Xor;
    Bounds();
    assert Pow2(8) == 256;
    XorParts(x / 256, x % 256, 8, 32);
    BitsLinear(256 * (x / 256), x % 256, 8);
    BitsShift(x / 256, 8);
    XorSwap(x / 256, CrcBits(x % 256, 8), 32);
  }

  /** A byte added at the bottom leaves the upper bytes. */
  lemma {:induction false} XorUpper(c: nat, b: nat, n: nat, k: nat)
    requires n <= k && b < Pow2(n) && c < Pow2(k)
    ensures Xor(c, b, k) / Pow2(n) == c / Pow2(n)
  {
    hide Xor;
    if n > 0 {
      XorHalves(c, b, k);
      XorUpper(c / 2, b / 2, n - 1, k - 1);
      Quarter(c, Pow2(n - 1));
      Quarter(Xor(c, b, k), Pow2(n - 1));
    } else {
      XorZero(c, k);
    }
  }

  lemma Quarter(x: nat, w: nat)
    requires w > 0
    ensures x / (2 * w) == x / 2 / w
  {
    var q, r := x / 2 / w, x / 2 % w;
    assert q * (2 * w) == 2 * (q * w);
    DivMod(x, q, 2 * w, 2 * r + x % 2);
  }

  /** Entry i of the table. */
  function TableEntry(i: byte): u32 {
    CrcBits(i, 8)
  }

  /** crc32_write: one table lookup per byte. */
  method Write(crc: u32, data: seq<byte>) returns (crc': u32)
    ensures crc' == CrcUpdate(crc, data)
  {
    hide CrcUpdate, CrcBits, Xor32;
    crc' := crc;
    assert data[0..] == data;
    for i := 0 to |data|
      invariant CrcUpdate(crc', data[i..]) == CrcUpdate(crc, data)
    {
      NextByte(crc', data, i);
      crc' := Xor32(TableEntry(Xor32(crc', data[i]) % 256), crc' / 256);
    }
    NoMore(crc', data);
  }

  lemma NextByte(c: u32, data: seq<byte>, i: nat)
    requires i < |data|
    ensures CrcUpdate(c, data[i..]) == CrcUpdate(Xor32(TableEntry(Xor32(c, data[i]) % 256), c / 256), data[i + 1..])
  {
    hide CrcBits, Xor;
    var x := Xor32(c, data[i]);
    TableStep(x);
    Bounds();
    assert Pow2(8) == 256;
    XorUpper(c, data[i], 8, 32);
    assert data[i..][1..] == data[i + 1..];
  }

  lemma NoMore(c: u32, data: seq<byte>)
    ensures CrcUpdate(c, data[|data|..]) == c
  {
  }

  lemma {:induction false} UpdateConcat(c: u32, a: seq<byte>, b: seq<byte>)
    ensures CrcUpdate(c, a + b) == CrcUpdate(CrcUpdate(c, a), b)
    decreases |a|
  {
    hide CrcBits, Xor32;
    if a == [] {
      assert a + b == b;
    } else {
      UpdateConcat(CrcBits(Xor32(c, a[0]), 8), a[1..], b);
      assert (a + b)[1..] == a[1..] + b;
    }
  }

  /** getCRC: the checksum of three pieces, written one after the other. */
  method ThreePieces(header: seq<byte>, key: seq<byte>, body: seq<byte>) returns (crc: u32)
    ensures crc == Crc(header + key + body)
  {
    hide CrcUpdate, Xor32;
    crc := Write(0xFFFF_FFFF, header);
    UpdateConcat(0xFFFF_FFFF, header, key);
    UpdateConcat(0xFFFF_FFFF, header + key, body);
    if |key| > 0 {
      crc := Write(crc, key);
    } else {
      assert header + key == header;
    }
    if |body| > 0 {
      crc := Write(crc, body);
    } else {
      assert header + key + body == header + key;
    }
    crc := Xor32(crc, 0xFFFF_FFFF);
  }

  // ----- damage

  /** One bit of the checksum can be undone: its polynomial has the top bit. */
  lemma BitDiffers(a: u32, b: u32)
    requires a != b
    ensures CrcBit(a) != CrcBit(b)
  {
    hide Xor;
    Pow2Values();
    if a % 2 == b % 2 {
      XorDiffers(a / 2, b / 2, CRC_POLYNOMIAL, 32);
    } else {
      TopSet(a / 2);
      TopSet(b / 2);
    }
  }

  lemma TopSet(x: nat)
    requires x < 0x8000_0000
    ensures Xor(x, CRC_POLYNOMIAL, 32) >= 0x8000_0000
  {
    hide Xor;
    Pow2Values();
    XorBits(x, CRC_POLYNOMIAL, 32, 31);
    assert Bit(CRC_POLYNOMIAL, 31) == 1 && Bit(x, 31) == 0;
  }

  lemma {:induction false} BitsDiffer(a: u32, b: u32, n: nat)
    requires a != b
    ensures CrcBits(a, n) != CrcBits(b, n)
    decreases n
  {
    hide CrcBit;
    if n != 0 {
      BitDiffers(a, b);
      BitsDiffer(CrcBit(a), CrcBit(b), n - 1);
    }
  }

  lemma Xor32Differs(a: u32, b: u32, x: u32)
    requires a != b
    ensures Xor32(a, x) != Xor32(b, x) && Xor32(x, a) != Xor32(x, b)
  {
    hide Xor;
    Bounds();
    XorDiffers(a, b, x, 32);
    XorSwap(a, x, 32);
    XorSwap(b, x, 32);
  }

  lemma {:induction false} UpdateDiffers(a: u32, b: u32, data: seq<byte>)
    requires a != b
    ensures CrcUpdate(a, data) != CrcUpdate(b, data)
    decreases |data|
  {
    hide CrcBits, Xor32;
    if data != [] {
      var x, y := Xor32(a, data[0]), Xor32(b, data[0]);
      Xor32Differs(a, b, data[0]);
      BitsDiffer(x, y, 8);
      UpdateDiffers(CrcBits(x, 8), CrcBits(y, 8), data[1..]);
    }
  }

  lemma {:induction false} OneByteUpdate(c: u32, data: seq<byte>, i: nat, b: byte)
    requires i < |data| && data[i] != b
    ensures CrcUpdate(c, data[i := b]) != CrcUpdate(c, data)
    decreases |data|
  {
    hide CrcBits, Xor32;
    var data' := data[i := b];
    if i == 0 {
      var x, y := Xor32(c, data[0]), Xor32(c, b);
      Xor32Differs(data[0], b, c);
      BitsDiffer(x, y, 8);
      UpdateDiffers(CrcBits(x, 8), CrcBits(y, 8), data[1..]);
      assert data'[1..] == data[1..];
    } else {
      OneByteUpdate(CrcBits(Xor32(c, data[0]), 8), data[1..], i - 1, b);
      assert data'[1..] == data[1..][i - 1 := b];
    }
  }

  /** Sequences that differ in one byte have different checksums. */
  lemma OneByte(data: seq<byte>, i: nat, b: byte)
    requires i < |data| && data[i] != b
    ensures Crc(data[i := b]) != Crc(data)
  {
    hide CrcUpdate, Xor32;
    OneByteUpdate(0xFFFF_FFFF, data, i, b);
    Xor32Differs(CrcUpdate(0xFFFF_FFFF, data[i := b]), CrcUpdate(0xFFFF_FFFF, data), 0xFFFF_FFFF);
  }
}
