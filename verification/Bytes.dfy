/** Bytes as small integers, bitwise operations on them, and big-endian numbers.
    Shifts and masks by constants are written as division and remainder. */
module Bytes {

  type byte = x: int | 0 <= x < 256

  /** Counters, lengths and sizes are 64-bit machine words. */
  const WORD: nat := 0x1_0000_0000_0000_0000

  /** What a 64-bit counter shows for n. */
  function Wrap64(n: int): (w: nat)
    ensures w < WORD
  {
    n % WORD
  }

  lemma WrapAdd(n: int, k: int)
    ensures Wrap64(Wrap64(n) + k) == Wrap64(n + k)
  {
  }

  lemma WrapSmall(n: nat)
    requires n < WORD
    ensures Wrap64(n) == n
  {
  }

  function Min(a: int, b: int): int { if a < b then a else b }

  function Zeros(n: nat): (s: seq<byte>)
    ensures |s| == n
  {
    seq(n, _ => 0)
  }

  function Pow2(k: nat): (p: nat)
    ensures p > 0
  {
    if k == 0 then 1 else 2 * Pow2(k - 1)
  }

  /** Bitwise exclusive or. */
  function Xor(x: nat, y: nat): nat
    decreases x + y
  {
    if x == 0 && y == 0 then 0 else 2 * Xor(x / 2, y / 2) + (if x % 2 == y % 2 then 0 else 1)
  }

  /** Bitwise or. */
  function Or(x: nat, y: nat): nat
    decreases x + y
  {
    if x == 0 && y == 0 then 0
    else 2 * Or(x / 2, y / 2) + (if x % 2 == 1 || y % 2 == 1 then 1 else 0)
  }

  lemma {:induction false} XorBound(x: nat, y: nat, k: nat)
    requires x < Pow2(k) && y < Pow2(k)
    ensures Xor(x, y) < Pow2(k)
    decreases k
  {
    if k > 0 && (x > 0 || y > 0) {
      XorBound(x / 2, y / 2, k - 1);
    }
  }

  lemma {:induction false} XorTwice(x: nat, y: nat)
    ensures Xor(Xor(x, y), y) == x
    decreases x + y
  {
    if x > 0 || y > 0 {
      var z := Xor(x, y);
      assert z / 2 == Xor(x / 2, y / 2);
      XorTwice(x / 2, y / 2);
    }
  }

  /** Bit k of x, counted from the least significant end. */
  function Bit(x: nat, k: nat): (b: nat)
    ensures b < 2
  {
    if k == 0 then x % 2 else Bit(x / 2, k - 1)
  }

  /** Both operations work bit by bit. */
  lemma {:induction false} XorBit(x: nat, y: nat, k: nat)
    ensures Bit(Xor(x, y), k) == if Bit(x, k) == Bit(y, k) then 0 else 1
    decreases k
  {
    assert Xor(x, y) / 2 == Xor(x / 2, y / 2) && Xor(x, y) % 2 == if x % 2 == y % 2 then 0 else 1;
    hide Xor;
    if k > 0 { XorBit(x / 2, y / 2, k - 1); }
  }

  lemma {:induction false} OrBit(x: nat, y: nat, k: nat)
    ensures Bit(Or(x, y), k) == if Bit(x, k) == 1 || Bit(y, k) == 1 then 1 else 0
    decreases k
  {
    assert Or(x, y) / 2 == Or(x / 2, y / 2) && Or(x, y) % 2 == if x % 2 == 1 || y % 2 == 1 then 1 else 0;
    hide Or;
    if k > 0 { OrBit(x / 2, y / 2, k - 1); }
  }

  function XorByte(x: byte, y: byte): byte
  {
    assert Pow2(8) == 256;
    XorBound(x, y, 8);
    Xor(x, y)
  }

  /** A byte as a bit vector. */
  lemma ByteBits(x: byte)
    ensures x as bv8 ==
            (Bit(x, 7) as bv8 << 7) | (Bit(x, 6) as bv8 << 6) | (Bit(x, 5) as bv8 << 5) | (Bit(x, 4) as bv8 << 4) |
            (Bit(x, 3) as bv8 << 3) | (Bit(x, 2) as bv8 << 2) | (Bit(x, 1) as bv8 << 1) | Bit(x, 0) as bv8
  {
    BitIs(x);
  }

  lemma BitIs(x: nat)
    ensures Bit(x, 0) == x % 2 && Bit(x, 1) == x / 2 % 2 && Bit(x, 2) == x / 4 % 2 && Bit(x, 3) == x / 8 % 2
    ensures Bit(x, 4) == x / 16 % 2 && Bit(x, 5) == x / 32 % 2 && Bit(x, 6) == x / 64 % 2 && Bit(x, 7) == x / 128 % 2
  {
    hide Bit;
    FirstBits(x);
    FirstBits(x / 16);
    BitBeyond(x, 0);
    BitBeyond(x, 1);
    BitBeyond(x, 2);
    BitBeyond(x, 3);
  }

  lemma FirstBits(x: nat)
    ensures Bit(x, 0) == x % 2 && Bit(x, 1) == x / 2 % 2 && Bit(x, 2) == x / 4 % 2 && Bit(x, 3) == x / 8 % 2
  {
    FourBits(x);
  }

  lemma BitNext(x: nat, k: nat)
    ensures Bit(x, 0) == x % 2 && Bit(x / 2, 0) == x / 2 % 2 && Bit(x, k + 1) == Bit(x / 2, k)
  {
  }

  lemma BitBeyond(x: nat, k: nat)
    ensures Bit(x, k + 4) == Bit(x / 16, k)
  {
    hide Bit;
    BitNext(x, k + 3);
    BitNext(x / 2, k + 2);
    BitNext(x / 4, k + 1);
    BitNext(x / 8, k);
    assert x / 2 / 2 == x / 4 && x / 4 / 2 == x / 8 && x / 8 / 2 == x / 16;
  }

  /** The lower and the upper four bits of a byte, and the lower seven. */
  function LowNibble(x: nat): nat { 8 * Bit(x, 3) + 4 * Bit(x, 2) + 2 * Bit(x, 1) + Bit(x, 0) }
  function HighNibble(x: nat): nat { 8 * Bit(x, 7) + 4 * Bit(x, 6) + 2 * Bit(x, 5) + Bit(x, 4) }
  function LowSeven(x: nat): nat { 64 * Bit(x, 6) + 32 * Bit(x, 5) + 16 * Bit(x, 4) + LowNibble(x) }

  lemma NibbleIs(x: nat)
    ensures LowNibble(x) == x % 16
  {
    hide Bit;
    FourBits(x);
    Quarters(x);
    assert x % 16 == x - 16 * (x / 16);
    Parity(x);
    Parity(x / 2);
    Parity(x / 4);
    Parity(x / 8);
  }

  lemma FourBits(x: nat)
    ensures Bit(x, 1) == Bit(x / 2, 0) && Bit(x, 2) == Bit(x / 4, 0) && Bit(x, 3) == Bit(x / 8, 0)
  {
    hide Bit;
    Quarters(x);
    BitNext(x, 0);
    BitNext(x, 1);
    BitNext(x / 2, 0);
    BitNext(x, 2);
    BitNext(x / 2, 1);
    BitNext(x / 4, 0);
  }

  lemma Quarters(x: nat)
    ensures x / 2 / 2 == x / 4 && x / 4 / 2 == x / 8 && x / 8 / 2 == x / 16
  {
  }

  lemma Parity(x: nat)
    ensures x == 2 * (x / 2) + Bit(x, 0)
  {
  }

  lemma HighNibbleIs(x: nat)
    ensures HighNibble(x) == x / 16 % 16
  {
    hide Bit;
    NibbleIs(x / 16);
    BitBeyond(x, 0);
    BitBeyond(x, 1);
    BitBeyond(x, 2);
    BitBeyond(x, 3);
  }

  lemma ByteSum(x: byte)
    ensures x == 16 * HighNibble(x) + LowNibble(x) && LowSeven(x) == x % 128 && (Bit(x, 7) == 1 <==> x >= 128)
  {
    hide Bit, LowNibble;
    NibbleIs(x);
    HighNibbleIs(x);
    SevenOf(Bit(x, 7), HighNibble(x) - 8 * Bit(x, 7), LowNibble(x), x);
  }

  lemma SevenOf(top: nat, middle: int, low: nat, x: byte)
    requires top < 2 && 0 <= middle < 8 && low < 16 && x == 128 * top + 16 * middle + low
    ensures 16 * middle + low == x % 128 && (top == 1 <==> x >= 128)
  {
  }

  /** On bytes it is the exclusive or of bit vectors. */
  lemma XorIsBitwise(x: byte, y: byte)
    ensures XorByte(x, y) as bv8 == (x as bv8) ^ (y as bv8)
  {
    hide Xor, Bit;
    ByteBits(x);
    ByteBits(y);
    ByteBits(XorByte(x, y));
    XorBit(x, y, 0);
    XorBit(x, y, 1);
    XorBit(x, y, 2);
    XorBit(x, y, 3);
    XorBit(x, y, 4);
    XorBit(x, y, 5);
    XorBit(x, y, 6);
    XorBit(x, y, 7);
  }

  /** And its value, bit by bit. */
  lemma XorSum(x: byte, y: byte)
    ensures XorByte(x, y) ==
            16 * (8 * Differ(x, y, 7) + 4 * Differ(x, y, 6) + 2 * Differ(x, y, 5) + Differ(x, y, 4)) +
            (8 * Differ(x, y, 3) + 4 * Differ(x, y, 2) + 2 * Differ(x, y, 1) + Differ(x, y, 0))
  {
    hide Xor, Bit, LowNibble, HighNibble, Differ;
    ByteSum(XorByte(x, y));
    XorNibbles(x, y);
  }

  lemma XorNibbles(x: nat, y: nat)
    ensures HighNibble(Xor(x, y)) ==
            8 * Differ(x, y, 7) + 4 * Differ(x, y, 6) + 2 * Differ(x, y, 5) + Differ(x, y, 4)
    ensures LowNibble(Xor(x, y)) ==
            8 * Differ(x, y, 3) + 4 * Differ(x, y, 2) + 2 * Differ(x, y, 1) + Differ(x, y, 0)
  {
    hide Xor, Bit;
    XorBit(x, y, 0);
    XorBit(x, y, 1);
    XorBit(x, y, 2);
    XorBit(x, y, 3);
    XorBit(x, y, 4);
    XorBit(x, y, 5);
    XorBit(x, y, 6);
    XorBit(x, y, 7);
  }

  function Differ(x: nat, y: nat, k: nat): (b: nat)
    ensures b < 2
  {
    if Bit(x, k) == Bit(y, k) then 0 else 1
  }

  /** x shifted left by k bits. */
  function Shl(x: nat, k: nat): nat
  {
    if k == 0 then x else 2 * Shl(x, k - 1)
  }

  /** Or is addition when the low operand stays below the high operand's lowest bit. */
  lemma {:induction false} OrDisjoint(x: nat, k: nat, y: nat)
    requires y < Pow2(k)
    ensures Or(Shl(x, k), y) == Shl(x, k) + y
  {
    if k == 0 {
      OrZero(x);
    } else if Shl(x, k) > 0 || y > 0 {
      assert Shl(x, k) / 2 == Shl(x, k - 1) && Shl(x, k) % 2 == 0;
      OrDisjoint(x, k - 1, y / 2);
    }
  }

  lemma {:induction false} OrZero(x: nat)
    ensures Or(x, 0) == x
  {
    if x > 0 { OrZero(x / 2); }
  }

  // ---- big-endian numbers ----

  function FromBigEndian(s: seq<byte>): nat
  {
    if s == [] then 0 else FromBigEndian(s[..|s| - 1]) * 256 + s[|s| - 1]
  }

  function ToBigEndian(n: nat, k: nat): (s: seq<byte>)
    ensures |s| == k
    decreases k
  {
    if k == 0 then [] else ToBigEndian(n / 256, k - 1) + [n % 256]
  }

  function Pow256(k: nat): (p: nat)
    ensures p > 0
  {
    if k == 0 then 1 else 256 * Pow256(k - 1)
  }

  lemma {:induction false} BigEndianRoundTrip(n: nat, k: nat)
    requires n < Pow256(k)
    ensures FromBigEndian(ToBigEndian(n, k)) == n
    decreases k
  {
    if k > 0 {
      BigEndianRoundTrip(n / 256, k - 1);
      var s := ToBigEndian(n, k);
      assert s[..|s| - 1] == ToBigEndian(n / 256, k - 1);
    }
  }

  lemma {:induction false} BigEndianBound(s: seq<byte>)
    ensures FromBigEndian(s) < Pow256(|s|)
  {
    if s != [] {
      BigEndianBound(s[..|s| - 1]);
    }
  }

  lemma {:induction false} PowWord(k: nat)
    requires k <= 8
    ensures Pow256(k) <= Pow256(8) == WORD
    decreases 8 - k
  {
    assert Pow256(8) == WORD by {
      assert Pow256(2) == 65536;
      assert Pow256(4) == 65536 * 65536;
      assert Pow256(6) == 65536 * 65536 * 65536;
    }
    if k < 8 { PowWord(k + 1); }
  }

  /** n shifted right by i whole bytes. */
  function ShiftBytes(n: nat, i: nat): nat
  {
    if i == 0 then n else ShiftBytes(n / 256, i - 1)
  }

  /** Digit i of the k-byte big-endian form, counted from the least significant end. */
  lemma {:induction false} BigEndianDigit(n: nat, k: nat, i: nat)
    requires i < k
    ensures ToBigEndian(n, k)[k - 1 - i] == ShiftBytes(n, i) % 256
    decreases k
  {
    if i > 0 {
      BigEndianDigit(n / 256, k - 1, i - 1);
    }
  }

  // ---- sequences of byte strings ----

  function Concat(ss: seq<seq<byte>>): seq<byte>
  {
    if ss == [] then [] else ss[0] + Concat(ss[1..])
  }

  lemma {:induction false} ConcatSnoc(ss: seq<seq<byte>>, s: seq<byte>)
    ensures Concat(ss + [s]) == Concat(ss) + s
  {
    if ss == [] {
      assert ss + [s] == [s];
    } else {
      ConcatSnoc(ss[1..], s);
      assert (ss + [s])[1..] == ss[1..] + [s];
    }
  }
}
