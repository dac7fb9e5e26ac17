/** Base64 with the standard alphabet of section 4 of RFC 4648, over ASCII codes. */
module Base64 {
  import opened Bytes

  const PAD: byte := '=' as int

  /** The alphabet: upper case, lower case, digits, plus, slash. */
  function AlphabetAt(i: nat): byte
    requires i < 64
  {
    if i < 26 then i + 65 else if i < 52 then i + 71 else if i < 62 then i - 4 else if i == 62 then 43 else 47
  }

  /** The decoding table: 64 stands for every character outside the alphabet. */
  function TableAt(c: byte): (v: nat)
    ensures v <= 64
  {
    if 65 <= c <= 90 then c - 65
    else if 97 <= c <= 122 then c - 71
    else if 48 <= c <= 57 then c + 4
    else if c == 43 then 62
    else if c == 47 then 63
    else 64
  }

  lemma TableInvertsAlphabet(c: byte, i: nat)
    ensures i < 64 ==> TableAt(AlphabetAt(i)) == i && AlphabetAt(i) != PAD
    ensures TableAt(c) < 64 ==> AlphabetAt(TableAt(c)) == c && c != PAD
  {
  }

  /** Up to three bytes, packed into 24 bits and cut into four six-bit indices. */
  function EncodeBlock(d: seq<byte>): (q: seq<byte>)
    requires 1 <= |d| <= 3
    ensures |q| == 4
  {
    var b: nat := d[0] as nat * 65536 + (if |d| > 1 then d[1] as nat * 256 else 0) + (if |d| > 2 then d[2] else 0);
    [AlphabetAt(b / 262144 % 64),
     AlphabetAt(b / 4096 % 64),
     if |d| > 1 then AlphabetAt(b / 64 % 64) else PAD,
     if |d| > 2 then AlphabetAt(b % 64) else PAD]
  }

  function Encode(d: seq<byte>): seq<byte>
  {
    if d == [] then []
    else if |d| <= 3 then EncodeBlock(d)
    else EncodeBlock(d[..3]) + Encode(d[3..])
  }

  /** The 24 bits of four table values. Values of 64 overlap their neighbour, so this is a bitwise
      or and not a sum. */
  function Pack(t0: nat, t1: nat, t2: nat, t3: nat): nat
  {
    Or(Or(Or(Shl(t0, 18), Shl(t1, 12)), Shl(t2, 6)), t3)
  }

  function DecodeBlock(q: seq<byte>): (d: seq<byte>)
    requires |q| == 4
    ensures 1 <= |d| <= 3
  {
    if q[2] != PAD then
      if q[3] != PAD then
        var b := Pack(TableAt(q[0]), TableAt(q[1]), TableAt(q[2]), TableAt(q[3]));
        [b / 65536 % 256, b / 256 % 256, b % 256]
      else
        var b := Pack(TableAt(q[0]), TableAt(q[1]), TableAt(q[2]), 0);
        [b / 65536 % 256, b / 256 % 256]
    else
      var b := Pack(TableAt(q[0]), TableAt(q[1]), 0, 0);
      [b / 65536 % 256]
  }

  function DecodeBlocks(s: seq<byte>): seq<byte>
    requires |s| % 4 == 0
  {
    if s == [] then [] else DecodeBlock(s[..4]) + DecodeBlocks(s[4..])
  }

  /** A text whose length is not a multiple of four decodes to nothing. */
  function Decode(s: seq<byte>): seq<byte>
  {
    if |s| % 4 != 0 then [] else DecodeBlocks(s)
  }

  // ---- the loops ----

  method EncodeBytes(data: seq<byte>) returns (result: seq<byte>)
    ensures result == Encode(data)
  {
    hide AlphabetAt, Or, Shl, EncodeBlock, Encode;
    result := [];
    var i := 0;
    assert data[0..] == data;
    while i < |data|
      invariant 0 <= i
      invariant result + Encode(From(data, i)) == Encode(data)
    {
      var b: nat := Shl(data[i], 16);
      if i + 1 < |data| { b := Or(b, Shl(data[i + 1], 8)); }
      if i + 2 < |data| { b := Or(b, data[i + 2]); }
      EncodeStep(data, i, b);
      result := result + [AlphabetAt(b / 262144 % 64),
                          AlphabetAt(b / 4096 % 64),
                          if i + 1 < |data| then AlphabetAt(b / 64 % 64) else PAD,
                          if i + 2 < |data| then AlphabetAt(b % 64) else PAD];
      i := i + 3;
    }
    assert Encode([]) == [] by { EncodeNothing(); }
  }

  /** What the loop has not read yet. */
  function From(data: seq<byte>, i: nat): seq<byte>
  {
    if i < |data| then data[i..] else []
  }

  lemma EncodeNothing()
    ensures Encode([]) == []
  {
  }

  lemma EncodeStep(data: seq<byte>, i: nat, b: nat)
    requires i < |data|
    requires var x := Shl(data[i], 16);
             var y := if i + 1 < |data| then Or(x, Shl(data[i + 1], 8)) else x;
             b == if i + 2 < |data| then Or(y, data[i + 2]) else y
    ensures var chunk := data[i..Min(i + 3, |data|)];
            && Encode(data[i..]) == EncodeBlock(chunk) + Encode(From(data, i + 3))
            && EncodeBlock(chunk) == [AlphabetAt(b / 262144 % 64), AlphabetAt(b / 4096 % 64),
                                      if i + 1 < |data| then AlphabetAt(b / 64 % 64) else PAD,
                                      if i + 2 < |data| then AlphabetAt(b % 64) else PAD]
  {
    hide AlphabetAt, Or, Shl, Encode;
    PackBytes(data[i], if i + 1 < |data| then data[i + 1] else 0, if i + 2 < |data| then data[i + 2] else 0);
    EncodeCons(data[i..]);
    assert data[i..][..Min(3, |data| - i)] == data[i..Min(i + 3, |data|)];
    assert data[i..][Min(3, |data| - i)..] == From(data, i + 3);
  }

  /** Packing bytes: the or of the shifted bytes is their sum, also when the tail is absent. */
  lemma PackBytes(x: byte, y: byte, z: byte)
    ensures Shl(x, 16) == x * 65536
    ensures Or(Shl(x, 16), Shl(y, 8)) == x * 65536 + y * 256
    ensures Or(Or(Shl(x, 16), Shl(y, 8)), z) == x * 65536 + y * 256 + z
  {
    Shl8(x); Shl8(y); ShlAdd(x, 8, 8); Shl8(x * 256);
    OrShifted(x, 8, y, 8);
    Pow8();
    OrDisjoint(x * 256 + y, 8, z);
    Shl8(x * 256 + y);
  }

  method DecodeText(encoded: seq<byte>) returns (result: seq<byte>)
    ensures result == Decode(encoded)
  {
    hide DecodeBlock, DecodeBlocks;
    result := [];
    if |encoded| % 4 != 0 { return; }
    var i := 0;
    assert encoded[0..] == encoded;
    while i < |encoded|
      invariant 0 <= i <= |encoded| && i % 4 == 0
      invariant result + DecodeBlocks(encoded[i..]) == DecodeBlocks(encoded)
    {
      DecodeStep(encoded, i);
      var bytes := DecodeQuad(encoded[i], encoded[i + 1], encoded[i + 2], encoded[i + 3]);
      assert encoded[i..i + 4] == [encoded[i], encoded[i + 1], encoded[i + 2], encoded[i + 3]];
      result := result + bytes;
      i := i + 4;
    }
    assert DecodeBlocks([]) == [] by { DecodeNothing(); }
  }

  /** One turn of the decoding loop. */
  method DecodeQuad(c0: byte, c1: byte, c2: byte, c3: byte) returns (bytes: seq<byte>)
    ensures bytes == DecodeBlock([c0, c1, c2, c3])
  {
    hide TableAt, Or, Shl;
    var b := Or(Shl(TableAt(c0), 18), Shl(TableAt(c1), 12));
    if c2 != PAD {
      b := Or(b, Shl(TableAt(c2), 6));
      if c3 != PAD {
        b := Or(b, TableAt(c3));
        bytes := [b / 65536 % 256, b / 256 % 256, b % 256];
      } else {
        OrZero(b);
        bytes := [b / 65536 % 256, b / 256 % 256];
      }
    } else {
      OrZero(b);
      Shl6(0);
      bytes := [b / 65536 % 256];
    }
  }

  lemma DecodeNothing()
    ensures DecodeBlocks([]) == []
  {
  }

  lemma DecodeStep(s: seq<byte>, i: nat)
    requires |s| % 4 == 0 && i % 4 == 0 && i < |s|
    ensures DecodeBlocks(s[i..]) == DecodeBlock(s[i..i + 4]) + DecodeBlocks(s[i + 4..])
  {
    hide DecodeBlock;
    assert s[i..][..4] == s[i..i + 4] && s[i..][4..] == s[i + 4..];
  }

  // ---- shifting and packing six-bit values ----

  lemma Shl6(x: nat)
    ensures Shl(x, 6) == x * 64
  {
    assert Shl(x, 1) == 2 * Shl(x, 0);
    assert Shl(x, 2) == 2 * Shl(x, 1);
    assert Shl(x, 4) == 4 * Shl(x, 2);
  }

  lemma Shl8(x: nat)
    ensures Shl(x, 8) == x * 256
  {
    Shl6(x);
    assert Shl(x, 8) == 4 * Shl(x, 6);
  }

  lemma {:induction false} ShlAdd(x: nat, j: nat, k: nat)
    ensures Shl(x, j + k) == Shl(Shl(x, j), k)
    decreases k
  {
    if k > 0 { ShlAdd(x, j, k - 1); }
  }

  lemma Pow8()
    ensures Pow2(6) == 64 && Pow2(8) == 256
  {
    assert Pow2(2) == 4;
    assert Pow2(4) == 16;
  }

  /** Or of two shifted values whose bits do not meet. */
  lemma {:induction false} OrShifted(x: nat, j: nat, y: nat, k: nat)
    requires y < Pow2(j)
    ensures Or(Shl(x, j + k), Shl(y, k)) == Shl(Shl(x, j) + y, k)
    decreases k
  {
    if k == 0 {
      OrDisjoint(x, j, y);
    } else {
      OrShifted(x, j, y, k - 1);
      OrDouble(Shl(x, j + k - 1), Shl(y, k - 1));
    }
  }

  lemma OrDouble(x: nat, y: nat)
    ensures Or(2 * x, 2 * y) == 2 * Or(x, y)
  {
  }

  lemma PackSextets(t0: nat, t1: nat, t2: nat, t3: nat)
    requires t0 < 64 && t1 < 64 && t2 < 64 && t3 < 64
    ensures Pack(t0, t1, t2, t3) == t0 * 262144 + t1 * 4096 + t2 * 64 + t3
  {
    Pow8();
    OrShifted(t0, 6, t1, 12);
    Shl6(t0);
    ShlAdd(t0 * 64 + t1, 6, 6);
    Shl6(t0 * 64 + t1);
    OrShifted(t0 * 64 + t1, 6, t2, 6);
    Shl6((t0 * 64 + t1) * 64 + t2);
    OrDisjoint((t0 * 64 + t1) * 64 + t2, 6, t3);
  }

  // ---- round trips ----

  /** The four indices of a packed block, and the three bytes of packed indices. */
  lemma SextetDigits(t0: nat, t1: nat, t2: nat, t3: nat)
    requires t0 < 64 && t1 < 64 && t2 < 64 && t3 < 64
    ensures var b := t0 * 262144 + t1 * 4096 + t2 * 64 + t3;
            b / 262144 % 64 == t0 && b / 4096 % 64 == t1 && b / 64 % 64 == t2 && b % 64 == t3
  {
    var b := t0 * 262144 + t1 * 4096 + t2 * 64 + t3;
    assert b / 262144 == t0;
    assert b / 4096 == t0 * 64 + t1;
    assert b / 64 == (t0 * 64 + t1) * 64 + t2;
  }

  lemma ByteDigits(x: nat, y: nat, z: nat)
    requires x < 256 && y < 256 && z < 256
    ensures var b := x * 65536 + y * 256 + z;
            b / 65536 % 256 == x && b / 256 % 256 == y && b % 256 == z
  {
    var b := x * 65536 + y * 256 + z;
    assert b / 65536 == x;
    assert b / 256 == x * 256 + y;
  }

  /** The same 24 bits read as three bytes and as four indices. */
  lemma Regroup(x: nat, y: nat, z: nat)
    requires x < 256 && y < 256 && z < 256
    ensures x * 65536 + y * 256 + z ==
            x / 4 * 262144 + (x % 4 * 16 + y / 16) * 4096 + (y % 16 * 4 + z / 64) * 64 + z % 64
    ensures x / 4 < 64 && x % 4 * 16 + y / 16 < 64 && y % 16 * 4 + z / 64 < 64
  {
  }

  lemma EncodedIndices(x: nat, y: nat, z: nat)
    requires x < 256 && y < 256 && z < 256
    ensures var b := x * 65536 + y * 256 + z;
            && b / 262144 % 64 == x / 4 && b / 4096 % 64 == x % 4 * 16 + y / 16
            && b / 64 % 64 == y % 16 * 4 + z / 64 && b % 64 == z % 64
  {
    Regroup(x, y, z);
    SextetDigits(x / 4, x % 4 * 16 + y / 16, y % 16 * 4 + z / 64, z % 64);
  }

  lemma DecodedBytes(t0: nat, t1: nat, t2: nat, t3: nat)
    requires t0 < 64 && t1 < 64 && t2 < 64 && t3 < 64
    ensures var b := t0 * 262144 + t1 * 4096 + t2 * 64 + t3;
            && b / 65536 % 256 == t0 * 4 + t1 / 16
            && b / 256 % 256 == t1 % 16 * 16 + t2 / 4
            && b % 256 == t2 % 4 * 64 + t3
  {
    ByteDigits(t0 * 4 + t1 / 16, t1 % 16 * 16 + t2 / 4, t2 % 4 * 64 + t3);
  }

  /** A block of indices, and what a block of table values stands for. */
  lemma EncodeBlockIndices(d: seq<byte>)
    requires 1 <= |d| <= 3
    ensures var x, y, z := d[0], if |d| > 1 then d[1] else 0, if |d| > 2 then d[2] else 0;
            EncodeBlock(d) == [AlphabetAt(x / 4), AlphabetAt(x % 4 * 16 + y / 16),
                               if |d| > 1 then AlphabetAt(y % 16 * 4 + z / 64) else PAD,
                               if |d| > 2 then AlphabetAt(z % 64) else PAD]
  {
    hide AlphabetAt;
    EncodedIndices(d[0], if |d| > 1 then d[1] else 0, if |d| > 2 then d[2] else 0);
  }

  lemma DecodeBlockBytes(q: seq<byte>, t2: nat, t3: nat)
    requires |q| == 4 && TableAt(q[0]) < 64 && TableAt(q[1]) < 64
    requires t2 == (if q[2] == PAD then 0 else TableAt(q[2])) < 64
    requires t3 == (if q[2] == PAD || q[3] == PAD then 0 else TableAt(q[3])) < 64
    ensures var t0, t1 := TableAt(q[0]), TableAt(q[1]);
            var d: seq<byte> := [t0 * 4 + t1 / 16, t1 % 16 * 16 + t2 / 4, t2 % 4 * 64 + t3];
            DecodeBlock(q) == d[..if q[2] == PAD then 1 else if q[3] == PAD then 2 else 3]
  {
    hide TableAt, Pack;
    PackSextets(TableAt(q[0]), TableAt(q[1]), t2, t3);
    DecodedBytes(TableAt(q[0]), TableAt(q[1]), t2, t3);
  }

  /** Indices of three bytes give back the bytes. */
  lemma Ungroup(x: nat, y: nat, z: nat)
    requires x < 256 && y < 256 && z < 256
    ensures x / 4 * 4 + (x % 4 * 16 + y / 16) / 16 == x
    ensures (x % 4 * 16 + y / 16) % 16 * 16 + (y % 16 * 4 + z / 64) / 4 == y
    ensures (y % 16 * 4 + z / 64) % 4 * 64 + z % 64 == z
  {
  }

  lemma BlockRoundTrip(d: seq<byte>)
    requires 1 <= |d| <= 3
    ensures DecodeBlock(EncodeBlock(d)) == d
  {
    hide AlphabetAt, TableAt, EncodeBlock, DecodeBlock;
    var x: nat, y: nat, z: nat := d[0], if |d| > 1 then d[1] else 0, if |d| > 2 then d[2] else 0;
    var q := EncodeBlock(d);
    EncodeBlockIndices(d);
    TableInvertsAlphabet(0, x / 4);
    TableInvertsAlphabet(0, x % 4 * 16 + y / 16);
    TableInvertsAlphabet(0, y % 16 * 4 + z / 64);
    TableInvertsAlphabet(0, z % 64);
    Ungroup(x, y, z);
    if |d| == 1 {
      DecodeBlockBytes(q, 0, 0);
    } else if |d| == 2 {
      DecodeBlockBytes(q, y % 16 * 4, 0);
    } else {
      DecodeBlockBytes(q, y % 16 * 4 + z / 64, z % 64);
    }
  }

  // ---- the text of an encoding ----

  /** The alphabet in the order of table 1 of RFC 4648. */
  function Alphabet(): (s: string)
    ensures |s| == 64
  {
    Upper() + Lower() + Digits()
  }

  function Upper(): (s: string) ensures |s| == 26 { "ABCDEFGHIJKLMNOPQRSTUVWXYZ" }
  function Lower(): (s: string) ensures |s| == 26 { "abcdefghijklmnopqrstuvwxyz" }
  function Digits(): (s: string) ensures |s| == 12 { "0123456789+/" }

  /** The code's table is that alphabet, and the decoding table its inverse: 64 exactly outside it. */
  lemma AlphabetIs(i: nat, c: byte)
    ensures i < 64 ==> AlphabetAt(i) == Alphabet()[i] as int
    ensures TableAt(c) == 64 <==> c as char !in Alphabet()
    ensures TableAt(c) < 64 ==> Alphabet()[TableAt(c)] == c as char
  {
    if i < 64 { AlphabetCode(i); }
    if TableAt(c) < 64 {
      AlphabetCode(TableAt(c));
    } else if c as char in Alphabet() {
      var k :| 0 <= k < 64 && Alphabet()[k] == c as char;
      AlphabetCode(k);
      TableInvertsAlphabet(c, k);
    }
  }

  lemma AlphabetCode(i: nat)
    requires i < 64
    ensures AlphabetAt(i) == Alphabet()[i] as int
  {
    hide Upper, Lower, Digits;
    if i < 26 {
      UpperCode(i);
    } else if i < 52 {
      LowerCode(i - 26);
    } else {
      DigitCode(i - 52);
    }
  }

  lemma UpperCode(i: nat)
    requires i < 26
    ensures Upper()[i] as int == 65 + i
  {
  }

  lemma LowerCode(i: nat)
    requires i < 26
    ensures Lower()[i] as int == 97 + i
  {
  }

  lemma DigitCode(i: nat)
    requires i < 12
    ensures Digits()[i] as int == if i < 10 then 48 + i else if i == 10 then 43 else 47
  {
  }

  /** Six bits of the data from bit 6 * i on, the first bit of a byte being its highest; zeros behind the
      end. */
  function SextetAt(d: seq<byte>, i: nat): (v: nat)
    requires 6 * i < 8 * |d|
    ensures v < 64
  {
    var k, offset := 6 * i / 8, 6 * i % 8;
    var window := d[k] as nat * 256 + if k + 1 < |d| then d[k + 1] else 0;
    window / Pow2(10 - offset) % 64
  }

  /** The encoding character by character, as section 4 of RFC 4648 defines it: the letters of the
      successive groups of six bits, and then `=` up to a multiple of four characters. */
  lemma {:induction false} EncodedText(d: seq<byte>, i: nat)
    requires i < |Encode(d)|
    ensures |Encode(d)| == (|d| + 2) / 3 * 4
    ensures Encode(d)[i] as char == if 6 * i < 8 * |d| then Alphabet()[SextetAt(d, i)] else '='
  {
    hide Encode, EncodeBlock, AlphabetAt;
    DecodeInvertsEncode(d);
    EncodeNothing();
    var k := Min(3, |d|);
    EncodeCons(d);
    if i < 4 {
      BlockText(d, i);
    } else {
      EncodedText(d[k..], i - 4);
      SextetShift(d, i);
    }
  }

  lemma SextetShift(d: seq<byte>, i: nat)
    requires i >= 4 && |d| > 3
    ensures 6 * (i - 4) < 8 * |d[3..]| <==> 6 * i < 8 * |d|
    ensures 6 * i < 8 * |d| ==> SextetAt(d[3..], i - 4) == SextetAt(d, i)
  {
    assert 6 * (i - 4) / 8 == 6 * i / 8 - 3 && 6 * (i - 4) % 8 == 6 * i % 8;
  }

  lemma BlockText(d: seq<byte>, i: nat)
    requires d != [] && i < 4
    ensures EncodeBlock(d[..Min(3, |d|)])[i] as char == if 6 * i < 8 * |d| then Alphabet()[SextetAt(d, i)] else '='
  {
    hide AlphabetAt, EncodeBlock, Alphabet, SextetAt;
    var k := Min(3, |d|);
    EncodeBlockIndices(d[..k]);
    if 6 * i < 8 * |d| {
      BlockSextet(d, i);
      AlphabetCode(SextetAt(d, i));
    }
  }

  lemma BlockSextet(d: seq<byte>, i: nat)
    requires d != [] && i < 4 && 6 * i < 8 * |d|
    ensures var x: nat, y: nat, z: nat := d[0], if |d| > 1 then d[1] else 0, if |d| > 2 then d[2] else 0;
            SextetAt(d, i) == if i == 0 then x / 4 else if i == 1 then x % 4 * 16 + y / 16
                              else if i == 2 then y % 16 * 4 + z / 64 else z % 64
  {
    var x: byte, y: byte, z: byte := d[0], if |d| > 1 then d[1] else 0, if |d| > 2 then d[2] else 0;
    Powers();
    hide Pow2;
    if i == 0 {
      Window(x, y);
      assert SextetAt(d, 0) == (x as nat * 256 + y) / 1024 % 64;
    } else if i == 1 {
      Window(x, y);
      assert SextetAt(d, 1) == (x as nat * 256 + y) / 16 % 64;
    } else if i == 2 {
      Window(y, z);
      assert SextetAt(d, 2) == (y as nat * 256 + z) / 64 % 64;
    } else {
      var v: byte := if |d| > 3 then d[3] else 0;
      Window(z, v);
      assert SextetAt(d, 3) == (z as nat * 256 + v) / 256 % 64;
    }
  }

  lemma Powers()
    ensures Pow2(4) == 16 && Pow2(6) == 64 && Pow2(8) == 256 && Pow2(10) == 1024
  {
  }

  /** The groups of six bits in two bytes. */
  lemma Window(x: nat, y: nat)
    requires x < 256 && y < 256
    ensures var w := x * 256 + y;
            w / 1024 % 64 == x / 4 && w / 256 % 64 == x % 64
            && w / 64 % 64 == x % 16 * 4 + y / 64 && w / 16 % 64 == x % 4 * 16 + y / 16
  {
    WindowTop(x, y);
    WindowLow(x, y);
  }

  lemma WindowTop(x: nat, y: nat)
    requires x < 256 && y < 256
    ensures var w := x * 256 + y; w / 1024 % 64 == x / 4 && w / 256 % 64 == x % 64
  {
    assert (x * 256 + y) / 256 == x;
    assert (x * 256 + y) / 1024 == x / 4;
  }

  lemma WindowLow(x: nat, y: nat)
    requires x < 256 && y < 256
    ensures var w := x * 256 + y; w / 64 % 64 == x % 16 * 4 + y / 64 && w / 16 % 64 == x % 4 * 16 + y / 16
  {
    Regrouped(x / 16, x % 16 * 4 + y / 64, (x * 256 + y) / 64);
    Regrouped(x / 4, x % 4 * 16 + y / 16, (x * 256 + y) / 16);
  }

  lemma Regrouped(high: nat, low: nat, n: nat)
    requires low < 64 && n == 64 * high + low
    ensures n % 64 == low
  {
  }

  /** Decoding inverts encoding, for every byte string. */
  lemma {:induction false} DecodeInvertsEncode(d: seq<byte>)
    ensures Decode(Encode(d)) == d
    ensures |Encode(d)| == (|d| + 2) / 3 * 4
  {
    hide EncodeBlock, DecodeBlock;
    if d != [] {
      var k := Min(3, |d|);
      BlockRoundTrip(d[..k]);
      DecodeInvertsEncode(d[k..]);
      EncodeCons(d);
      DecodeCons(EncodeBlock(d[..k]), Encode(d[k..]));
      assert d[..k] + d[k..] == d;
    }
  }

  lemma EncodeCons(d: seq<byte>)
    requires d != []
    ensures var k := Min(3, |d|); Encode(d) == EncodeBlock(d[..k]) + Encode(d[k..])
  {
    hide EncodeBlock;
    if |d| <= 3 {
      assert d[..|d|] == d && d[|d|..] == [];
    }
  }

  lemma DecodeCons(q: seq<byte>, s: seq<byte>)
    requires |q| == 4 && |s| % 4 == 0
    ensures Decode(q + s) == DecodeBlock(q) + Decode(s)
  {
    hide DecodeBlock;
    assert (q + s)[..4] == q && (q + s)[4..] == s;
  }

  /** Canonical texts of section 4 of RFC 4648: padding only at the very end, and zero bits under
      it. */
  predicate CanonicalBlock(q: seq<byte>, last: bool)
    requires |q| == 4
  {
    && TableAt(q[0]) < 64 && TableAt(q[1]) < 64
    && (|| (TableAt(q[2]) < 64 && TableAt(q[3]) < 64)
        || (last && TableAt(q[2]) < 64 && TableAt(q[2]) % 4 == 0 && q[3] == PAD)
        || (last && TableAt(q[1]) % 16 == 0 && q[2] == PAD && q[3] == PAD))
  }

  predicate Canonical(s: seq<byte>)
  {
    s == [] || (|s| >= 4 && CanonicalBlock(s[..4], |s| == 4) && Canonical(s[4..]))
  }

  lemma EncodedBlockIsCanonical(d: seq<byte>, last: bool)
    requires 1 <= |d| <= 3 && (last || |d| == 3)
    ensures CanonicalBlock(EncodeBlock(d), last)
  {
    hide AlphabetAt, TableAt, EncodeBlock;
    var x: nat, y: nat, z: nat := d[0], if |d| > 1 then d[1] else 0, if |d| > 2 then d[2] else 0;
    EncodeBlockIndices(d);
    TableInvertsAlphabet(0, x / 4);
    TableInvertsAlphabet(0, x % 4 * 16 + y / 16);
    TableInvertsAlphabet(0, y % 16 * 4 + z / 64);
    TableInvertsAlphabet(0, z % 64);
  }

  lemma {:induction false} EncodeIsCanonical(d: seq<byte>)
    ensures Canonical(Encode(d))
  {
    hide EncodeBlock, CanonicalBlock;
    if d != [] {
      var k := Min(3, |d|);
      var block := EncodeBlock(d[..k]);
      EncodeIsCanonical(d[k..]);
      EncodedBlockIsCanonical(d[..k], |d| <= 3);
      EncodeCons(d);
      assert Encode(d)[..4] == block && Encode(d)[4..] == Encode(d[k..]);
      DecodeInvertsEncode(d);
    }
  }

  lemma PadIsForeign()
    ensures TableAt(PAD) == 64
  {
  }

  /** Bytes of four indices give back the indices. */
  lemma RegroupIndices(t0: nat, t1: nat, t2: nat, t3: nat)
    requires t0 < 64 && t1 < 64 && t2 < 64 && t3 < 64
    ensures (t0 * 4 + t1 / 16) / 4 == t0
    ensures (t0 * 4 + t1 / 16) % 4 * 16 + (t1 % 16 * 16 + t2 / 4) / 16 == t1
    ensures (t1 % 16 * 16 + t2 / 4) % 16 * 4 + (t2 % 4 * 64 + t3) / 64 == t2
    ensures (t2 % 4 * 64 + t3) % 64 == t3
  {
  }

  lemma CanonicalBlockRoundTrip(q: seq<byte>, last: bool)
    requires |q| == 4 && CanonicalBlock(q, last)
    ensures EncodeBlock(DecodeBlock(q)) == q
    ensures !last ==> |DecodeBlock(q)| == 3
  {
    hide AlphabetAt, TableAt, EncodeBlock, DecodeBlock;
    assert TableAt(PAD) == 64 by { PadIsForeign(); }
    TableInvertsAlphabet(q[0], 0);
    TableInvertsAlphabet(q[1], 0);
    TableInvertsAlphabet(q[2], 0);
    TableInvertsAlphabet(q[3], 0);
    if q[2] == PAD {
      DecodeBlockBytes(q, 0, 0);
    } else if q[3] == PAD {
      DecodeBlockBytes(q, TableAt(q[2]), 0);
    } else {
      DecodeBlockBytes(q, TableAt(q[2]), TableAt(q[3]));
    }
    EncodeBlockIndices(DecodeBlock(q));
    RegroupIndices(TableAt(q[0]), TableAt(q[1]),
                   if q[2] == PAD then 0 else TableAt(q[2]), if q[2] == PAD || q[3] == PAD then 0 else TableAt(q[3]));
  }

  /** Encoding inverts decoding on the canonical texts, and on no others. */
  lemma {:induction false} EncodeInvertsDecode(s: seq<byte>)
    ensures Encode(Decode(s)) == s <==> Canonical(s)
  {
    if Canonical(s) {
      CanonicalRoundTrip(s);
    } else {
      EncodeIsCanonical(Decode(s));
    }
  }

  lemma {:induction false} CanonicalRoundTrip(s: seq<byte>)
    requires Canonical(s)
    ensures |s| % 4 == 0 && Encode(DecodeBlocks(s)) == s
  {
    hide EncodeBlock, DecodeBlock, CanonicalBlock;
    if s != [] {
      CanonicalBlockRoundTrip(s[..4], |s| == 4);
      CanonicalRoundTrip(s[4..]);
      var block, rest := DecodeBlock(s[..4]), DecodeBlocks(s[4..]);
      EncodeCons(block + rest);
      assert (block + rest)[..|block|] == block && (block + rest)[|block|..] == rest;
      assert s == s[..4] + s[4..];
    }
  }
}
