/** SHA-1: the one-shot definition of FIPS 180-4, and the streaming class that refines it. */
module Sha1 {
  import opened Bytes

  datatype State = State(a: bv32, b: bv32, c: bv32, d: bv32, e: bv32)

  /** The initial hash value, section 5.3.1. */
  const INITIAL := State(0x67452301, 0xEFCDAB89, 0x98BADCFE, 0x10325476, 0xC3D2E1F0)

  function Rol1(x: bv32): bv32 { (x << 1) | (x >> 31) }
  function Rol5(x: bv32): bv32 { (x << 5) | (x >> 27) }
  function Rol30(x: bv32): bv32 { (x << 30) | (x >> 2) }

  /** The functions and constants of sections 4.1.1 and 4.2.1. */
  function Ch(x: bv32, y: bv32, z: bv32): bv32 { (x & y) ^ (!x & z) }
  function Parity(x: bv32, y: bv32, z: bv32): bv32 { x ^ y ^ z }
  function Maj(x: bv32, y: bv32, z: bv32): bv32 { (x & y) ^ (x & z) ^ (y & z) }

  function F(t: nat, x: bv32, y: bv32, z: bv32): bv32
  {
    if t < 20 then Ch(x, y, z) else if t < 40 then Parity(x, y, z) else if t < 60 then Maj(x, y, z) else Parity(x, y, z)
  }

  function K(t: nat): bv32
  {
    if t < 20 then 0x5A827999 else if t < 40 then 0x6ED9EBA1 else if t < 60 then 0x8F1BBCDC else 0xCA62C1D6
  }

  /** The i-th 32-bit word of a block. */
  function BlockWord(block: seq<byte>, i: nat): bv32
    requires |block| == 64 && i < 16
  {
    WordOf(block[4 * i], block[4 * i + 1], block[4 * i + 2], block[4 * i + 3])
  }

  function WordOf(b0: byte, b1: byte, b2: byte, b3: byte): bv32
  {
    (b0 as bv32 << 24) | (b1 as bv32 << 16) | (b2 as bv32 << 8) | b3 as bv32
  }

  /** The first n words of the message schedule, section 6.1.2 step 1. */
  function Schedule(block: seq<byte>, n: nat): (w: seq<bv32>)
    requires |block| == 64
    ensures |w| == n
  {
    if n == 0 then []
    else
      var w := Schedule(block, n - 1);
      w + [if n <= 16 then BlockWord(block, n - 1) else Expanded(w[n - 4], w[n - 9], w[n - 15], w[n - 17])]
  }

  function Expanded(x: bv32, y: bv32, z: bv32, v: bv32): bv32 { Rol1(x ^ y ^ z ^ v) }

  /** One round, section 6.1.2 step 3. */
  function Round(s: State, t: nat, w: bv32): State
  {
    State(Temp(t, s, w), s.a, Rol30(s.b), s.c, s.d)
  }

  function Temp(t: nat, s: State, w: bv32): bv32
  {
    Sum(Rol5(s.a), F(t, s.b, s.c, s.d), s.e, K(t), w)
  }

  function Sum(v: bv32, w: bv32, x: bv32, y: bv32, z: bv32): bv32 { v + w + x + y + z }

  function Rounds(s: State, w: seq<bv32>, t: nat): State
    requires t <= |w|
  {
    if t == 0 then s else Round(Rounds(s, w, t - 1), t - 1, w[t - 1])
  }

  function Compress(h: State, block: seq<byte>): State
    requires |block| == 64
  {
    Add(h, Rounds(h, Schedule(block, 80), 80))
  }

  function Add(s: State, r: State): State
  {
    State(Plus(s.a, r.a), Plus(s.b, r.b), Plus(s.c, r.c), Plus(s.d, r.d), Plus(s.e, r.e))
  }

  function Plus(x: bv32, y: bv32): bv32 { x + y }

  /** The hash value after all the whole blocks of m. */
  function HashBlocks(m: seq<byte>): State
    requires |m| % 64 == 0
  {
    if m == [] then INITIAL else Compress(HashBlocks(m[..|m| - 64]), m[|m| - 64..])
  }

  /** A message up to its last whole block, and the rest. */
  function Done(m: seq<byte>): (d: seq<byte>)
    ensures |d| % 64 == 0 && |d| + |m| % 64 == |m|
  {
    m[..|m| - |m| % 64]
  }

  function Tail(m: seq<byte>): (t: seq<byte>)
    ensures |t| == |m| % 64 && m == Done(m) + t
  {
    m[|m| - |m| % 64..]
  }

  /** How many zero bytes the padding rule asks for. */
  function PadZeros(len: nat): nat { (119 - len % 64) % 64 }

  /** The padded message of section 5.1.1. */
  function Pad(m: seq<byte>): seq<byte>
  {
    m + [0x80] + Zeros(PadZeros(|m|)) + ToBigEndian(8 * |m|, 8)
  }

  /** The padding rule: the zero bytes complete a block, and the last eight bytes are the length in
      bits, exact for messages below 2^61 bytes. */
  lemma PaddingRule(m: seq<byte>)
    ensures |Pad(m)| % 64 == 0
    ensures |m| < 0x2000_0000_0000_0000 ==> FromBigEndian(Pad(m)[|Pad(m)| - 8..]) == 8 * |m|
  {
    hide ToBigEndian, FromBigEndian;
    PadCompletes(|m|);
    var p := Pad(m);
    assert p[|p| - 8..] == ToBigEndian(8 * |m|, 8);
    if |m| < 0x2000_0000_0000_0000 {
      PowWord(8);
      BigEndianRoundTrip(8 * |m|, 8);
    }
  }

  lemma PadCompletes(len: nat)
    ensures (len + 1 + PadZeros(len) + 8) % 64 == 0
  {
    var r := len % 64;
    assert PadZeros(len) == if r <= 55 then 55 - r else 119 - r;
  }

  /** No smaller number of zero bytes completes a block. */
  lemma PadIsMinimal(len: nat, k: nat)
    requires (len + 1 + k + 8) % 64 == 0
    ensures PadZeros(len) <= k
  {
  }

  /** Multiples of 256^k do not show in k big-endian bytes. */
  lemma {:induction false} BigEndianWraps(n: nat, c: nat, k: nat)
    ensures ToBigEndian(n + c * Pow256(k), k) == ToBigEndian(n, k)
    decreases k
  {
    if k > 0 {
      var y := c * Pow256(k - 1);
      assert c * Pow256(k) == 256 * y;
      assert (n + 256 * y) / 256 == n / 256 + y && (n + 256 * y) % 256 == n % 256;
      BigEndianWraps(n / 256, c, k - 1);
    }
  }

  function WordBytes(x: bv32): (s: seq<byte>)
    ensures |s| == 4
  {
    [((x >> 24) & 0xFF) as bv8 as int, ((x >> 16) & 0xFF) as bv8 as int,
     ((x >> 8) & 0xFF) as bv8 as int, (x & 0xFF) as bv8 as int]
  }

  function Digest(m: seq<byte>): (r: seq<byte>)
    ensures |r| == 20
  {
    PaddingRule(m);
    var h := HashBlocks(Pad(m));
    WordBytes(h.a) + WordBytes(h.b) + WordBytes(h.c) + WordBytes(h.d) + WordBytes(h.e)
  }

  /** The round function as the code writes it, with or in place of exclusive or. */
  function CodeF(t: nat, b: bv32, c: bv32, d: bv32): bv32
  {
    if t < 20 then (b & c) | (!b & d)
    else if t < 40 then b ^ c ^ d
    else if t < 60 then (b & c) | (b & d) | (c & d)
    else b ^ c ^ d
  }

  /** The or forms equal the exclusive-or forms of the standard. */
  lemma OrForms(t: nat, x: bv32, y: bv32, z: bv32)
    ensures CodeF(t, x, y, z) == F(t, x, y, z)
  {
    if t < 20 {
      assert (x & y) | (!x & z) == (x & y) ^ (!x & z);
    } else if 40 <= t < 60 {
      assert (x & y) | (x & z) | (y & z) == (x & y) ^ (x & z) ^ (y & z);
    }
  }

  lemma NextWord(block: seq<byte>, w: seq<bv32>, x: bv32)
    requires |block| == 64 && |w| >= 16 && w == Schedule(block, |w|)
    requires var i := |w|; x == Expanded(w[i - 3], w[i - 8], w[i - 14], w[i - 16])
    ensures w + [x] == Schedule(block, |w| + 1)
  {
    hide Expanded, BlockWord;
  }

  class Hasher {
    const h: array<bv32>
    const buffer: array<byte>
    var bufPos: nat
    var totalBytes: nat

    ghost function Chain(): State
      requires h.Length == 5
      reads this, h
    {
      State(h[0], h[1], h[2], h[3], h[4])
    }

    /** The object has absorbed exactly the message m. */
    ghost predicate Absorbed(m: seq<byte>)
      reads this, h, buffer
    {
      && h.Length == 5 && buffer.Length == 64
      && totalBytes == Wrap64(|m|)
      && bufPos == |m| % 64
      && buffer[..bufPos] == Tail(m)
      && Chain() == HashBlocks(Done(m))
    }

    constructor ()
      ensures Absorbed([]) && fresh(h) && fresh(buffer)
    {
      h := new bv32[] [0x67452301, 0xEFCDAB89, 0x98BADCFE, 0x10325476, 0xC3D2E1F0];
      buffer := new byte[64];
      bufPos := 0;
      totalBytes := 0;
    }

    /** The first half of process_block: the message schedule. */
    method Expand() returns (w: array<bv32>)
      requires buffer.Length == 64
      ensures fresh(w) && w.Length == 80 && w[..] == Schedule(buffer[..], 80)
    {
      hide Expanded, WordOf;
      ghost var block := buffer[..];
      w := new bv32[80];
      for i := 0 to 16
        invariant w[..i] == Schedule(block, i)
      {
        w[i] := WordOf(buffer[4 * i], buffer[4 * i + 1], buffer[4 * i + 2], buffer[4 * i + 3]);
        assert w[i] == BlockWord(block, i);
        assert w[..i + 1] == w[..i] + [w[i]];
      }
      ExpandTail(w, block);
    }

    method ExpandTail(w: array<bv32>, ghost block: seq<byte>)
      requires |block| == 64 && w.Length == 80 && w[..16] == Schedule(block, 16)
      modifies w
      ensures w[..] == Schedule(block, 80)
    {
      hide Expanded, Schedule;
      for i := 16 to 80
        invariant w[..i] == Schedule(block, i)
      {
        ghost var done := w[..i];
        w[i] := Expanded(w[i - 3], w[i - 8], w[i - 14], w[i - 16]);
        NextWord(block, done, w[i]);
        assert w[..i + 1] == done + [w[i]];
      }
      assert w[..] == w[..80];
    }

    /** The second half: eighty rounds on the words of a schedule. */
    method Mix(w: array<bv32>)
      requires h.Length == 5 && w.Length == 80 && w != h
      modifies h
      ensures Chain() == Add(old(Chain()), Rounds(old(Chain()), w[..], 80))
    {
      hide Rol5, Rol30, F, K, CodeF, Sum, Plus;
      ghost var h0, ws := Chain(), w[..];
      var a, b, c, d, e := h[0], h[1], h[2], h[3], h[4];
      for i := 0 to 80
        invariant State(a, b, c, d, e) == Rounds(h0, ws, i) && Chain() == h0
      {
        OrForms(i, b, c, d);
        var temp := Sum(Rol5(a), CodeF(i, b, c, d), e, K(i), w[i]);
        assert temp == Temp(i, State(a, b, c, d, e), ws[i]);
        e := d;
        d := c;
        c := Rol30(b);
        b := a;
        a := temp;
      }
      h[0] := Plus(h[0], a);
      h[1] := Plus(h[1], b);
      h[2] := Plus(h[2], c);
      h[3] := Plus(h[3], d);
      h[4] := Plus(h[4], e);
      assert w[..] == ws;
    }

    method ProcessBlock()
      requires h.Length == 5 && buffer.Length == 64
      modifies h
      ensures Chain() == Compress(old(Chain()), buffer[..])
    {
      hide Rounds, Schedule, Add;
      var w := Expand();
      Mix(w);
    }

    method Update(data: seq<byte>, ghost m: seq<byte>)
      requires Absorbed(m)
      modifies this, h, buffer
      ensures Absorbed(m + data)
    {
      hide HashBlocks;
      assert m + data[..0] == m;
      for i := 0 to |data|
        invariant Absorbed(m + data[..i])
      {
        AbsorbByte(data[i], m + data[..i]);
        assert m + data[..i + 1] == m + data[..i] + [data[i]];
      }
      assert data[..|data|] == data;
    }

    /** A sequence of updates. */
    method UpdateAll(pieces: seq<seq<byte>>)
      requires Absorbed([])
      modifies this, h, buffer
      ensures Absorbed(Concat(pieces))
    {
      hide Absorbed;
      ConcatNothing();
      assert pieces[..0] == [];
      for i := 0 to |pieces|
        invariant Absorbed(Concat(pieces[..i]))
      {
        Update(pieces[i], Concat(pieces[..i]));
        ConcatUpTo(pieces, i);
      }
      assert pieces[..|pieces|] == pieces;
    }

    /** One turn of update's loop. */
    method AbsorbByte(x: byte, ghost m: seq<byte>)
      requires Absorbed(m)
      modifies this, h, buffer
      ensures Absorbed(m + [x])
    {
      hide HashBlocks, Compress, Wrap64, Done, Tail;
      buffer[bufPos] := x;
      bufPos := bufPos + 1;
      totalBytes := Wrap64(totalBytes + 1);
      WrapAdd(|m|, 1);
      assert buffer[..bufPos] == Tail(m) + [x];
      if bufPos == 64 {
        assert buffer[..] == buffer[..bufPos];
        BlockFull(m, x);
        ProcessBlock();
        bufPos := 0;
      } else {
        BlockOpen(m, x);
      }
    }

    method Finalize(ghost m: seq<byte>) returns (digest: seq<byte>)
      requires Absorbed(m)
      modifies this, h, buffer
      ensures digest == Digest(m)
    {
      hide HashBlocks, Digest, WordBytes, Pad;
      HashPadding(m);
      DigestIs(m, Chain());
      digest := WordBytes(h[0]);
      for i := 1 to 5
        invariant digest == DigestPrefix(Chain(), i)
      {
        digest := digest + WordBytes(h[i]);
      }
    }

    /** The first part of finalize: hash the padding. */
    method HashPadding(ghost m: seq<byte>)
      requires Absorbed(m)
      modifies this, h, buffer
      ensures |Pad(m)| % 64 == 0 && Chain() == HashBlocks(Pad(m))
    {
      hide HashBlocks, Compress, ToBigEndian, Pad, Wrap64, Zeros, Done, Tail;
      ghost var tail := Tail(m);
      buffer[bufPos] := 0x80;
      bufPos := bufPos + 1;
      assert buffer[..bufPos] == tail + [0x80];
      if bufPos > 56 {
        ZeroFill(64);
        assert buffer[..] == buffer[..64];
        ProcessBlock();
        bufPos := 0;
      }
      ZeroFill(56);
      assert |tail| >= 56 ==> buffer[..56] == Zeros(56);
      var totalBits := Wrap64(totalBytes * 8);
      LengthBytesExact(|m|, totalBits);
      AppendLength(totalBits);
      PaddedBlocks(m, Done(m), tail, buffer[..]);
      ProcessBlock();
    }

    /** The loop that writes the bit count behind the padding. */
    method AppendLength(totalBits: nat)
      requires buffer.Length == 64
      modifies buffer
      ensures buffer[..] == old(buffer[..56]) + ToBigEndian(totalBits, 8)
    {
      hide ToBigEndian, ShiftBytes;
      ghost var head := buffer[..56];
      for i := 8 downto 0
        invariant buffer[..56] == head
        invariant buffer[56..64 - i] == ToBigEndian(totalBits, 8)[..8 - i]
      {
        BigEndianDigit(totalBits, 8, i);
        buffer[56 + (7 - i)] := ShiftBytes(totalBits, i) % 256;
        assert buffer[56..64 - i] == buffer[56..63 - i] + [buffer[63 - i]];
      }
      assert buffer[..] == buffer[..56] + buffer[56..64];
    }

    method ZeroFill(end: nat)
      requires buffer.Length == 64 && bufPos <= end <= 64
      modifies this`bufPos, buffer
      ensures bufPos == end
      ensures buffer[..end] == old(buffer[..bufPos]) + Zeros(end - old(bufPos))
    {
      ghost var start := bufPos;
      while bufPos < end
        invariant start <= bufPos <= end
        invariant buffer[..bufPos] == old(buffer[..bufPos]) + Zeros(bufPos - start)
      {
        buffer[bufPos] := 0;
        bufPos := bufPos + 1;
        assert buffer[..bufPos] == buffer[..bufPos - 1] + [0];
      }
    }
  }

  /** The bytes of the first i words of a hash value. */
  ghost function DigestPrefix(s: State, i: nat): seq<byte>
    requires 1 <= i <= 5
  {
    if i == 1 then WordBytes(s.a)
    else DigestPrefix(s, i - 1) + WordBytes(if i == 2 then s.b else if i == 3 then s.c else if i == 4 then s.d else s.e)
  }

  lemma DigestIs(m: seq<byte>, s: State)
    requires |Pad(m)| % 64 == 0 && s == HashBlocks(Pad(m))
    ensures Digest(m) == DigestPrefix(s, 5)
  {
    hide HashBlocks, Pad, WordBytes;
    assert DigestPrefix(s, 2) == WordBytes(s.a) + WordBytes(s.b);
    assert DigestPrefix(s, 3) == WordBytes(s.a) + WordBytes(s.b) + WordBytes(s.c);
  }

  lemma BlockFull(m: seq<byte>, x: byte)
    requires |m| % 64 == 63
    ensures var n := m + [x];
            && |n| % 64 == 0 && Tail(n) == [] && |Tail(m) + [x]| == 64
            && HashBlocks(Done(n)) == Compress(HashBlocks(Done(m)), Tail(m) + [x])
  {
    hide HashBlocks, Compress;
    var n := m + [x];
    assert Done(n) == n;
    assert n == Done(m) + (Tail(m) + [x]);
    HashSnoc(Done(m), Tail(m) + [x]);
  }

  lemma BlockOpen(m: seq<byte>, x: byte)
    requires |m| % 64 < 63
    ensures var n := m + [x];
            |n| % 64 == |m| % 64 + 1 && Done(n) == Done(m) && Tail(n) == Tail(m) + [x]
  {
  }

  lemma LengthBytesExact(len: nat, totalBits: nat)
    requires totalBits == Wrap64(Wrap64(len) * 8)
    ensures ToBigEndian(totalBits, 8) == ToBigEndian(8 * len, 8)
  {
    hide Wrap64, ToBigEndian;
    PowWord(8);
    WrapParts(len);
    WrapParts(Wrap64(len) * 8);
    var c := 8 * (len / WORD) + Wrap64(len) * 8 / WORD;
    assert 8 * len == totalBits + c * WORD;
    BigEndianWraps(totalBits, c, 8);
  }

  lemma WrapParts(n: nat)
    ensures n == Wrap64(n) + n / WORD * WORD
  {
  }

  /** The block or two blocks that finalize hashes are the end of the padded message. */
  lemma PaddedBlocks(m: seq<byte>, done: seq<byte>, tail: seq<byte>, last: seq<byte>)
    requires m == done + tail && |done| % 64 == 0 && |tail| < 64
    requires last == (if |tail| >= 56 then Zeros(56) else tail + [0x80] + Zeros(55 - |tail|)) + ToBigEndian(8 * |m|, 8)
    ensures |last| == 64 && |Pad(m)| % 64 == 0
    ensures |tail| < 56 ==> HashBlocks(Pad(m)) == Compress(HashBlocks(done), last)
    ensures |tail| >= 56 ==>
              HashBlocks(Pad(m)) == Compress(Compress(HashBlocks(done), tail + [0x80] + Zeros(63 - |tail|)), last)
  {
    hide Compress, ToBigEndian, HashBlocks, Pad, Zeros;
    PaddingRule(m);
    if |tail| >= 56 {
      var first := tail + [0x80] + Zeros(63 - |tail|);
      PadSplits(m, done, tail, first, last);
      HashSnocTwo(done, first, last);
    } else {
      PadSplits(m, done, tail, [], last);
      assert done + [] + last == done + last;
      HashSnoc(done, last);
    }
  }

  lemma PadSplits(m: seq<byte>, done: seq<byte>, tail: seq<byte>, first: seq<byte>, last: seq<byte>)
    requires m == done + tail && |done| % 64 == 0 && |tail| < 64
    requires first == if |tail| >= 56 then tail + [0x80] + Zeros(63 - |tail|) else []
    requires last == (if |tail| >= 56 then Zeros(56) else tail + [0x80] + Zeros(55 - |tail|)) + ToBigEndian(8 * |m|, 8)
    ensures Pad(m) == done + first + last
  {
    hide ToBigEndian;
    var zeros := if |tail| >= 56 then 119 - |tail| else 55 - |tail|;
    assert PadZeros(|m|) == zeros by { assert |m| % 64 == |tail|; }
    assert |tail| >= 56 ==> Zeros(zeros) == Zeros(63 - |tail|) + Zeros(56);
  }

  lemma HashSnocTwo(m: seq<byte>, first: seq<byte>, last: seq<byte>)
    requires |m| % 64 == 0 && |first| == 64 && |last| == 64
    ensures HashBlocks(m + first + last) == Compress(Compress(HashBlocks(m), first), last)
  {
    hide Compress, HashBlocks;
    HashSnoc(m, first);
    HashSnoc(m + first, last);
  }

  lemma HashSnoc(m: seq<byte>, block: seq<byte>)
    requires |m| % 64 == 0 && |block| == 64
    ensures HashBlocks(m + block) == Compress(HashBlocks(m), block)
  {
    hide Compress;
    assert (m + block)[..|m|] == m && (m + block)[|m|..] == block;
  }

  /** The one-shot entry point. */
  method Compute(data: seq<byte>) returns (digest: seq<byte>)
    ensures digest == Digest(data)
  {
    var sha1 := new Hasher();
    sha1.Update(data, []);
    assert [] + data == data;
    digest := sha1.Finalize(data);
  }

  lemma ConcatUpTo(pieces: seq<seq<byte>>, i: nat)
    requires i < |pieces|
    ensures Concat(pieces[..i + 1]) == Concat(pieces[..i]) + pieces[i]
  {
    ConcatSnoc(pieces[..i], pieces[i]);
    assert pieces[..i + 1] == pieces[..i] + [pieces[i]];
  }

  lemma ConcatNothing()
    ensures Concat([]) == []
  {
  }

  /** Any split of a message across updates gives the standard's digest of the whole message. */
  method ComputeInPieces(pieces: seq<seq<byte>>) returns (digest: seq<byte>)
    ensures digest == Digest(Concat(pieces))
  {
    hide Concat, Digest;
    var sha1 := new Hasher();
    sha1.UpdateAll(pieces);
    digest := sha1.Finalize(Concat(pieces));
  }
}
