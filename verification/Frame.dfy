/** The frame codec of sections 5.2 and 5.3 of RFC 6455, as the server implements it. */
module Frames {
  import opened Bytes

  type OpCode = x: int | 0 <= x < 16

  const TEXT: OpCode := 1
  const BINARY: OpCode := 2
  const CLOSE: OpCode := 8
  const PING: OpCode := 9
  const PONG: OpCode := 10

  datatype Header = Header(fin: bool, opcode: OpCode, masked: bool, len: nat)

  datatype Parse = NeedMore | Parsed(header: Header, size: nat)

  /** The length field: how many bytes it takes up to and including itself, and its value. */
  function LengthEnd(d: seq<byte>): nat
    requires |d| >= 2
  {
    if d[1] % 128 == 126 then 4 else if d[1] % 128 == 127 then 10 else 2
  }

  function Length(d: seq<byte>): nat
    requires |d| >= 2 && |d| >= LengthEnd(d)
  {
    if LengthEnd(d) == 2 then d[1] % 128 else FromBigEndian(d[2..LengthEnd(d)])
  }

  function ParseHeader(d: seq<byte>): (r: Parse)
    ensures r.Parsed? ==> 2 <= r.size <= Min(14, |d|) && (r.header.masked ==> r.size >= 6)
  {
    if |d| < 2 || |d| < LengthEnd(d) then NeedMore
    else
      var masked := d[1] >= 128;
      var size := LengthEnd(d) + (if masked then 4 else 0);
      if |d| < size then NeedMore
      else Parsed(Header(d[0] >= 128, d[0] % 16, masked, Length(d)), size)
  }

  /** The parser as written: it answers 0 when more bytes are needed. */
  method ParseFrameHeader(data: seq<byte>) returns (size: nat, header: Header)
    ensures size == 0 <==> ParseHeader(data) == NeedMore
    ensures size > 0 ==> ParseHeader(data) == Parsed(header, size)
  {
    header := Header(false, 0, false, 0);
    if |data| < 2 { return 0, header; }
    header := header.(fin := data[0] / 128 != 0, opcode := data[0] % 16, masked := data[1] / 128 != 0);
    var len: nat := data[1] % 128;
    var headerSize := 2;
    if len == 126 {
      if |data| < 4 { return 0, header; }
      TwoBytesValue(data[2], data[3]);
      assert data[2..4] == [data[2], data[3]];
      len := (data[2] as int) * 256 + data[3];
      headerSize := 4;
    } else if len == 127 {
      if |data| < 10 { return 0, header; }
      len := EightBytes(data);
      headerSize := 10;
    }
    header := header.(len := len);
    if header.masked {
      if |data| < headerSize + 4 { return 0, header; }
      headerSize := headerSize + 4;
    }
    size := headerSize;
  }

  /** The parser's loop over the eight-byte length, in 64-bit arithmetic. */
  method EightBytes(data: seq<byte>) returns (len: nat)
    requires |data| >= 10
    ensures len == FromBigEndian(data[2..10])
  {
    len := 0;
    for i := 2 to 10
      invariant len == FromBigEndian(data[2..i])
    {
      ShiftIn(data[2..i], data[i]);
      assert data[2..i] + [data[i]] == data[2..i + 1];
      len := len * 256 % WORD + data[i];
    }
  }

  /** Fewer than eight bytes shift left by one byte without losing any. */
  lemma ShiftIn(s: seq<byte>, b: byte)
    requires |s| < 8
    ensures FromBigEndian(s) * 256 < WORD
    ensures FromBigEndian(s + [b]) == FromBigEndian(s) * 256 + b
  {
    BigEndianBound(s);
    PowWord(|s| + 1);
    assert (s + [b])[..|s|] == s;
  }

  lemma TwoBytesValue(high: byte, low: byte)
    ensures FromBigEndian([high, low]) == high * 256 + low
  {
    assert [high, low][..1] == [high] && [high][..0] == [];
    assert FromBigEndian([high]) == FromBigEndian([]) * 256 + high;
  }

  // ---- encoding ----

  /** The seven-bit length code, and the length bytes that follow codes 126 and 127. */
  function LengthCode(len: nat): (c: nat)
    ensures c < 128
  {
    if len < 126 then len else if len < 65536 then 126 else 127
  }

  function LengthBytes(len: nat): (b: seq<byte>)
    ensures |b| <= 8
  {
    if len < 126 then [] else if len < 65536 then ToBigEndian(len, 2) else ToBigEndian(len, 8)
  }

  function EncodeHeader(opcode: OpCode, len: nat, mask: bool): (h: seq<byte>)
    ensures 2 <= |h| <= 10
  {
    [128 + opcode, (if mask then 128 else 0) + LengthCode(len)] + LengthBytes(len)
  }

  lemma TwoBytes(n: nat)
    ensures ToBigEndian(n, 2) == [n / 256 % 256, n % 256]
  {
    assert ToBigEndian(n / 256, 1) == ToBigEndian(n / 256 / 256, 0) + [n / 256 % 256];
  }

  method EncodeFrameHeader(buf: array<byte>, opcode: OpCode, len: nat, mask: bool) returns (pos: nat)
    requires buf.Length >= 10
    modifies buf
    ensures pos <= buf.Length && buf[..pos] == EncodeHeader(opcode, len, mask)
  {
    hide ToBigEndian, ShiftBytes;
    pos := 0;
    buf[pos] := 128 + opcode;
    pos := pos + 1;
    if len < 126 {
      buf[pos] := (if mask then 128 else 0) + len;
      pos := pos + 1;
    } else if len < 65536 {
      buf[pos] := (if mask then 128 else 0) + 126;
      pos := pos + 1;
      buf[pos] := len / 256 % 256;
      pos := pos + 1;
      buf[pos] := len % 256;
      pos := pos + 1;
      TwoBytes(len);
    } else {
      buf[pos] := (if mask then 128 else 0) + 127;
      pos := pos + 1;
      ghost var head := buf[..2];
      for i := 8 downto 0
        invariant pos == 10 - i
        invariant buf[..pos] == head + ToBigEndian(len, 8)[..8 - i]
      {
        BigEndianDigit(len, 8, i);
        buf[pos] := ShiftBytes(len, i) % 256;
        pos := pos + 1;
        assert buf[..pos] == buf[..pos - 1] + [buf[pos - 1]];
        assert ToBigEndian(len, 8)[..8 - i] == ToBigEndian(len, 8)[..7 - i] + [ToBigEndian(len, 8)[7 - i]];
      }
      assert ToBigEndian(len, 8)[..8] == ToBigEndian(len, 8);
    }
  }

  method EncodeFrame(opcode: OpCode, payload: seq<byte>, mask: bool) returns (frame: seq<byte>)
    ensures frame == EncodeHeader(opcode, |payload|, mask) + payload
  {
    hide ToBigEndian, ShiftBytes;
    frame := [128 + opcode];
    var len := |payload|;
    if len < 126 {
      frame := frame + [(if mask then 128 else 0) + len];
    } else if len < 65536 {
      frame := frame + [(if mask then 128 else 0) + 126];
      frame := frame + [len / 256 % 256];
      frame := frame + [len % 256];
      TwoBytes(len);
    } else {
      frame := frame + [(if mask then 128 else 0) + 127];
      ghost var head := frame;
      for i := 8 downto 0
        invariant frame == head + ToBigEndian(len, 8)[..8 - i]
      {
        BigEndianDigit(len, 8, i);
        frame := frame + [ShiftBytes(len, i) % 256];
        assert ToBigEndian(len, 8)[..8 - i] == ToBigEndian(len, 8)[..7 - i] + [ToBigEndian(len, 8)[7 - i]];
      }
      assert ToBigEndian(len, 8)[..8] == ToBigEndian(len, 8);
    }
    frame := frame + payload;
  }

  /** The header fields at the bit positions of section 5.2 of RFC 6455, and exactly when they are all
      there. */
  lemma HeaderFields(d: seq<byte>)
    requires |d| >= 2
    ensures var code := LowSeven(d[1]);
            var masked := Bit(d[1], 7) == 1;
            var end := if code == 126 then 4 else if code == 127 then 10 else 2;
            var r := ParseHeader(d);
            && (r.Parsed? <==> |d| >= end + if masked then 4 else 0)
            && (r.Parsed? ==>
                  && r.size == end + (if masked then 4 else 0) && r.header.masked == masked
                  && r.header.fin == (Bit(d[0], 7) == 1) && r.header.opcode == LowNibble(d[0])
                  && end <= |d| && r.header.len == if end == 2 then code else Weighted(d[2..end], 0))
  {
    hide FromBigEndian, Weighted, Bit, LowNibble, HighNibble, LowSeven;
    ByteSum(d[0]);
    NibbleIs(d[0]);
    ByteSum(d[1]);
    if |d| >= LengthEnd(d) {
      WeightedIs(d[2..LengthEnd(d)]);
    }
  }

  /** The bytes from i on, each times 256 for every byte behind it. */
  function Weighted(s: seq<byte>, i: nat): nat
    requires i <= |s|
    decreases |s| - i
  {
    if i == |s| then 0 else s[i] as nat * Pow256(|s| - 1 - i) + Weighted(s, i + 1)
  }

  lemma WeightedIs(s: seq<byte>)
    ensures FromBigEndian(s) == Weighted(s, 0)
  {
    assert FromBigEndian(s[..0]) == 0;
    WeightedFrom(s, 0);
  }

  lemma {:induction false} WeightedFrom(s: seq<byte>, i: nat)
    requires i <= |s|
    ensures FromBigEndian(s) == FromBigEndian(s[..i]) * Pow256(|s| - i) + Weighted(s, i)
    decreases |s| - i
  {
    if i == |s| {
      assert s[..i] == s;
    } else {
      WeightedFrom(s, i + 1);
      FromBigEndianSnoc(s, i);
      hide FromBigEndian;
      WeighOne(FromBigEndian(s[..i]), s[i], Pow256(|s| - 1 - i));
    }
  }

  lemma FromBigEndianSnoc(s: seq<byte>, i: nat)
    requires i < |s|
    ensures FromBigEndian(s[..i + 1]) == FromBigEndian(s[..i]) * 256 + s[i]
  {
    assert s[..i + 1][..i] == s[..i];
  }

  lemma WeighOne(f: nat, b: nat, p: nat)
    ensures (f * 256 + b) * p == f * (256 * p) + b * p
  {
  }

  /** Encoded headers are final and have no reserved bits, with the opcode in the low half. */
  lemma FirstByte(opcode: OpCode, len: nat, mask: bool)
    ensures var b := EncodeHeader(opcode, len, mask)[0]; HighNibble(b) == 8 && LowNibble(b) == opcode
  {
    hide Bit, LowNibble, HighNibble;
    ByteSum(128 + opcode);
    NibbleIs(128 + opcode);
  }

  /** Headers of the examples in section 5.7 of RFC 6455. */
  lemma HeaderVectors()
    ensures EncodeHeader(TEXT, 5, false) == [0x81, 0x05] && EncodeHeader(TEXT, 5, true) == [0x81, 0x85]
    ensures EncodeHeader(PING, 5, false) == [0x89, 0x05] && EncodeHeader(PONG, 5, true) == [0x8A, 0x85]
    ensures EncodeHeader(BINARY, 256, false) == [0x82, 0x7E, 0x01, 0x00]
    ensures EncodeHeader(BINARY, 65536, false) == [0x82, 0x7F, 0, 0, 0, 0, 0, 0x01, 0, 0]
    ensures EncodeHeader(CLOSE, 0, false) == [0x88, 0x00]
  {
    TwoBytes(256);
    EightZeros();
  }

  lemma EightZeros()
    ensures ToBigEndian(65536, 8) == [0, 0, 0, 0, 0, 1, 0, 0]
  {
    assert ToBigEndian(0, 4) == [0, 0, 0, 0];
    assert ToBigEndian(1, 6) == ToBigEndian(0, 5) + [1];
    assert ToBigEndian(0, 5) == ToBigEndian(0, 4) + [0];
    assert ToBigEndian(256, 7) == ToBigEndian(1, 6) + [0];
  }

  /** Parsing an encoded header returns what was encoded, whatever follows it. */
  lemma HeaderRoundTrip(opcode: OpCode, len: nat, key: seq<byte>, suffix: seq<byte>)
    requires len < WORD && (key == [] || |key| == 4)
    ensures var mask := key != [];
            var h := EncodeHeader(opcode, len, mask);
            ParseHeader(h + key + suffix) == Parsed(Header(true, opcode, mask, len), |h| + |key|)
  {
    hide ToBigEndian, FromBigEndian, Length;
    var h := EncodeHeader(opcode, len, key != []);
    var d := h + key + suffix;
    assert d[2..2 + |LengthBytes(len)|] == LengthBytes(len);
    LengthRoundTrip(d, len);
  }

  lemma LengthRoundTrip(d: seq<byte>, len: nat)
    requires len < WORD && |d| >= 2 + |LengthBytes(len)| && d[1] % 128 == LengthCode(len)
    requires d[2..2 + |LengthBytes(len)|] == LengthBytes(len)
    ensures LengthEnd(d) == 2 + |LengthBytes(len)| && Length(d) == len
  {
    if len >= 65536 {
      PowWord(8);
      BigEndianRoundTrip(len, 8);
    } else if len >= 126 {
      assert Pow256(2) == 65536;
      BigEndianRoundTrip(len, 2);
    }
  }

  /** A parser fed a prefix either waits or gives the final answer. */
  lemma HeaderPrefix(d: seq<byte>, more: seq<byte>)
    ensures ParseHeader(d) == NeedMore || ParseHeader(d) == ParseHeader(d + more)
  {
    if ParseHeader(d) != NeedMore {
      assert d[2..LengthEnd(d)] == (d + more)[2..LengthEnd(d)];
    }
  }

  /** The encoder picks the shortest of the three length forms: no header that the parser reads as
      this length and mask flag is shorter. */
  lemma EncodingIsMinimal(opcode: OpCode, d: seq<byte>)
    requires ParseHeader(d).Parsed?
    ensures var r := ParseHeader(d);
            |EncodeHeader(opcode, r.header.len, r.header.masked)| + (if r.header.masked then 4 else 0) <= r.size
  {
    if LengthEnd(d) == 4 {
      BigEndianBound(d[2..4]);
      assert Pow256(2) == 65536;
    }
  }

  // ---- masking ----

  function Unmask(payload: seq<byte>, key: seq<byte>): (r: seq<byte>)
    requires |key| == 4
    ensures |r| == |payload|
  {
    seq(|payload|, i requires 0 <= i < |payload| => XorByte(payload[i], key[i % 4]))
  }

  lemma UnmaskTwice(payload: seq<byte>, key: seq<byte>)
    requires |key| == 4
    ensures Unmask(Unmask(payload, key), key) == payload
  {
    forall i | 0 <= i < |payload|
      ensures Unmask(Unmask(payload, key), key)[i] == payload[i]
    {
      XorTwice(payload[i], key[i % 4]);
    }
  }

  /** Byte i is combined with byte i mod 4 of the key, as section 5.3 of RFC 6455 has it. */
  lemma UnmaskIs(payload: seq<byte>, key: seq<byte>, i: nat)
    requires |key| == 4 && i < |payload|
    ensures Unmask(payload, key)[i] as bv8 == (payload[i] as bv8) ^ (key[i % 4] as bv8)
  {
    hide XorByte;
    XorIsBitwise(payload[i], key[i % 4]);
  }

  /** The unmasking loop, in place on the bytes from `off` on. */
  method UnmaskPayload(a: array<byte>, off: nat, len: nat, key: seq<byte>)
    requires off + len <= a.Length && |key| == 4
    modifies a
    ensures a[off..off + len] == Unmask(old(a[off..off + len]), key)
    ensures forall i :: 0 <= i < len ==> a[off + i] as bv8 == (old(a[off + i]) as bv8) ^ (key[i % 4] as bv8)
    ensures a[..off] == old(a[..off]) && a[off + len..] == old(a[off + len..])
  {
    for i := 0 to len
      invariant forall j :: 0 <= j < i ==> a[off + j] == XorByte(old(a[off + j]), key[j % 4])
      invariant forall j :: off + i <= j < a.Length ==> a[j] == old(a[j])
      invariant a[..off] == old(a[..off])
    {
      a[off + i] := XorByte(a[off + i], key[i % 4]);
    }
    forall i | 0 <= i < len
      ensures a[off + i] as bv8 == (old(a[off + i]) as bv8) ^ (key[i % 4] as bv8)
    {
      XorIsBitwise(old(a[off + i]), key[i % 4]);
    }
  }

  // ---- whole frames and streams of frames ----

  datatype Frame = Frame(fin: bool, opcode: OpCode, masked: bool, payload: seq<byte>)

  /** Two ways in which the receive loop leaves the behaviour its code defines, or never leaves the
      loop: it reads or writes memory beyond its array, or it repeats one turn for ever. */
  datatype Fault = Fine | OutOfBounds | Spinning

  /** What the receive loop finds at the front of its buffer: `size` is what it removes. */
  datatype Next = Incomplete | Faulty(fault: Fault) | Whole(frame: Frame, size: nat)

  function NextFrame(d: seq<byte>): (r: Next)
    ensures r.Whole? ==> r.size <= |d| && |d| >= 2 && (r.size == 0 ==> r.frame.opcode == CLOSE)
    ensures r.Faulty? ==> r.fault != Fine
  {
    match ParseHeader(d)
    case NeedMore => Incomplete
    case Parsed(h, size) =>
      if size + h.len >= WORD then
        LengthIsWord(d);
        assert Wrap64(size + h.len) == size + h.len - WORD;
        WrappedFrame(h, Wrap64(size + h.len))
      else if |d| < size + h.len then Incomplete
      else Whole(Frame(h.fin, h.opcode, h.masked, Body(d, h, size)), size + h.len)
  }

  /** The 64-bit sum of header size and payload length wraps around to `total`, less than the header.
      The buffer always holds that much, so the code goes on: unmasking or delivering goes past the
      buffer; a Close, a Ping (whose echo cannot fit) or an ignored frame does not, and then `total`
      bytes are removed. If that is none, the loop finds the same frame again. The payload is then a view
      past the buffer that is never read; zeros stand for it. */
  function WrappedFrame(h: Header, total: nat): (r: Next)
  {
    if h.masked || h.opcode == TEXT || h.opcode == BINARY then Faulty(OutOfBounds)
    else if total == 0 && h.opcode != CLOSE then Faulty(Spinning)
    else Whole(Frame(h.fin, h.opcode, false, Zeros(h.len)), total)
  }

  /** The payload behind a header, unmasked with the key in front of it. */
  function Body(d: seq<byte>, h: Header, size: nat): (p: seq<byte>)
    requires size + h.len <= |d| && (h.masked ==> size >= 4)
    ensures |p| == h.len
  {
    var raw := d[size..size + h.len];
    if h.masked then Unmask(raw, d[size - 4..size]) else raw
  }

  /** The masked and the unmasked text message "Hello" of section 5.7 of RFC 6455. */
  lemma HelloFrames()
    ensures NextFrame([0x81, 0x85, 0x37, 0xFA, 0x21, 0x3D, 0x7F, 0x9F, 0x4D, 0x51, 0x58]) ==
            Whole(Frame(true, TEXT, true, [0x48, 0x65, 0x6C, 0x6C, 0x6F]), 11)
    ensures NextFrame([0x81, 0x05, 0x48, 0x65, 0x6C, 0x6C, 0x6F]) ==
            Whole(Frame(true, TEXT, false, [0x48, 0x65, 0x6C, 0x6C, 0x6F]), 7)
  {
    hide Unmask;
    var d: seq<byte> := [0x81, 0x85, 0x37, 0xFA, 0x21, 0x3D, 0x7F, 0x9F, 0x4D, 0x51, 0x58];
    var e: seq<byte> := [0x81, 0x05, 0x48, 0x65, 0x6C, 0x6C, 0x6F];
    assert d[6..11] == [0x7F, 0x9F, 0x4D, 0x51, 0x58];
    assert d[2..6] == [0x37, 0xFA, 0x21, 0x3D];
    assert e[2..7] == [0x48, 0x65, 0x6C, 0x6C, 0x6F];
    HelloUnmasked();
  }

  lemma HelloUnmasked()
    ensures Unmask([0x7F, 0x9F, 0x4D, 0x51, 0x58], [0x37, 0xFA, 0x21, 0x3D]) == [0x48, 0x65, 0x6C, 0x6C, 0x6F]
  {
    hide Xor;
    XorSum(0x7F, 0x37);
    XorSum(0x9F, 0xFA);
    XorSum(0x4D, 0x21);
    XorSum(0x51, 0x3D);
    XorSum(0x58, 0x37);
  }

  /** Does the size of the frame at the front exceed 64 bits? */
  predicate Wraps(d: seq<byte>)
  {
    ParseHeader(d).Parsed? && ParseHeader(d).size + ParseHeader(d).header.len >= WORD
  }

  /** The removed size of the code, `(size + len) mod 2^64`, in every case: a turn of the loop that does
      not wait removes it, and it shortens the buffer if and only if the length is not 2^64 minus the
      header size. */
  lemma TurnShortens(d: seq<byte>)
    requires ParseHeader(d).Parsed?
    ensures var r := ParseHeader(d);
            var total := Wrap64(r.size + r.header.len);
            && (NextFrame(d) == Incomplete <==> |d| < total)
            && (NextFrame(d).Whole? ==> NextFrame(d).size == total)
            && (total > 0 <==> r.header.len != WORD - r.size)
            && (NextFrame(d) == Faulty(Spinning) <==>
                  r.header.len == WORD - r.size && !r.header.masked && r.header.opcode !in {TEXT, BINARY, CLOSE})
  {
    hide FromBigEndian, Body;
    LengthIsWord(d);
    var r := ParseHeader(d);
    if Wraps(d) {
      assert Wrap64(r.size + r.header.len) == r.size + r.header.len - WORD;
    }
  }

  /** Lengths with the top bit clear, as section 5.2 of RFC 6455 demands, never wrap. */
  lemma TopBitClear(d: seq<byte>)
    requires ParseHeader(d).Parsed? && ParseHeader(d).header.len < WORD / 2
    ensures !Wraps(d) && !NextFrame(d).Faulty?
  {
    hide FromBigEndian, Body;
  }

  /** An unmasked header with an eight-byte length. */
  lemma LongHeader(d: seq<byte>, len: nat)
    requires |d| >= 10 && d[1] == 0x7F && FromBigEndian(d[2..10]) == len
    ensures ParseHeader(d) == Parsed(Header(d[0] >= 128, d[0] % 16, false, len), 10)
  {
    hide FromBigEndian;
  }

  /** Ten bytes on which the loop never ends: an unmasked Pong of 2^64 - 10 bytes. */
  lemma SpinningInput()
    ensures NextFrame([0x8A, 0x7F] + AllOnes(7) + [0xF6]) == Faulty(Spinning)
  {
    hide ParseHeader, FromBigEndian;
    var d: seq<byte> := [0x8A, 0x7F] + AllOnes(7) + [0xF6];
    assert d[2..10] == AllOnes(7) + [0xF6];
    AllOnesValue(7);
    ShiftIn(AllOnes(7), 0xF6);
    assert Pow256(7) * 256 == WORD by { PowWord(8); }
    LongHeader(d, WORD - 10);
  }

  function AllOnes(n: nat): (s: seq<byte>)
    ensures |s| == n
  {
    if n == 0 then [] else AllOnes(n - 1) + [0xFF]
  }

  lemma LastOne(n: nat)
    requires n > 0
    ensures AllOnes(n)[n - 1] == 0xFF
  {
  }

  lemma {:induction false} AllOnesValue(n: nat)
    ensures FromBigEndian(AllOnes(n)) == Pow256(n) - 1
  {
    if n > 0 {
      AllOnesValue(n - 1);
      assert AllOnes(n)[..n - 1] == AllOnes(n - 1);
    }
  }

  lemma LengthIsWord(d: seq<byte>)
    requires ParseHeader(d).Parsed?
    ensures ParseHeader(d).header.len < WORD
  {
    if LengthEnd(d) > 2 {
      BigEndianBound(d[2..LengthEnd(d)]);
      PowWord(LengthEnd(d) - 2);
    }
  }

  lemma BodyPrefix(d: seq<byte>, more: seq<byte>, h: Header, size: nat)
    requires size + h.len <= |d| && (h.masked ==> size >= 4)
    ensures Body(d + more, h, size) == Body(d, h, size)
  {
    hide Unmask;
    assert (d + more)[size..size + h.len] == d[size..size + h.len];
    assert h.masked ==> (d + more)[size - 4..size] == d[size - 4..size];
  }

  /** Once the front of the buffer is decided, more bytes do not change it. */
  lemma NextFramePrefix(d: seq<byte>, more: seq<byte>)
    ensures NextFrame(d) == Incomplete || NextFrame(d) == NextFrame(d + more)
  {
    hide Body, ParseHeader, WrappedFrame, Wrap64;
    HeaderPrefix(d, more);
    var r := ParseHeader(d);
    if r.Parsed? && r.size + r.header.len <= |d| {
      BodyPrefix(d, more, r.header, r.size);
    }
  }

  /** Does reading stop at this point of a stream? A receiver stops at a Close frame. */
  predicate Stops(d: seq<byte>, stopAtClose: bool)
  {
    !NextFrame(d).Whole? || NextFrame(d).size == 0 || (stopAtClose && NextFrame(d).frame.opcode == CLOSE)
  }

  /** The frames the code reads off the front of a byte stream, in order. */
  function Decode(d: seq<byte>, stopAtClose: bool): seq<Frame>
    decreases |d|
  {
    if Stops(d, stopAtClose) then []
    else [NextFrame(d).frame] + Decode(d[NextFrame(d).size..], stopAtClose)
  }

  /** The bytes left after them. */
  function Rest(d: seq<byte>, stopAtClose: bool): (r: seq<byte>)
    ensures |r| <= |d| && r == d[|d| - |r|..]
    ensures Stops(r, stopAtClose)
    decreases |d|
  {
    if Stops(d, stopAtClose) then d
    else Rest(d[NextFrame(d).size..], stopAtClose)
  }

  /** Reading a stream in two pieces gives the same frames and the same remainder as reading it at
      once. */
  lemma {:induction false} DecodeInPieces(d: seq<byte>, more: seq<byte>, stopAtClose: bool)
    ensures Decode(d + more, stopAtClose) ==
            Decode(d, stopAtClose) + Decode(Rest(d, stopAtClose) + more, stopAtClose)
    ensures Rest(d + more, stopAtClose) == Rest(Rest(d, stopAtClose) + more, stopAtClose)
    decreases |d|
  {
    hide NextFrame;
    if !Stops(d, stopAtClose) {
      var n := NextFrame(d).size;
      NextFramePrefix(d, more);
      assert (d + more)[n..] == d[n..] + more;
      DecodeInPieces(d[n..], more, stopAtClose);
    }
  }

  // ---- the framing of the standard ----

  /** The front frame with an unbounded size sum, as in section 5.2 of RFC 6455. */
  function StandardNext(d: seq<byte>): (r: Next)
    ensures r.Whole? ==> 2 <= r.size <= |d|
  {
    match ParseHeader(d)
    case NeedMore => Incomplete
    case Parsed(h, size) =>
      if |d| < size + h.len then Incomplete
      else Whole(Frame(h.fin, h.opcode, h.masked, Body(d, h, size)), size + h.len)
  }

  /** The frames of a stream up to a Close frame, and what is left. */
  function Standard(d: seq<byte>): seq<Frame>
    decreases |d|
  {
    var r := StandardNext(d);
    if !r.Whole? || r.frame.opcode == CLOSE then [] else [r.frame] + Standard(d[r.size..])
  }

  function StandardRest(d: seq<byte>): seq<byte>
    decreases |d|
  {
    var r := StandardNext(d);
    if !r.Whole? || r.frame.opcode == CLOSE then d else StandardRest(d[r.size..])
  }

  lemma StandardNextIs(d: seq<byte>)
    requires |d| < WORD
    ensures StandardNext(d) == if Wraps(d) then Incomplete else NextFrame(d)
  {
    hide FromBigEndian, Body;
  }

  /** The code reads the standard's frames off a stream if and only if the standard's reading does not
      end at a wrapping size that the code takes for a frame. */
  lemma {:induction false} StandardExactly(d: seq<byte>)
    requires |d| < WORD
    ensures Decode(d, true) == Standard(d) <==> !(Wraps(StandardRest(d)) && !Stops(StandardRest(d), true))
    decreases |d|
  {
    hide NextFrame, StandardNext, Wraps;
    StandardNextIs(d);
    var r := StandardNext(d);
    if r.Whole? && r.frame.opcode != CLOSE {
      StandardExactly(d[r.size..]);
      var x, y := Decode(d[r.size..], true), Standard(d[r.size..]);
      assert Decode(d, true) == [r.frame] + x && Standard(d) == [r.frame] + y;
      assert ([r.frame] + x)[1..] == x && ([r.frame] + y)[1..] == y;
    }
  }

  /** A stream whose reading differs: behind a Pong of 2^64 - 1 bytes the code removes nine bytes, skips a
      frame that was never sent and then finds a Text frame, while the standard waits for the Pong. */
  lemma WrappedStream()
    ensures var d: seq<byte> := [0x8A, 0x7F] + AllOnes(8) + [0x00, 0x81, 0x01, 0x41];
            && Standard(d) == []
            && Decode(d, true) == [Frame(true, PONG, false, Zeros(WORD - 1)), Frame(true, 15, false, []),
                                   Frame(true, TEXT, false, [0x41])]
  {
    var d: seq<byte> := [0x8A, 0x7F] + AllOnes(8) + [0x00, 0x81, 0x01, 0x41];
    hide NextFrame, AllOnes, Standard;
    WrappedFront(d);
    var e: seq<byte> := [0xFF, 0x00, 0x81, 0x01, 0x41];
    assert d[9] == AllOnes(8)[7];
    LastOne(8);
    assert d[9..] == e;
    SkippedFrame(e);
    assert Decode(d, true) == [NextFrame(d).frame] + Decode(e, true);
  }

  lemma WrappedFront(d: seq<byte>)
    requires |d| == 14 && d[0] == 0x8A && d[1] == 0x7F && d[2..10] == AllOnes(8)
    ensures NextFrame(d) == Whole(Frame(true, PONG, false, Zeros(WORD - 1)), 9) && Standard(d) == []
  {
    hide ParseHeader, FromBigEndian, AllOnes;
    AllOnesValue(8);
    PowWord(8);
    LongHeader(d, WORD - 1);
  }

  lemma SkippedFrame(e: seq<byte>)
    requires e == [0xFF, 0x00, 0x81, 0x01, 0x41]
    ensures Decode(e, true) == [Frame(true, 15, false, []), Frame(true, TEXT, false, [0x41])]
  {
    var f: seq<byte> := [0x81, 0x01, 0x41];
    assert NextFrame(e) == Whole(Frame(true, 15, false, []), 2);
    assert e[2..] == f;
    OneText(f);
    assert Decode(e, true) == [NextFrame(e).frame] + Decode(f, true);
  }

  /** The shortest text frame with a payload. */
  lemma OneText(f: seq<byte>)
    requires f == [0x81, 0x01, 0x41]
    ensures Decode(f, true) == [Frame(true, TEXT, false, [0x41])]
  {
    assert NextFrame(f) == Whole(Frame(true, TEXT, false, [0x41]), 3) by { assert f[2..3] == [0x41]; }
    assert f[3..] == [];
    EmptyStops(true);
    assert Decode(f, true) == [NextFrame(f).frame] + Decode([], true);
  }

  /** Is b the bytes of exactly one frame? Any length form, mask key, FIN and RSV bits. */
  predicate IsFrame(b: seq<byte>)
  {
    NextFrame(b).Whole? && NextFrame(b).size == |b|
  }

  function FrameOf(b: seq<byte>): Frame
    requires IsFrame(b)
  {
    NextFrame(b).frame
  }

  predicate AreFrames(bs: seq<seq<byte>>)
  {
    forall i :: 0 <= i < |bs| ==> IsFrame(bs[i])
  }

  function FramesOf(bs: seq<seq<byte>>): (fs: seq<Frame>)
    requires AreFrames(bs)
  {
    seq(|bs|, i requires 0 <= i < |bs| => FrameOf(bs[i]))
  }

  /** A concatenation of frames decodes to exactly those frames, with nothing left over. */
  lemma {:induction false} DecodeConcat(bs: seq<seq<byte>>, stopAtClose: bool)
    requires AreFrames(bs)
    requires stopAtClose ==> forall i :: 0 <= i < |bs| ==> FrameOf(bs[i]).opcode != CLOSE
    ensures Decode(Concat(bs), stopAtClose) == FramesOf(bs)
    ensures Rest(Concat(bs), stopAtClose) == []
  {
    hide NextFrame;
    if bs == [] {
      EmptyStops(stopAtClose);
    } else {
      DecodeConcat(bs[1..], stopAtClose);
      DecodeCons(bs[0], Concat(bs[1..]), stopAtClose);
      assert FramesOf(bs) == [FrameOf(bs[0])] + FramesOf(bs[1..]);
    }
  }

  lemma EmptyStops(stopAtClose: bool)
    ensures Stops([], stopAtClose)
  {
  }

  lemma DecodeCons(b: seq<byte>, more: seq<byte>, stopAtClose: bool)
    requires IsFrame(b) && (stopAtClose ==> FrameOf(b).opcode != CLOSE)
    ensures Decode(b + more, stopAtClose) == [FrameOf(b)] + Decode(more, stopAtClose)
    ensures Rest(b + more, stopAtClose) == Rest(more, stopAtClose)
  {
    hide NextFrame;
    NextFramePrefix(b, more);
    assert (b + more)[|b|..] == more;
  }

  /** A frame as an endpoint sends it: `key` is empty for an unmasked frame. */
  function FrameBytes(opcode: OpCode, payload: seq<byte>, key: seq<byte>): seq<byte>
    requires key == [] || |key| == 4
  {
    EncodeHeader(opcode, |payload|, key != []) + key + if key == [] then payload else Unmask(payload, key)
  }

  /** Receiving an encoded frame gives back its opcode and its payload unmasked. */
  lemma FrameRoundTrip(opcode: OpCode, payload: seq<byte>, key: seq<byte>)
    requires |payload| < WORD - 14 && (key == [] || |key| == 4)
    ensures IsFrame(FrameBytes(opcode, payload, key))
    ensures FrameOf(FrameBytes(opcode, payload, key)) == Frame(true, opcode, key != [], payload)
  {
    hide ParseHeader, Unmask, Body, EncodeHeader;
    var body := if key == [] then payload else Unmask(payload, key);
    HeaderRoundTrip(opcode, |payload|, key, body);
    if key != [] {
      UnmaskTwice(payload, key);
    }
    BodyOf(EncodeHeader(opcode, |payload|, key != []), key, body, Header(true, opcode, key != [], |payload|));
  }

  lemma BodyOf(head: seq<byte>, key: seq<byte>, body: seq<byte>, h: Header)
    requires |body| == h.len && if h.masked then |key| == 4 else key == []
    ensures Body(head + key + body, h, |head + key|) == if h.masked then Unmask(body, key) else body
  {
    var d := head + key + body;
    var size := |head + key|;
    assert d[size..size + h.len] == body;
    assert h.masked ==> d[size - 4..size] == key;
  }
}
