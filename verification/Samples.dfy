/** Samples of the standards, worked through the model: they fix every constant and table it uses. */
module Samples {
  import opened Bytes
  import opened Protocol
  import opened Sha1
  import opened Handshake
  import opened HashSample
  import opened HandshakeRuns
  import Base64
  import Lifecycle
  import SendStream
  import Sockets

  // ---- the accept key ----

  /** The key of the sample. */
  function SampleKey(): (k: seq<byte>)
    ensures |k| == 24
  {
    Ascii("dGhlIHNhbXBsZSBub25jZQ==")
  }

  lemma MessageQuad(i: nat)
    requires i < 15
    ensures |Magic()| == 36 && (SampleKey() + Magic())[4 * i..4 * i + 4] == FirstQuads()[i]
  {
    hide SampleKey, Magic, FirstQuads;
    MagicQuad(if i < 6 then 0 else i - 6);
    if i < 6 {
      KeyQuad(i);
      assert (SampleKey() + Magic())[4 * i..4 * i + 4] == SampleKey()[4 * i..4 * i + 4];
    } else {
      assert (SampleKey() + Magic())[4 * i..4 * i + 4] == Magic()[4 * (i - 6)..4 * (i - 6) + 4];
    }
  }

  lemma AsciiFour(s: string, i: nat, w: char, x: char, y: char, z: char)
    requires i + 4 <= |s| && s[i] == w && s[i + 1] == x && s[i + 2] == y && s[i + 3] == z
    requires w as int < 256 && x as int < 256 && y as int < 256 && z as int < 256
    ensures Ascii(s)[i..i + 4] == [w as int, x as int, y as int, z as int]
  {
  }

  lemma KeyText0()
    ensures |SampleKey()| == 24 && SampleKey()[0..4] == [0x64, 0x47, 0x68, 0x6C]
    ensures |SampleKey()| == 24 && SampleKey()[4..8] == [0x49, 0x48, 0x4E, 0x68]
  {
    hide Ascii;
    var s := "dGhlIHNhbXBsZSBub25jZQ==";
    assert |s| == 24;
    AsciiFour(s, 0, 'd', 'G', 'h', 'l');
    AsciiFour(s, 4, 'I', 'H', 'N', 'h');
  }

  lemma KeyText1()
    ensures |SampleKey()| == 24 && SampleKey()[8..12] == [0x62, 0x58, 0x42, 0x73]
    ensures |SampleKey()| == 24 && SampleKey()[12..16] == [0x5A, 0x53, 0x42, 0x75]
  {
    hide Ascii;
    var s := "dGhlIHNhbXBsZSBub25jZQ==";
    assert |s| == 24;
    AsciiFour(s, 8, 'b', 'X', 'B', 's');
    AsciiFour(s, 12, 'Z', 'S', 'B', 'u');
  }

  lemma KeyText2()
    ensures |SampleKey()| == 24 && SampleKey()[16..20] == [0x62, 0x32, 0x35, 0x6A]
    ensures |SampleKey()| == 24 && SampleKey()[20..24] == [0x5A, 0x51, 0x3D, 0x3D]
  {
    hide Ascii;
    var s := "dGhlIHNhbXBsZSBub25jZQ==";
    assert |s| == 24;
    AsciiFour(s, 16, 'b', '2', '5', 'j');
    AsciiFour(s, 20, 'Z', 'Q', '=', '=');
  }

  lemma MagicText0()
    ensures |Magic()| == 36 && Magic()[0..4] == [0x32, 0x35, 0x38, 0x45]
  {
    hide Ascii;
    var s := "258EAFA5-E914-47DA-95CA-C5AB0DC85B11";
    assert |s| == 36;
    AsciiFour(s, 0, '2', '5', '8', 'E');
  }

  lemma MagicText1()
    ensures |Magic()| == 36 && Magic()[4..8] == [0x41, 0x46, 0x41, 0x35]
  {
    hide Ascii;
    var s := "258EAFA5-E914-47DA-95CA-C5AB0DC85B11";
    assert |s| == 36;
    AsciiFour(s, 4, 'A', 'F', 'A', '5');
  }

  lemma MagicText2()
    ensures |Magic()| == 36 && Magic()[8..12] == [0x2D, 0x45, 0x39, 0x31]
    ensures |Magic()| == 36 && Magic()[12..16] == [0x34, 0x2D, 0x34, 0x37]
  {
    hide Ascii;
    var s := "258EAFA5-E914-47DA-95CA-C5AB0DC85B11";
    assert |s| == 36;
    AsciiFour(s, 8, '-', 'E', '9', '1');
    AsciiFour(s, 12, '4', '-', '4', '7');
  }

  lemma MagicText3()
    ensures |Magic()| == 36 && Magic()[16..20] == [0x44, 0x41, 0x2D, 0x39]
    ensures |Magic()| == 36 && Magic()[20..24] == [0x35, 0x43, 0x41, 0x2D]
  {
    hide Ascii;
    var s := "258EAFA5-E914-47DA-95CA-C5AB0DC85B11";
    assert |s| == 36;
    AsciiFour(s, 16, 'D', 'A', '-', '9');
    AsciiFour(s, 20, '5', 'C', 'A', '-');
  }

  lemma MagicText4()
    ensures |Magic()| == 36 && Magic()[24..28] == [0x43, 0x35, 0x41, 0x42]
    ensures |Magic()| == 36 && Magic()[28..32] == [0x30, 0x44, 0x43, 0x38]
    ensures |Magic()| == 36 && Magic()[32..36] == [0x35, 0x42, 0x31, 0x31]
  {
    hide Ascii;
    var s := "258EAFA5-E914-47DA-95CA-C5AB0DC85B11";
    assert |s| == 36;
    AsciiFour(s, 24, 'C', '5', 'A', 'B');
    AsciiFour(s, 28, '0', 'D', 'C', '8');
    AsciiFour(s, 32, '5', 'B', '1', '1');
  }

  lemma KeyQuad(i: nat)
    requires i < 6
    ensures SampleKey()[4 * i..4 * i + 4] == FirstQuads()[i]
  {
    hide SampleKey;
    KeyText0();
    KeyText1();
    KeyText2();
    if i == 0 {} else if i == 1 {} else if i == 2 {} else if i == 3 {} else if i == 4 {} else {}
  }

  lemma MagicQuad(i: nat)
    requires i < 9
    ensures |Magic()| == 36 && Magic()[4 * i..4 * i + 4] == FirstQuads()[i + 6]
  {
    hide Magic;
    MagicText0();
    MagicText1();
    MagicText2();
    MagicText3();
    MagicText4();
    if i < 4 {
      if i == 0 {} else if i == 1 {} else if i == 2 {} else {}
    } else {
      if i == 4 {} else if i == 5 {} else if i == 6 {} else if i == 7 {} else {}
    }
  }

  lemma {:induction false} FlatIs(q: seq<seq<byte>>, m: seq<byte>, n: nat)
    requires n <= |q| && 4 * n <= |m| && (forall i :: 0 <= i < |q| ==> |q[i]| == 4)
    requires forall i :: 0 <= i < n ==> m[4 * i..4 * i + 4] == q[i]
    ensures Flat(q, n) == m[..4 * n]
  {
    if n > 0 {
      FlatIs(q, m, n - 1);
      assert m[..4 * n] == m[..4 * (n - 1)] + m[4 * (n - 1)..4 * (n - 1) + 4];
    }
  }

  lemma SamplePadded()
    ensures Pad(SampleKey() + Magic()) == FirstBlock() + SecondBlock()
  {
    var m, q := SampleKey() + Magic(), FirstQuads();
    hide SampleKey, Magic, FirstQuads, ToBigEndian;
    forall i | 0 <= i < 15 ensures |m| == 60 && m[4 * i..4 * i + 4] == q[i] {
      MessageQuad(i);
    }
    MessageQuad(0);
    FlatIs(q, m, 15);
    assert m[..60] == m;
    LastQuad();
    BitCount();
    PaddedParts(m);
  }

  lemma PaddedParts(m: seq<byte>)
    requires |m| == 60 && ToBigEndian(480, 8) == Zeros(6) + [0x01, 0xE0]
    ensures Pad(m) == (m + [0x80, 0, 0, 0]) + SecondBlock()
  {
    hide ToBigEndian;
    assert PadZeros(60) == 59;
    assert [0x80] + Zeros(59) + Zeros(6) == [0x80, 0, 0, 0] + Zeros(62);
    var x, y: seq<byte> := [0x80] + Zeros(59), [0x01, 0xE0];
    assert m + [0x80] + Zeros(59) == m + x;
    assert m + x + (Zeros(6) + y) == m + (x + Zeros(6)) + y;
    assert m + ([0x80, 0, 0, 0] + Zeros(62)) + y == (m + [0x80, 0, 0, 0]) + (Zeros(62) + y);
  }

  lemma LastQuad()
    ensures FirstQuads()[15] == [0x80, 0, 0, 0]
  {
  }

  lemma BitCount()
    ensures ToBigEndian(480, 8) == Zeros(6) + [0x01, 0xE0]
  {
    assert ToBigEndian(0, 6) == Zeros(6);
    assert ToBigEndian(1, 7) == ToBigEndian(0, 6) + [1];
  }

  lemma SampleDigest()
    ensures Digest(SampleKey() + Magic()) ==
            [0xB3, 0x7A, 0x4F, 0x2C, 0xC0, 0x62, 0x4F, 0x16, 0x90, 0xF6, 0x46, 0x06, 0xCF, 0x38, 0x59, 0x45, 0xB2,
             0xBE, 0xC4, 0xEA]
  {
    hide HashBlocks, SampleKey, Magic, Pad;
    SamplePadded();
    SampleHash();
    hide FirstBlock, SecondBlock;
    DigestBytes();
  }

  lemma DigestBytes()
    ensures WordBytes(0xB37A4F2C) + WordBytes(0xC0624F16) + WordBytes(0x90F64606) + WordBytes(0xCF385945) + WordBytes(0xB2BEC4EA) ==
            [0xB3, 0x7A, 0x4F, 0x2C, 0xC0, 0x62, 0x4F, 0x16, 0x90, 0xF6, 0x46, 0x06, 0xCF, 0x38, 0x59, 0x45, 0xB2,
             0xBE, 0xC4, 0xEA]
  {
  }

  lemma EncodeThree(b: seq<byte>, more: seq<byte>)
    requires |b| == 3
    ensures Base64.Encode(b + more) == Base64.EncodeBlock(b) + Base64.Encode(more)
  {
    hide Base64.EncodeBlock;
    Base64.EncodeCons(b + more);
    assert (b + more)[..3] == b && (b + more)[3..] == more;
  }

  /** The blocks of the digest and their letters. */
  lemma SampleBlocks0()
    ensures Base64.EncodeBlock([0xB3, 0x7A, 0x4F]) == [115, 51, 112, 80]
    ensures Base64.EncodeBlock([0x2C, 0xC0, 0x62]) == [76, 77, 66, 105]
  {
    hide Base64.EncodeBlock;
    Base64.EncodeBlockIndices([0xB3, 0x7A, 0x4F]);
    Base64.EncodeBlockIndices([0x2C, 0xC0, 0x62]);
  }

  lemma SampleBlocks1()
    ensures Base64.EncodeBlock([0x4F, 0x16, 0x90]) == [84, 120, 97, 81]
    ensures Base64.EncodeBlock([0xF6, 0x46, 0x06]) == [57, 107, 89, 71]
  {
    hide Base64.EncodeBlock;
    Base64.EncodeBlockIndices([0x4F, 0x16, 0x90]);
    Base64.EncodeBlockIndices([0xF6, 0x46, 0x06]);
  }

  lemma SampleBlocks2()
    ensures Base64.EncodeBlock([0xCF, 0x38, 0x59]) == [122, 122, 104, 90]
    ensures Base64.EncodeBlock([0x45, 0xB2, 0xBE]) == [82, 98, 75, 43]
  {
    hide Base64.EncodeBlock;
    Base64.EncodeBlockIndices([0xCF, 0x38, 0x59]);
    Base64.EncodeBlockIndices([0x45, 0xB2, 0xBE]);
  }

  lemma SampleBlocks3()
    ensures Base64.EncodeBlock([0xC4, 0xEA]) == [120, 79, 111, 61]
  {
    hide Base64.EncodeBlock;
    Base64.EncodeBlockIndices([0xC4, 0xEA]);
  }

  lemma EncodeParts(b: seq<seq<byte>>, last: seq<byte>, n: nat)
    requires n <= |b| && (forall i :: 0 <= i < |b| ==> |b[i]| == 3) && |last| == 2
    ensures Base64.Encode(Concat(b[|b| - n..]) + last) == Blocks(b[|b| - n..]) + Base64.EncodeBlock(last)
  {
    hide Base64.Encode, Base64.EncodeBlock;
    var c := b[|b| - n..];
    if n == 0 {
      EncodeLast(last);
      assert Concat(c) + last == last;
    } else {
      EncodeParts(b, last, n - 1);
      assert c[1..] == b[|b| - (n - 1)..];
      EncodeThree(c[0], Concat(c[1..]) + last);
      assert Concat(c) + last == c[0] + (Concat(c[1..]) + last);
    }
  }

  function Blocks(b: seq<seq<byte>>): seq<byte>
    requires forall i :: 0 <= i < |b| ==> |b[i]| == 3
  {
    if b == [] then [] else Base64.EncodeBlock(b[0]) + Blocks(b[1..])
  }

  lemma SampleEncoded()
    ensures Base64.Encode([0xB3, 0x7A, 0x4F, 0x2C, 0xC0, 0x62, 0x4F, 0x16, 0x90, 0xF6, 0x46, 0x06, 0xCF, 0x38, 0x59,
             0x45, 0xB2, 0xBE, 0xC4, 0xEA]) ==
            Ascii("s3pPLMBiTxaQ9kYGzzhZRbK+xOo=")
  {
    hide Base64.EncodeBlock, Base64.Encode, Ascii;
    var b: seq<seq<byte>> := [[0xB3, 0x7A, 0x4F], [0x2C, 0xC0, 0x62], [0x4F, 0x16, 0x90],
                              [0xF6, 0x46, 0x06], [0xCF, 0x38, 0x59], [0x45, 0xB2, 0xBE]];
    var last: seq<byte> := [0xC4, 0xEA];
    EncodeParts(b, last, 6);
    assert b[0..] == b;
    SampleParts(b, last);
    SampleBlocks0();
    SampleBlocks1();
    SampleBlocks2();
    SampleBlocks3();
    SampleLetters(b);
    SampleText();
  }

  lemma SampleParts(b: seq<seq<byte>>, last: seq<byte>)
    requires b == [[0xB3, 0x7A, 0x4F], [0x2C, 0xC0, 0x62], [0x4F, 0x16, 0x90],
                   [0xF6, 0x46, 0x06], [0xCF, 0x38, 0x59], [0x45, 0xB2, 0xBE]]
    requires last == [0xC4, 0xEA]
    ensures Concat(b) + last ==
            [0xB3, 0x7A, 0x4F, 0x2C, 0xC0, 0x62, 0x4F, 0x16, 0x90, 0xF6, 0x46, 0x06, 0xCF, 0x38, 0x59, 0x45, 0xB2,
             0xBE, 0xC4, 0xEA]
  {
    assert b[1..][1..] == b[2..] && b[2..][1..] == b[3..] && b[3..][1..] == b[4..] && b[4..][1..] == b[5..] && b[5..][1..] == [];
    assert Concat(b[5..]) == b[5];
    assert Concat(b[4..]) == b[4] + b[5];
    assert Concat(b[3..]) == b[3] + (b[4] + b[5]);
    assert Concat(b[2..]) == b[2] + (b[3] + (b[4] + b[5]));
    assert Concat(b[1..]) == b[1] + (b[2] + (b[3] + (b[4] + b[5])));
  }

  lemma SampleLetters(b: seq<seq<byte>>)
    requires |b| == 6 && forall i :: 0 <= i < |b| ==> |b[i]| == 3
    ensures Blocks(b) == Base64.EncodeBlock(b[0]) + Base64.EncodeBlock(b[1]) + Base64.EncodeBlock(b[2]) +
                         Base64.EncodeBlock(b[3]) + Base64.EncodeBlock(b[4]) + Base64.EncodeBlock(b[5])
  {
    hide Base64.EncodeBlock;
    assert b[1..][1..] == b[2..] && b[2..][1..] == b[3..] && b[3..][1..] == b[4..] && b[4..][1..] == b[5..] && b[5..][1..] == [];
    assert Blocks(b[5..]) == Base64.EncodeBlock(b[5]);
    assert Blocks(b[4..]) == Base64.EncodeBlock(b[4]) + Base64.EncodeBlock(b[5]);
    assert Blocks(b[3..]) == Base64.EncodeBlock(b[3]) + Base64.EncodeBlock(b[4]) + Base64.EncodeBlock(b[5]);
    assert Blocks(b[2..]) == Base64.EncodeBlock(b[2]) + Blocks(b[3..]);
  }

  lemma EncodeLast(b: seq<byte>)
    requires |b| == 2
    ensures Base64.Encode(b) == Base64.EncodeBlock(b)
  {
  }

  lemma SampleText()
    ensures Ascii("s3pPLMBiTxaQ9kYGzzhZRbK+xOo=") ==
            [115, 51, 112, 80] + [76, 77, 66, 105] + [84, 120, 97, 81] + [57, 107, 89, 71] + [122, 122, 104, 90] + [82, 98, 75, 43] + [120, 79, 111, 61]
  {
  }

  /** The accept key of section 1.3 of RFC 6455. */
  lemma SampleAcceptKey()
    ensures AcceptKey(Ascii("dGhlIHNhbXBsZSBub25jZQ==")) == Ascii("s3pPLMBiTxaQ9kYGzzhZRbK+xOo=")
  {
    hide Digest, Magic, Base64.Encode;
    SampleDigest();
    SampleEncoded();
  }

  lemma EncodeTwoBlocks(b: seq<byte>, c: seq<byte>)
    requires |b| == 3 && 1 <= |c| <= 3
    ensures Base64.Encode(b + c) == Base64.EncodeBlock(b) + Base64.EncodeBlock(c)
  {
    hide Base64.EncodeBlock;
    EncodeThree(b, c);
    assert Base64.Encode(c) == Base64.EncodeBlock(c);
  }

  /** The test vectors of section 10 of RFC 4648, over character codes. */
  lemma EncodingVectors()
    ensures Base64.Encode([]) == []
    ensures Base64.Encode(Ascii("f")) == Ascii("Zg==")
    ensures Base64.Encode(Ascii("fo")) == Ascii("Zm8=")
    ensures Base64.Encode(Ascii("foo")) == Ascii("Zm9v")
    ensures Base64.Encode(Ascii("foob")) == Ascii("Zm9vYg==")
    ensures Base64.Encode(Ascii("fooba")) == Ascii("Zm9vYmE=")
    ensures Base64.Encode(Ascii("foobar")) == Ascii("Zm9vYmFy")
  {
    hide Base64.EncodeBlock;
    VectorBlocks();
    assert Ascii("f") == [102] && Ascii("fo") == [102, 111] && Ascii("foo") == [102, 111, 111];
    assert Ascii("foob") == [102, 111, 111] + [98];
    assert Ascii("fooba") == [102, 111, 111] + [98, 97];
    assert Ascii("foobar") == [102, 111, 111] + [98, 97, 114];
    EncodeTwoBlocks([102, 111, 111], [98]);
    EncodeTwoBlocks([102, 111, 111], [98, 97]);
    EncodeTwoBlocks([102, 111, 111], [98, 97, 114]);
  }

  lemma VectorBlocks()
    ensures Base64.EncodeBlock([102]) == Ascii("Zg==") && Base64.EncodeBlock([102, 111]) == Ascii("Zm8=")
    ensures Base64.EncodeBlock([102, 111, 111]) == Ascii("Zm9v")
    ensures Base64.EncodeBlock([98]) == Ascii("Yg==") && Base64.EncodeBlock([98, 97]) == Ascii("YmE=")
    ensures Base64.EncodeBlock([98, 97, 114]) == Ascii("YmFy")
  {
    hide Base64.EncodeBlock;
    Base64.EncodeBlockIndices([102]);
    Base64.EncodeBlockIndices([102, 111]);
    Base64.EncodeBlockIndices([102, 111, 111]);
    Base64.EncodeBlockIndices([98]);
    Base64.EncodeBlockIndices([98, 97]);
    Base64.EncodeBlockIndices([98, 97, 114]);
  }

  /** Characters outside the alphabet count as 64 and spill into the group before them. */
  lemma ForeignText()
    ensures Base64.Decode(Ascii("/-/-")) == [0xFC, 0x0F, 0xC0]
  {
    hide Base64.Pack;
    var t := Ascii("/-/-");
    assert t == [47, 45, 47, 45];
    ForeignPack();
    assert t[..4] == t && t[4..] == [];
    assert Base64.DecodeBlock(t) == [0xFC, 0x0F, 0xC0];
  }

  lemma ForeignPack()
    ensures Base64.Pack(63, 64, 63, 64) == 0xFC0FC0
  {
    hide Or, Shl, Pow2;
    Base64.Shl6(1);
    Base64.Shl6(63);
    Base64.Shl6(0x3F03F);
    Base64.ShlAdd(1, 6, 12);
    OrShl(63, 1, 18);
    OrOdd(63);
    Base64.ShlAdd(63, 6, 6);
    Base64.Shl6(63 * 64);
    assert 63 < Pow2(12) by { ManyPowers(); }
    Base64.OrShifted(63, 12, 63, 6);
    OrShl(0x3F03F, 1, 6);
    OrOdd(0x3F03F);
  }

  lemma ManyPowers()
    ensures Pow2(12) == 4096
  {
    Base64.Pow8();
    assert Pow2(10) == 4 * Pow2(8);
  }

  lemma {:induction false} OrShl(x: nat, y: nat, k: nat)
    ensures Or(Shl(x, k), Shl(y, k)) == Shl(Or(x, y), k)
  {
    if k > 0 {
      OrShl(x, y, k - 1);
      Base64.OrDouble(Shl(x, k - 1), Shl(y, k - 1));
    }
  }

  lemma OrOdd(x: nat)
    requires x % 2 == 1
    ensures Or(x, 1) == x
  {
    OrZero(x / 2);
  }

  // ---- the whole handshake ----

  /** The response of section 1.3 of RFC 6455. */
  lemma SampleResponse()
    ensures Response(SampleKey()) ==
            Ascii("HTTP/1.1 101 Switching Protocols\r\n") + Ascii("Upgrade: websocket\r\n") +
            Ascii("Connection: Upgrade\r\n") + Ascii("Sec-WebSocket-Accept: ") +
            Ascii("s3pPLMBiTxaQ9kYGzzhZRbK+xOo=") + [13, 10, 13, 10]
  {
    hide AcceptKey, Ascii;
    SampleAcceptKey();
  }

  /** A request line and the sample's key. */
  function SampleRequest(): seq<byte>
  {
    RequestBytes(Ascii("/chat HTTP/1.1"), Ascii("Sec-WebSocket-Key: "), SampleKey(), [13, 10])
  }

  lemma SampleComplete()
    ensures Complete(SampleRequest(), SampleKey()) && |SampleRequest()| == 67
  {
    hide Complete, Find;
    SampleKeyText();
    SampleLine();
    SimpleRequest(Ascii("/chat HTTP/1.1"), SampleKey());
    HeadersHaveNoLineFeed();
  }

  lemma SampleKeyText()
    ensures IsKey(SampleKey())
  {
    var s := "dGhlIHNhbXBsZSBub25jZQ==";
    assert |s| == 24 && s[23] == '=';
    assert forall i :: 0 <= i < 24 ==> s[i] != '\r';
  }

  lemma SampleLine()
    ensures var line := Ascii("/chat HTTP/1.1");
            |line| == 14 && 13 !in line && Find(Ascii("GET ") + line + [13, 10], Ascii("Sec-WebSocket-Key: "), 0).None?
  {
    hide Find;
    var g, s := "GET ", "/chat HTTP/1.1";
    assert |g| == 4 && |s| == 14;
    assert forall i :: 0 <= i < 4 ==> g[i] != 'S';
    assert forall i :: 0 <= i < 14 ==> s[i] != 'S' && s[i] != '\r';
    var d := Ascii(g) + Ascii(s) + [13, 10];
    assert 83 !in d;
    Letters();
    forall j: nat ensures !At(d, KeyHeader(), j) {
      NotAt(d, KeyHeader(), j, 0);
    }
    FindNone(d, KeyHeader(), 0);
  }

  /** A connection that reads this request opens and has queued exactly this response first, whatever the
      callbacks do. */
  lemma SampleHandshake(now: int, app: App)
    ensures var c := Run(Fresh(now), [Step(now, Read(ReadResult.Bytes(SampleRequest())))], app);
            && c.request == SampleRequest() && c.phase != Handshaking
            && c.sent == [] && Response(SampleKey()) <= c.tx
  {
    hide Complete, HandleRead, KeyIn, Find, Response, SampleKey, SampleRequest, SendStream.ResponsePart, SendStream.FramePart;
    var req := SampleRequest();
    var s := Step(now, Read(ReadResult.Bytes(req)));
    Lifecycle.RunOne(Fresh(now), s, app);
    SampleComplete();
    TooShort([]);
    assert req + [] == req;
    assert Behind(req, req) == [];
    WholeReadTracks(now, req, SampleKey(), [], app);
    var c := Run(Fresh(now), [s], app);
    SendStream.OutputConserved(now, [s], app);
    Lifecycle.EventsInOrder(now, [s], app);
    SendStream.ResponseIsFirst(c.trace);
    Sockets.SentIsAccepted(now, [s], app);
    assert Sockets.TotalAccepted(now, [s], app) == 0 by { assert [s][..0] == []; }
    assert c.sent + c.tx == c.tx;
  }
}
