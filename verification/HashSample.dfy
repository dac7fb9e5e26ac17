/** The hash of one message of two blocks, worked through ten rounds at a time: the key and the magic
    string of the handshake sample in section 1.3 of RFC 6455. It fixes every constant of the hash. */
module HashSample {
  import opened Bytes
  import opened Sha1

  // ---- hashing known blocks ----

  /** Ten rounds from round t on. */
  function Ten(s: State, t: nat, w: seq<bv32>): State
    requires |w| == 10
  {
    Five(Five(s, t, w[0], w[1], w[2], w[3], w[4]), t + 5, w[5], w[6], w[7], w[8], w[9])
  }

  function Five(s: State, t: nat, v: bv32, w: bv32, x: bv32, y: bv32, z: bv32): State
  {
    Round(Round(Round(Round(Round(s, t, v), t + 1, w), t + 2, x), t + 3, y), t + 4, z)
  }

  lemma RoundsTen(h: State, w: seq<bv32>, t: nat)
    requires t + 10 <= |w|
    ensures Rounds(h, w, t + 10) == Ten(Rounds(h, w, t), t, w[t..t + 10])
  {
    hide Round;
    RoundsFive(h, w, t);
    RoundsFive(h, w, t + 5);
  }

  lemma RoundsFive(h: State, w: seq<bv32>, t: nat)
    requires t + 5 <= |w|
    ensures Rounds(h, w, t + 5) == Five(Rounds(h, w, t), t, w[t], w[t + 1], w[t + 2], w[t + 3], w[t + 4])
  {
    hide Round;
    assert Rounds(h, w, t + 2) == Round(Rounds(h, w, t + 1), t + 1, w[t + 1]);
    assert Rounds(h, w, t + 3) == Round(Rounds(h, w, t + 2), t + 2, w[t + 2]);
    assert Rounds(h, w, t + 4) == Round(Rounds(h, w, t + 3), t + 3, w[t + 3]);
  }

  /** z continues the schedule x, y: ten words each. */
  predicate Follows(x: seq<bv32>, y: seq<bv32>, z: seq<bv32>)
    requires |x| == |y| == |z| == 10
  {
    && z[0] == Expanded(y[7], y[2], x[6], x[4]) && z[1] == Expanded(y[8], y[3], x[7], x[5])
    && z[2] == Expanded(y[9], y[4], x[8], x[6]) && z[3] == Expanded(z[0], y[5], x[9], x[7])
    && z[4] == Expanded(z[1], y[6], y[0], x[8]) && z[5] == Expanded(z[2], y[7], y[1], x[9])
    && z[6] == Expanded(z[3], y[8], y[2], y[0]) && z[7] == Expanded(z[4], y[9], y[3], y[1])
    && z[8] == Expanded(z[5], z[0], y[4], y[2]) && z[9] == Expanded(z[6], z[1], y[5], y[3])
  }

  /** The same by position. */
  lemma FollowsAt(x: seq<bv32>, y: seq<bv32>, z: seq<bv32>, i: nat)
    requires |x| == |y| == |z| == 10 && Follows(x, y, z) && i < 10
    ensures var v := x + y + z; v[20 + i] == Expanded(v[17 + i], v[12 + i], v[6 + i], v[4 + i])
  {
    hide Expanded;
    if i < 5 {
      if i == 0 {} else if i == 1 {} else if i == 2 {} else if i == 3 {} else {}
    } else {
      if i == 5 {} else if i == 6 {} else if i == 7 {} else if i == 8 {} else {}
    }
  }

  lemma ScheduleTen(block: seq<byte>, w: seq<bv32>, x: seq<bv32>, y: seq<bv32>, z: seq<bv32>)
    requires |block| == 64 && |x| == |y| == |z| == 10 && Follows(x, y, z)
    requires |w| >= 20 && w == Schedule(block, |w|) && w[|w| - 20..] == x + y
    ensures w + z == Schedule(block, |w| + 10)
  {
    hide Schedule, Expanded, Follows;
    var v, u := w + z, x + y + z;
    assert v[..|w|] == w;
    for i := 0 to 10
      invariant v[..|w| + i] == Schedule(block, |w| + i)
    {
      FollowsAt(x, y, z, i);
      assert forall k :: 0 <= k < 30 ==> u[k] == v[|w| - 20 + k] by {
        assert v[|w| - 20..] == u;
      }
      NextAt(block, v, |w| + i);
    }
    assert v[..|w| + 10] == v;
  }

  /** One word more, when the words before it are the schedule so far. */
  lemma NextAt(block: seq<byte>, v: seq<bv32>, k: nat)
    requires |block| == 64 && 16 <= k < |v| && v[..k] == Schedule(block, k)
    requires v[k] == Expanded(v[k - 3], v[k - 8], v[k - 14], v[k - 16])
    ensures v[..k + 1] == Schedule(block, k + 1)
  {
    hide Schedule, Expanded;
    NextWord(block, v[..k], v[k]);
    assert v[..k] + [v[k]] == v[..k + 1];
  }

  lemma ScheduleTwenty(block: seq<byte>, w: seq<bv32>)
    requires |block| == 64 && |w| == 20 && forall i :: 0 <= i < 16 ==> BlockWord(block, i) == w[i]
    requires w[16] == Expanded(w[13], w[8], w[2], w[0]) && w[17] == Expanded(w[14], w[9], w[3], w[1])
    requires w[18] == Expanded(w[15], w[10], w[4], w[2]) && w[19] == Expanded(w[16], w[11], w[5], w[3])
    ensures w == Schedule(block, 20)
  {
    hide Expanded, BlockWord, Schedule;
    FirstSixteen(block, w, 16);
    NextAt(block, w, 16);
    NextAt(block, w, 17);
    NextAt(block, w, 18);
    NextAt(block, w, 19);
    assert w[..20] == w;
  }

  lemma {:induction false} FirstSixteen(block: seq<byte>, w: seq<bv32>, n: nat)
    requires |block| == 64 && n <= 16 <= |w| && forall i :: 0 <= i < 16 ==> BlockWord(block, i) == w[i]
    ensures w[..n] == Schedule(block, n)
  {
    hide BlockWord;
    if n > 0 {
      FirstSixteen(block, w, n - 1);
      assert w[..n] == w[..n - 1] + [w[n - 1]];
    }
  }

  /** A schedule in eight parts. */
  function Parts(p: seq<seq<bv32>>, n: nat): (w: seq<bv32>)
    requires n <= |p| && forall i :: 0 <= i < |p| ==> |p[i]| == 10
    ensures |w| == 10 * n
    ensures forall i :: 0 <= i < n ==> w[10 * i..10 * i + 10] == p[i]
  {
    if n == 0 then [] else Parts(p, n - 1) + p[n - 1]
  }

  /** The parts are the schedule of the block. */
  predicate Scheduled(block: seq<byte>, p: seq<seq<bv32>>)
    requires |block| == 64
  {
    && |p| == 8 && (forall i :: 0 <= i < 8 ==> |p[i]| == 10)
    && (forall i :: 0 <= i < 16 ==> BlockWord(block, i) == (p[0] + p[1])[i])
    && (var w := p[0] + p[1];
        && w[16] == Expanded(w[13], w[8], w[2], w[0]) && w[17] == Expanded(w[14], w[9], w[3], w[1])
        && w[18] == Expanded(w[15], w[10], w[4], w[2]) && w[19] == Expanded(w[16], w[11], w[5], w[3]))
    && forall i :: 2 <= i < 8 ==> Follows(p[i - 2], p[i - 1], p[i])
  }

  lemma {:induction false} ScheduleIs(block: seq<byte>, p: seq<seq<bv32>>, n: nat)
    requires |block| == 64 && Scheduled(block, p) && 2 <= n <= 8
    ensures Parts(p, n) == Schedule(block, 10 * n)
  {
    hide Expanded, BlockWord, Schedule, Follows;
    if n == 2 {
      ScheduleTwenty(block, p[0] + p[1]);
      assert Parts(p, 2) == p[0] + p[1];
    } else {
      ScheduleIs(block, p, n - 1);
      var w := Parts(p, n - 1);
      assert w[|w| - 20..] == p[n - 3] + p[n - 2];
      ScheduleTen(block, w, p[n - 3], p[n - 2], p[n - 1]);
    }
  }

  /** The states after every ten rounds. */
  predicate Traced(h: State, p: seq<seq<bv32>>, s: seq<State>)
    requires |p| == 8 && forall i :: 0 <= i < 8 ==> |p[i]| == 10
  {
    |s| == 9 && s[0] == h && forall i :: 0 <= i < 8 ==> Ten(s[i], 10 * i, p[i]) == s[i + 1]
  }

  lemma {:induction false} TracedRounds(h: State, p: seq<seq<bv32>>, s: seq<State>, n: nat)
    requires |p| == 8 && (forall i :: 0 <= i < 8 ==> |p[i]| == 10) && Traced(h, p, s) && n <= 8
    ensures Rounds(h, Parts(p, 8), 10 * n) == s[n]
  {
    hide Ten;
    if n > 0 {
      TracedRounds(h, p, s, n - 1);
      RoundsTen(h, Parts(p, 8), 10 * (n - 1));
    }
  }

  lemma CompressIs(h: State, block: seq<byte>, p: seq<seq<bv32>>, s: seq<State>)
    requires |block| == 64 && Scheduled(block, p) && Traced(h, p, s)
    ensures Compress(h, block) == Add(h, s[8])
  {
    hide Schedule, Rounds, Parts, Add, Ten, Follows, Expanded, BlockWord;
    ScheduleIs(block, p, 8);
    TracedRounds(h, p, s, 8);
  }

  // ---- the first block of the sample ----

  function FirstWords(): (p: seq<seq<bv32>>)
    ensures |p| == 8 && forall i :: 0 <= i < 8 ==> |p[i]| == 10
  {
    [[0x6447686C, 0x49484E68, 0x62584273, 0x5A534275, 0x6232356A, 0x5A513D3D, 0x32353845, 0x41464135,
      0x2D453931, 0x342D3437],
     [0x44412D39, 0x3543412D, 0x43354142, 0x30444338, 0x35423131, 0x80000000, 0x363CA02C, 0x24E81236,
      0x8856B441, 0x06FB3C92],
     [0x6FB4BCB6, 0x460B16E3, 0x599219AE, 0x35BF9369, 0x3267458E, 0xF828FD04, 0x753A96A7, 0x6336F612,
      0xC3D66383, 0x06EB86F9],
     [0x73B4FD42, 0xA503C5B8, 0x15CDAE35, 0x531E5DC5, 0x6FB6B7D0, 0x6C16E4AC, 0x4DDD36BD, 0x35D36946,
      0xE8AE8B9C, 0x4A933AD0],
     [0xCE8628B4, 0x415DBA9E, 0x2792F049, 0x8E9B79E7, 0x79C425C5, 0x6353B49D, 0x00994218, 0x8A950ED1,
      0xAF5D0B99, 0xFD9883DE],
     [0x1ED8FFEB, 0xF007FF28, 0x425E3674, 0x059631C0, 0xAD6C3C31, 0x860B71D7, 0x87BFC548, 0x3E64F92D,
      0x8D0AB761, 0x34E1EE35],
     [0x0ACF5108, 0xC2B479DA, 0x6C93370A, 0xF7935BA1, 0xE91C91C1, 0xBED165A2, 0x4C3E4ABE, 0x50D96238,
      0xB6587DDE, 0x1A2EE6E6],
     [0x2D335896, 0xF3495D0B, 0xF30E0A1D, 0x32CE5459, 0x7165E3B8, 0xAB05FF94, 0xC5949F0B, 0xBCD84E4A,
      0x07720392, 0xFF3FF806]]
  }

  function FirstStates(): (s: seq<State>)
    ensures |s| == 9
  {
    [State(0x67452301, 0xEFCDAB89, 0x98BADCFE, 0x10325476, 0xC3D2E1F0),
     State(0xFAAD2675, 0x32BEB05A, 0x4B833980, 0x1CD54FA1, 0x5CC82E5A),
     State(0x091AB97C, 0x8DC510B6, 0xDFAECA5A, 0x75F6BD5D, 0x2801311A),
     State(0x081B63E5, 0x1ABB1C37, 0x95C7DF60, 0x3BC04BC8, 0x1D22CE68),
     State(0x2BA2C83E, 0xD0869081, 0x1A1D8209, 0xD3334889, 0x2779E4F2),
     State(0x065F8486, 0x7510D04F, 0xAAF85D22, 0x37B92DEA, 0x5CBFCCD3),
     State(0x4872D85A, 0xD284F163, 0x83091F0B, 0x1BBDBFBD, 0x9F8490BC),
     State(0x07381B7E, 0x966E049A, 0x33E1963B, 0x14C4C690, 0xF0F0B916),
     State(0xF48A5426, 0x835995E1, 0x25C11EFB, 0x4A45C402, 0x9A73C2F2)]
  }

  // ---- the second block of the sample ----

  function SecondWords(): (p: seq<seq<bv32>>)
    ensures |p| == 8 && forall i :: 0 <= i < 8 ==> |p[i]| == 10
  {
    [[0x00000000, 0x00000000, 0x00000000, 0x00000000, 0x00000000, 0x00000000, 0x00000000, 0x00000000,
      0x00000000, 0x00000000],
     [0x00000000, 0x00000000, 0x00000000, 0x00000000, 0x00000000, 0x000001E0, 0x00000000, 0x00000000,
      0x000003C0, 0x00000000],
     [0x00000000, 0x00000780, 0x00000000, 0x000003C0, 0x00000F00, 0x00000000, 0x00000000, 0x00001E00,
      0x00000000, 0x00000CC0],
     [0x00003C00, 0x00000440, 0x00000000, 0x00007800, 0x00000F00, 0x00003300, 0x0000F000, 0x00000F00,
      0x00000000, 0x0001EF00],
     [0x00000000, 0x0000CC00, 0x0003C000, 0x00004380, 0x00000000, 0x00078F00, 0x0000FF00, 0x00032680,
      0x000F0000, 0x0000F000],
     [0x00003300, 0x001EFF00, 0x00000000, 0x000CB800, 0x003C0000, 0x00040B00, 0x0000F000, 0x0078FF00,
      0x000FF000, 0x00338700],
     [0x00F00000, 0x000FC300, 0x0000F000, 0x01EFBB00, 0x00000000, 0x00CC0000, 0x03C0F000, 0x00438000,
      0x00000000, 0x078F0000],
     [0x00FF0000, 0x03269E00, 0x0F000000, 0x00F0F000, 0x00333C00, 0x1EFF8800, 0x00000000, 0x0CB88800,
      0x3C00F000, 0x040A4A00]]
  }

  function SecondStates(): (s: seq<State>)
    ensures |s| == 9
  {
    [State(0x5BCF7727, 0x7327416A, 0xBE7BFBF9, 0x5A781878, 0x5E46A4E2),
     State(0x0B0814C3, 0x80946593, 0x8970062F, 0xACEEF2BF, 0xE4E97BEE),
     State(0x2A008B51, 0x2F193A09, 0x9C8663C1, 0x8EB5D103, 0x261B7C9A),
     State(0x243EE057, 0xF57CB53E, 0xE4C9F7DB, 0xB4B9C9B6, 0x591B19DF),
     State(0x6F698F1A, 0xC6FF0CD3, 0xDE5AB7BC, 0x5F6F3CBB, 0x1DA48A85),
     State(0xA516F265, 0xA39F2041, 0xA8FBE15F, 0xB23368F6, 0xCEF6480E),
     State(0x56119F19, 0x085EB2FE, 0x484A25C5, 0xC140CFE8, 0x686DA050),
     State(0xBF3A7F95, 0x4E363DB9, 0x025E9447, 0x325FC65A, 0xC5E88BBD),
     State(0x57AAD805, 0x4D3B0DAC, 0xD27A4A0D, 0x74C040CD, 0x54782008)]
  }

  /** The sample as bytes, four by four: the key, the magic string and the first bytes of the padding. */
  function FirstQuads(): (q: seq<seq<byte>>)
    ensures |q| == 16 && forall i :: 0 <= i < 16 ==> |q[i]| == 4
  {
    [[0x64, 0x47, 0x68, 0x6C], [0x49, 0x48, 0x4E, 0x68], [0x62, 0x58, 0x42, 0x73], [0x5A, 0x53, 0x42, 0x75],
     [0x62, 0x32, 0x35, 0x6A], [0x5A, 0x51, 0x3D, 0x3D], [0x32, 0x35, 0x38, 0x45], [0x41, 0x46, 0x41, 0x35],
     [0x2D, 0x45, 0x39, 0x31], [0x34, 0x2D, 0x34, 0x37], [0x44, 0x41, 0x2D, 0x39], [0x35, 0x43, 0x41, 0x2D],
     [0x43, 0x35, 0x41, 0x42], [0x30, 0x44, 0x43, 0x38], [0x35, 0x42, 0x31, 0x31], [0x80, 0x00, 0x00, 0x00]]
  }

  function FirstBlock(): (b: seq<byte>)
    ensures |b| == 64
  {
    Flat(FirstQuads(), 16)
  }

  function SecondBlock(): (b: seq<byte>)
    ensures |b| == 64
  {
    Zeros(62) + [0x01, 0xE0]
  }

  function Flat(q: seq<seq<byte>>, n: nat): (b: seq<byte>)
    requires n <= |q| && forall i :: 0 <= i < |q| ==> |q[i]| == 4
    ensures |b| == 4 * n
    ensures forall i :: 0 <= i < n ==> b[4 * i..4 * i + 4] == q[i]
  {
    if n == 0 then [] else Flat(q, n - 1) + q[n - 1]
  }

  function Word(q: seq<byte>): bv32
    requires |q| == 4
  {
    WordOf(q[0], q[1], q[2], q[3])
  }

  lemma QuadWord(q: seq<seq<byte>>, i: nat)
    requires |q| == 16 && i < 16 && forall k :: 0 <= k < 16 ==> |q[k]| == 4
    ensures BlockWord(Flat(q, 16), i) == Word(q[i])
  {
    hide WordOf;
    var b := Flat(q, 16);
    assert b[4 * i..4 * i + 4] == q[i];
    assert b[4 * i] == q[i][0] && b[4 * i + 1] == q[i][1] && b[4 * i + 2] == q[i][2] && b[4 * i + 3] == q[i][3];
  }

  /** Four bytes whose bit vectors are known. */
  lemma WordIs(b0: byte, b1: byte, b2: byte, b3: byte, x0: bv32, x1: bv32, x2: bv32, x3: bv32)
    requires b0 as bv32 == x0 && b1 as bv32 == x1 && b2 as bv32 == x2 && b3 as bv32 == x3
    ensures Word([b0, b1, b2, b3]) == (x0 << 24) | (x1 << 16) | (x2 << 8) | x3
  {
  }

  lemma FirstWords0()
    ensures Word([0x64, 0x47, 0x68, 0x6C]) == 0x6447686C
    ensures Word([0x49, 0x48, 0x4E, 0x68]) == 0x49484E68
    ensures Word([0x62, 0x58, 0x42, 0x73]) == 0x62584273
    ensures Word([0x5A, 0x53, 0x42, 0x75]) == 0x5A534275
  {
    hide Word;
    WordIs(0x64, 0x47, 0x68, 0x6C, 0x64, 0x47, 0x68, 0x6C);
    WordIs(0x49, 0x48, 0x4E, 0x68, 0x49, 0x48, 0x4E, 0x68);
    WordIs(0x62, 0x58, 0x42, 0x73, 0x62, 0x58, 0x42, 0x73);
    WordIs(0x5A, 0x53, 0x42, 0x75, 0x5A, 0x53, 0x42, 0x75);
  }

  lemma FirstWords1()
    ensures Word([0x62, 0x32, 0x35, 0x6A]) == 0x6232356A
    ensures Word([0x5A, 0x51, 0x3D, 0x3D]) == 0x5A513D3D
    ensures Word([0x32, 0x35, 0x38, 0x45]) == 0x32353845
    ensures Word([0x41, 0x46, 0x41, 0x35]) == 0x41464135
  {
    hide Word;
    WordIs(0x62, 0x32, 0x35, 0x6A, 0x62, 0x32, 0x35, 0x6A);
    WordIs(0x5A, 0x51, 0x3D, 0x3D, 0x5A, 0x51, 0x3D, 0x3D);
    WordIs(0x32, 0x35, 0x38, 0x45, 0x32, 0x35, 0x38, 0x45);
    WordIs(0x41, 0x46, 0x41, 0x35, 0x41, 0x46, 0x41, 0x35);
  }

  lemma FirstWords2()
    ensures Word([0x2D, 0x45, 0x39, 0x31]) == 0x2D453931
    ensures Word([0x34, 0x2D, 0x34, 0x37]) == 0x342D3437
    ensures Word([0x44, 0x41, 0x2D, 0x39]) == 0x44412D39
    ensures Word([0x35, 0x43, 0x41, 0x2D]) == 0x3543412D
  {
    hide Word;
    WordIs(0x2D, 0x45, 0x39, 0x31, 0x2D, 0x45, 0x39, 0x31);
    WordIs(0x34, 0x2D, 0x34, 0x37, 0x34, 0x2D, 0x34, 0x37);
    WordIs(0x44, 0x41, 0x2D, 0x39, 0x44, 0x41, 0x2D, 0x39);
    WordIs(0x35, 0x43, 0x41, 0x2D, 0x35, 0x43, 0x41, 0x2D);
  }

  lemma FirstWords3()
    ensures Word([0x43, 0x35, 0x41, 0x42]) == 0x43354142
    ensures Word([0x30, 0x44, 0x43, 0x38]) == 0x30444338
    ensures Word([0x35, 0x42, 0x31, 0x31]) == 0x35423131
    ensures Word([0x80, 0x00, 0x00, 0x00]) == 0x80000000
  {
    hide Word;
    WordIs(0x43, 0x35, 0x41, 0x42, 0x43, 0x35, 0x41, 0x42);
    WordIs(0x30, 0x44, 0x43, 0x38, 0x30, 0x44, 0x43, 0x38);
    WordIs(0x35, 0x42, 0x31, 0x31, 0x35, 0x42, 0x31, 0x31);
    WordIs(0x80, 0x00, 0x00, 0x00, 0x80, 0x00, 0x00, 0x00);
  }

  lemma FirstBlockWord(i: nat)
    requires i < 16
    ensures BlockWord(FirstBlock(), i) == (FirstWords()[0] + FirstWords()[1])[i]
  {
    hide BlockWord, Flat, Word;
    QuadWord(FirstQuads(), i);
    FirstWords0();
    FirstWords1();
    FirstWords2();
    FirstWords3();
    if i < 8 {
      if i == 0 {} else if i == 1 {} else if i == 2 {} else if i == 3 {}
      else if i == 4 {} else if i == 5 {} else if i == 6 {} else {}
    } else {
      if i == 8 {} else if i == 9 {} else if i == 10 {} else if i == 11 {}
      else if i == 12 {} else if i == 13 {} else if i == 14 {} else {}
    }
  }

  lemma FirstFollows0()
    ensures var p := FirstWords(); Follows(p[0], p[1], p[2]) && Follows(p[1], p[2], p[3])
  {
  }

  lemma FirstFollows1()
    ensures var p := FirstWords(); Follows(p[2], p[3], p[4]) && Follows(p[3], p[4], p[5])
  {
  }

  lemma FirstFollows2()
    ensures var p := FirstWords(); Follows(p[4], p[5], p[6]) && Follows(p[5], p[6], p[7])
  {
  }

  lemma FirstFollows()
    ensures var p := FirstWords(); forall i :: 2 <= i < 8 ==> Follows(p[i - 2], p[i - 1], p[i])
  {
    hide Follows, FirstWords;
    FirstFollows0();
    FirstFollows1();
    FirstFollows2();
  }

  lemma FirstTraced0()
    ensures var p, s := FirstWords(), FirstStates(); Ten(s[0], 0, p[0]) == s[1] && Ten(s[1], 10, p[1]) == s[2]
  {
  }

  lemma FirstTraced1()
    ensures var p, s := FirstWords(), FirstStates(); Ten(s[2], 20, p[2]) == s[3] && Ten(s[3], 30, p[3]) == s[4]
  {
  }

  lemma FirstTraced2()
    ensures var p, s := FirstWords(), FirstStates(); Ten(s[4], 40, p[4]) == s[5] && Ten(s[5], 50, p[5]) == s[6]
  {
  }

  lemma FirstTraced3()
    ensures var p, s := FirstWords(), FirstStates(); Ten(s[6], 60, p[6]) == s[7] && Ten(s[7], 70, p[7]) == s[8]
  {
  }

  lemma SecondFollows0()
    ensures var p := SecondWords(); Follows(p[0], p[1], p[2]) && Follows(p[1], p[2], p[3])
  {
  }

  lemma SecondFollows1()
    ensures var p := SecondWords(); Follows(p[2], p[3], p[4]) && Follows(p[3], p[4], p[5])
  {
  }

  lemma SecondFollows2()
    ensures var p := SecondWords(); Follows(p[4], p[5], p[6]) && Follows(p[5], p[6], p[7])
  {
  }

  lemma SecondFollows()
    ensures var p := SecondWords(); forall i :: 2 <= i < 8 ==> Follows(p[i - 2], p[i - 1], p[i])
  {
    hide Follows, SecondWords;
    SecondFollows0();
    SecondFollows1();
    SecondFollows2();
  }

  lemma SecondTraced0()
    ensures var p, s := SecondWords(), SecondStates(); Ten(s[0], 0, p[0]) == s[1] && Ten(s[1], 10, p[1]) == s[2]
  {
  }

  lemma SecondTraced1()
    ensures var p, s := SecondWords(), SecondStates(); Ten(s[2], 20, p[2]) == s[3] && Ten(s[3], 30, p[3]) == s[4]
  {
  }

  lemma SecondTraced2()
    ensures var p, s := SecondWords(), SecondStates(); Ten(s[4], 40, p[4]) == s[5] && Ten(s[5], 50, p[5]) == s[6]
  {
  }

  lemma SecondTraced3()
    ensures var p, s := SecondWords(), SecondStates(); Ten(s[6], 60, p[6]) == s[7] && Ten(s[7], 70, p[7]) == s[8]
  {
  }

  lemma SecondBlockWord(i: nat)
    requires i < 16
    ensures BlockWord(SecondBlock(), i) == (SecondWords()[0] + SecondWords()[1])[i]
  {
    hide WordOf, Word;
    WordIs(0, 0, 0, 0, 0, 0, 0, 0);
    WordIs(0, 0, 0x01, 0xE0, 0, 0, 0x01, 0xE0);
    SecondTwenty(i);
    BlockWordIs(SecondBlock(), i);
    if i < 15 {
      assert SecondBlock()[4 * i..4 * i + 4] == [0, 0, 0, 0];
    } else {
      assert SecondBlock()[60..64] == [0, 0, 0x01, 0xE0];
    }
  }

  lemma BlockWordIs(b: seq<byte>, i: nat)
    requires |b| == 64 && i < 16
    ensures BlockWord(b, i) == Word(b[4 * i..4 * i + 4])
  {
    hide WordOf;
  }

  lemma SecondTwenty(i: nat)
    requires i < 16
    ensures (SecondWords()[0] + SecondWords()[1])[i] == if i < 15 then 0 else 0x000001E0
  {
  }

  lemma FirstTraced()
    ensures FirstStates()[0] == INITIAL && Traced(FirstStates()[0], FirstWords(), FirstStates())
  {
    hide Ten;
    var p, s := FirstWords(), FirstStates();
    forall i | 0 <= i < 8 ensures Ten(s[i], 10 * i, p[i]) == s[i + 1] {
      FirstTraced0();
      FirstTraced1();
      FirstTraced2();
      FirstTraced3();
      hide FirstWords, FirstStates;
      if i < 4 {
        if i == 0 {} else if i == 1 {} else if i == 2 {} else {}
      } else {
        if i == 4 {} else if i == 5 {} else if i == 6 {} else {}
      }
    }
  }

  lemma FirstStart()
    ensures var w := FirstWords()[0] + FirstWords()[1];
            && w[16] == Expanded(w[13], w[8], w[2], w[0]) && w[17] == Expanded(w[14], w[9], w[3], w[1])
            && w[18] == Expanded(w[15], w[10], w[4], w[2]) && w[19] == Expanded(w[16], w[11], w[5], w[3])
  {
  }

  lemma FirstScheduled()
    ensures Scheduled(FirstBlock(), FirstWords())
  {
    hide BlockWord, Follows, Expanded, FirstBlock, FirstWords;
    forall i | 0 <= i < 16 ensures BlockWord(FirstBlock(), i) == (FirstWords()[0] + FirstWords()[1])[i] {
      FirstBlockWord(i);
    }
    FirstFollows();
    FirstStart();
  }

  lemma SecondTraced()
    ensures SecondStates()[0] == Add(INITIAL, FirstStates()[8]) && Traced(SecondStates()[0], SecondWords(), SecondStates())
  {
    hide Ten;
    var p, s := SecondWords(), SecondStates();
    forall i | 0 <= i < 8 ensures Ten(s[i], 10 * i, p[i]) == s[i + 1] {
      SecondTraced0();
      SecondTraced1();
      SecondTraced2();
      SecondTraced3();
      hide SecondWords, SecondStates;
      if i < 4 {
        if i == 0 {} else if i == 1 {} else if i == 2 {} else {}
      } else {
        if i == 4 {} else if i == 5 {} else if i == 6 {} else {}
      }
    }
  }

  lemma SecondStart()
    ensures var w := SecondWords()[0] + SecondWords()[1];
            && w[16] == Expanded(w[13], w[8], w[2], w[0]) && w[17] == Expanded(w[14], w[9], w[3], w[1])
            && w[18] == Expanded(w[15], w[10], w[4], w[2]) && w[19] == Expanded(w[16], w[11], w[5], w[3])
  {
  }

  lemma SecondScheduled()
    ensures Scheduled(SecondBlock(), SecondWords())
  {
    hide BlockWord, Follows, Expanded, SecondBlock, SecondWords;
    forall i | 0 <= i < 16 ensures BlockWord(SecondBlock(), i) == (SecondWords()[0] + SecondWords()[1])[i] {
      SecondBlockWord(i);
    }
    SecondFollows();
    SecondStart();
  }

  lemma SampleHash()
    ensures HashBlocks(FirstBlock() + SecondBlock()) == State(0xB37A4F2C, 0xC0624F16, 0x90F64606, 0xCF385945, 0xB2BEC4EA)
  {
    hide Compress, FirstBlock, SecondBlock, FirstWords, SecondWords, Scheduled, Traced, Add;
    FirstTraced();
    FirstScheduled();
    CompressIs(INITIAL, FirstBlock(), FirstWords(), FirstStates());
    SecondTraced();
    SecondScheduled();
    CompressIs(SecondStates()[0], SecondBlock(), SecondWords(), SecondStates());
    HashNothing();
    HashSnoc([], FirstBlock());
    HashSnoc(FirstBlock(), SecondBlock());
    assert [] + FirstBlock() == FirstBlock();
    LastSum();
  }

  lemma HashNothing()
    ensures HashBlocks([]) == INITIAL
  {
  }

  lemma LastSum()
    ensures Add(SecondStates()[0], SecondStates()[8]) == State(0xB37A4F2C, 0xC0624F16, 0x90F64606, 0xCF385945, 0xB2BEC4EA)
  {
  }
}
