/** Receive-side theorems over whole runs. */
module ReceiveRuns {
  import opened Bytes
  import opened Frames
  import opened Protocol
  import opened Actions
  import opened ReceiveStream
  import Handshake
  import Lifecycle

  /** What was received after the upgrade request. */
  function Stream(c: Conn): seq<byte>
    requires c.request <= c.received
  {
    c.received[|c.request|..]
  }

  /** The buffered bytes are the end of the stream, and the messages delivered are those of the stream
      except for those still in the buffer. */
  predicate AccountedAs(stream: seq<byte>, rx: seq<byte>, delivered: seq<seq<byte>>) {
    && |rx| <= |stream| && rx == stream[|stream| - |rx|..]
    && Payloads(Decode(stream, true)) == delivered + Payloads(Decode(rx, true))
    && Rest(stream, true) == Rest(rx, true)
  }

  predicate Accounted(c: Conn) {
    c.request <= c.received && AccountedAs(Stream(c), c.rx, Messages(c.trace))
  }

  lemma AccountedSame(c: Conn, d: Conn)
    requires Accounted(c) && SameInput(c, d)
    ensures Accounted(d)
  {
  }

  /** Reading on after more bytes have arrived. */
  lemma ReadOn(s: seq<byte>, got: seq<byte>)
    ensures Payloads(Decode(s + got, true)) == Payloads(Decode(s, true)) + Payloads(Decode(Rest(s, true) + got, true))
    ensures Rest(s + got, true) == Rest(Rest(s, true) + got, true)
  {
    hide Decode, Rest, Payloads;
    DecodeInPieces(s, got, true);
    PayloadsAppend(Decode(s, true), Decode(Rest(s, true) + got, true));
  }

  lemma AccountedGrown(c: Conn, d: Conn, got: seq<byte>)
    requires Accounted(c) && d.rx == c.rx + got && d.received == c.received + got && d.request == c.request
    requires d.trace == c.trace
    ensures Accounted(d)
  {
    hide Decode, Rest, Messages, Payloads;
    assert Stream(d) == Stream(c) + got;
    ReadOn(Stream(c), got);
    ReadOn(c.rx, got);
    SuffixGrows(Stream(c), c.rx, got);
  }

  lemma SuffixGrows(s: seq<byte>, r: seq<byte>, got: seq<byte>)
    requires |r| <= |s| && r == s[|s| - |r|..]
    ensures r + got == (s + got)[|s + got| - |r + got|..]
  {
  }

  lemma AccountedUpgrade(c: Conn, d: Conn, size: nat)
    requires c.rx == c.received && size <= |c.rx| && Messages(d.trace) == []
    requires d.rx == c.rx[size..] && d.request == c.rx[..size] && d.received == c.received
    ensures Accounted(d)
  {
    hide Decode, Rest, Messages, Payloads;
    assert Stream(d) == d.rx;
  }

  lemma AccountedLoop(c: Conn, d: Conn)
    requires Accounted(c) && d.received == c.received && d.request == c.request
    requires d.rx == Rest(c.rx, true)
    requires Messages(d.trace) == Messages(c.trace) + Payloads(Decode(c.rx, true))
    ensures Accounted(d)
  {
    hide Messages, Payloads, Decode, Rest, Stream, AccountedAs;
    StreamSame(c, d);
    LoopAccounted(Stream(c), c.rx, Messages(c.trace));
  }

  /** Delivering what can be decoded keeps the account. */
  lemma LoopAccounted(stream: seq<byte>, rx: seq<byte>, delivered: seq<seq<byte>>)
    requires AccountedAs(stream, rx, delivered)
    ensures AccountedAs(stream, Rest(rx, true), delivered + Payloads(Decode(rx, true)))
  {
    hide Payloads, Decode, Rest;
    PayloadsNone();
    RestIsDone(rx);
    SuffixOfSuffix(stream, rx, Rest(rx, true));
    var all := delivered + Payloads(Decode(rx, true));
    assert all + [] == all;
  }

  lemma StreamSame(c: Conn, d: Conn)
    requires c.request <= c.received && d.received == c.received && d.request == c.request
    ensures Stream(d) == Stream(c)
  {
  }

  lemma RestIsDone(d: seq<byte>)
    ensures Decode(Rest(d, true), true) == [] && Rest(Rest(d, true), true) == Rest(d, true)
  {
    hide NextFrame;
  }

  lemma SuffixOfSuffix(s: seq<byte>, r: seq<byte>, q: seq<byte>)
    requires |r| <= |s| && r == s[|s| - |r|..] && |q| <= |r| && q == r[|r| - |q|..]
    ensures q == s[|s| - |q|..]
  {
  }

  lemma HandshakeAccounted(c: Conn, app: App)
    requires Base(c) && Accounted(c) && c.phase == Handshaking
    ensures Accounted(HandshakeOnData(c, app))
  {
    hide Accounted, Handshake.ParseRequest, Handshake.Response, Messages;
    var attempt := ParseHandshake(c);
    var data := c.rx[..Min(1024, |c.rx|)];
    if attempt.ok {
      var request := Handshake.ParseRequest(data);
      var response := Handshake.Response(request.key);
      var d := attempt.conn.(phase := Open);
      MessagesLog(c.trace, Responded(response));
      MessagesLog(c.trace + [Responded(response)], OnOpen);
      assert Base(Log(d, OnOpen)) by { UpgradeEnabled(c); BaseKept(c, UpgradeTo(request.size, response)); }
      SameInputNotify(Log(d, OnOpen), d, OnOpen, app);
      assert Messages(c.trace) == [] by { NoMessages(); }
      AccountedUpgrade(c, Log(d, OnOpen), request.size);
      AccountedSame(Log(d, OnOpen), HandshakeOnData(c, app));
    } else {
      FailedHandshake(c);
      AccountedSame(c, attempt.conn);
    }
  }

  lemma NoMessages()
    ensures Messages([]) == []
  {
  }

  /** A failed attempt changes neither buffer: its buffer-failure exits cannot be reached. */
  lemma FailedHandshake(c: Conn)
    requires Base(c) && c.phase == Handshaking && !ParseHandshake(c).ok
    ensures ParseHandshake(c).conn == c.(lastError := ParseHandshake(c).conn.lastError)
    ensures !Handshake.ParseRequest(c.rx[..Min(1024, |c.rx|)]).Upgrade?
  {
    hide Handshake.Response;
    var request := Handshake.ParseRequest(c.rx[..Min(1024, |c.rx|)]);
    if request.Upgrade? {
      Handshake.ResponseLength(request.key);
    }
  }

  lemma DataAccounted(c: Conn, app: App)
    requires Base(c) && Accounted(c)
    ensures Accounted(OnData(c, app))
  {
    hide Accounted, HandshakeOnData, ParseFrames, ParseHeader, Messages, Decode, Rest, NextFrame;
    match c.phase
    case Handshaking => HandshakeAccounted(c, app);
    case Open =>
      LoopReads(c, app);
      AccountedLoop(c, ParseFrames(c, app));
    case Closing =>
      MessagesLog(c.trace, OnClose(true));
      AccountedSame(c, OnData(c, app));
    case Closed =>
  }

  lemma WriteSameInput(c: Conn, vectored: bool, res: WriteResult, app: App)
    requires Base(c)
    ensures SameInput(c, HandleWrite(c, vectored, res, app).conn)
  {
    hide Messages;
    if c.tx != [] && res.Accepted? {
      var k := Min(res.n, if vectored then |c.tx| else Min(512, |c.tx|));
      var d := Advance(c, k);
      if d.paused && |d.tx| < TX_LOW {
        BaseKept(c, Flush(k));
        MessagesLog(d.trace, OnDrain(|d.sent|));
        SameInputNotify(c, d.(paused := false), OnDrain(|d.sent|), app);
      }
    }
  }

  lemma InvokeSameInput(c: Conn, call: Call, app: App)
    requires Base(c)
    ensures SameInput(c, Invoke(c, call, app))
  {
    hide Base, Invoke, Messages;
    SameInputStable(c);
    InvokeKeeps((x: Conn) => SameInput(c, x), c, call, app);
  }

  lemma StepAccounted(c: Conn, s: Step, app: App)
    requires Base(c) && Accounted(c)
    ensures Accounted(DoStep(c, s, app))
  {
    hide Accounted, OnData, HandleWrite, Invoke, Messages;
    if c.fault != Fine { return; }
    var c0 := c.(clock := s.now);
    var r := DoStep(c, s, app);
    AccountedSame(c, c0);
    match s.io
    case Read(res) =>
      if |c.rx| < RX_SIZE && res.Bytes? && res.data != [] {
        var got := res.data[..Min(RX_SIZE - |c.rx|, |res.data|)];
        var c1 := c0.(rx := c.rx + got, received := c.received + got);
        AccountedGrown(c0, c1, got);
        ReceiveKept(c0, got);
        DataAccounted(c1, app);
        AccountedSame(OnData(c1, app), r);
      } else {
        AccountedSame(c0, r);
      }
    case Write(vectored, res) =>
      WriteSameInput(c0, vectored, res, app);
      AccountedSame(c0, r);
    case Api(call) =>
      InvokeSameInput(c0, call, app);
      AccountedSame(c0, r);
    case Tick =>
  }

  lemma {:induction false} RunAccounted(c: Conn, steps: seq<Step>, app: App)
    requires Base(c) && Accounted(c)
    ensures Base(Run(c, steps, app)) && Accounted(Run(c, steps, app))
  {
    hide DoStep, Accounted, Base;
    if steps != [] {
      var last := |steps| - 1;
      RunAccounted(c, steps[..last], app);
      var d := Run(c, steps[..last], app);
      StepAccounted(d, steps[last], app);
      StepKeeps(x => true, d, steps[last], app) by { assert Stable(x => true); }
    }
  }

  lemma FreshAccounted(now: int)
    ensures Base(Fresh(now)) && Accounted(Fresh(now))
  {
  }

  /** For every run from creation, with any callbacks: the messages delivered are, in order, those of
      the first frames that the code reads in what the client sent after its request; and they are
      all of them exactly when no message is left in the buffer. */
  lemma DeliveredIsPrefix(now: int, steps: seq<Step>, app: App)
    ensures var c := Run(Fresh(now), steps, app);
            && c.request <= c.received
            && Messages(c.trace) <= Payloads(Decode(Stream(c), true))
            && (Messages(c.trace) == Payloads(Decode(Stream(c), true)) <==> Payloads(Decode(c.rx, true)) == [])
  {
    hide Run, Decode, Rest, Messages, Payloads;
    FreshAccounted(now);
    RunAccounted(Fresh(now), steps, app);
    var c := Run(Fresh(now), steps, app);
    var m, p := Messages(c.trace), Payloads(Decode(c.rx, true));
    assert |m + p| == |m| + |p|;
  }

  /** And after any read that arrived in the Open state, all of them: the messages are a function of
      the received bytes alone, however they were cut into reads. */
  lemma DeliveredIsAll(now: int, steps: seq<Step>, s: Step, app: App)
    requires var before := Run(Fresh(now), steps, app);
             && before.phase == Open && |before.rx| < RX_SIZE
             && s.io.Read? && s.io.read.Bytes? && s.io.read.data != []
    ensures var c := Run(Fresh(now), steps + [s], app);
            && c.request <= c.received
            && Messages(c.trace) == Payloads(Decode(Stream(c), true))
            && c.rx == Rest(Stream(c), true)
  {
    hide Run, Accounted, Base, Decode, Rest, Messages, Payloads;
    FreshAccounted(now);
    RunAccounted(Fresh(now), steps, app);
    Lifecycle.RunAppend(Fresh(now), steps, [s], app);
    var before := Run(Fresh(now), steps, app);
    Lifecycle.RunOne(before, s, app);
    if before.fault == Fine {
      OpenReadAll(before, s, app);
    } else {
      RunFault(now, steps, app);
      FaultReadAll(before, s, app);
    }
  }

  /** A fault is at the front of the receive buffer. */
  predicate FaultInFront(c: Conn)
  {
    c.fault != Fine ==> NextFrame(c.rx).Faulty?
  }

  lemma {:induction false} RunFault(now: int, steps: seq<Step>, app: App)
    ensures Base(Run(Fresh(now), steps, app)) && FaultInFront(Run(Fresh(now), steps, app))
  {
    hide DoStep, Base, NextFrame;
    if steps == [] {
      FreshAccounted(now);
    } else {
      var last := |steps| - 1;
      RunFault(now, steps[..last], app);
      var d := Run(Fresh(now), steps[..last], app);
      StepFault(d, steps[last], app);
      StepKeeps(x => true, d, steps[last], app) by { assert Stable(x => true); }
    }
  }

  lemma StepFault(c: Conn, s: Step, app: App)
    requires Base(c) && FaultInFront(c)
    ensures FaultInFront(DoStep(c, s, app))
  {
    hide OnData, NextFrame, Base;
    if c.fault == Fine && s.io.Read? && |c.rx| < RX_SIZE && s.io.read.Bytes? && s.io.read.data != [] {
      var c0 := c.(clock := s.now);
      var got := s.io.read.data[..Min(RX_SIZE - |c.rx|, |s.io.read.data|)];
      assert Base(c0) by { NoteKeeps(x => true, c, s.now, c.lastError) by { assert Stable(x => true); } }
      ReceiveKept(c0, got);
      DataFault(c0.(rx := c.rx + got, received := c.received + got), app);
    }
  }

  lemma DataFault(c: Conn, app: App)
    requires Base(c) && c.fault == Fine
    ensures FaultInFront(OnData(c, app))
  {
    hide NextFrame, ParseFrames, Handshake.ParseRequest, Handshake.Response, ParseHeader, Decode, Rest, Messages, Payloads;
    if c.phase == Open {
      LoopReads(c, app);
    }
  }

  lemma FaultReadAll(before: Conn, s: Step, app: App)
    requires Accounted(before) && before.fault != Fine && FaultInFront(before)
    ensures var c := DoStep(before, s, app);
            && c.request <= c.received
            && Messages(c.trace) == Payloads(Decode(Stream(c), true))
            && c.rx == Rest(Stream(c), true)
  {
    hide Accounted, Messages, Payloads, NextFrame;
    AccountedGives(before);
    PayloadsNone();
    assert Messages(before.trace) + [] == Messages(before.trace);
  }

  lemma OpenReadAll(before: Conn, s: Step, app: App)
    requires Base(before) && Accounted(before) && before.phase == Open && |before.rx| < RX_SIZE && before.fault == Fine
    requires s.io.Read? && s.io.read.Bytes? && s.io.read.data != []
    ensures var c := DoStep(before, s, app);
            && c.request <= c.received
            && Messages(c.trace) == Payloads(Decode(Stream(c), true))
            && c.rx == Rest(Stream(c), true)
  {
    hide Accounted, Decode, Rest, Messages, Payloads, OnData;
    var c0 := before.(clock := s.now);
    var got := s.io.read.data[..Min(RX_SIZE - |before.rx|, |s.io.read.data|)];
    var c1 := c0.(rx := before.rx + got, received := before.received + got);
    AccountedGrown(before, c1, got);
    ReceiveKept(c0, got);
    OpenReads(c1, app);
    AccountedGives(c1);
    var c := DoStep(before, s, app);
    assert c == OnData(c1, app).(lastError := Ok);
  }

  lemma AccountedGives(c: Conn)
    requires Accounted(c)
    ensures c.request <= c.received
    ensures Payloads(Decode(Stream(c), true)) == Messages(c.trace) + Payloads(Decode(c.rx, true))
    ensures Rest(Stream(c), true) == Rest(c.rx, true)
  {
  }

  lemma OpenReads(c: Conn, app: App)
    requires Base(c) && c.phase == Open
    ensures var r := OnData(c, app);
            && r.rx == Rest(c.rx, true) && r.received == c.received && r.request == c.request
            && Messages(r.trace) == Messages(c.trace) + Payloads(Decode(c.rx, true))
            && r.fault == (if NextFrame(r.rx).Faulty? then NextFrame(r.rx).fault else c.fault)
  {
    hide ParseFrames, Decode, Rest, Messages, Payloads, NextFrame;
    LoopReads(c, app);
  }

  // ---- the framing of the standard ----

  /** The code goes on past a size that wraps around 2^64, at the point where the standard's reading of
      what was received ends. */
  predicate ReadsPastWrap(c: Conn)
    requires c.request <= c.received
  {
    Wraps(StandardRest(Stream(c))) && !Stops(StandardRest(Stream(c)), true)
  }

  /** Unless it does, the messages delivered are those of the frames of section 5.2 of RFC 6455. */
  lemma DeliveredIsStandard(now: int, steps: seq<Step>, app: App)
    ensures var c := Run(Fresh(now), steps, app);
            && c.request <= c.received
            && (|c.received| < WORD && !ReadsPastWrap(c) ==>
                  Decode(Stream(c), true) == Standard(Stream(c)) && Messages(c.trace) <= Payloads(Standard(Stream(c))))
  {
    hide Run, Decode, Messages, Payloads, Standard, StandardRest, Wraps, Stops;
    DeliveredIsPrefix(now, steps, app);
    var c := Run(Fresh(now), steps, app);
    if |c.received| < WORD {
      StandardExactly(Stream(c));
    }
  }

  /** If it does, they need not be: a read of these fourteen bytes delivers a message, although by the
      standard not one frame has arrived. */
  lemma WrappedDelivery(c: Conn, app: App)
    requires Base(c) && c.phase == Open && c.rx == []
    ensures var d: seq<byte> := [0x8A, 0x7F] + AllOnes(8) + [0x00, 0x81, 0x01, 0x41];
            && Standard(d) == []
            && Messages(HandleRead(c, Bytes(d), app).conn.trace) == Messages(c.trace) + [[0x41]]
  {
    hide Decode, Rest, Messages, OnData, Standard, NextFrame;
    var d: seq<byte> := [0x8A, 0x7F] + AllOnes(8) + [0x00, 0x81, 0x01, 0x41];
    assert d[..Min(RX_SIZE - |c.rx|, |d|)] == d && c.rx + d == d;
    var c1 := c.(rx := c.rx + d, received := c.received + d);
    ReceiveKept(c, d);
    OpenReads(c1, app);
    WrappedStream();
    var f, g, h := Frame(true, PONG, false, Zeros(WORD - 1)), Frame(true, 15, false, []), Frame(true, TEXT, false, [0x41]);
    PayloadsCons(h, []);
    PayloadsCons(g, [h]);
    PayloadsCons(f, [g, h]);
    assert [h] + [] == [h] && [g] + [h] == [g, h] && [f] + [g, h] == [f, g, h];
  }

  // ---- frames that arrive with the request ----

  /** A frame in the same read as the request is taken into the buffer and not delivered: the handshake
      handler does not look at frames. It waits for a later read. */
  lemma HandshakeDeliversNothing(c: Conn, got: seq<byte>, app: App)
    requires Base(c) && c.phase == Handshaking && got != [] && |c.rx| + |got| <= RX_SIZE
    ensures Messages(HandleRead(c, Bytes(got), app).conn.trace) == []
  {
    hide OnData, Messages, Base;
    assert got[..Min(RX_SIZE - |c.rx|, |got|)] == got;
    ReceiveKept(c, got);
    AttemptDeliversNothing(c.(rx := c.rx + got, received := c.received + got), app);
  }

  lemma AttemptDeliversNothing(c: Conn, app: App)
    requires Base(c) && c.phase == Handshaking
    ensures Messages(OnData(c, app).trace) == []
  {
    hide Handshake.ParseRequest, Handshake.Response, Messages;
    NoMessages();
    var attempt := ParseHandshake(c);
    if attempt.ok {
      var request := Handshake.ParseRequest(c.rx[..Min(1024, |c.rx|)]);
      var response := Handshake.Response(request.key);
      var d := attempt.conn.(phase := Open);
      MessagesLog(c.trace, Responded(response));
      MessagesLog(c.trace + [Responded(response)], OnOpen);
      assert Base(Log(d, OnOpen)) by { UpgradeEnabled(c); BaseKept(c, UpgradeTo(request.size, response)); }
      SameInputNotify(Log(d, OnOpen), d, OnOpen, app);
    } else {
      FailedHandshake(c);
    }
  }
}
