/** What the application receives: the messages delivered over a whole run, however the byte stream
    was cut into reads. */
module ReceiveStream {
  import opened Bytes
  import opened Frames
  import opened Protocol
  import opened Actions
  import Lifecycle

  /** The messages delivered in a history. */
  function Messages(t: seq<Event>): seq<seq<byte>>
  {
    if t == [] then []
    else
      var last := |t| - 1;
      Messages(t[..last]) + if t[last].OnMessage? then [t[last].payload] else []
  }

  lemma MessagesLog(t: seq<Event>, e: Event)
    ensures Messages(t + [e]) == Messages(t) + if e.OnMessage? then [e.payload] else []
  {
    assert (t + [e])[..|t|] == t;
  }

  /** The payloads of the text and binary frames among fs. */
  function Payloads(fs: seq<Frame>): seq<seq<byte>>
  {
    if fs == [] then [] else PayloadOf(fs[0]) + Payloads(fs[1..])
  }

  function PayloadOf(f: Frame): seq<seq<byte>>
  {
    if f.opcode == TEXT || f.opcode == BINARY then [f.payload] else []
  }

  lemma {:induction false} PayloadsAppend(fs: seq<Frame>, gs: seq<Frame>)
    ensures Payloads(fs + gs) == Payloads(fs) + Payloads(gs)
  {
    hide Payloads, PayloadOf;
    if fs == [] {
      assert fs + gs == gs;
      PayloadsNone();
    } else {
      PayloadsAppend(fs[1..], gs);
      assert fs + gs == [fs[0]] + (fs[1..] + gs) && fs == [fs[0]] + fs[1..];
      PayloadsCons(fs[0], fs[1..] + gs);
      PayloadsCons(fs[0], fs[1..]);
    }
  }

  // ---- what calls leave alone ----

  /** Same input, nothing delivered. */
  predicate SameInput(c: Conn, d: Conn)
  {
    && d.rx == c.rx && d.received == c.received && d.request == c.request
    && Messages(d.trace) == Messages(c.trace)
  }

  lemma SameInputKept(c: Conn, d: Conn, a: Act)
    requires SameInput(c, d) && Enabled(d, a) && (ByUser(a) || a.Flush? || a.WritePong?)
    ensures SameInput(c, Apply(d, a))
  {
    hide FitOf, Output, Messages;
    var e := Apply(d, a);
    if e.trace != d.trace {
      MessagesLog(d.trace, e.trace[|d.trace|]);
    }
  }

  lemma SameInputNotify(c: Conn, d: Conn, e: Event, app: App)
    requires Base(Log(d, e)) && SameInput(c, Log(d, e))
    ensures Base(Notify(d, e, app)) && SameInput(c, Notify(d, e, app))
  {
    hide Base, Enabled, Apply, ByUser;
    var P := (x: Conn) => SameInput(c, x);
    SameInputStable(c);
    NotifyKeeps(P, d, e, app);
  }

  lemma SameInputStable(c: Conn)
    ensures StableUnderCalls((x: Conn) => SameInput(c, x))
  {
    hide Base, Enabled, Apply, ByUser, SameInput;
    forall x: Conn, a: Act | Base(x) && SameInput(c, x) && Enabled(x, a) && ByUser(a)
      ensures SameInput(c, Apply(x, a))
    {
      SameInputKept(c, x, a);
    }
  }

  // ---- the receive loop ----

  /** Base holds across a frame and a loop turn. */
  lemma FrameReads(c: Conn, f: Frame, app: App)
    requires Base(c) && Upgraded(c)
    ensures var r := HandleFrame(c, f, app);
            && Base(r) && r.rx == c.rx && r.received == c.received && r.request == c.request
            && Messages(r.trace) == Messages(c.trace) + PayloadOf(f)
  {
    hide Messages, FitOf, Output;
    if f.opcode == TEXT || f.opcode == BINARY {
      var d := Log(c, OnMessage(f.payload));
      MessagesLog(c.trace, OnMessage(f.payload));
      SameInputNotify(d, c, OnMessage(f.payload), app);
    } else if f.opcode == PING {
      SameInputKept(c, c, WritePong(f.payload));
      BaseKept(c, WritePong(f.payload));
    }
  }

  /** What each frame that is not Close does: a message is handed to the application, whose calls are then
      made; a ping is answered; anything else is ignored. */
  lemma FrameExactly(c: Conn, f: Frame, app: App)
    requires c.fault == Fine && f.opcode != CLOSE
    ensures var e := c.(trace := c.trace + [OnMessage(f.payload)]);
            HandleFrame(c, f, app) ==
            if f.opcode == 1 || f.opcode == 2 then Run(e, Lifecycle.CallSteps(app(e.trace), c.clock), app)
            else if f.opcode == 9 then WriteFrame(c, PONG, f.payload)
            else c
  {
    hide Notify, Run, WriteFrame;
    Lifecycle.NotifyAsRun(c, OnMessage(f.payload), app);
  }

  /** The loop delivers the messages of exactly the frames it removes, and stops where reading stops. */
  lemma {:induction false} LoopReads(c: Conn, app: App)
    requires Base(c) && Upgraded(c)
    ensures var r := ParseFrames(c, app);
            && r.rx == Rest(c.rx, true) && r.received == c.received && r.request == c.request
            && Messages(r.trace) == Messages(c.trace) + Payloads(Decode(c.rx, true))
            && r.fault == (if NextFrame(r.rx).Faulty? then NextFrame(r.rx).fault else c.fault)
    decreases |c.rx|
  {
    hide NextFrame, Messages, HandleFrame, PeerClosed, Payloads, PayloadOf, Base, ParseFrames;
    assert |c.rx| <= RX_SIZE by { BaseFits(c); }
    LoopTurn(c, app);
    var next := NextFrame(c.rx);
    if Stops(c.rx, true) {
      PayloadsNone();
      if next.Whole? {
        CloseReads(c, app);
        CloseKeepsFault(c, app);
      }
    } else {
      FrameReads(c, next.frame, app);
      var c1 := HandleFrame(c, next.frame, app);
      var c2 := c1.(rx := c1.rx[next.size..]);
      DiscardKept(c1, next.size);
      LoopReads(c2, app);
      PayloadsCons(next.frame, Decode(c2.rx, true));
    }
  }

  /** One turn of the loop, with the whole buffer in view. */
  lemma LoopTurn(c: Conn, app: App)
    requires |c.rx| <= RX_SIZE
    ensures var next := NextFrame(c.rx);
            ParseFrames(c, app) ==
            if next.Incomplete? then c
            else if next.Faulty? then c.(fault := next.fault)
            else if next.frame.opcode == CLOSE then PeerClosed(c, app)
            else
              var c1 := HandleFrame(c, next.frame, app);
              ParseFrames(c1.(rx := c1.rx[next.size..]), app)
  {
    hide NextFrame, HandleFrame, PeerClosed;
    assert c.rx[..Min(4096, |c.rx|)] == c.rx;
  }

  lemma PayloadsNone()
    ensures Payloads([]) == []
  {
  }

  lemma PayloadsCons(f: Frame, fs: seq<Frame>)
    ensures Payloads([f] + fs) == PayloadOf(f) + Payloads(fs)
  {
    assert ([f] + fs)[1..] == fs;
  }

  lemma CloseKeepsFault(c: Conn, app: App)
    ensures PeerClosed(c, app).fault == c.fault
  {
  }

  lemma CloseReads(c: Conn, app: App)
    requires Base(c) && Upgraded(c)
    ensures SameInput(c, PeerClosed(c, app))
  {
    hide Messages;
    MessagesLog(c.trace, OnClose(false));
    SameInputNotify(c, c, OnClose(false), app);
    var c1 := Notify(c, OnClose(false), app);
    MessagesLog(c1.trace, OnClose(true));
  }

  /** The buffer is full and still waiting exactly when the frame at its front declares more bytes than
      the buffer can hold. */
  lemma FullExactly(d: seq<byte>)
    requires |d| == RX_SIZE
    ensures NextFrame(d) == Incomplete <==>
            var r := ParseHeader(d); r.Parsed? && RX_SIZE < r.size + r.header.len < WORD
  {
    hide FromBigEndian, Body;
  }

  /** A spinning turn: dispatching the frame and removing the wrapped size leave the receive buffer as it
      was, so the loop starts over for ever; unless the frame is a Ping, nothing changes at all. */
  lemma SpinningRepeats(c: Conn, app: App)
    requires NextFrame(c.rx) == Faulty(Spinning)
    ensures var r := ParseHeader(c.rx);
            var f := Frame(r.header.fin, r.header.opcode, false, Zeros(r.header.len));
            var c1 := HandleFrame(c, f, app);
            var total := Wrap64(r.size + r.header.len);
            && total <= |c1.rx| && c1.rx[total..] == c.rx
            && (f.opcode != PING ==> c1.(rx := c1.rx[total..]) == c)
  {
    hide Body, ParseHeader;
    TurnShortens(c.rx);
    assert c.rx[0..] == c.rx;
  }

  /** k turns of the loop on the frame at the front, which has this header, each removing nothing. */
  function Spin(c: Conn, f: Frame, k: nat, app: App): Conn
  {
    if k == 0 then c else HandleFrame(Spin(c, f, k - 1, app), f, app)
  }

  function Copies(h: seq<byte>, n: nat): (s: seq<byte>)
    ensures |s| == n * |h|
  {
    if n == 0 then [] else Copies(h, n - 1) + h
  }

  /** After any number of turns the loop still spins, and nothing has happened except that a Ping has filled
      the send buffer with the ten-byte headers of its pong, as many as fit. */
  lemma {:induction false} SpinsForEver(c: Conn, k: nat, app: App)
    requires NextFrame(c.rx) == Faulty(Spinning) && |c.tx| <= TX_SIZE
    ensures var h := ParseHeader(c.rx).header;
            var f := Frame(h.fin, h.opcode, false, Zeros(h.len));
            var r := Spin(c, f, k, app);
            && NextFrame(r.rx) == Faulty(Spinning)
            && (h.opcode != PING ==> r == c)
            && (h.opcode == PING ==>
                  && r == c.(tx := r.tx, trace := r.trace)
                  && r.tx == c.tx + Copies(EncodeHeader(PONG, h.len, false), Min(k, (TX_SIZE - |c.tx|) / 10)))
  {
    hide NextFrame, ParseHeader, EncodeHeader, HandleFrame;
    SpinFacts(c.rx);
    var h := ParseHeader(c.rx).header;
    var f := Frame(h.fin, h.opcode, false, Zeros(h.len));
    if k > 0 {
      SpinsForEver(c, k - 1, app);
      SpinTurn(Spin(c, f, k - 1, app), f, app);
      if h.opcode == PING {
        SpinHeader(h.len);
        SpinFill(c.tx, EncodeHeader(PONG, h.len, false), k);
      }
    }
  }

  lemma SpinFacts(d: seq<byte>)
    requires NextFrame(d) == Faulty(Spinning)
    ensures ParseHeader(d).Parsed?
    ensures var h := ParseHeader(d).header; 65536 <= h.len && h.opcode !in {TEXT, BINARY, CLOSE}
  {
    hide FromBigEndian, Body;
    TurnShortens(d);
  }

  /** One turn. */
  lemma SpinTurn(c: Conn, f: Frame, app: App)
    requires |f.payload| >= 65536 && f.opcode !in {TEXT, BINARY, CLOSE}
    ensures var r := HandleFrame(c, f, app);
            var x := EncodeHeader(PONG, |f.payload|, false);
            && (f.opcode != PING ==> r == c)
            && (f.opcode == PING ==> r == c.(tx := r.tx, trace := r.trace)
                                     && r.tx == if |c.tx| + |x| > TX_SIZE then c.tx else c.tx + x)
  {
    hide EncodeHeader;
  }

  lemma SpinFill(tx: seq<byte>, x: seq<byte>, k: nat)
    requires |tx| <= TX_SIZE && |x| == 10 && k > 0
    ensures var room := (TX_SIZE - |tx|) / 10;
            var before := tx + Copies(x, Min(k - 1, room));
            tx + Copies(x, Min(k, room)) == if |before| + 10 > TX_SIZE then before else before + x
  {
    var room := (TX_SIZE - |tx|) / 10;
    if k <= room {
      assert Copies(x, k) == Copies(x, k - 1) + x;
    }
  }

  lemma SpinHeader(len: nat)
    requires len >= 65536
    ensures |EncodeHeader(PONG, len, false)| == 10
  {
  }

  // ---- the loop goes on after a callback has closed the connection ----

  /** The frames written in a history, whole or not: opcodes and payloads. */
  function Writes(t: seq<Event>): seq<(OpCode, seq<byte>)>
  {
    if t == [] then []
    else
      var last := |t| - 1;
      Writes(t[..last]) + if t[last].Wrote? then [(t[last].opcode, t[last].payload)] else []
  }

  lemma WritesLog(t: seq<Event>, e: Event)
    ensures Writes(t + [e]) == Writes(t) + if e.Wrote? then [(e.opcode, e.payload)] else []
  {
    assert (t + [e])[..|t|] == t;
  }

  /** The answers to the pings among fs. */
  function Pongs(fs: seq<Frame>): seq<(OpCode, seq<byte>)>
  {
    if fs == [] then [] else PongFor(fs[0]) + Pongs(fs[1..])
  }

  function PongFor(f: Frame): seq<(OpCode, seq<byte>)>
  {
    if f.opcode == PING then [(PONG, f.payload)] else []
  }

  lemma PongsCons(f: Frame, fs: seq<Frame>)
    ensures Pongs([f] + fs) == PongFor(f) + Pongs(fs)
  {
    assert ([f] + fs)[1..] == fs;
  }

  /** A callback on a connection that has left Open writes nothing. */
  lemma NotifyWritesNothing(c: Conn, e: Event, app: App)
    requires (c.phase == Closing || c.phase == Closed) && !e.Wrote?
    ensures Writes(Notify(c, e, app).trace) == Writes(c.trace)
  {
    hide Writes;
    var d := Log(c, e);
    WritesLog(c.trace, e);
    WritesLog(d.trace, OnClose(true));
    Lifecycle.CallsWhileClosing(d, app(d.trace), app);
  }

  /** Once the connection has left Open in the middle of the loop, the rest of the loop writes exactly the
      pongs of the pings among the remaining frames, in order and with their payloads: it stays
      silent exactly when there is no ping. */
  lemma {:induction false} LoopAfterClose(c: Conn, app: App)
    requires Base(c) && Upgraded(c) && (c.phase == Closing || c.phase == Closed)
    ensures Writes(ParseFrames(c, app).trace) == Writes(c.trace) + Pongs(Decode(c.rx, true))
    decreases |c.rx|
  {
    hide NextFrame, Writes, Base, ParseFrames, PongFor, Pongs;
    BaseFits(c);
    LoopTurn(c, app);
    var next := NextFrame(c.rx);
    if !Stops(c.rx, true) {
      var c1 := HandleFrame(c, next.frame, app);
      FrameAfterClose(c, next.frame, app);
      FrameReads(c, next.frame, app);
      DiscardKept(c1, next.size);
      LoopAfterClose(c1.(rx := c1.rx[next.size..]), app);
      PongsCons(next.frame, Decode(c.rx[next.size..], true));
    } else {
      NoPongs();
      if next.Whole? {
        NotifyWritesNothing(c, OnClose(false), app);
        NotifyWritesNothing(Notify(c, OnClose(false), app).(phase := Closed), OnClose(true), app);
      }
    }
  }

  lemma NoPongs()
    ensures Pongs([]) == []
  {
  }

  lemma FrameAfterClose(c: Conn, f: Frame, app: App)
    requires c.phase == Closing || c.phase == Closed
    ensures var r := HandleFrame(c, f, app);
            && (r.phase == Closing || r.phase == Closed)
            && Writes(r.trace) == Writes(c.trace) + PongFor(f)
  {
    hide FitOf, Output, Writes;
    if f.opcode == TEXT || f.opcode == BINARY {
      NotifyWritesNothing(c, OnMessage(f.payload), app);
    } else if f.opcode == PING {
      WritesLog(c.trace, Wrote(PONG, f.payload, FitOf(c, PONG, f.payload)));
    }
  }

  /** An application that closes the connection whenever a message arrives. */
  function CloseOnMessage(t: seq<Event>): seq<Call>
  {
    if t != [] && t[|t| - 1].OnMessage? then [Close(1000)] else []
  }

  /** It does happen: a message whose handler closes, followed by a ping in the same read, leaves a pong
      behind the close frame. */
  lemma PongAfterClose(c: Conn)
    requires c.phase == Open && c.rx == [] && |c.tx| <= 4096
    ensures HandleRead(c, Bytes([129, 0, 137, 0]), CloseOnMessage).conn.trace ==
            c.trace + [OnMessage([]), Wrote(CLOSE, [3, 232], Entire), Wrote(PONG, [], Entire)]
  {
    hide NextFrame, ParseFrames, EncodeHeader, HandleFrame, FitOf, Output;
    var d: seq<byte> := [129, 0, 137, 0];
    assert d[..Min(RX_SIZE - |c.rx|, |d|)] == d && c.rx + d == d;
    var c1 := c.(rx := d, received := c.received + d);
    EmptyFrame(d, TEXT);
    LoopTurn(c1, CloseOnMessage);
    ClosingTurn(c1);
    var c2 := HandleFrame(c1, Frame(true, TEXT, false, []), CloseOnMessage);
    assert d[2..] == [137, 0];
    PongTurn(c2.(rx := [137, 0]));
    assert c2.trace + [Wrote(PONG, [], Entire)] ==
           c.trace + [OnMessage([]), Wrote(CLOSE, [3, 232], Entire), Wrote(PONG, [], Entire)];
  }

  lemma PongTurn(c: Conn)
    requires c.rx == [137, 0] && |c.tx| <= 5000
    ensures ParseFrames(c, CloseOnMessage).trace == c.trace + [Wrote(PONG, [], Entire)]
  {
    hide NextFrame, ParseFrames, EncodeHeader;
    EmptyFrame(c.rx, PING);
    LoopTurn(c, CloseOnMessage);
    var d := WriteFrame(c, PONG, []).(rx := []);
    assert c.rx[2..] == [];
    LoopTurn(d, CloseOnMessage);
    EmptyStops(true);
  }

  /** Two bytes that make a frame without payload. */
  lemma EmptyFrame(d: seq<byte>, opcode: OpCode)
    requires |d| >= 2 && d[0] == 128 + opcode && d[1] == 0
    ensures NextFrame(d) == Whole(Frame(true, opcode, false, []), 2)
  {
  }

  lemma ClosingTurn(c: Conn)
    requires c.phase == Open && |c.tx| <= 4096
    ensures HandleFrame(c, Frame(true, TEXT, false, []), CloseOnMessage) ==
            Log(Log(c, OnMessage([])), Wrote(CLOSE, [3, 232], Entire))
            .(tx := c.tx + EncodeHeader(CLOSE, 2, false) + [3, 232], phase := Closing, closingAt := c.clock)
  {
    TwoBytes(1000);
    var d := Log(c, OnMessage([]));
    var calls := CloseOnMessage(d.trace);
    assert calls == [Close(1000)];
    var e := Invoke(d, Close(1000), CloseOnMessage);
    assert RunCalls(e, calls[1..], CloseOnMessage) == e;
    assert RunCalls(d, calls, CloseOnMessage) == e;
    assert ToBigEndian(1000, 2) == [3, 232];
    assert c.tx + (EncodeHeader(CLOSE, 2, false) + [3, 232]) == c.tx + EncodeHeader(CLOSE, 2, false) + [3, 232];
  }
}
