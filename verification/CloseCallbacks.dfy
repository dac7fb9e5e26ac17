/** How often the close callback is made, and when a close frame answers the peer's. */
module CloseCallbacks {
  import opened Bytes
  import opened Frames
  import opened Protocol
  import opened Actions
  import opened ReceiveStream
  import Handshake
  import Lifecycle
  import SendStream
  import ChunkIndependence
  import ReceiveRuns

  /** The close callbacks of a history, in order: `true` for a connection that has closed, `false` for a
      peer's Close frame. */
  function Closings(t: seq<Event>): seq<bool>
  {
    if t == [] then []
    else
      var last := |t| - 1;
      Closings(t[..last]) + if t[last].OnClose? then [t[last].clean] else []
  }

  lemma ClosingsLog(t: seq<Event>, e: Event)
    ensures Closings(t + [e]) == Closings(t) + if e.OnClose? then [e.clean] else []
  {
    assert (t + [e])[..|t|] == t;
  }

  /** Has a close frame been written? */
  predicate WroteClose(t: seq<Event>)
  {
    exists i :: 0 <= i < |t| && Lifecycle.IsCloseFrame(t[i])
  }

  lemma WroteCloseLog(t: seq<Event>, e: Event)
    ensures WroteClose(t + [e]) <==> WroteClose(t) || Lifecycle.IsCloseFrame(e)
  {
    var u := t + [e];
    assert u[|t|] == e;
    assert forall i :: 0 <= i < |t| ==> u[i] == t[i];
  }

  /** Without the peer's doing: after the callbacks `before`, there has been one more exactly if the
      connection is closed; and a close frame has been written exactly if an upgraded connection has left
      the Open state. */
  predicate Announced(c: Conn, before: seq<bool>)
  {
    && Closings(c.trace) == before + (if c.phase == Closed then [true] else [])
    && (Upgraded(c) ==> (WroteClose(c.trace) <==> Rank(c.phase) >= Rank(Closing)))
  }

  lemma AnnouncedLog(c: Conn, d: Conn, e: Event, before: seq<bool>)
    requires Announced(c, before) && d.trace == c.trace + [e] && d.request == c.request
    requires d.phase == c.phase || d.phase == Closed
    requires !Lifecycle.IsCloseFrame(e)
    requires if e.OnClose? then e.clean && c.phase == Closing && d.phase == Closed else d.phase == c.phase
    ensures Announced(d, before)
  {
    hide Closings, WroteClose;
    ClosingsLog(c.trace, e);
    WroteCloseLog(c.trace, e);
  }

  lemma AnnouncedSame(c: Conn, d: Conn, before: seq<bool>)
    requires Announced(c, before) && d.trace == c.trace && d.request == c.request && d.phase == c.phase
    ensures Announced(d, before)
  {
  }

  /** Every action of the user's calls keeps this, and sends nothing. */
  lemma AnnouncedByUser(c: Conn, a: Act, before: seq<bool>)
    requires Base(c) && Announced(c, before) && Enabled(c, a) && ByUser(a)
    ensures Announced(Apply(c, a), before) && Apply(c, a).sent == c.sent
  {
    hide FitOf, Output, Closings, WroteClose;
    var d := Apply(c, a);
    if d.trace == c.trace {
      AnnouncedSame(c, d, before);
    } else {
      ClosingsLog(c.trace, d.trace[|c.trace|]);
      WroteCloseLog(c.trace, d.trace[|c.trace|]);
    }
  }

  lemma AnnouncedStable(c: Conn, before: seq<bool>)
    ensures StableUnderCalls((x: Conn) => Announced(x, before) && x.sent == c.sent)
  {
    hide Base, Enabled, Apply, ByUser, Announced;
    forall x: Conn, a: Act | Base(x) && Announced(x, before) && x.sent == c.sent && Enabled(x, a) && ByUser(a)
      ensures Announced(Apply(x, a), before) && Apply(x, a).sent == c.sent
    {
      AnnouncedByUser(x, a, before);
    }
  }

  /** A callback keeps it, whatever it calls. */
  lemma AnnouncedNotify(c: Conn, e: Event, before: seq<bool>, app: App)
    requires Base(Log(c, e)) && Announced(Log(c, e), before)
    ensures Base(Notify(c, e, app)) && Announced(Notify(c, e, app), before) && Notify(c, e, app).sent == c.sent
  {
    hide Base, Announced, Notify;
    AnnouncedStable(c, before);
    NotifyKeeps((x: Conn) => Announced(x, before) && x.sent == c.sent, c, e, app);
  }

  // ---- the receive loop ----

  /** The connection when the loop has handled every frame before the one it stops at. */
  function Drained(c: Conn, app: App): Conn
    decreases |c.rx|
  {
    if Stops(c.rx, true) then c
    else
      var next := NextFrame(c.rx);
      var c1 := HandleFrame(c, next.frame, app);
      Drained(c1.(rx := c1.rx[next.size..]), app)
  }

  lemma FrameAnnounced(c: Conn, f: Frame, app: App)
    requires Base(c) && Upgraded(c) && Announced(c, []) && f.opcode != CLOSE
    ensures Announced(HandleFrame(c, f, app), []) && HandleFrame(c, f, app).sent == c.sent
  {
    hide FitOf, Output, Announced, Base, Notify;
    if f.opcode == TEXT || f.opcode == BINARY {
      AnnouncedLog(c, Log(c, OnMessage(f.payload)), OnMessage(f.payload), []);
      assert Base(Log(c, OnMessage(f.payload))) by { BaseKept(c, Deliver(f.payload)); }
      AnnouncedNotify(c, OnMessage(f.payload), [], app);
    } else if f.opcode == PING {
      AnnouncedLog(c, WriteFrame(c, PONG, f.payload), Wrote(PONG, f.payload, FitOf(c, PONG, f.payload)), []);
    }
  }

  /** The loop is that, and then the peer's Close frame, a fault, or nothing. */
  lemma {:induction false} LoopDrains(c: Conn, app: App)
    requires Base(c) && Upgraded(c) && Announced(c, [])
    ensures var d := Drained(c, app);
            && Base(d) && Upgraded(d) && Announced(d, []) && d.rx == Rest(c.rx, true) && d.sent == c.sent
            && ParseFrames(c, app) == (match NextFrame(d.rx)
                                       case Incomplete => d
                                       case Faulty(fault) => d.(fault := fault)
                                       case Whole(_, _) => PeerClosed(d, app))
    decreases |c.rx|
  {
    hide NextFrame, HandleFrame, PeerClosed, Base, ParseFrames, Announced;
    BaseFits(c);
    LoopTurn(c, app);
    if !Stops(c.rx, true) {
      var next := NextFrame(c.rx);
      var c1 := HandleFrame(c, next.frame, app);
      var c2 := c1.(rx := c1.rx[next.size..]);
      FrameReads(c, next.frame, app);
      FrameAnnounced(c, next.frame, app);
      DiscardKept(c1, next.size);
      AnnouncedSame(c1, c2, []);
      LoopDrains(c2, app);
    }
  }

  /** The peer's Close frame, when it reaches the connection d: the callback for the frame, then the
      callback for the closed connection. There is a third exactly when the application had already closed
      the connection by then. A close frame has been written exactly if the application asked for it, and
      the socket is shut before a byte of it has left. */
  lemma PeerCloseCallbacks(d: Conn, app: App)
    requires Base(d) && Upgraded(d) && Announced(d, [])
    ensures var e := Notify(d, OnClose(false), app);
            var r := PeerClosed(d, app);
            && r.phase == Closed && !r.socketOpen && r.sent == d.sent
            && Closings(r.trace) == (if d.phase == Closed then [true, false, true]
                                     else if e.phase == Closed then [false, true, true]
                                     else [false, true])
            && (d.phase == Closed ==> e.phase == Closed)
            && (WroteClose(r.trace) <==> e.phase != Open)
  {
    hide Closings, WroteClose, Base, Notify;
    var e := Notify(d, OnClose(false), app);
    ClosingsLog(d.trace, OnClose(false));
    WroteCloseLog(d.trace, OnClose(false));
    assert Base(Log(d, OnClose(false))) by { BaseKept(d, PeerCloses); }
    if d.phase != Closed {
      AnnouncedNotify(d, OnClose(false), [false], app);
    }
    assert Base(e) by { NotifyKeeps(x => true, d, OnClose(false), app) by { assert StableUnderCalls(x => true); } }
    assert e.phase != Handshaking by { UpgradedPhase(e); }
    ClosingsLog(e.trace, OnClose(true));
    WroteCloseLog(e.trace, OnClose(true));
  }

  lemma UpgradedPhase(c: Conn)
    requires Base(c) && Upgraded(c)
    ensures c.phase != Handshaking
  {
  }

  // ---- steps ----

  /** Does this step bring a peer's Close frame to an open connection? Decided by the bytes alone. */
  predicate PeerCloseRead(c: Conn, s: Step)
  {
    && c.fault == Fine && c.phase == Open && |c.rx| < RX_SIZE && s.io.Read? && s.io.read.Bytes? && s.io.read.data != []
    && NextFrame(Rest(c.rx + Got(c, s), true)).Whole?
  }

  /** What such a read takes. */
  function Got(c: Conn, s: Step): seq<byte>
    requires |c.rx| < RX_SIZE && s.io.Read? && s.io.read.Bytes?
  {
    s.io.read.data[..Min(RX_SIZE - |c.rx|, |s.io.read.data|)]
  }

  /** The connection when that Close frame is next. */
  function AtPeerClose(c: Conn, s: Step, app: App): Conn
    requires |c.rx| < RX_SIZE && s.io.Read? && s.io.read.Bytes?
  {
    Drained(c.(clock := s.now, rx := c.rx + Got(c, s), received := c.received + Got(c, s)), app)
  }

  /** A read of the peer's Close frame in the Open state: it ends in Closed with the socket shut, both close
      callbacks are made, and nothing has been sent in between. No close frame had been written before, and
      one has been by the end exactly if a callback of this read closed the connection. */
  lemma PeerCloseStep(c: Conn, s: Step, app: App)
    requires Base(c) && Announced(c, []) && PeerCloseRead(c, s)
    ensures var d := AtPeerClose(c, s, app);
            var e := Notify(d, OnClose(false), app);
            var r := DoStep(c, s, app);
            && r.phase == Closed && !r.socketOpen && r.sent == c.sent
            && Closings(r.trace) == (if d.phase == Closed then [true, false, true]
                                     else if e.phase == Closed then [false, true, true]
                                     else [false, true])
            && (d.phase == Closed ==> e.phase == Closed)
            && !WroteClose(c.trace) && (WroteClose(r.trace) <==> e.phase != Open)
  {
    hide Closings, WroteClose, NextFrame, Rest, Drained, PeerClosed, ParseFrames, Notify;
    var c1 := c.(clock := s.now, rx := c.rx + Got(c, s), received := c.received + Got(c, s));
    ReceiveKept(c.(clock := s.now), Got(c, s));
    AnnouncedSame(c, c1, []);
    LoopDrains(c1, app);
    PeerCloseCallbacks(Drained(c1, app), app);
  }

  /** Every other step keeps the simple account. */
  lemma OtherStep(c: Conn, s: Step, app: App)
    requires Base(c) && Announced(c, []) && !PeerCloseRead(c, s)
    ensures Announced(DoStep(c, s, app), [])
  {
    hide Announced, HandleWrite, Invoke, OnData, Base, NextFrame, Rest;
    if c.fault != Fine { return; }
    var c0 := c.(clock := s.now);
    assert Base(c0) by { NoteKeeps(x => true, c, s.now, c.lastError) by { assert Stable(x => true); } }
    AnnouncedSame(c, c0, []);
    match s.io
    case Read(res) =>
      var r := DoStep(c, s, app);
      if |c.rx| < RX_SIZE && res.Bytes? && res.data != [] {
        var c1 := c0.(rx := c0.rx + Got(c, s), received := c0.received + Got(c, s));
        ReceiveKept(c0, Got(c, s));
        AnnouncedSame(c0, c1, []);
        DataAnnounced(c1, app);
        AnnouncedSame(OnData(c1, app), r, []);
      } else {
        AnnouncedSame(c0, r, []);
      }
    case Write(vectored, res) => WriteAnnounced(c0, vectored, res, app);
    case Api(call) =>
      AnnouncedStable(c0, []);
      InvokeKeeps((x: Conn) => Announced(x, []) && x.sent == c0.sent, c0, call, app);
    case Tick =>
  }

  lemma DataAnnounced(c: Conn, app: App)
    requires Base(c) && Announced(c, [])
    requires c.phase == Open ==> !NextFrame(Rest(c.rx, true)).Whole?
    ensures Announced(OnData(c, app), [])
  {
    hide Announced, HandshakeOnData, ParseFrames, NextFrame, Rest, Drained, PeerClosed, ParseHeader;
    match c.phase
    case Handshaking => HandshakeAnnounced(c, app);
    case Open =>
      LoopDrains(c, app);
      AnnouncedSame(Drained(c, app), ParseFrames(c, app), []);
    case Closing =>
      AnnouncedLog(c, Log(c.(phase := Closed), OnClose(true)), OnClose(true), []);
      AnnouncedSame(Log(c.(phase := Closed), OnClose(true)), Log(c.(phase := Closed, socketOpen := false), OnClose(true)), []);
    case Closed =>
  }

  lemma HandshakeAnnounced(c: Conn, app: App)
    requires Base(c) && Announced(c, []) && c.phase == Handshaking
    ensures Announced(HandshakeOnData(c, app), [])
  {
    hide Handshake.ParseRequest, Handshake.Response, Announced, Notify;
    var request := Handshake.ParseRequest(c.rx[..Min(1024, |c.rx|)]);
    if request.Upgrade? {
      var response := Handshake.Response(request.key);
      Handshake.ResponseLength(request.key);
      var d := ParseHandshake(c).conn.(phase := Open);
      assert Base(Log(d, OnOpen)) by { UpgradeEnabled(c); BaseKept(c, UpgradeTo(request.size, response)); }
      UpgradeAnnounced(Log(d, OnOpen), response);
      AnnouncedNotify(d, OnOpen, [], app);
    } else {
      AnnouncedSame(c, HandshakeOnData(c, app), []);
    }
  }

  lemma UpgradeAnnounced(c: Conn, response: seq<byte>)
    requires c.phase == Open && c.trace == [] + [Responded(response)] + [OnOpen]
    ensures Announced(c, [])
  {
    ClosingsLog([], Responded(response));
    ClosingsLog([Responded(response)], OnOpen);
    assert c.trace == [Responded(response)] + [OnOpen];
  }

  lemma WriteAnnounced(c: Conn, vectored: bool, res: WriteResult, app: App)
    requires Base(c) && Announced(c, [])
    ensures Announced(HandleWrite(c, vectored, res, app).conn, [])
  {
    hide Announced, Notify;
    var r := HandleWrite(c, vectored, res, app).conn;
    if c.tx != [] && res.Accepted? {
      var k := Min(res.n, if vectored then |c.tx| else Min(512, |c.tx|));
      var d := Advance(c, k);
      if d.paused && |d.tx| < TX_LOW && !(vectored && k == 0) {
        var e := OnDrain(|d.sent|);
        BaseKept(c, Flush(k));
        AnnouncedLog(c, Log(d.(paused := false), e), e, []);
        AnnouncedNotify(d.(paused := false), e, [], app);
        AnnouncedSame(Notify(d.(paused := false), e, app), r, []);
      } else {
        AnnouncedSame(c, r, []);
      }
    } else {
      AnnouncedSame(c, r, []);
    }
  }

  /** A closed connection makes no further close callback. */
  lemma ClosedStep(c: Conn, s: Step, app: App)
    requires c.phase == Closed
    ensures DoStep(c, s, app).phase == Closed && Closings(DoStep(c, s, app).trace) == Closings(c.trace)
  {
    hide Closings;
    if c.fault == Fine && s.io.Write? && c.tx != [] && s.io.write.Accepted? {
      var k := Min(s.io.write.n, if s.io.vectored then |c.tx| else Min(512, |c.tx|));
      ClosingsLog(c.trace, OnDrain(|Advance(c, k).sent|));
    }
  }

  // ---- the close handshake ----

  /** A whole header with opcode 8 stands at the front. */
  predicate FrontIsClose(d: seq<byte>)
  {
    ParseHeader(d).Parsed? && LowNibble(d[0]) == 8
  }

  /** A read in Closing completes the close handshake exactly if the header of a Close frame is then at the
      front of the receive buffer, and takes nothing out of the buffer in either case. */
  lemma ClosingReads(c: Conn, got: seq<byte>, app: App)
    requires Base(c) && c.phase == Closing && got != [] && |c.rx| + |got| <= 4096
    ensures var r := HandleRead(c, ReadResult.Bytes(got), app).conn;
            && r.rx == c.rx + got
            && if FrontIsClose(c.rx + got)
               then r.phase == Closed && !r.socketOpen && c.trace + [OnClose(true)] <= r.trace
               else r.phase == Closing && r.socketOpen && r.trace == c.trace && r.tx == c.tx
  {
    hide ParseHeader, LowNibble, Notify;
    assert got[..Min(RX_SIZE - |c.rx|, |got|)] == got;
    var d := c.rx + got;
    FrontHeader(d);
    if FrontIsClose(d) {
      var c1 := c.(rx := d, received := c.received + got, phase := Closed);
      ClosedNotify(c1, app);
    }
  }

  /** The first 1024 bytes show the header if the whole buffer does. */
  lemma FrontHeader(d: seq<byte>)
    ensures var p := ParseHeader(d[..Min(1024, |d|)]);
            && (p.Parsed? <==> ParseHeader(d).Parsed?)
            && (p.Parsed? ==> |d| >= 2 && p == ParseHeader(d) && (p.header.opcode == CLOSE <==> LowNibble(d[0]) == 8))
  {
    hide LowNibble, FromBigEndian;
    var front := d[..Min(1024, |d|)];
    assert front + d[|front|..] == d;
    HeaderPrefix(front, d[|front|..]);
    if |d| >= 1 { NibbleIs(d[0]); }
  }

  lemma ClosedNotify(c: Conn, app: App)
    requires c.phase == Closed
    ensures Notify(c, OnClose(true), app) == Log(c, OnClose(true))
  {
  }

  /** A connection in Closing with another frame at the front. */
  predicate Blocked(c: Conn)
  {
    Base(c) && c.phase == Closing && ParseHeader(c.rx).Parsed? && LowNibble(c.rx[0]) != 8
  }

  lemma BlockedStep(c: Conn, s: Step, app: App)
    requires Blocked(c) && ChunkIndependence.NeverCloses(app) && !(s.io.Api? && s.io.call.Close?)
    ensures Blocked(DoStep(c, s, app))
  {
    hide ParseHeader, LowNibble, ChunkIndependence.NeverCloses, Base, Notify;
    if c.fault != Fine { return; }
    var r := DoStep(c, s, app);
    var c0 := c.(clock := s.now);
    StepKeeps(x => true, c, s, app) by { assert Stable(x => true); }
    assert Base(c0) by { NoteKeeps(x => true, c, s.now, c.lastError) by { assert Stable(x => true); } }
    match s.io
    case Read(res) =>
      if |c.rx| < RX_SIZE && res.Bytes? && res.data != [] {
        var got := res.data[..Min(RX_SIZE - |c.rx|, |res.data|)];
        HeaderPrefix(c.rx, got);
        assert HandleRead(c0, res, app) == HandleRead(c0, ReadResult.Bytes(got), app) by {
          assert got[..Min(RX_SIZE - |c.rx|, |got|)] == got;
        }
        NonEmptyHeader(c.rx);
        ClosingReads(c0, got, app);
      }
    case Write(vectored, res) =>
      ChunkIndependence.WriteStays(c0, vectored, res, app);
      ReceiveRuns.WriteSameInput(c0, vectored, res, app);
    case Api(call) =>
    case Tick =>
  }

  lemma NonEmptyHeader(d: seq<byte>)
    requires ParseHeader(d).Parsed?
    ensures |d| >= 2
  {
  }

  /** Since nothing is taken out, a frame that arrived before the peer's Close frame hides it for ever: the
      connection stays in Closing over every run in which the application does not close it again. */
  lemma {:induction false} HiddenClose(c: Conn, steps: seq<Step>, app: App)
    requires Blocked(c) && ChunkIndependence.NeverCloses(app)
    requires forall i :: 0 <= i < |steps| ==> !(steps[i].io.Api? && steps[i].io.call.Close?)
    ensures Blocked(Run(c, steps, app))
  {
    hide DoStep, Blocked, ChunkIndependence.NeverCloses;
    if steps != [] {
      var last := |steps| - 1;
      HiddenClose(c, steps[..last], app);
      BlockedStep(Run(c, steps[..last], app), steps[last], app);
    }
  }

  // ---- runs ----

  /** Some step of the run brought a peer's Close frame to the open connection. */
  predicate ClosedByPeer(now: int, steps: seq<Step>, app: App)
  {
    steps != [] &&
    var init := steps[..|steps| - 1];
    ClosedByPeer(now, init, app) || PeerCloseRead(Run(Fresh(now), init, app), steps[|steps| - 1])
  }

  /** Over every run from creation, with any callbacks: unless a peer's Close frame was read in the Open
      state, the close callback is made exactly once, when the connection is closed, and a close frame has
      been written exactly if an upgraded connection has left the Open state. If one was read, the
      connection is closed, the callback for the frame has been made exactly once and that for the closed
      connection once or twice. */
  lemma {:induction false} ClosesAnnounced(now: int, steps: seq<Step>, app: App)
    ensures var c := Run(Fresh(now), steps, app);
            && Base(c)
            && if ClosedByPeer(now, steps, app)
               then c.phase == Closed && Closings(c.trace) in {[false, true], [false, true, true], [true, false, true]}
               else Announced(c, [])
  {
    hide DoStep, Announced, Closings, PeerCloseRead, Base;
    if steps == [] {
      Lifecycle.FreshBase(now);
      FreshAnnounced(now);
    } else {
      var last := |steps| - 1;
      var init := steps[..last];
      var c := Run(Fresh(now), init, app);
      ClosesAnnounced(now, init, app);
      StepKeeps(x => true, c, steps[last], app) by { assert Stable(x => true); }
      if ClosedByPeer(now, init, app) {
        ClosedStep(c, steps[last], app);
      } else if PeerCloseRead(c, steps[last]) {
        PeerCloseStep(c, steps[last], app);
      } else {
        OtherStep(c, steps[last], app);
      }
    }
  }

  lemma FreshAnnounced(now: int)
    ensures Announced(Fresh(now), [])
  {
  }

  /** So the close callback is made exactly once over a run that ends in Closed, if and only if no peer's
      Close frame was read in the Open state. */
  lemma CloseCallbackOnce(now: int, steps: seq<Step>, app: App)
    ensures var c := Run(Fresh(now), steps, app);
            && (|Closings(c.trace)| == 0 <==> c.phase != Closed)
            && (|Closings(c.trace)| == 1 <==> c.phase == Closed && !ClosedByPeer(now, steps, app))
            && (false in Closings(c.trace) <==> ClosedByPeer(now, steps, app))
  {
    hide Run, Closings, ClosedByPeer;
    ClosesAnnounced(now, steps, app);
  }

  lemma CloseCallbackShapes(now: int, steps: seq<Step>, app: App)
    ensures var c := Run(Fresh(now), steps, app);
            var m := Closings(c.trace);
            if c.phase == Closed then m in {[true], [false, true], [false, true, true], [true, false, true]} else m == []
  {
    hide Run, Closings, ClosedByPeer, WroteClose;
    ClosesAnnounced(now, steps, app);
    assert [] + [true] == [true];
  }

  // ---- inputs ----

  /** An empty Close frame and an application that does nothing: both callbacks are made, and no close
      frame answers, which section 5.5.1 of RFC 6455 demands. */
  lemma NoEcho(c: Conn)
    requires c.phase == Open && c.rx == []
    ensures HandleRead(c, ReadResult.Bytes([0x88, 0x00]), SendStream.Quiet).conn.trace ==
            c.trace + [OnClose(false), OnClose(true)]
    ensures HandleRead(c, ReadResult.Bytes([0x88, 0x00]), SendStream.Quiet).conn.tx == c.tx
  {
    hide NextFrame, ParseFrames;
    var c1 := EmptyCloseTurn(c, SendStream.Quiet);
    var e := Log(c1, OnClose(false));
    assert SendStream.Quiet(e.trace) == [] && RunCalls(e, [], SendStream.Quiet) == e;
    assert Notify(c1, OnClose(false), SendStream.Quiet) == e;
  }

  /** An application that closes twice when the peer's Close frame is announced. */
  function CloseTwice(t: seq<Event>): seq<Call>
  {
    if t != [] && t[|t| - 1] == OnClose(false) then [Close(1000), Close(1000)] else []
  }

  /** It gets three callbacks. */
  lemma ThreeCallbacks(c: Conn)
    requires Base(c) && c.phase == Open && c.rx == [] && Announced(c, [])
    ensures Closings(HandleRead(c, ReadResult.Bytes([0x88, 0x00]), CloseTwice).conn.trace) == [false, true, true]
  {
    hide NextFrame, ParseFrames, Closings, WroteClose, PeerClosed;
    var c1 := EmptyCloseTurn(c, CloseTwice);
    ReceiveKept(c, [0x88, 0x00]);
    AnnouncedSame(c, c1, []);
    PeerCloseCallbacks(c1, CloseTwice);
    ClosesInCallback(c1);
  }

  lemma EmptyCloseTurn(c: Conn, app: App) returns (c1: Conn)
    requires c.phase == Open && c.rx == []
    ensures c1 == c.(rx := c.rx + [0x88, 0x00], received := c.received + [0x88, 0x00])
    ensures HandleRead(c, ReadResult.Bytes([0x88, 0x00]), app).conn == PeerClosed(c1, app).(lastError := Ok)
  {
    hide NextFrame, ParseFrames, PeerClosed;
    var d: seq<byte> := [0x88, 0x00];
    assert d[..Min(RX_SIZE - |c.rx|, |d|)] == d && c.rx + d == d;
    c1 := c.(rx := c.rx + d, received := c.received + d);
    EmptyFrame(d, CLOSE);
    LoopTurn(c1, app);
  }

  lemma ClosesInCallback(c: Conn)
    requires c.phase == Open
    ensures Notify(c, OnClose(false), CloseTwice).phase == Closed
  {
    hide Output, FitOf;
    var e := Log(c, OnClose(false));
    var calls := [Close(1000), Close(1000)];
    assert CloseTwice(e.trace) == calls;
    var f := Invoke(e, calls[0], CloseTwice);
    assert f.phase == Closing;
    var g := Invoke(f, calls[1], CloseTwice);
    assert g.phase == Closed;
    assert calls[1..] == [calls[1]] && calls[1..][1..] == [];
    assert RunCalls(e, calls, CloseTwice) == RunCalls(f, calls[1..], CloseTwice) == RunCalls(g, [], CloseTwice) == g;
  }
}
