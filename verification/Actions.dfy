/** The atomic actions of a connection, and an induction principle: a property that every action
    preserves is preserved by every entry point and every run, however the callbacks nest. */
module Actions {
  import opened Bytes
  import opened Frames
  import opened Protocol
  import Handshake

  datatype Act =
    | WriteData(opcode: OpCode, payload: seq<byte>)
    | WritePong(payload: seq<byte>)
    | Pause
    | StartClose(code: nat)
    | Shut
    | PeerShut
    | DropSocket
    | PeerCloses
    | Deliver(payload: seq<byte>)
    | Discard(n: nat)
    | Receive(data: seq<byte>)
    | UpgradeTo(size: nat, response: seq<byte>)
    | Flush(n: nat)
    | Note(clock: int, error: ErrorCode)
    | Fail(fault: Fault)

  /** Has the handshake succeeded? */
  predicate Upgraded(c: Conn)
  {
    c.request != []
  }

  predicate Enabled(c: Conn, a: Act)
  {
    match a
    case WriteData(opcode, _) => c.phase == Open && (opcode == TEXT || opcode == BINARY)
    case WritePong(_) => Upgraded(c)
    case Pause => !c.paused && |c.tx| > TX_HIGH && Upgraded(c)
    case StartClose(_) => c.phase == Open
    case Shut => c.phase == Handshaking || c.phase == Closing
    case PeerShut => Upgraded(c)
    case DropSocket => c.phase == Closed
    case PeerCloses => Upgraded(c)
    case Deliver(_) => Upgraded(c)
    case Discard(n) => Upgraded(c) && n <= |c.rx|
    case Receive(data) => |c.rx| + |data| <= RX_SIZE
    case UpgradeTo(size, response) =>
      c.phase == Handshaking && 0 < size <= |c.rx| && Handshake.IsHead(c.rx[..size]) && |c.tx| + |response| <= TX_SIZE
    case Flush(n) => n <= |c.tx|
    case Note(_, _) => true
    case Fail(_) => true
  }

  function Apply(c: Conn, a: Act): Conn
    requires Enabled(c, a)
  {
    match a
    case WriteData(opcode, payload) => WriteFrame(c, opcode, payload)
    case WritePong(payload) => WriteFrame(c, PONG, payload)
    case Pause => Log(c.(paused := true), OnBackpressure(|c.sent|))
    case StartClose(code) => WriteCloseFrame(c, code).(phase := Closing, closingAt := c.clock)
    case Shut => Log(c.(phase := Closed), OnClose(true))
    case PeerShut => Log(c.(phase := Closed), OnClose(true))
    case DropSocket => c.(socketOpen := false)
    case PeerCloses => Log(c, OnClose(false))
    case Deliver(payload) => Log(c, OnMessage(payload))
    case Discard(n) => c.(rx := c.rx[n..])
    case Receive(data) => c.(rx := c.rx + data, received := c.received + data)
    case UpgradeTo(size, response) =>
      Log(Log(c.(rx := c.rx[size..], request := c.rx[..size], tx := c.tx + response, phase := Open),
              Responded(response)), OnOpen)
    case Flush(n) =>
      var d := Advance(c, n);
      if d.paused && |d.tx| < TX_LOW then Log(d.(paused := false), OnDrain(|d.sent|)) else d
    case Note(clock, error) => c.(clock := clock, lastError := error)
    case Fail(fault) => c.(fault := fault)
  }

  /** The actions that the user's calls consist of. */
  predicate ByUser(a: Act)
  {
    a.WriteData? || a.Pause? || a.StartClose? || a.Shut? || a.DropSocket?
  }

  /** What holds of every connection at every moment: both buffers fit, only a closed connection has
      lost its socket, nothing happens before the handshake is over and nothing is sent without it. */
  predicate Base(c: Conn)
  {
    && |c.rx| <= RX_SIZE && |c.tx| <= TX_SIZE
    && (!c.socketOpen ==> c.phase == Closed)
    && (c.phase == Handshaking ==> !Upgraded(c) && c.trace == [] && c.rx == c.received)
    && (c.phase == Open || c.phase == Closing ==> Upgraded(c))
    && (!Upgraded(c) ==> c.tx == [] && c.sent == [] && !c.paused)
  }

  lemma BaseKept(c: Conn, a: Act)
    requires Base(c) && Enabled(c, a)
    ensures Base(Apply(c, a))
  {
    hide EncodeHeader, Handshake.IsHead;
  }

  lemma WrittenKept(c: Conn, opcode: OpCode, payload: seq<byte>)
    requires Base(c) && c.phase == Open && (opcode == TEXT || opcode == BINARY)
    ensures Base(WriteFrame(c, opcode, payload)) && Upgraded(WriteFrame(c, opcode, payload))
  {
    hide EncodeHeader;
    BaseKept(c, WriteData(opcode, payload));
  }

  lemma BaseFits(c: Conn)
    requires Base(c)
    ensures |c.rx| <= RX_SIZE && |c.tx| <= TX_SIZE
  {
  }

  lemma ReceiveKept(c: Conn, got: seq<byte>)
    requires Base(c) && |c.rx| + |got| <= RX_SIZE
    ensures Base(c.(rx := c.rx + got, received := c.received + got))
  {
  }

  lemma DiscardKept(c: Conn, n: nat)
    requires Base(c) && Upgraded(c) && n <= |c.rx|
    ensures Base(c.(rx := c.rx[n..]))
  {
  }

  ghost predicate Stable(P: Conn -> bool)
  {
    forall c: Conn, a: Act :: Base(c) && P(c) && Enabled(c, a) ==> P(Apply(c, a))
  }

  /** The actions within the handling of received data: nothing is read or written meanwhile, and no time
      passes. */
  predicate Within(c: Conn, a: Act)
  {
    !a.Flush? && !a.Receive? && (a.Note? ==> a.clock == c.clock)
  }

  ghost predicate StableWithin(P: Conn -> bool)
  {
    forall c: Conn, a: Act :: Base(c) && P(c) && Enabled(c, a) && Within(c, a) ==> P(Apply(c, a))
  }

  ghost predicate StableUnderCalls(P: Conn -> bool)
  {
    forall c: Conn, a: Act :: Base(c) && P(c) && Enabled(c, a) && ByUser(a) ==> P(Apply(c, a))
  }

  lemma Narrower(P: Conn -> bool)
    ensures Stable(P) ==> StableWithin(P)
    ensures StableWithin(P) ==> StableUnderCalls(P)
  {
    hide Base, Enabled, Apply;
  }

  /** One action. */
  lemma Act1(P: Conn -> bool, c: Conn, a: Act)
    requires Base(c) && P(c) && Enabled(c, a)
    requires Stable(P) || (StableWithin(P) && Within(c, a)) || (StableUnderCalls(P) && ByUser(a))
    ensures Base(Apply(c, a)) && P(Apply(c, a))
  {
    BaseKept(c, a);
  }

  lemma {:induction false} CallsKeep(P: Conn -> bool, c: Conn, calls: seq<Call>, app: App)
    requires Base(c) && P(c) && StableUnderCalls(P)
    ensures Base(RunCalls(c, calls, app)) && P(RunCalls(c, calls, app))
    decreases Depth(c), |calls|, 0
  {
    if calls != [] {
      InvokeKeeps(P, c, calls[0], app);
      CallsKeep(P, Invoke(c, calls[0], app), calls[1..], app);
    }
  }

  lemma {:induction false} InvokeKeeps(P: Conn -> bool, c: Conn, call: Call, app: App)
    requires Base(c) && P(c) && StableUnderCalls(P)
    ensures Base(Invoke(c, call, app)) && P(Invoke(c, call, app))
    decreases Depth(c), 0, 2
  {
    hide FitOf, Output;
    match call
    case Send(payload, binary) =>
      if c.phase == Open {
        var opcode := if binary then BINARY else TEXT;
        Act1(P, c, WriteData(opcode, payload));
        var c1 := WriteFrame(c, opcode, payload);
        HighWatermarkKeeps(P, c1, app);
      }
    case Close(code) =>
      if c.phase == Open {
        Act1(P, c, StartClose(code));
      } else if c.phase != Closed {
        Act1(P, c, Shut);
        var c1 := Log(c.(phase := Closed), OnClose(true));
        Act1(P, c1, DropSocket);
      }
  }

  lemma {:induction false} HighWatermarkKeeps(P: Conn -> bool, c: Conn, app: App)
    requires Base(c) && P(c) && StableUnderCalls(P) && Upgraded(c)
    ensures Base(CheckHighWatermark(c, app)) && P(CheckHighWatermark(c, app))
    decreases Depth(c), 0, 1
  {
    if !c.paused && |c.tx| > TX_HIGH {
      Act1(P, c, Pause);
      var c1 := Log(c.(paused := true), OnBackpressure(|c.sent|));
      CallsKeep(P, c1, app(c1.trace), app);
    }
  }

  /** A callback: once the event is logged, whatever it calls keeps the property. */
  lemma NotifyKeeps(P: Conn -> bool, c: Conn, e: Event, app: App)
    requires Base(Log(c, e)) && P(Log(c, e)) && StableUnderCalls(P)
    ensures Base(Notify(c, e, app)) && P(Notify(c, e, app))
  {
    CallsKeep(P, Log(c, e), app(Log(c, e).trace), app);
  }

  lemma ShutKeeps(P: Conn -> bool, c: Conn, app: App)
    requires Base(c) && P(c) && StableWithin(P) && Upgraded(c)
    ensures var r := Notify(c.(phase := Closed), OnClose(true), app).(socketOpen := false);
            Base(r) && P(r)
  {
    Narrower(P);
    Act1(P, c, PeerShut);
    Act1(P, Log(c.(phase := Closed), OnClose(true)), DropSocket);
  }

  /** A request found by the attempt makes the upgrade possible. */
  lemma UpgradeEnabled(c: Conn)
    requires Base(c) && c.phase == Handshaking && Handshake.ParseRequest(c.rx[..Min(1024, |c.rx|)]).Upgrade?
    ensures var request := Handshake.ParseRequest(c.rx[..Min(1024, |c.rx|)]);
            Enabled(c, UpgradeTo(request.size, Handshake.Response(request.key)))
  {
    hide Handshake.ParseRequest, Handshake.Response, Handshake.IsHead;
    var data := c.rx[..Min(1024, |c.rx|)];
    var request := Handshake.ParseRequest(data);
    Handshake.RequestIsHead(data);
    assert data[..request.size] == c.rx[..request.size];
    Handshake.ResponseLength(request.key);
  }

  lemma HandshakeKeeps(P: Conn -> bool, c: Conn, app: App)
    requires Base(c) && P(c) && StableWithin(P) && c.phase == Handshaking
    ensures Base(HandshakeOnData(c, app)) && P(HandshakeOnData(c, app))
  {
    Narrower(P);
    hide Handshake.ParseRequest, Handshake.Response, Handshake.IsHead;
    var data := c.rx[..Min(1024, |c.rx|)];
    match Handshake.ParseRequest(data)
    case Waiting =>
    case Malformed =>
      Act1(P, c, Note(c.clock, HandshakeFailed));
    case Upgrade(size, key) =>
      var response := Handshake.Response(key);
      Handshake.ResponseLength(key);
      UpgradeEnabled(c);
      Act1(P, c, Note(c.clock, Ok));
      var c1 := Apply(c, Note(c.clock, Ok));
      Act1(P, c1, UpgradeTo(size, response));
      var c2 := ParseHandshake(c).conn.(phase := Open);
      assert Log(c2, OnOpen) == Apply(c1, UpgradeTo(size, response));
      NotifyKeeps(P, c2, OnOpen, app);
  }

  lemma FrameKeeps(P: Conn -> bool, c: Conn, f: Frame, app: App)
    requires Base(c) && P(c) && StableWithin(P) && Upgraded(c)
    ensures Base(HandleFrame(c, f, app)) && P(HandleFrame(c, f, app))
  {
    Narrower(P);
    if f.opcode == TEXT || f.opcode == BINARY {
      Act1(P, c, Deliver(f.payload));
      NotifyKeeps(P, c, OnMessage(f.payload), app);
    } else if f.opcode == PING {
      Act1(P, c, WritePong(f.payload));
    }
  }

  lemma {:induction false} FramesKeep(P: Conn -> bool, c: Conn, app: App)
    requires Base(c) && P(c) && StableWithin(P) && Upgraded(c)
    ensures Base(ParseFrames(c, app)) && P(ParseFrames(c, app))
    decreases |c.rx|
  {
    Narrower(P);
    hide NextFrame;
    var next := NextFrame(c.rx[..Min(4096, |c.rx|)]);
    if next.Faulty? {
      Act1(P, c, Fail(next.fault));
    } else if next.Whole? {
      if next.frame.opcode == CLOSE {
        Act1(P, c, PeerCloses);
        NotifyKeeps(P, c, OnClose(false), app);
        ShutKeeps(P, Notify(c, OnClose(false), app), app);
      } else {
        FrameKeeps(P, c, next.frame, app);
        var c1 := HandleFrame(c, next.frame, app);
        Act1(P, c1, Discard(next.size));
        FramesKeep(P, c1.(rx := c1.rx[next.size..]), app);
      }
    }
  }

  lemma DataKeeps(P: Conn -> bool, c: Conn, app: App)
    requires Base(c) && P(c) && StableWithin(P)
    ensures Base(OnData(c, app)) && P(OnData(c, app))
  {
    Narrower(P);
    hide HandshakeOnData, ParseFrames, ParseHeader;
    match c.phase
    case Handshaking => HandshakeKeeps(P, c, app);
    case Open => FramesKeep(P, c, app);
    case Closing => ShutKeeps(P, c, app);
    case Closed =>
  }

  lemma NoteKeeps(P: Conn -> bool, c: Conn, clock: int, error: ErrorCode)
    requires Base(c) && P(c) && Stable(P)
    ensures var r := c.(clock := clock, lastError := error); Base(r) && P(r)
  {
    Act1(P, c, Note(clock, error));
  }

  lemma ReadKeeps(P: Conn -> bool, c: Conn, res: ReadResult, app: App)
    requires Base(c) && P(c) && Stable(P)
    ensures Base(HandleRead(c, res, app).conn) && P(HandleRead(c, res, app).conn)
  {
    Narrower(P);
    hide OnData;
    var room := RX_SIZE - |c.rx|;
    if room > 0 && res.Bytes? && res.data != [] {
      var got := res.data[..Min(room, |res.data|)];
      Act1(P, c, Receive(got));
      var c1 := Apply(c, Receive(got));
      DataKeeps(P, c1, app);
      NoteKeeps(P, OnData(c1, app), OnData(c1, app).clock, Ok);
    } else {
      NoteKeeps(P, c, c.clock, HandleRead(c, res, app).result);
    }
  }

  lemma WriteKeeps(P: Conn -> bool, c: Conn, vectored: bool, res: WriteResult, app: App)
    requires Base(c) && P(c) && Stable(P)
    ensures Base(HandleWrite(c, vectored, res, app).conn) && P(HandleWrite(c, vectored, res, app).conn)
  {
    Narrower(P);
    if c.tx != [] && res.Accepted? {
      var k := Min(res.n, if vectored then |c.tx| else Min(512, |c.tx|));
      Act1(P, c, Flush(k));
      var d := Advance(c, k);
      var e := CheckLowWatermark(d, app);
      if d.paused && |d.tx| < TX_LOW {
        NotifyKeeps(P, d.(paused := false), OnDrain(|d.sent|), app);
      }
      NoteKeeps(P, e, e.clock, Ok);
    }
    NoteKeeps(P, c, c.clock, HandleWrite(c, vectored, res, app).result);
  }

  lemma StepKeeps(P: Conn -> bool, c: Conn, s: Step, app: App)
    requires Base(c) && P(c) && Stable(P)
    ensures Base(DoStep(c, s, app)) && P(DoStep(c, s, app))
  {
    Narrower(P);
    hide HandleRead, HandleWrite, Invoke;
    if c.fault != Fine { return; }
    NoteKeeps(P, c, s.now, c.lastError);
    var c0 := c.(clock := s.now);
    match s.io
    case Read(res) => ReadKeeps(P, c0, res, app);
    case Write(vectored, res) => WriteKeeps(P, c0, vectored, res, app);
    case Api(call) => InvokeKeeps(P, c0, call, app);
    case Tick =>
  }

  /** The induction principle. */
  lemma {:induction false} RunKeeps(P: Conn -> bool, c: Conn, steps: seq<Step>, app: App)
    requires Base(c) && P(c) && Stable(P)
    ensures Base(Run(c, steps, app)) && P(Run(c, steps, app))
  {
    hide DoStep;
    if steps != [] {
      var last := |steps| - 1;
      RunKeeps(P, c, steps[..last], app);
      StepKeeps(P, Run(c, steps[..last], app), steps[last], app);
    }
  }
}
