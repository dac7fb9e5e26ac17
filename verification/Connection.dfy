/** The connection object over its two ring buffers. Each method is tied to the function of the
    protocol model that it refines; the run theorems are about those functions. */
module Connections {
  import opened Bytes
  import opened Frames
  import opened Protocol
  import opened Rings
  import Handshake

  class Connection {
    const rx: RingBuffer<byte>
    const tx: RingBuffer<byte>
    const createdAt: int
    var phase: Phase
    var socketOpen: bool
    var paused: bool
    var lastError: ErrorCode
    var clock: int
    var closingAt: int
    var trace: seq<Event>
    var received: seq<byte>
    var sent: seq<byte>
    var request: seq<byte>
    var fault: Fault

    ghost function Footprint(): set<object>
    {
      {this, rx, rx.buffer, tx, tx.buffer}
    }

    ghost predicate Valid()
      reads Footprint()
    {
      && rx != tx && rx.buffer != tx.buffer
      && rx.Valid() && rx.buffer.Length == RX_SIZE
      && tx.Valid() && tx.buffer.Length == TX_SIZE
    }

    /** The connection as a value. */
    ghost function Model(): (c: Conn)
      requires Valid()
      reads Footprint()
    {
      Conn(phase, socketOpen, rx.Contents(), tx.Contents(), paused, lastError, clock, createdAt, closingAt,
           received, sent, request, trace, fault)
    }

    constructor (now: int)
      ensures Valid() && Model() == Fresh(now) && fresh(Footprint())
    {
      rx := new RingBuffer<byte>(RX_SIZE);
      tx := new RingBuffer<byte>(TX_SIZE);
      createdAt, clock, closingAt := now, now, 0;
      phase, socketOpen, paused, lastError := Handshaking, true, false, Ok;
      trace, received, sent, request, fault := [], [], [], [], Fine;
    }

    // ---- writing ----

    method WriteFrame(payload: seq<byte>, opcode: OpCode)
      requires Valid()
      modifies Footprint()
      ensures Valid() && Model() == Protocol.WriteFrame(old(Model()), opcode, payload)
    {
      hide EncodeHeader;
      var headerBuf := new byte[14];
      var headerLen := EncodeFrameHeader(headerBuf, opcode, |payload|, false);
      var header := headerBuf[..headerLen];
      ghost var before := tx.Contents();
      var fit := PushFrame(header, payload);
      assert before + header + payload == before + (header + payload);
      trace := trace + [Wrote(opcode, payload, fit)];
    }

    /** Header and payload are pushed separately. */
    method PushFrame(header: seq<byte>, payload: seq<byte>) returns (fit: Fit)
      requires Valid()
      modifies tx, tx.buffer
      ensures Valid() && rx.Contents() == old(rx.Contents())
      ensures fit == FitIn(|old(tx.Contents())|, |header|, |payload|)
      ensures fit == Nothing ==> tx.Contents() == old(tx.Contents())
      ensures fit == HeaderOnly ==> tx.Contents() == old(tx.Contents()) + header
      ensures fit == Entire ==> tx.Contents() == old(tx.Contents()) + header + payload
    {
      var ok := tx.Push(header);
      if !ok { return Nothing; }
      if payload == [] {
        assert tx.Contents() + payload == tx.Contents();
        return Entire;
      }
      ok := tx.Push(payload);
      fit := if ok then Entire else HeaderOnly;
    }

    method WriteCloseFrame(code: nat)
      requires Valid()
      modifies Footprint()
      ensures Valid() && Model() == Protocol.WriteCloseFrame(old(Model()), code)
    {
      hide Protocol.WriteFrame;
      TwoBytes(code);
      WriteFrame([code / 256 % 256, code % 256], CLOSE);
    }

    // ---- the user's calls and the callbacks ----

    /** Make a callback. */
    method Notify(e: Event, app: App)
      requires Valid()
      modifies Footprint()
      ensures Valid() && Model() == Protocol.Notify(old(Model()), e, app)
      decreases Depth(Model()) + 1, 0, 0
    {
      trace := trace + [e];
      RunCalls(app(trace), app);
    }

    method RunCalls(calls: seq<Call>, app: App)
      requires Valid()
      modifies Footprint()
      ensures Valid() && Model() == Protocol.RunCalls(old(Model()), calls, app)
      decreases Depth(Model()), |calls|, 0
    {
      hide Protocol.Invoke;
      if calls != [] {
        Invoke(calls[0], app);
        RunCalls(calls[1..], app);
      }
    }

    method Invoke(call: Call, app: App)
      requires Valid()
      modifies Footprint()
      ensures Valid() && Model() == Protocol.Invoke(old(Model()), call, app)
      decreases Depth(Model()), 0, 2
    {
      hide Protocol.WriteFrame, Protocol.CheckHighWatermark, Protocol.Notify;
      match call
      case Send(payload, binary) =>
        if phase != Open { return; }
        WriteFrame(payload, if binary then BINARY else TEXT);
        WriteKeepsDepth(old(Model()), if binary then BINARY else TEXT, payload);
        CheckHighWatermark(app);
      case Close(code) =>
        if phase == Closed { return; }
        if phase == Open {
          WriteKeepsDepth(Model(), CLOSE, ToBigEndian(code, 2));
          WriteCloseFrame(code);
          closingAt := clock;
          phase := Closing;
        } else {
          phase := Closed;
          Notify(OnClose(true), app);
          socketOpen := false;
        }
    }

    method CheckHighWatermark(app: App)
      requires Valid()
      modifies Footprint()
      ensures Valid() && Model() == Protocol.CheckHighWatermark(old(Model()), app)
      decreases Depth(Model()), 0, 1
    {
      hide Protocol.Notify;
      if !paused && tx.count > TX_HIGH {
        paused := true;
        Notify(OnBackpressure(|sent|), app);
      }
    }

    method CheckLowWatermark(app: App)
      requires Valid()
      modifies Footprint()
      ensures Valid() && Model() == Protocol.CheckLowWatermark(old(Model()), app)
    {
      hide Protocol.Notify;
      if paused && tx.count < TX_LOW {
        paused := false;
        Notify(OnDrain(|sent|), app);
      }
    }

    // ---- data handlers ----

    method ParseHandshake() returns (ok: bool)
      requires Valid()
      modifies Footprint()
      ensures Valid() && Protocol.ParseHandshake(old(Model())) == Attempt(Model(), ok)
    {
      hide Handshake.ParseRequest, Handshake.Response;
      var temp := new byte[1024];
      var len := rx.Peek(temp, 1024);
      if len == 0 { return false; }
      var data := temp[..len];
      assert data == rx.Contents()[..Min(1024, |rx.Contents()|)];
      var parsed := Handshake.ReadRequest(data);
      match parsed
      case Waiting =>
        return false;
      case Malformed =>
        lastError := HandshakeFailed;
        return false;
      case Upgrade(size, key) =>
        request := data[..size];
        assert request == rx.Contents()[..size];
        rx.Advance(size);
        ok := Respond(key);
    }

    /** The second half of the handshake: render the response and queue it. */
    method Respond(key: seq<byte>) returns (ok: bool)
      requires Valid()
      modifies Footprint()
      ensures Valid()
      ensures var response := Handshake.Response(key);
              var c := old(Model());
              if |response| >= 256 then !ok && Model() == c.(lastError := HandshakeFailed)
              else if |c.tx| + |response| > TX_SIZE then !ok && Model() == c.(lastError := BufferFull)
              else ok && Model() == Log(c.(tx := c.tx + response, lastError := Ok), Responded(response))
    {
      hide Handshake.Response;
      var response := RenderResponse(key);
      if |response| >= 256 {
        lastError := HandshakeFailed;
        return false;
      }
      var pushed := tx.Push(response);
      if !pushed {
        lastError := BufferFull;
        return false;
      }
      trace := trace + [Responded(response)];
      lastError := Ok;
      return true;
    }

    method HandshakeOnData(app: App)
      requires Valid()
      modifies Footprint()
      ensures Valid() && Model() == Protocol.HandshakeOnData(old(Model()), app)
    {
      hide Protocol.Notify, Protocol.ParseHandshake;
      var ok := ParseHandshake();
      if ok {
        phase := Open;
        Notify(OnOpen, app);
      }
    }

    /** What both the peer's Close frame in Closing and a shutdown do. */
    method TransitionToClosed(app: App)
      requires Valid()
      modifies Footprint()
      ensures Valid()
      ensures Model() == Protocol.Notify(old(Model()).(phase := Closed), OnClose(true), app).(socketOpen := false)
    {
      hide Protocol.Notify;
      phase := Closed;
      Notify(OnClose(true), app);
      socketOpen := false;
    }

    method PeerClosed(app: App)
      requires Valid()
      modifies Footprint()
      ensures Valid() && Model() == Protocol.PeerClosed(old(Model()), app)
    {
      hide Protocol.Notify;
      Notify(OnClose(false), app);
      TransitionToClosed(app);
    }

    method HandleFrame(opcode: OpCode, payload: seq<byte>, ghost f: Frame, app: App)
      requires Valid() && f.opcode == opcode && f.payload == payload
      modifies Footprint()
      ensures Valid() && Model() == Protocol.HandleFrame(old(Model()), f, app)
    {
      hide Protocol.Notify, Protocol.WriteFrame;
      if opcode == TEXT || opcode == BINARY {
        Notify(OnMessage(payload), app);
      } else if opcode == PING {
        WriteFrame(payload, PONG);
      }
    }

    /** The receive loop: peek, parse a header, wait for the whole frame, unmask in place, dispatch,
        advance. A turn that the code would repeat for ever, or that uses memory past its array, is
        recorded and ends the loop. */
    method ParseFrames(app: App)
      requires Valid()
      modifies Footprint()
      ensures Valid() && Model() == Protocol.ParseFrames(old(Model()), app)
    {
      hide Protocol.HandleFrame, Protocol.PeerClosed, NextFrame;
      while true
        invariant Valid()
        invariant Protocol.ParseFrames(Model(), app) == Protocol.ParseFrames(old(Model()), app)
        decreases rx.count
      {
        ghost var c := Model();
        var next := PeekFrame();
        assert c.rx[..Min(4096, |c.rx|)] == c.rx;
        if next.Faulty? { fault := next.fault; }
        if !next.Whole? { break; }
        var f, size := next.frame, next.size;
        if f.opcode == CLOSE {
          PeerClosed(app);
          break;
        }
        HandleFrame(f.opcode, f.payload, f, app);
        rx.Advance(size);
      }
    }

    /** One look at the front of the receive buffer. */
    method PeekFrame() returns (next: Next)
      requires Valid()
      ensures next == NextFrame(rx.Contents())
    {
      hide ParseHeader, Body;
      var temp := new byte[4096];
      var len := rx.Peek(temp, 4096);
      var data := temp[..len];
      assert data == rx.Contents();
      var headerSize, header := ParseFrameHeader(data);
      if headerSize == 0 { return Incomplete; }
      LengthIsWord(data);
      var total := (headerSize + header.len) % WORD;
      SumWraps(headerSize, header.len);
      if len < total { return Incomplete; }
      if headerSize + header.len >= WORD { return WrappedFrame(header, total); }
      var payload := TakePayload(temp, data, headerSize, header);
      next := Whole(Frame(header.fin, header.opcode, header.masked, payload), total);
    }

    method ClosingOnData(app: App)
      requires Valid()
      modifies Footprint()
      ensures Valid() && Model() == Protocol.ClosingOnData(old(Model()), app)
    {
      hide Protocol.Notify, ParseHeader;
      var temp := new byte[1024];
      var len := rx.Peek(temp, 1024);
      var data := temp[..len];
      assert data == rx.Contents()[..Min(1024, |rx.Contents()|)];
      var size, header := ParseFrameHeader(data);
      if size > 0 && header.opcode == CLOSE {
        TransitionToClosed(app);
      }
    }

    method OnData(app: App)
      requires Valid()
      modifies Footprint()
      ensures Valid() && Model() == Protocol.OnData(old(Model()), app)
    {
      hide Protocol.HandshakeOnData, Protocol.ParseFrames, Protocol.ClosingOnData;
      match phase
      case Handshaking => HandshakeOnData(app);
      case Open => ParseFrames(app);
      case Closing => ClosingOnData(app);
      case Closed =>
    }

    // ---- socket events ----

    /** `res` is what `readv` answers when offered the free regions of the receive ring. */
    method HandleRead(res: ReadResult, app: App) returns (result: ErrorCode)
      requires Valid()
      modifies Footprint()
      ensures Valid() && Protocol.HandleRead(old(Model()), res, app) == Outcome(Model(), result)
    {
      hide Protocol.OnData;
      var iov := rx.FillIovecWrite(2);
      if iov == [] {
        lastError := BufferFull;
        return BufferFull;
      }
      match res
      case Bytes(data) =>
        if data == [] {
          lastError := ConnectionClosed;
          return ConnectionClosed;
        }
        var got := data[..Min(Total(iov), |data|)];
        rx.Receive(got);
        received := received + got;
        OnData(app);
        lastError := Ok;
        return Ok;
      case ReadBlocked =>
        lastError := Ok;
        return Ok;
      case ReadFailed =>
        lastError := SocketError;
        return SocketError;
    }

    /** The front of the send buffer, copied into a 512-byte array. */
    method CopyOut() returns (copied: seq<byte>)
      requires Valid()
      ensures copied == tx.Contents()[..Min(512, |tx.Contents()|)]
    {
      var temp := new byte[512];
      var len := tx.Peek(temp, 512);
      copied := temp[..len];
    }

    /** The copying write path: `res` is the socket's answer to at most 512 peeked bytes. */
    method HandleWrite(res: WriteResult, app: App) returns (result: ErrorCode)
      requires Valid()
      modifies Footprint()
      ensures Valid() && Protocol.HandleWrite(old(Model()), false, res, app) == Outcome(Model(), result)
    {
      hide Protocol.CheckLowWatermark;
      if tx.count == 0 {
        lastError := Ok;
        return Ok;
      }
      var copied := CopyOut();
      match res
      case Accepted(n) =>
        var k := Min(n, |copied|);
        assert copied[..k] == tx.Contents()[..k];
        sent := sent + copied[..k];
        tx.Advance(k);
        CheckLowWatermark(app);
        lastError := Ok;
        return Ok;
      case WriteBlocked =>
        lastError := Ok;
        return Ok;
      case WriteFailed =>
        lastError := SocketError;
        return SocketError;
    }

    /** The zero-copy write path: `res` is the answer of `writev` to the occupied regions. */
    method HandleWriteVectored(res: WriteResult, app: App) returns (result: ErrorCode)
      requires Valid()
      modifies Footprint()
      ensures Valid() && Protocol.HandleWrite(old(Model()), true, res, app) == Outcome(Model(), result)
    {
      hide Protocol.CheckLowWatermark;
      if tx.count == 0 {
        lastError := Ok;
        return Ok;
      }
      var iov := tx.FillIovec(2);
      var offered := Gather(tx.buffer[..], iov);
      match res
      case Accepted(n) =>
        var k := Min(n, |offered|);
        if k > 0 {
          sent := sent + offered[..k];
          tx.Advance(k);
          CheckLowWatermark(app);
        }
        lastError := Ok;
        return Ok;
      case WriteBlocked =>
        lastError := Ok;
        return Ok;
      case WriteFailed =>
        lastError := SocketError;
        return SocketError;
    }

    // ---- runs ----

    method Perform(s: Step, app: App)
      requires Valid()
      modifies Footprint()
      ensures Valid() && Model() == DoStep(old(Model()), s, app)
    {
      hide Protocol.HandleRead, Protocol.HandleWrite, Protocol.Invoke;
      if fault != Fine { return; }
      clock := s.now;
      match s.io
      case Read(res) =>
        var result := HandleRead(res, app);
      case Write(vectored, res) =>
        if vectored {
          var result := HandleWriteVectored(res, app);
        } else {
          var result := HandleWrite(res, app);
        }
      case Api(call) => Invoke(call, app);
      case Tick =>
    }

    /** Any sequence of steps on the object is the corresponding run of the model, so the run theorems
        hold of the object. */
    method PerformAll(steps: seq<Step>, app: App)
      requires Valid()
      modifies Footprint()
      ensures Valid() && Model() == Run(old(Model()), steps, app)
    {
      hide DoStep;
      assert steps[..0] == [];
      for i := 0 to |steps|
        invariant Valid() && Model() == Run(old(Model()), steps[..i], app)
      {
        Perform(steps[i], app);
        assert steps[..i + 1][..i] == steps[..i];
      }
      assert steps[..|steps|] == steps;
    }
  }

  /** The payload behind a header, unmasked in place. */
  method TakePayload(temp: array<byte>, ghost data: seq<byte>, headerSize: nat, header: Header) returns (payload: seq<byte>)
    requires |data| <= temp.Length && forall k :: 0 <= k < |data| ==> temp[k] == data[k]
    requires headerSize + header.len <= |data| && (header.masked ==> headerSize >= 4)
    modifies temp
    ensures payload == Body(data, header, headerSize)
  {
    hide Unmask;
    var end := headerSize + header.len;
    assert temp[headerSize..end] == data[headerSize..end];
    if header.masked {
      var key := temp[headerSize - 4..headerSize];
      assert key == data[headerSize - 4..headerSize];
      UnmaskPayload(temp, headerSize, header.len, key);
    }
    payload := temp[headerSize..end];
  }

  lemma WriteKeepsDepth(c: Conn, opcode: OpCode, payload: seq<byte>)
    ensures Depth(WriteFrame(c, opcode, payload)) == Depth(c)
    ensures WriteFrame(c, opcode, payload).clock == c.clock
  {
  }

  lemma SumWraps(a: nat, b: nat)
    requires a <= 14 && b < WORD
    ensures (a + b) % WORD == if a + b >= WORD then a + b - WORD else a + b
  {
  }

  method RenderResponse(key: seq<byte>) returns (response: seq<byte>)
    ensures response == Handshake.Response(key)
  {
    hide Handshake.AcceptKey;
    var accept := Handshake.GenerateAcceptKey(key);
    response := Handshake.StatusLine() + Handshake.UpgradeLine() + Handshake.ConnectionLine() +
                Handshake.AcceptName() + accept + Handshake.BLANK_LINE;
  }
}
