/** One connection as a value: its state, every entry point of its code as a function of that state,
    and runs. Callbacks are arbitrary and may call back into the connection. */
module Protocol {
  import opened Bytes
  import opened Frames
  import Handshake

  const RX_SIZE := 4096
  const TX_SIZE := 8192
  const TX_HIGH := TX_SIZE * 3 / 4
  const TX_LOW := TX_SIZE / 4

  datatype Phase = Handshaking | Open | Closing | Closed

  function Rank(p: Phase): nat
  {
    match p
    case Handshaking => 0
    case Open => 1
    case Closing => 2
    case Closed => 3
  }

  datatype ErrorCode = Ok | BufferFull | HandshakeFailed | ConnectionClosed | SocketError

  /** How much of a frame went into the send buffer: header and payload are pushed separately. */
  datatype Fit = Nothing | HeaderOnly | Entire

  /** What happens to a connection, in order: callbacks made and output produced. The watermark
      callbacks are stamped with the number of bytes handed to the socket so far. */
  datatype Event =
    | Responded(bytes: seq<byte>)
    | OnOpen
    | OnMessage(payload: seq<byte>)
    | OnClose(clean: bool)
    | OnBackpressure(sent: nat)
    | OnDrain(sent: nat)
    | Wrote(opcode: OpCode, payload: seq<byte>, fit: Fit)

  /** What a callback may do to the connection. */
  datatype Call = Send(payload: seq<byte>, binary: bool) | Close(code: nat)

  /** An application: the calls a callback makes, given everything that has happened up to and
      including that callback. Histories never repeat, so this covers every behaviour. */
  type App = seq<Event> -> seq<Call>

  /** A connection. `received`, `sent`, `request` and `trace` are histories: bytes read off the
      socket, bytes given to it, the bytes taken as the upgrade request, and the events. After a
      `fault` nothing happens any more: the loop does not end, or nothing further is known. */
  datatype Conn = Conn(
    phase: Phase, socketOpen: bool, rx: seq<byte>, tx: seq<byte>, paused: bool, lastError: ErrorCode,
    clock: int, createdAt: int, closingAt: int,
    received: seq<byte>, sent: seq<byte>, request: seq<byte>, trace: seq<Event>, fault: Fault)

  function Fresh(now: int): Conn
  {
    Conn(Handshaking, true, [], [], false, Ok, now, now, 0, [], [], [], [], Fine)
  }

  function Log(c: Conn, e: Event): Conn
  {
    c.(trace := c.trace + [e])
  }

  // ---- writing frames ----

  /** How much of a frame fits behind `used` buffered bytes. */
  function FitIn(used: nat, head: nat, body: nat): Fit
  {
    if used + head > TX_SIZE then Nothing
    else if used + head + body > TX_SIZE then HeaderOnly
    else Entire
  }

  function FitOf(c: Conn, opcode: OpCode, payload: seq<byte>): Fit
  {
    FitIn(|c.tx|, |EncodeHeader(opcode, |payload|, false)|, |payload|)
  }

  function Output(opcode: OpCode, payload: seq<byte>, fit: Fit): seq<byte>
  {
    match fit
    case Nothing => []
    case HeaderOnly => EncodeHeader(opcode, |payload|, false)
    case Entire => EncodeHeader(opcode, |payload|, false) + payload
  }

  function WriteFrame(c: Conn, opcode: OpCode, payload: seq<byte>): Conn
  {
    var fit := FitOf(c, opcode, payload);
    Log(c.(tx := c.tx + Output(opcode, payload, fit)), Wrote(opcode, payload, fit))
  }

  function WriteCloseFrame(c: Conn, code: nat): Conn
  {
    WriteFrame(c, CLOSE, ToBigEndian(code, 2))
  }

  // ---- the user's calls and the callbacks, which nest ----

  /** How many more levels of callbacks a call can open: a paused connection raises no further
      backpressure and a closed one no further close. */
  function Depth(c: Conn): nat
  {
    (if c.paused then 0 else 1) + (if c.phase == Closed then 0 else 1)
  }

  /** Between steps, the socket is shut exactly when the state is Closed. */
  predicate Synced(c: Conn)
  {
    c.socketOpen <==> c.phase != Closed
  }

  /** Make a callback and run the calls it makes. */
  function Notify(c: Conn, e: Event, app: App): (r: Conn)
    ensures r.rx == c.rx && r.request == c.request && r.clock == c.clock && r.fault == c.fault
    ensures Depth(r) <= Depth(c) && Rank(c.phase) <= Rank(r.phase)
    ensures Synced(c) ==> Synced(r)
    ensures c.phase == Closed ==> r == Log(c, e)
    decreases Depth(c) + 1, 0, 0
  {
    RunCalls(Log(c, e), app(Log(c, e).trace), app)
  }

  function RunCalls(c: Conn, calls: seq<Call>, app: App): (r: Conn)
    ensures r.rx == c.rx && r.request == c.request && r.clock == c.clock && r.fault == c.fault
    ensures Depth(r) <= Depth(c) && Rank(c.phase) <= Rank(r.phase)
    ensures Synced(c) ==> Synced(r)
    ensures c.phase == Closed ==> r == c
    decreases Depth(c), |calls|, 0
  {
    if calls == [] then c else RunCalls(Invoke(c, calls[0], app), calls[1..], app)
  }

  function Invoke(c: Conn, call: Call, app: App): (r: Conn)
    ensures r.rx == c.rx && r.request == c.request && r.clock == c.clock && r.fault == c.fault
    ensures Depth(r) <= Depth(c) && Rank(c.phase) <= Rank(r.phase)
    ensures Synced(c) ==> Synced(r)
    ensures c.phase == Closed ==> r == c
    decreases Depth(c), 0, 2
  {
    match call
    case Send(payload, binary) =>
      if c.phase != Open then c
      else CheckHighWatermark(WriteFrame(c, if binary then BINARY else TEXT, payload), app)
    case Close(code) =>
      if c.phase == Closed then c
      else if c.phase == Open then WriteCloseFrame(c, code).(phase := Closing, closingAt := c.clock)
      else Notify(c.(phase := Closed), OnClose(true), app).(socketOpen := false)
  }

  function CheckHighWatermark(c: Conn, app: App): (r: Conn)
    ensures r.rx == c.rx && r.request == c.request && r.clock == c.clock && r.fault == c.fault
    ensures Depth(r) <= Depth(c) && Rank(c.phase) <= Rank(r.phase)
    ensures Synced(c) ==> Synced(r)
    decreases Depth(c), 0, 1
  {
    if !c.paused && |c.tx| > TX_HIGH then Notify(c.(paused := true), OnBackpressure(|c.sent|), app) else c
  }

  function CheckLowWatermark(c: Conn, app: App): Conn
  {
    if c.paused && |c.tx| < TX_LOW then Notify(c.(paused := false), OnDrain(|c.sent|), app) else c
  }

  // ---- data handlers of the four states ----

  datatype Attempt = Attempt(conn: Conn, ok: bool)

  function ParseHandshake(c: Conn): Attempt
  {
    var data := c.rx[..Min(1024, |c.rx|)];
    if data == [] then Attempt(c, false)
    else match Handshake.ParseRequest(data)
      case Waiting => Attempt(c, false)
      case Malformed => Attempt(c.(lastError := HandshakeFailed), false)
      case Upgrade(size, key) =>
        var taken := c.(rx := c.rx[size..], request := c.rx[..size]);
        var response := Handshake.Response(key);
        if |response| >= 256 then Attempt(taken.(lastError := HandshakeFailed), false)
        else if |c.tx| + |response| > TX_SIZE then Attempt(taken.(lastError := BufferFull), false)
        else Attempt(Log(taken.(tx := c.tx + response, lastError := Ok), Responded(response)), true)
  }

  function HandshakeOnData(c: Conn, app: App): Conn
  {
    var attempt := ParseHandshake(c);
    if attempt.ok then Notify(attempt.conn.(phase := Open), OnOpen, app) else attempt.conn
  }

  /** The peer's Close frame: both close callbacks are made, then the socket is shut. */
  function PeerClosed(c: Conn, app: App): Conn
  {
    Notify(Notify(c, OnClose(false), app).(phase := Closed), OnClose(true), app).(socketOpen := false)
  }

  /** A frame other than Close. */
  function HandleFrame(c: Conn, f: Frame, app: App): (r: Conn)
    ensures r.rx == c.rx && r.request == c.request && r.clock == c.clock && r.fault == c.fault
    ensures Rank(c.phase) <= Rank(r.phase)
  {
    if f.opcode == TEXT || f.opcode == BINARY then Notify(c, OnMessage(f.payload), app)
    else if f.opcode == PING then WriteFrame(c, PONG, f.payload)
    else c
  }

  /** The receive loop. It ends, unless its front frame is a fault. */
  function ParseFrames(c: Conn, app: App): (r: Conn)
    ensures r.clock == c.clock
    decreases |c.rx|
  {
    match NextFrame(c.rx[..Min(4096, |c.rx|)])
    case Incomplete => c
    case Faulty(fault) => c.(fault := fault)
    case Whole(f, size) =>
      if f.opcode == CLOSE then PeerClosed(c, app)
      else
        var c1 := HandleFrame(c, f, app);
        ParseFrames(c1.(rx := c1.rx[size..]), app)
  }

  function ClosingOnData(c: Conn, app: App): Conn
  {
    var p := ParseHeader(c.rx[..Min(1024, |c.rx|)]);
    if p.Parsed? && p.header.opcode == CLOSE
    then Notify(c.(phase := Closed), OnClose(true), app).(socketOpen := false)
    else c
  }

  function OnData(c: Conn, app: App): Conn
  {
    match c.phase
    case Handshaking => HandshakeOnData(c, app)
    case Open => ParseFrames(c, app)
    case Closing => ClosingOnData(c, app)
    case Closed => c
  }

  // ---- socket events ----

  /** The result of `readv`; an empty read means the peer has shut the stream. */
  datatype ReadResult = Bytes(data: seq<byte>) | ReadBlocked | ReadFailed

  datatype WriteResult = Accepted(n: nat) | WriteBlocked | WriteFailed

  datatype Outcome = Outcome(conn: Conn, result: ErrorCode)

  function Report(c: Conn, e: ErrorCode): Outcome
  {
    Outcome(c.(lastError := e), e)
  }

  /** A read never delivers more than the room offered. */
  function HandleRead(c: Conn, res: ReadResult, app: App): Outcome
  {
    var room := RX_SIZE - |c.rx|;
    if room <= 0 then Report(c, BufferFull)
    else match res
      case Bytes(data) =>
        if data == [] then Report(c, ConnectionClosed)
        else
          var got := data[..Min(room, |data|)];
          Report(OnData(c.(rx := c.rx + got, received := c.received + got), app), Ok)
      case ReadBlocked => Report(c, Ok)
      case ReadFailed => Report(c, SocketError)
  }

  /** n bytes leave the send buffer for the socket. */
  function Advance(c: Conn, n: nat): Conn
    requires n <= |c.tx|
  {
    c.(tx := c.tx[n..], sent := c.sent + c.tx[..n])
  }

  /** The socket accepts at most what it is offered: a 512-byte copy, or both regions of the ring. */
  function HandleWrite(c: Conn, vectored: bool, res: WriteResult, app: App): Outcome
  {
    if c.tx == [] then Report(c, Ok)
    else match res
      case Accepted(n) =>
        var k := Min(n, if vectored then |c.tx| else Min(512, |c.tx|));
        if vectored && k == 0 then Report(c, Ok)
        else Report(CheckLowWatermark(Advance(c, k), app), Ok)
      case WriteBlocked => Report(c, Ok)
      case WriteFailed => Report(c, SocketError)
  }

  // ---- runs ----

  /** One step: a socket event, a call made from outside the connection's own callbacks, or nothing but
      the passing of time. */
  datatype Io = Read(read: ReadResult) | Write(vectored: bool, write: WriteResult) | Api(call: Call) | Tick

  datatype Step = Step(now: int, io: Io)

  function DoStep(c: Conn, s: Step, app: App): Conn
  {
    if c.fault != Fine then c else Perform(c.(clock := s.now), s.io, app)
  }

  function Perform(c0: Conn, io: Io, app: App): Conn
  {
    match io
    case Read(res) => HandleRead(c0, res, app).conn
    case Write(vectored, res) => HandleWrite(c0, vectored, res, app).conn
    case Api(call) => Invoke(c0, call, app)
    case Tick => c0
  }

  function Run(c: Conn, steps: seq<Step>, app: App): Conn
  {
    if steps == [] then c
    else
      var last := |steps| - 1;
      DoStep(Run(c, steps[..last], app), steps[last], app)
  }
}
