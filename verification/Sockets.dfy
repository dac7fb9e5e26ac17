/** The connection and its socket: how many bytes each step takes from the one and gives to the other. */
module Sockets {
  import opened Bytes
  import opened Frames
  import opened Protocol
  import opened Actions
  import opened ReceiveStream
  import Handshake
  import Lifecycle
  import ReceiveRuns

  // ---- everything but a write only appends to the send buffer ----

  predicate Appends(c: Conn, d: Conn)
  {
    d.sent == c.sent && c.tx <= d.tx && d.received == c.received
  }

  lemma AppendsStable(c: Conn)
    ensures StableWithin((x: Conn) => Appends(c, x)) && StableUnderCalls((x: Conn) => Appends(c, x))
  {
    hide Base, Output, FitOf, Handshake.IsHead;
  }

  lemma DataAppends(c: Conn, app: App)
    requires Base(c)
    ensures Appends(c, OnData(c, app))
  {
    hide Base, OnData, Appends;
    AppendsStable(c);
    assert Appends(c, c) by { AppendsRefl(c); }
    DataKeeps((x: Conn) => Appends(c, x), c, app);
  }

  lemma AppendsRefl(c: Conn)
    ensures Appends(c, c)
  {
  }

  /** The result of a read, which is also the connection's last error: a full buffer is reported before the
      socket is asked, an end of the stream and a socket error as such, everything else as success. */
  lemma ReadCodes(c: Conn, res: ReadResult, app: App)
    ensures var o := HandleRead(c, res, app);
            && o.conn.lastError == o.result
            && (o.result == BufferFull <==> |c.rx| >= 4096)
            && (o.result == ConnectionClosed <==> |c.rx| < 4096 && res == ReadResult.Bytes([]))
            && (o.result == SocketError <==> |c.rx| < 4096 && res == ReadFailed)
            && (o.result != Ok ==> o.conn == c.(lastError := o.result))
  {
    hide OnData;
  }

  /** The same for a write: only a socket error is one, and only with something to send. */
  lemma WriteCodes(c: Conn, vectored: bool, res: WriteResult, app: App)
    ensures var o := HandleWrite(c, vectored, res, app);
            && o.conn.lastError == o.result && (o.result == Ok || o.result == SocketError)
            && (o.result == SocketError <==> c.tx != [] && res == WriteFailed)
            && (o.result != Ok || c.tx == [] || !res.Accepted? ==> o.conn == c.(lastError := o.result))
  {
    hide CheckLowWatermark;
  }

  // ---- writes ----

  /** A write of which the socket accepts n bytes moves exactly these from the front of the send buffer to
      the socket; callbacks may add to the buffer behind the rest. */
  lemma WriteTakes(c: Conn, vectored: bool, n: nat, app: App)
    requires Base(c) && c.tx != [] && n <= if vectored then |c.tx| else Min(512, |c.tx|)
    ensures var r := HandleWrite(c, vectored, Accepted(n), app).conn;
            r.sent == c.sent + c.tx[..n] && c.tx[n..] <= r.tx
  {
    hide Notify;
    var d := Advance(c, n);
    if d.paused && |d.tx| < TX_LOW && !(vectored && n == 0) {
      BaseKept(c, Flush(n));
      AppendsStable(d);
      NotifyKeeps((x: Conn) => Appends(d, x), d.(paused := false), OnDrain(|d.sent|), app);
    }
  }

  /** How many bytes the socket accepts in this step: none but in a write of a connection with something to
      send, and then at most the 512 bytes copied or the whole buffer. */
  function Accepts(c: Conn, s: Step): (n: nat)
    ensures n <= |c.tx|
  {
    if c.fault != Fine || !s.io.Write? || c.tx == [] || !s.io.write.Accepted? then 0
    else Min(s.io.write.n, if s.io.vectored then |c.tx| else Min(512, |c.tx|))
  }

  lemma StepSends(c: Conn, s: Step, app: App)
    requires Base(c)
    ensures var r := DoStep(c, s, app); r.sent == c.sent + c.tx[..Accepts(c, s)] && c.tx[Accepts(c, s)..] <= r.tx
  {
    hide OnData, Invoke, Base, Notify;
    if c.fault != Fine { return; }
    var c0 := c.(clock := s.now);
    assert Base(c0) by { NoteKeeps(x => true, c, s.now, c.lastError) by { assert Stable(x => true); } }
    match s.io
    case Read(res) =>
      if |c.rx| < RX_SIZE && res.Bytes? && res.data != [] {
        var got := res.data[..Min(RX_SIZE - |c.rx|, |res.data|)];
        ReceiveKept(c0, got);
        DataAppends(c0.(rx := c0.rx + got, received := c0.received + got), app);
      }
    case Write(vectored, res) =>
      if c.tx != [] && res.Accepted? {
        CappedWrite(c0, vectored, res.n, app);
        WriteTakes(c0, vectored, Accepts(c, s), app);
      }
    case Api(call) =>
      AppendsStable(c0);
      InvokeKeeps((x: Conn) => Appends(c0, x), c0, call, app);
    case Tick =>
  }

  /** The socket cannot accept more than it is offered. */
  lemma CappedWrite(c: Conn, vectored: bool, n: nat, app: App)
    ensures HandleWrite(c, vectored, Accepted(n), app) ==
            HandleWrite(c, vectored, Accepted(Min(n, if vectored then |c.tx| else Min(512, |c.tx|))), app)
  {
    hide CheckLowWatermark;
  }

  function TotalAccepted(now: int, steps: seq<Step>, app: App): nat
  {
    if steps == [] then 0
    else
      var init := steps[..|steps| - 1];
      TotalAccepted(now, init, app) + Accepts(Run(Fresh(now), init, app), steps[|steps| - 1])
  }

  /** Over every run, the bytes recorded as sent are as many as the socket accepted. */
  lemma {:induction false} SentIsAccepted(now: int, steps: seq<Step>, app: App)
    ensures Base(Run(Fresh(now), steps, app)) && |Run(Fresh(now), steps, app).sent| == TotalAccepted(now, steps, app)
  {
    hide DoStep, Base, Accepts;
    Lifecycle.FreshBase(now);
    if steps != [] {
      var last := |steps| - 1;
      var c := Run(Fresh(now), steps[..last], app);
      SentIsAccepted(now, steps[..last], app);
      StepSends(c, steps[last], app);
      StepKeeps(x => true, c, steps[last], app) by { assert Stable(x => true); }
    }
  }

  // ---- reads ----

  /** What a step reads off the socket: at most the 4096 bytes of the receive buffer that are free. */
  function Reads(c: Conn, s: Step): seq<byte>
  {
    if c.fault != Fine || !s.io.Read? || !s.io.read.Bytes? || |c.rx| >= 4096 then []
    else s.io.read.data[..Min(4096 - |c.rx|, |s.io.read.data|)]
  }

  lemma StepReads(c: Conn, s: Step, app: App)
    requires Base(c)
    ensures DoStep(c, s, app).received == c.received + Reads(c, s)
  {
    hide OnData, Invoke, Base, Messages;
    if c.fault != Fine { return; }
    var c0 := c.(clock := s.now);
    assert Base(c0) by { NoteKeeps(x => true, c, s.now, c.lastError) by { assert Stable(x => true); } }
    match s.io
    case Read(res) =>
      if |c.rx| < RX_SIZE && res.Bytes? && res.data != [] {
        var got := res.data[..Min(RX_SIZE - |c.rx|, |res.data|)];
        ReceiveKept(c0, got);
        DataAppends(c0.(rx := c0.rx + got, received := c0.received + got), app);
      }
    case Write(vectored, res) => ReceiveRuns.WriteSameInput(c0, vectored, res, app);
    case Api(call) => ReceiveRuns.InvokeSameInput(c0, call, app);
    case Tick =>
  }

  function AllRead(now: int, steps: seq<Step>, app: App): seq<byte>
  {
    if steps == [] then []
    else
      var init := steps[..|steps| - 1];
      AllRead(now, init, app) + Reads(Run(Fresh(now), init, app), steps[|steps| - 1])
  }

  /** Over every run, what is recorded as received is what the reads delivered, in order. */
  lemma {:induction false} ReceivedIsRead(now: int, steps: seq<Step>, app: App)
    ensures Base(Run(Fresh(now), steps, app)) && Run(Fresh(now), steps, app).received == AllRead(now, steps, app)
  {
    hide DoStep, Base, Reads;
    Lifecycle.FreshBase(now);
    if steps != [] {
      var last := |steps| - 1;
      var c := Run(Fresh(now), steps[..last], app);
      ReceivedIsRead(now, steps[..last], app);
      StepReads(c, steps[last], app);
      StepKeeps(x => true, c, steps[last], app) by { assert Stable(x => true); }
    }
  }
}
