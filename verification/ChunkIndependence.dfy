/** Any splitting of a stream of frames into reads delivers the same messages. */
module ChunkIndependence {
  import opened Bytes
  import opened Frames
  import opened Protocol
  import opened Actions
  import opened ReceiveStream
  import opened ReceiveRuns
  import Lifecycle

  // ---- callbacks that never close leave the connection open ----

  ghost predicate NeverCloses(app: App)
  {
    forall t: seq<Event>, i :: 0 <= i < |app(t)| ==> app(t)[i].Send?
  }

  lemma {:induction false} CallsStay(c: Conn, calls: seq<Call>, app: App)
    requires NeverCloses(app) && forall i :: 0 <= i < |calls| ==> calls[i].Send?
    ensures RunCalls(c, calls, app).phase == c.phase
    decreases Depth(c), |calls|, 0
  {
    if calls != [] {
      SendStays(c, calls[0], app);
      CallsStay(Invoke(c, calls[0], app), calls[1..], app);
    }
  }

  lemma {:induction false} SendStays(c: Conn, call: Call, app: App)
    requires NeverCloses(app) && call.Send?
    ensures Invoke(c, call, app).phase == c.phase
    decreases Depth(c), 0, 2
  {
    hide FitOf, Output;
    if c.phase == Open {
      HighStays(WriteFrame(c, if call.binary then BINARY else TEXT, call.payload), app);
    }
  }

  lemma {:induction false} HighStays(c: Conn, app: App)
    requires NeverCloses(app)
    ensures CheckHighWatermark(c, app).phase == c.phase
    decreases Depth(c), 0, 1
  {
    if !c.paused && |c.tx| > TX_HIGH {
      var c1 := Log(c.(paused := true), OnBackpressure(|c.sent|));
      CallsStay(c1, app(c1.trace), app);
    }
  }

  lemma NotifyStays(c: Conn, e: Event, app: App)
    requires NeverCloses(app)
    ensures Notify(c, e, app).phase == c.phase
  {
    CallsStay(Log(c, e), app(Log(c, e).trace), app);
  }

  lemma {:induction false} LoopStays(c: Conn, app: App)
    requires Base(c) && Upgraded(c) && NeverCloses(app)
    requires NextFrame(Rest(c.rx, true)) == Incomplete
    ensures ParseFrames(c, app).phase == c.phase
    decreases |c.rx|
  {
    hide NextFrame, NeverCloses, Base, PeerClosed, ParseFrames;
    BaseFits(c);
    LoopTurn(c, app);
    if !Stops(c.rx, true) {
      var next := NextFrame(c.rx);
      var c1 := HandleFrame(c, next.frame, app);
      FrameStays(c, next.frame, app);
      FrameReads(c, next.frame, app);
      DiscardKept(c1, next.size);
      LoopStays(c1.(rx := c1.rx[next.size..]), app);
    }
  }

  lemma FrameStays(c: Conn, f: Frame, app: App)
    requires NeverCloses(app)
    ensures HandleFrame(c, f, app).phase == c.phase
  {
    hide FitOf, Output, NeverCloses;
    if f.opcode == TEXT || f.opcode == BINARY {
      NotifyStays(c, OnMessage(f.payload), app);
    }
  }

  // ---- a prefix of a stream of frames ----

  /** Frames the receive buffer can hold, none of them Close. */
  predicate Acceptable(bs: seq<seq<byte>>)
  {
    AreFrames(bs) && forall i :: 0 <= i < |bs| ==> |bs[i]| <= RX_SIZE && FrameOf(bs[i]).opcode != CLOSE
  }

  /** Whatever part of the stream has arrived, what is left over is a proper prefix of one frame: it
      waits for more, and there is room for more. */
  lemma {:induction false} PrefixWaits(bs: seq<seq<byte>>, s: seq<byte>)
    requires Acceptable(bs) && s <= Concat(bs)
    ensures NextFrame(Rest(s, true)) == Incomplete && |Rest(s, true)| < RX_SIZE
  {
    hide NextFrame, Rest;
    if bs == [] {
      NothingWaits();
    } else {
      var b, more := bs[0], Concat(bs[1..]);
      if |s| < |b| {
        assert s == b[..|s|];
        ShortWaits(b, |s|);
      } else {
        var tail := s[|b|..];
        assert s == b + tail && tail <= more;
        DecodeCons(b, tail, true);
        PrefixWaits(bs[1..], tail);
      }
    }
  }

  lemma ShortWaits(b: seq<byte>, k: nat)
    requires IsFrame(b) && k < |b|
    ensures NextFrame(b[..k]) == Incomplete && Rest(b[..k], true) == b[..k]
  {
    hide NextFrame;
    assert b[..k] + b[k..] == b;
    NextFramePrefix(b[..k], b[k..]);
  }

  lemma NothingWaits()
    ensures NextFrame([]) == Incomplete && Rest([], true) == []
  {
  }

  // ---- runs ----

  /** The bytes received since c0. */
  function Since(c0: Conn, c: Conn): seq<byte>
    requires c0.received <= c.received
  {
    c.received[|c0.received|..]
  }

  /** c has kept up with everything received since c0. */
  predicate KeptUp(c0: Conn, c: Conn)
  {
    && Base(c) && c.phase == Open && c.fault == Fine && c0.received <= c.received
    && c.rx == Rest(Since(c0, c), true)
    && Messages(c.trace) == Messages(c0.trace) + Payloads(Decode(Since(c0, c), true))
  }

  lemma KeptUpSame(c0: Conn, c: Conn, d: Conn)
    requires KeptUp(c0, c) && SameInput(c, d) && d.phase == Open && d.fault == Fine && Base(d)
    ensures KeptUp(c0, d)
  {
  }

  lemma KeptUpFrom(c0: Conn, c: Conn, r: Conn, got: seq<byte>)
    requires KeptUp(c0, c) && Base(r) && r.phase == Open && r.fault == Fine && r.received == c.received + got
    requires r.rx == Rest(c.rx + got, true)
    requires Messages(r.trace) == Messages(c.trace) + Payloads(Decode(c.rx + got, true))
    ensures KeptUp(c0, r)
  {
    hide Decode, Rest, Messages, Payloads, Base;
    var s := Since(c0, c);
    ReadOn(s, got);
    assert Since(c0, r) == s + got;
  }

  lemma KeptUpRead(c0: Conn, c: Conn, got: seq<byte>, app: App)
    requires KeptUp(c0, c) && NeverCloses(app) && |c.rx| + |got| <= RX_SIZE
    requires NextFrame(Rest(Since(c0, c) + got, true)) == Incomplete
    ensures KeptUp(c0, OnData(c.(rx := c.rx + got, received := c.received + got), app))
  {
    hide Decode, Rest, Messages, Payloads, NextFrame, Base, NeverCloses, OnData;
    var c1 := c.(rx := c.rx + got, received := c.received + got);
    ReceiveKept(c, got);
    OpenReads(c1, app);
    ReadOn(Since(c0, c), got);
    OpenStays(c1, app);
    KeptUpFrom(c0, c, OnData(c1, app), got);
  }

  lemma OpenStays(c: Conn, app: App)
    requires Base(c) && c.phase == Open && NeverCloses(app)
    requires NextFrame(Rest(c.rx, true)) == Incomplete
    ensures Base(OnData(c, app)) && OnData(c, app).phase == Open
  {
    hide NextFrame, Rest, NeverCloses, ParseFrames;
    LoopStays(c, app);
    DataKeeps(x => true, c, app) by { assert Stable(x => true); }
  }

  lemma WriteStays(c: Conn, vectored: bool, res: WriteResult, app: App)
    requires NeverCloses(app)
    ensures HandleWrite(c, vectored, res, app).conn.phase == c.phase
    ensures HandleWrite(c, vectored, res, app).conn.fault == c.fault
  {
    if c.tx != [] && res.Accepted? {
      var d := Advance(c, Min(res.n, if vectored then |c.tx| else Min(512, |c.tx|)));
      NotifyStays(d.(paused := false), OnDrain(|d.sent|), app);
    }
  }

  lemma KeptUpStep(c0: Conn, c: Conn, bs: seq<seq<byte>>, s: Step, app: App)
    requires KeptUp(c0, c) && NeverCloses(app) && Acceptable(bs)
    requires !(s.io.Api? && s.io.call.Close?)
    requires DoStep(c, s, app).received <= c0.received + Concat(bs)
    ensures KeptUp(c0, DoStep(c, s, app))
  {
    hide KeptUp, NeverCloses, HandleRead, HandleWrite, Invoke, Messages, Decode, Rest, Payloads, NextFrame, Acceptable, Base;
    var c1 := c.(clock := s.now);
    KeptUpBase(c0, c);
    NoteKeeps(x => true, c, s.now, c.lastError) by { assert Stable(x => true); }
    KeptUpSame(c0, c, c1);
    KeptUpBase(c0, c1);
    match s.io
    case Read(res) =>
      ReadKeepsUp(c0, c1, bs, res, app);
    case Write(vectored, res) =>
      WriteKeeps(x => true, c1, vectored, res, app) by { assert Stable(x => true); }
      WriteStays(c1, vectored, res, app);
      WriteSameInput(c1, vectored, res, app);
      KeptUpSame(c0, c1, DoStep(c, s, app));
    case Api(call) =>
      InvokeKeeps(x => true, c1, call, app) by { assert StableUnderCalls(x => true); }
      SendStays(c1, call, app);
      InvokeSameInput(c1, call, app);
      KeptUpSame(c0, c1, DoStep(c, s, app));
    case Tick =>
  }

  lemma ReadKeepsUp(c0: Conn, c: Conn, bs: seq<seq<byte>>, res: ReadResult, app: App)
    requires KeptUp(c0, c) && NeverCloses(app) && Acceptable(bs)
    requires HandleRead(c, res, app).conn.received <= c0.received + Concat(bs)
    ensures KeptUp(c0, HandleRead(c, res, app).conn)
  {
    hide KeptUp, NeverCloses, OnData, Messages, Decode, Rest, Payloads, NextFrame, Acceptable, Base;
    var r := HandleRead(c, res, app).conn;
    KeptUpBase(c0, c);
    if |c.rx| < RX_SIZE && res.Bytes? && res.data != [] {
      var got := res.data[..Min(RX_SIZE - |c.rx|, |res.data|)];
      var d := OnData(c.(rx := c.rx + got, received := c.received + got), app);
      assert d.received == c.received + got by { OpenReceives(c, got, app); }
      var seen := Since(c0, c) + got;
      assert c0.received + seen == c.received + got;
      PrefixCancel(c0.received, seen, Concat(bs));
      PrefixWaits(bs, seen);
      KeptUpRead(c0, c, got, app);
      KeptUpNoted(c0, d, Ok);
    } else {
      KeptUpNoted(c0, c, r.lastError);
    }
  }

  lemma KeptUpNoted(c0: Conn, c: Conn, e: ErrorCode)
    requires KeptUp(c0, c)
    ensures KeptUp(c0, c.(lastError := e))
  {
    hide Decode, Rest, Messages, Payloads;
  }

  lemma PrefixCancel(a: seq<byte>, x: seq<byte>, y: seq<byte>)
    requires a + x <= a + y
    ensures x <= y
  {
    assert forall i :: 0 <= i < |x| ==> x[i] == (a + x)[|a| + i] && y[i] == (a + y)[|a| + i];
  }

  lemma OpenReceives(c: Conn, got: seq<byte>, app: App)
    requires Base(c) && c.phase == Open && |c.rx| + |got| <= RX_SIZE
    ensures OnData(c.(rx := c.rx + got, received := c.received + got), app).received == c.received + got
  {
    hide OnData, Decode, Rest, Messages, Payloads;
    ReceiveKept(c, got);
    OpenReads(c.(rx := c.rx + got, received := c.received + got), app);
  }

  lemma KeptUpBase(c0: Conn, c: Conn)
    requires KeptUp(c0, c)
    ensures Base(c) && c.phase == Open && c.fault == Fine && c0.received <= c.received
  {
  }

  lemma {:induction false} RunKeepsUp(c0: Conn, bs: seq<seq<byte>>, steps: seq<Step>, app: App)
    requires KeptUp(c0, c0) && NeverCloses(app) && Acceptable(bs)
    requires forall i :: 0 <= i < |steps| ==> !(steps[i].io.Api? && steps[i].io.call.Close?)
    requires Run(c0, steps, app).received <= c0.received + Concat(bs)
    ensures KeptUp(c0, Run(c0, steps, app))
  {
    hide KeptUp, NeverCloses, DoStep, Acceptable, Base;
    if steps != [] {
      var last := |steps| - 1;
      var mid := Run(c0, steps[..last], app);
      KeptUpBase(c0, c0);
      Lifecycle.NeverBackwards(c0, steps[..last], [steps[last]], app);
      assert steps[..last] + [steps[last]] == steps;
      assert mid.received <= Run(c0, steps, app).received;
      RunKeepsUp(c0, bs, steps[..last], app);
      KeptUpStep(c0, mid, bs, steps[last], app);
    }
  }

  /** Chunk independence. An open connection with an empty receive buffer reads the frames bs, cut
      into reads in any way and interleaved with writes, sends and backpressure, while nothing
      closes it. At every point it has delivered exactly the messages of the whole frames that have
      arrived, as if they had been parsed at once; it never runs out of room, so no read reports a
      full buffer; and when all bytes are in, it has delivered exactly the text and binary payloads
      of bs, unmasked and in order, and nothing is left over. */
  lemma ChunksDoNotMatter(c0: Conn, bs: seq<seq<byte>>, steps: seq<Step>, app: App)
    requires Base(c0) && c0.phase == Open && c0.rx == []
    requires Acceptable(bs) && NeverCloses(app)
    requires forall i :: 0 <= i < |steps| ==> !(steps[i].io.Api? && steps[i].io.call.Close?)
    requires Run(c0, steps, app).received <= c0.received + Concat(bs)
    ensures var c := Run(c0, steps, app);
            && c.phase == Open && c.fault == c0.fault && |c.rx| < RX_SIZE && c0.received <= c.received
            && Messages(c.trace) == Messages(c0.trace) + Payloads(Decode(Since(c0, c), true))
            && c.rx == Rest(Since(c0, c), true)
            && (c.received == c0.received + Concat(bs) ==>
                  c.rx == [] && Messages(c.trace) == Messages(c0.trace) + Payloads(FramesOf(bs)))
  {
    hide Run, Decode, Rest, Messages, Payloads, NeverCloses, NextFrame, Base;
    assert Since(c0, c0) == [];
    EmptyRead();
    if c0.fault == Fine {
      RunKeepsUp(c0, bs, steps, app);
    } else {
      FrozenRun(c0, steps, app);
    }
    var c := Run(c0, steps, app);
    var s := Since(c0, c);
    assert c.received == c0.received + s;
    PrefixCancel(c0.received, s, Concat(bs));
    PrefixWaits(bs, s);
    if c.received == c0.received + Concat(bs) {
      assert s == Concat(bs);
      DecodeConcat(bs, true);
    }
  }

  lemma {:induction false} FrozenRun(c: Conn, steps: seq<Step>, app: App)
    requires c.fault != Fine
    ensures Run(c, steps, app) == c
  {
    if steps != [] {
      FrozenRun(c, steps[..|steps| - 1], app);
    }
  }

  lemma EmptyRead()
    ensures Rest([], true) == [] && Decode([], true) == [] && Payloads([]) == []
  {
  }
}
