/** From creation: a request and then frames, cut into reads in any way. */
module EndToEnd {
  import opened Bytes
  import opened Frames
  import opened Protocol
  import opened Actions
  import opened ReceiveStream
  import opened ReceiveRuns
  import opened ChunkIndependence
  import Handshake
  import HandshakeRuns
  import Lifecycle
  import Sockets

  /** Has anything been read since the read that completed the request? */
  predicate ReadSince(now: int, req: seq<byte>, steps: seq<Step>, app: App)
  {
    steps != [] &&
    var init := steps[..|steps| - 1];
    var before, after := Run(Fresh(now), init, app).received, Run(Fresh(now), steps, app).received;
    ReadSince(now, req, init, app) || (|before| >= |req| && before != after)
  }

  /** Where the connection is: waiting for the rest of the request, then open, holding what came with the
      request until another read, and from then on only part of a frame. */
  predicate Keeps(c: Conn, req: seq<byte>, since: bool)
  {
    && c.fault == Fine
    && if |c.received| < |req| then c.phase == Handshaking && !since
       else
         && c.phase == Open && c.request == req && req <= c.received
         && c.rx == (if since then Rest(Stream(c), true) else Stream(c))
         && (!since ==> Messages(c.trace) == [] && |c.received| <= RX_SIZE)
  }

  lemma KeepsSame(c: Conn, d: Conn, req: seq<byte>, since: bool)
    requires Keeps(c, req, since) && SameInput(c, d) && d.phase == c.phase && d.fault == Fine
    ensures Keeps(d, req, since)
  {
    hide Rest, Messages;
  }

  /** There is always room for another read. */
  lemma KeepsRoom(c: Conn, req: seq<byte>, bs: seq<seq<byte>>, since: bool)
    requires Base(c) && Keeps(c, req, since) && 4 <= |req| <= 1024 && Acceptable(bs)
    requires c.received <= req + Concat(bs)
    ensures |c.rx| < RX_SIZE
  {
    hide Rest, NextFrame, Acceptable, Messages;
    if |c.received| >= |req| && since {
      StreamIsPrefix(c, req, bs);
      PrefixWaits(bs, Stream(c));
    }
  }

  lemma StreamIsPrefix(c: Conn, req: seq<byte>, bs: seq<seq<byte>>)
    requires req <= c.received && c.request == req && c.received <= req + Concat(bs)
    ensures Stream(c) <= Concat(bs)
  {
    assert c.received == req + Stream(c);
    PrefixCancel(req, Stream(c), Concat(bs));
  }

  /** An attempt either fails or takes the request and leaves the rest in the buffer. */
  lemma AttemptResult(c: Conn, app: App)
    requires Base(c) && c.phase == Handshaking && NeverCloses(app)
    ensures var r := HandshakeOnData(c, app);
            && r.fault == c.fault && r.received == c.received && Messages(r.trace) == []
            && (r.phase == Handshaking || (r.phase == Open && r.request <= c.rx && r.rx == c.rx[|r.request|..]))
  {
    hide Handshake.ParseRequest, Handshake.Response, Messages, NeverCloses;
    AttemptDeliversNothing(c, app);
    HandshakeRuns.HandshakeReceives(c, app);
    if ParseHandshake(c).ok {
      NotifyStays(ParseHandshake(c).conn.(phase := Open), OnOpen, app);
    } else {
      FailedHandshake(c);
    }
  }

  lemma RequestRead(c: Conn, req: seq<byte>, key: seq<byte>, app: App)
    requires Base(c) && c.phase == Handshaking && c.fault == Fine && NeverCloses(app)
    requires HandshakeRuns.Tracks(HandshakeOnData(c, app), req, key) && |req| <= 1024
    requires c.received <= req || req <= c.received
    ensures Keeps(HandshakeOnData(c, app), req, false)
  {
    hide HandshakeOnData, Messages, NeverCloses, Handshake.Response;
    AttemptResult(c, app);
    var r := HandshakeOnData(c, app);
    if |c.received| >= |req| {
      assert Stream(r) == r.rx;
    }
  }

  lemma FrameRead(c: Conn, req: seq<byte>, bs: seq<seq<byte>>, app: App)
    requires Base(c) && Accounted(c) && c.phase == Open && c.fault == Fine && c.request == req && req <= c.received
    requires NeverCloses(app) && Acceptable(bs) && c.received <= req + Concat(bs)
    ensures Keeps(OnData(c, app), req, true)
  {
    hide Accounted, OnData, Messages, NeverCloses, Decode, Rest, Payloads, NextFrame, Acceptable, Base;
    AccountedGives(c);
    StreamIsPrefix(c, req, bs);
    PrefixWaits(bs, Stream(c));
    OpenReads(c, app);
    OpenStays(c, app);
    StreamSame(c, OnData(c, app));
  }

  lemma StepKeepsUp(c: Conn, req: seq<byte>, key: seq<byte>, bs: seq<seq<byte>>, since: bool, s: Step, app: App)
    requires Base(c) && Accounted(c) && Keeps(c, req, since) && 4 <= |req| <= 1024
    requires NeverCloses(app) && Acceptable(bs) && !(s.io.Api? && s.io.call.Close?)
    requires HandshakeRuns.Tracks(DoStep(c, s, app), req, key)
    requires c.received <= req + Concat(bs) && DoStep(c, s, app).received <= req + Concat(bs)
    ensures var d := DoStep(c, s, app); Keeps(d, req, since || (|c.received| >= |req| && c.received != d.received))
  {
    hide Accounted, HandleWrite, Invoke, HandleRead, Messages, NeverCloses, Decode, Rest, Payloads, Acceptable, Base, Keeps;
    hide HandshakeRuns.Tracks;
    KeepsFine(c, req, since);
    var c0 := c.(clock := s.now);
    KeepsSame(c, c0, req, since);
    NoteKeeps(x => true, c, s.now, c.lastError) by { assert Stable(x => true); }
    AccountedSame(c, c0);
    match s.io
    case Read(res) => ReadKeepsReq(c0, req, key, bs, since, res, app);
    case Write(vectored, res) =>
      WriteStays(c0, vectored, res, app);
      WriteSameInput(c0, vectored, res, app);
      KeepsSame(c0, DoStep(c, s, app), req, since);
    case Api(call) =>
      SendStays(c0, call, app);
      InvokeSameInput(c0, call, app);
      KeepsSame(c0, DoStep(c, s, app), req, since);
    case Tick =>
  }

  lemma KeepsFine(c: Conn, req: seq<byte>, since: bool)
    requires Keeps(c, req, since)
    ensures c.fault == Fine && c.phase == (if |c.received| < |req| then Handshaking else Open)
    ensures |c.received| < |req| ==> !since
    ensures |c.received| >= |req| ==> c.request == req && req <= c.received
  {
  }

  lemma ReadKeepsReq(c: Conn, req: seq<byte>, key: seq<byte>, bs: seq<seq<byte>>, since: bool, res: ReadResult, app: App)
    requires Base(c) && Accounted(c) && Keeps(c, req, since) && 4 <= |req| <= 1024
    requires NeverCloses(app) && Acceptable(bs)
    requires HandshakeRuns.Tracks(HandleRead(c, res, app).conn, req, key)
    requires c.received <= req + Concat(bs) && HandleRead(c, res, app).conn.received <= req + Concat(bs)
    ensures var d := HandleRead(c, res, app).conn; Keeps(d, req, since || (|c.received| >= |req| && c.received != d.received))
  {
    hide Accounted, OnData, Messages, NeverCloses, Decode, Rest, Payloads, Acceptable, Base, Keeps, HandshakeRuns.Tracks;
    KeepsFine(c, req, since);
    KeepsRoom(c, req, bs, since);
    var r := HandleRead(c, res, app).conn;
    if res.Bytes? && res.data != [] {
      var got := res.data[..Min(RX_SIZE - |c.rx|, |res.data|)];
      var c1 := c.(rx := c.rx + got, received := c.received + got);
      ReceiveKept(c, got);
      Sockets.DataAppends(c1, app);
      AccountedGrown(c, c1, got);
      assert |c1.received| > |c.received|;
      var d := OnData(c1, app);
      if |c.received| < |req| {
        HandshakeRuns.TracksNoted(r, req, key, d.lastError);
        HandshakeRead(c1, req, key, bs, app);
      } else {
        GrownPrefix(req, c.received, got);
        FrameRead(c1, req, bs, app);
      }
      KeepsFine(d, req, |c.received| >= |req|);
      KeepsSame(d, r, req, |c.received| >= |req|);
    } else {
      KeepsSame(c, r, req, since);
    }
  }

  lemma GrownPrefix(req: seq<byte>, s: seq<byte>, got: seq<byte>)
    requires req <= s
    ensures req <= s + got
  {
  }

  lemma HandshakeRead(c: Conn, req: seq<byte>, key: seq<byte>, bs: seq<seq<byte>>, app: App)
    requires Base(c) && c.phase == Handshaking && c.fault == Fine && NeverCloses(app) && |req| <= 1024
    requires HandshakeRuns.Tracks(OnData(c, app), req, key) && c.received <= req + Concat(bs)
    ensures Keeps(OnData(c, app), req, false)
  {
    hide HandshakeOnData, NeverCloses, Base, HandshakeRuns.Tracks, Keeps;
    RequestRead(c, req, key, app);
  }

  /** A complete request followed by frames, from creation, cut into reads in any way and interleaved with
      writes, sends and backpressure, while nothing closes the connection. No read finds the buffer full.
      What came with the request waits for another read; after one, exactly the messages of the whole
      frames that have arrived are delivered. So everything has been delivered exactly when something has
      been read since the request, or no message came with it. */
  lemma {:induction false} FromCreation(
    now: int, req: seq<byte>, key: seq<byte>, bs: seq<seq<byte>>, steps: seq<Step>, app: App)
    requires HandshakeRuns.Complete(req, key) && |req| <= 1024
    requires HandshakeRuns.KeyStandsWhenRead(now, req, key, steps, app)
    requires Acceptable(bs) && NeverCloses(app)
    requires forall i :: 0 <= i < |steps| ==> !(steps[i].io.Api? && steps[i].io.call.Close?)
    requires Run(Fresh(now), steps, app).received <= req + Concat(bs)
    ensures var c := Run(Fresh(now), steps, app);
            var since := ReadSince(now, req, steps, app);
            Keeps(c, req, since) && |c.rx| < RX_SIZE
  {
    hide HandshakeRuns.Complete, HandshakeRuns.KeyStands, DoStep, Base, Accounted, Keeps, Acceptable, NeverCloses;
    hide HandshakeRuns.Tracks, Lifecycle.Later;
    HandshakeRuns.CompleteEnd(req, key);
    FreshAccounted(now);
    if steps == [] {
      FreshKeeps(now, req);
    } else {
      var last := |steps| - 1;
      var init := steps[..last];
      var mid := Run(Fresh(now), init, app);
      assert init + [steps[last]] == steps;
      Lifecycle.NeverBackwards(Fresh(now), init, [steps[last]], app);
      HandshakeRuns.LaterReceived(mid, Run(Fresh(now), steps, app));
      FromCreation(now, req, key, bs, init, app);
      RunAccounted(Fresh(now), init, app);
      HandshakeRuns.OpensAtLastByte(now, req, key, steps, app);
      StepKeepsUp(mid, req, key, bs, ReadSince(now, req, init, app), steps[last], app);
    }
    RunAccounted(Fresh(now), steps, app);
    KeepsRoom(Run(Fresh(now), steps, app), req, bs, ReadSince(now, req, steps, app));
  }

  lemma FreshKeeps(now: int, req: seq<byte>)
    requires req != []
    ensures Keeps(Fresh(now), req, false)
  {
  }

  /** What has been delivered, once the request is complete. */
  lemma DeliveredFromCreation(
    now: int, req: seq<byte>, key: seq<byte>, bs: seq<seq<byte>>, steps: seq<Step>, app: App)
    requires HandshakeRuns.Complete(req, key) && |req| <= 1024
    requires HandshakeRuns.KeyStandsWhenRead(now, req, key, steps, app)
    requires Acceptable(bs) && NeverCloses(app)
    requires forall i :: 0 <= i < |steps| ==> !(steps[i].io.Api? && steps[i].io.call.Close?)
    requires req <= Run(Fresh(now), steps, app).received <= req + Concat(bs)
    ensures var c := Run(Fresh(now), steps, app);
            var since := ReadSince(now, req, steps, app);
            && c.phase == Open && c.request == req
            && Messages(c.trace) == (if since then Payloads(Decode(Stream(c), true)) else [])
            && (Messages(c.trace) == Payloads(Decode(Stream(c), true)) <==>
                  since || Payloads(Decode(Stream(c), true)) == [])
            && (c.received == req + Concat(bs) ==>
                  (Messages(c.trace) == Payloads(FramesOf(bs)) <==> since || Payloads(FramesOf(bs)) == []))
  {
    hide Run, Decode, Rest, Messages, Payloads, NextFrame, Base, NeverCloses, HandshakeRuns.Complete, ReadSince;
    hide HandshakeRuns.KeyStandsWhenRead, FramesOf, AreFrames;
    FromCreation(now, req, key, bs, steps, app);
    FreshAccounted(now);
    RunAccounted(Fresh(now), steps, app);
    var c := Run(Fresh(now), steps, app);
    var since := ReadSince(now, req, steps, app);
    AccountedGives(c);
    if since {
      RestIsDone(Stream(c));
      PayloadsNone();
      assert Messages(c.trace) + [] == Messages(c.trace);
    }
    if c.received == req + Concat(bs) {
      assert Stream(c) == Concat(bs);
      DecodeConcat(bs, true);
    }
  }
}
