/** What the peer receives: the bytes given to the socket over a whole run, and what they decode to. */
module SendStream {
  import opened Bytes
  import opened Frames
  import opened Protocol
  import opened Actions
  import Lifecycle

  /** The handshake response of a history. */
  function ResponsePart(t: seq<Event>): seq<byte>
  {
    if t == [] then []
    else
      var last := |t| - 1;
      ResponsePart(t[..last]) + if t[last].Responded? then t[last].bytes else []
  }

  /** Everything its frame writes pushed into the send buffer. */
  function FramePart(t: seq<Event>): seq<byte>
  {
    if t == [] then []
    else
      var last := |t| - 1;
      FramePart(t[..last]) + if t[last].Wrote? then Output(t[last].opcode, t[last].payload, t[last].fit) else []
  }

  /** The frames of a history that were written whole. */
  function WholeFrames(t: seq<Event>): seq<Frame>
  {
    if t == [] then []
    else
      var last := |t| - 1;
      WholeFrames(t[..last]) +
      if t[last].Wrote? && t[last].fit == Entire then [Frame(true, t[last].opcode, false, t[last].payload)] else []
  }

  lemma PartsLog(t: seq<Event>, e: Event)
    ensures ResponsePart(t + [e]) == ResponsePart(t) + if e.Responded? then e.bytes else []
    ensures FramePart(t + [e]) == FramePart(t) + if e.Wrote? then Output(e.opcode, e.payload, e.fit) else []
    ensures WholeFrames(t + [e]) ==
            WholeFrames(t) + if e.Wrote? && e.fit == Entire then [Frame(true, e.opcode, false, e.payload)] else []
  {
    assert (t + [e])[..|t|] == t;
  }

  /** Every frame written whole fitted into the send buffer. */
  predicate Bounded(t: seq<Event>)
  {
    forall i :: 0 <= i < |t| && t[i].Wrote? && t[i].fit == Entire ==> |t[i].payload| <= TX_SIZE
  }

  predicate Conserved(c: Conn)
  {
    && c.sent + c.tx == ResponsePart(c.trace) + FramePart(c.trace)
    && Bounded(c.trace)
  }

  lemma ConservedWrite(c: Conn, opcode: OpCode, payload: seq<byte>)
    requires Conserved(c)
    ensures Conserved(WriteFrame(c, opcode, payload))
  {
    hide EncodeHeader, Output, ResponsePart, FramePart;
    var fit := FitOf(c, opcode, payload);
    var out := Output(opcode, payload, fit);
    PartsLog(c.trace, Wrote(opcode, payload, fit));
    assert c.sent + (c.tx + out) == (c.sent + c.tx) + out;
    assert ResponsePart(c.trace) + (FramePart(c.trace) + out) == (ResponsePart(c.trace) + FramePart(c.trace)) + out;
  }

  /** Adding an event that is no output. */
  lemma ConservedLog(c: Conn, d: Conn, e: Event)
    requires Conserved(c) && d.sent + d.tx == c.sent + c.tx && d.trace == c.trace + [e]
    requires !e.Responded? && !e.Wrote?
    ensures Conserved(d)
  {
    hide ResponsePart, FramePart;
    PartsLog(c.trace, e);
  }

  lemma ConservedUpgrade(c: Conn, d: Conn, response: seq<byte>)
    requires c.sent == [] && c.tx == [] && c.trace == []
    requires d.sent == [] && d.tx == c.tx + response && d.trace == c.trace + [Responded(response)] + [OnOpen]
    ensures Conserved(d)
  {
    PartsLog([], Responded(response));
    PartsLog([Responded(response)], OnOpen);
    assert d.trace == [Responded(response)] + [OnOpen];
  }

  lemma ConservedKept(c: Conn, a: Act)
    requires Conserved(c) && Base(c) && Enabled(c, a)
    ensures Conserved(Apply(c, a))
  {
    hide Conserved, FitOf, Output;
    var d := Apply(c, a);
    match a
    case WriteData(opcode, payload) => ConservedWrite(c, opcode, payload);
    case WritePong(payload) => ConservedWrite(c, PONG, payload);
    case StartClose(code) =>
      ConservedWrite(c, CLOSE, ToBigEndian(code, 2));
      ConservedSame(WriteCloseFrame(c, code), d);
    case UpgradeTo(size, response) => ConservedUpgrade(c, d, response);
    case Flush(n) =>
      Lifecycle.AdvanceConserves(c, n);
      if d.trace == c.trace { ConservedSame(c, d); } else { ConservedLog(c, d, d.trace[|c.trace|]); }
    case Discard(_) => ConservedSame(c, d);
    case Receive(_) => ConservedSame(c, d);
    case DropSocket => ConservedSame(c, d);
    case Note(_, _) => ConservedSame(c, d);
    case Fail(_) => ConservedSame(c, d);
    case _ => ConservedLog(c, d, d.trace[|c.trace|]);
  }

  lemma ConservedSame(c: Conn, d: Conn)
    requires Conserved(c) && d.sent + d.tx == c.sent + c.tx && d.trace == c.trace
    ensures Conserved(d)
  {
  }

  /** Over every run, on either write path and under any partial writes, the bytes given to the socket
      followed by the bytes still buffered are the handshake response followed by everything that
      was pushed since: nothing is lost, repeated or reordered. */
  lemma OutputConserved(now: int, steps: seq<Step>, app: App)
    ensures Conserved(Run(Fresh(now), steps, app))
  {
    hide Run, Apply, Enabled, Base;
    var P := (d: Conn) => Conserved(d);
    assert Stable(P) by {
      hide Conserved;
      forall d: Conn, a: Act | Base(d) && P(d) && Enabled(d, a) ensures P(Apply(d, a)) {
        ConservedKept(d, a);
      }
    }
    Lifecycle.FreshBase(now);
    assert Conserved(Fresh(now));
    RunKeeps(P, Fresh(now), steps, app);
  }

  /** Was no frame cut after its header? A write cuts exactly when the header fits and the whole
      frame does not. */
  predicate NothingCut(t: seq<Event>)
  {
    forall i :: 0 <= i < |t| && t[i].Wrote? ==> t[i].fit != HeaderOnly
  }

  /** What a send from the Open state puts into the buffer, whatever callbacks it causes: its header and
      not its payload exactly when the header fits into the room and the whole frame does not. */
  lemma CutExactly(c: Conn, payload: seq<byte>, binary: bool, app: App)
    requires Base(c) && c.phase == Open
    ensures var r := Invoke(c, Send(payload, binary), app);
            var header := EncodeHeader(if binary then BINARY else TEXT, |payload|, false);
            var room := TX_SIZE - |c.tx|;
            && c.tx <= r.tx
            && (c.tx + header <= r.tx && !(c.tx + header + payload <= r.tx) <==> |header| <= room < |header| + |payload|)
            && (c.tx + header + payload <= r.tx <==> |header| + |payload| <= room)
  {
    hide EncodeHeader, CheckHighWatermark, Base;
    var opcode := if binary then BINARY else TEXT;
    var d := WriteFrame(c, opcode, payload);
    var r := CheckHighWatermark(d, app);
    WrittenKept(c, opcode, payload);
    CallsOnlyAppend(d);
    HighWatermarkKeeps((x: Conn) => d.tx <= x.tx, d, app);
    BaseFits(c);
    BaseFits(r);
    CutOf(c.tx, EncodeHeader(opcode, |payload|, false), payload, r.tx);
  }

  /** The close frame of a close from the Open state is cut exactly when two or three bytes are free, and
      missing exactly when fewer are. */
  lemma CloseCutExactly(c: Conn, code: nat, app: App)
    requires |c.tx| <= 8192 && c.phase == Open
    ensures var r := Invoke(c, Close(code), app);
            var room := 8192 - |c.tx|;
            var payload := [code / 256 % 256, code % 256];
            && (r.tx == c.tx <==> room < 2)
            && (r.tx == c.tx + [0x88, 0x02] <==> 2 <= room < 4)
            && (r.tx == c.tx + [0x88, 0x02] + payload <==> room >= 4)
  {
    hide Invoke;
    CloseWrites(c, code, app);
    CloseCutOf(c.tx, [code / 256 % 256, code % 256]);
  }

  lemma CloseWrites(c: Conn, code: nat, app: App)
    requires c.phase == Open
    ensures var header: seq<byte> := [0x88, 0x02];
            var payload := [code / 256 % 256, code % 256];
            Invoke(c, Close(code), app).tx ==
            c.tx + match FitIn(|c.tx|, 2, 2) case Nothing => [] case HeaderOnly => header case Entire => header + payload
  {
    hide EncodeHeader, ToBigEndian;
    TwoBytes(code);
    HeaderOfClose();
  }

  lemma HeaderOfClose()
    ensures EncodeHeader(CLOSE, 2, false) == [0x88, 0x02]
  {
  }

  lemma CloseCutOf(tx: seq<byte>, payload: seq<byte>)
    requires |tx| <= 8192 && |payload| == 2
    ensures var header: seq<byte> := [0x88, 0x02];
            var out := match FitIn(|tx|, 2, 2) case Nothing => [] case HeaderOnly => header case Entire => header + payload;
            && (tx + out == tx <==> 8192 - |tx| < 2)
            && (tx + out == tx + header <==> 2 <= 8192 - |tx| < 4)
            && (tx + out == tx + header + payload <==> 8192 - |tx| >= 4)
  {
    var header: seq<byte> := [0x88, 0x02];
    assert |tx + header| == |tx| + 2 && |tx + header + payload| == |tx| + 4;
    assert tx + (header + payload) == tx + header + payload && tx + [] == tx;
  }

  /** The pong for a ping: its header without its payload exactly under the guard of a send. */
  lemma PongCutExactly(c: Conn, f: Frame, app: App)
    requires |c.tx| <= 8192 && f.opcode == PING
    ensures var r := HandleFrame(c, f, app);
            var header := EncodeHeader(PONG, |f.payload|, false);
            var room := 8192 - |c.tx|;
            && (r.tx == c.tx <==> room < |header|)
            && (f.payload != [] ==> (r.tx == c.tx + header <==> |header| <= room < |header| + |f.payload|))
            && (r.tx == c.tx + header + f.payload <==> |header| + |f.payload| <= room)
  {
    hide EncodeHeader;
    var header := EncodeHeader(PONG, |f.payload|, false);
    var r := HandleFrame(c, f, app);
    assert r.tx == c.tx + Output(PONG, f.payload, FitOf(c, PONG, f.payload));
    assert c.tx + header + f.payload == c.tx + (header + f.payload);
    assert |header| >= 2;
  }

  lemma CutOf(tx: seq<byte>, header: seq<byte>, payload: seq<byte>, after: seq<byte>)
    requires |tx| <= TX_SIZE && |after| <= TX_SIZE
    requires tx + (match FitIn(|tx|, |header|, |payload|)
                   case Nothing => []
                   case HeaderOnly => header
                   case Entire => header + payload) <= after
    ensures var room := TX_SIZE - |tx|;
            && tx <= after
            && (tx + header <= after && !(tx + header + payload <= after) <==> |header| <= room < |header| + |payload|)
            && (tx + header + payload <= after <==> |header| + |payload| <= room)
  {
    assert tx + header + payload == tx + (header + payload);
  }

  lemma CallsOnlyAppend(d: Conn)
    ensures StableUnderCalls((x: Conn) => d.tx <= x.tx)
  {
    hide Base, Output;
  }

  function Encodings(fs: seq<Frame>): seq<seq<byte>>
  {
    seq(|fs|, i requires 0 <= i < |fs| => FrameBytes(fs[i].opcode, fs[i].payload, []))
  }

  /** Frames as this endpoint sends them: final, unmasked and of a size that fits its buffer. */
  predicate Plain(fs: seq<Frame>)
  {
    forall i :: 0 <= i < |fs| ==> fs[i].fin && !fs[i].masked && |fs[i].payload| <= TX_SIZE
  }

  lemma {:induction false} WholeFramesPlain(t: seq<Event>)
    requires Bounded(t)
    ensures Plain(WholeFrames(t))
  {
    if t != [] {
      var last := |t| - 1;
      WholeFramesPlain(t[..last]);
      PartsLog(t[..last], t[last]);
      assert t == t[..last] + [t[last]];
    }
  }

  /** The frame part is the encodings of the frames written whole when nothing was cut, and longer
      than them otherwise. */
  lemma {:induction false} FramePartIs(t: seq<Event>)
    ensures var whole := Concat(Encodings(WholeFrames(t)));
            if NothingCut(t) then FramePart(t) == whole else |FramePart(t)| > |whole|
  {
    hide EncodeHeader, Encodings, WholeFrames, FramePart, Concat;
    if t == [] {
      NothingWritten();
    } else {
      var last := |t| - 1;
      var init, e := t[..last], t[last];
      FramePartIs(init);
      PartsLog(init, e);
      assert t == init + [e];
      assert NothingCut(t) <==> NothingCut(init) && (e.Wrote? ==> e.fit != HeaderOnly);
      if e.Wrote? && e.fit == Entire {
        EncodingsSnoc(WholeFrames(init), Frame(true, e.opcode, false, e.payload));
        assert Output(e.opcode, e.payload, Entire) == FrameBytes(e.opcode, e.payload, []);
      } else {
        assert WholeFrames(t) == WholeFrames(init);
      }
    }
  }

  lemma NothingWritten()
    ensures FramePart([]) == Concat(Encodings(WholeFrames([]))) == []
  {
  }

  lemma EncodingsSnoc(fs: seq<Frame>, f: Frame)
    ensures Concat(Encodings(fs + [f])) == Concat(Encodings(fs)) + FrameBytes(f.opcode, f.payload, [])
  {
    hide FrameBytes;
    ConcatSnoc(Encodings(fs), FrameBytes(f.opcode, f.payload, []));
    assert Encodings(fs + [f]) == Encodings(fs) + [FrameBytes(f.opcode, f.payload, [])];
  }

  /** Encodings of plain frames decode to those frames and leave nothing over. */
  lemma EncodingsDecode(fs: seq<Frame>)
    requires Plain(fs)
    ensures Decode(Concat(Encodings(fs)), false) == fs
    ensures Rest(Concat(Encodings(fs)), false) == []
  {
    hide FrameBytes, NextFrame, Decode, Rest;
    var bs := Encodings(fs);
    forall i | 0 <= i < |bs| ensures IsFrame(bs[i]) && FrameOf(bs[i]) == fs[i] {
      FrameRoundTrip(fs[i].opcode, fs[i].payload, []);
    }
    DecodeConcat(bs, false);
    assert FramesOf(bs) == fs;
  }

  /** Two lists of plain frames with the same bytes are the same list. */
  lemma EncodingsUnique(fs: seq<Frame>, gs: seq<Frame>)
    requires Plain(fs) && Plain(gs) && Concat(Encodings(fs)) == Concat(Encodings(gs))
    ensures fs == gs
  {
    EncodingsDecode(fs);
    EncodingsDecode(gs);
  }

  /** The handshake response occurs at most once, at the front of the history. */
  lemma {:induction false} ResponseIsFirst(t: seq<Event>)
    requires Lifecycle.OpensFirst(t)
    ensures ResponsePart(t) == if t != [] && t[0].Responded? then t[0].bytes else []
  {
    if t != [] {
      var last := |t| - 1;
      var init := t[..last];
      assert Lifecycle.OpensFirst(init) by {
        assert forall i :: 0 <= i < |init| ==> init[i] == t[i];
      }
      ResponseIsFirst(init);
    }
  }

  /** The meaning of the sent stream, over every run: the response, then exactly the frames that were
      written whole, in order, if and only if no write was cut after its header; and then the
      stream decodes to those frames. */
  lemma StreamMeaning(now: int, steps: seq<Step>, app: App)
    ensures var c := Run(Fresh(now), steps, app);
            var fs := WholeFrames(c.trace);
            && ResponsePart(c.trace) == (if c.trace != [] && c.trace[0].Responded? then c.trace[0].bytes else [])
            && (c.sent + c.tx == ResponsePart(c.trace) + Concat(Encodings(fs)) <==> NothingCut(c.trace))
            && (NothingCut(c.trace) ==>
                  Decode((c.sent + c.tx)[|ResponsePart(c.trace)|..], false) == fs
                  && Rest((c.sent + c.tx)[|ResponsePart(c.trace)|..], false) == [])
  {
    hide Run, Decode, Rest, FramePart, ResponsePart, Encodings, WholeFrames;
    var c := Run(Fresh(now), steps, app);
    OutputConserved(now, steps, app);
    Lifecycle.EventsInOrder(now, steps, app);
    ResponseIsFirst(c.trace);
    FramePartIs(c.trace);
    WholeFramesPlain(c.trace);
    EncodingsDecode(WholeFrames(c.trace));
    var r, f, w := ResponsePart(c.trace), FramePart(c.trace), Concat(Encodings(WholeFrames(c.trace)));
    assert (r + f)[|r|..] == f;
    if NothingCut(c.trace) {
      assert f == w;
    } else {
      assert |r + f| > |r + w|;
    }
  }

  // ---- what a cut frame does to the stream ----

  /** An application whose callbacks call nothing. */
  function Quiet(t: seq<Event>): seq<Call>
  {
    []
  }

  lemma QuietSend(c: Conn, payload: seq<byte>)
    requires c.phase == Open
    ensures var r := Invoke(c, Send(payload, false), Quiet);
            var fit := FitOf(c, TEXT, payload);
            && r.phase == Open && r.sent == c.sent && r.tx == c.tx + Output(TEXT, payload, fit)
            && WholeFrames(r.trace) == WholeFrames(c.trace) + if fit == Entire then [Frame(true, TEXT, false, payload)] else []
  {
    hide Output, FitOf, WholeFrames;
    var fit := FitOf(c, TEXT, payload);
    PartsLog(c.trace, Wrote(TEXT, payload, fit));
    var d := WriteFrame(c, TEXT, payload);
    var e := Log(d.(paused := true), OnBackpressure(|d.sent|));
    assert Notify(d.(paused := true), OnBackpressure(|d.sent|), Quiet) == e by {
      assert Quiet(e.trace) == [] && RunCalls(e, [], Quiet) == e;
    }
    PartsLog(d.trace, OnBackpressure(|d.sent|));
  }

  lemma Headers()
    ensures |EncodeHeader(TEXT, 8186, false)| == 4 && EncodeHeader(TEXT, 1, false) == [0x81, 0x01]
  {
    TwoBytes(8186);
  }

  /** Three sends from an open connection with nothing buffered: a large message, one that is cut, and
      after 100 bytes have left one that fits. The header of the second takes its payload from the
      third: the stream decodes to a message that was never sent, and the third never arrives. */
  lemma CutBreaksStream(c: Conn)
    requires c.phase == Open && c.tx == []
    ensures var big: seq<byte> := seq(8186, _ => 0);
            var c2 := Invoke(Invoke(c, Send(big, false), Quiet), Send([0x41], false), Quiet);
            var r := Invoke(HandleWrite(c2, true, Accepted(100), Quiet).conn, Send([0x42], false), Quiet);
            var stream := FrameBytes(TEXT, big, []) + [0x81, 0x01, 0x81, 0x01, 0x42];
            && WholeFrames(r.trace) == WholeFrames(c.trace) + [Frame(true, TEXT, false, big), Frame(true, TEXT, false, [0x42])]
            && r.sent + r.tx == c.sent + stream
            && Decode(stream, false) == [Frame(true, TEXT, false, big), Frame(true, TEXT, false, [0x81])]
  {
    hide EncodeHeader, WholeFrames, Decode, Invoke, NextFrame;
    var big: seq<byte> := seq(8186, _ => 0);
    Headers();
    var c1 := Invoke(c, Send(big, false), Quiet);
    QuietSend(c, big);
    var c2 := Invoke(c1, Send([0x41], false), Quiet);
    QuietSend(c1, [0x41]);
    assert |c1.tx| == 8190 && c2.tx == c1.tx + [0x81, 0x01];
    var c3 := HandleWrite(c2, true, Accepted(100), Quiet).conn;
    Lifecycle.AdvanceConserves(c2, 100);
    QuietSend(c3, [0x42]);
    BrokenDecode(big);
    assert FrameBytes(TEXT, big, []) == c1.tx;
  }

  lemma BrokenDecode(big: seq<byte>)
    requires |big| == 8186
    ensures Decode(FrameBytes(TEXT, big, []) + [0x81, 0x01, 0x81, 0x01, 0x42], false) ==
            [Frame(true, TEXT, false, big), Frame(true, TEXT, false, [0x81])]
  {
    hide FrameBytes, Decode, NextFrame;
    FrameRoundTrip(TEXT, big, []);
    DecodeCons(FrameBytes(TEXT, big, []), [0x81, 0x01, 0x81, 0x01, 0x42], false);
    BrokenTail();
  }

  lemma BrokenTail()
    ensures Decode([0x81, 0x01, 0x81, 0x01, 0x42], false) == [Frame(true, TEXT, false, [0x81])]
  {
    hide Decode, NextFrame, FrameBytes, IsFrame, FrameOf;
    var b, e: seq<byte> := FrameBytes(TEXT, [0x81], []), [0x01, 0x42];
    FrameRoundTrip(TEXT, [0x81], []);
    DecodeCons(b, e, false);
    ShortTail(e);
    TailBytes();
  }

  lemma TailBytes()
    ensures FrameBytes(TEXT, [0x81], []) + [0x01, 0x42] == [0x81, 0x01, 0x81, 0x01, 0x42]
  {
    hide EncodeHeader;
    Headers();
  }

  lemma ShortTail(e: seq<byte>)
    requires e == [0x01, 0x42]
    ensures Decode(e, false) == []
  {
    assert NextFrame(e) == Incomplete;
  }
}
