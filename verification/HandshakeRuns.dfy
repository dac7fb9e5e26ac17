/** The handshake over runs: it succeeds exactly when the last byte of the request arrives. */
module HandshakeRuns {
  import opened Bytes
  import opened Frames
  import opened Protocol
  import opened Actions
  import opened Handshake
  import opened ReceiveStream
  import Lifecycle
  import ReceiveRuns

  // ---- searching in data that grows ----

  lemma FindIs(d: seq<byte>, pat: seq<byte>, from: nat, p: nat)
    requires from <= p && At(d, pat, p)
    requires forall j: nat :: from <= j < p ==> !At(d, pat, j)
    ensures Find(d, pat, from) == Some(p)
  {
    hide At;
    var r := Find(d, pat, from);
  }

  lemma FindNone(d: seq<byte>, pat: seq<byte>, from: nat)
    requires forall j: nat :: from <= j ==> !At(d, pat, j)
    ensures Find(d, pat, from) == None
  {
    hide At;
    var r := Find(d, pat, from);
  }

  lemma AtExtends(d: seq<byte>, more: seq<byte>, pat: seq<byte>, i: nat)
    requires i + |pat| <= |d|
    ensures At(d, pat, i) <==> At(d + more, pat, i)
  {
    assert d[i..i + |pat|] == (d + more)[i..i + |pat|];
  }

  /** A first occurrence stays the first one when more data arrives. */
  lemma FindExtends(d: seq<byte>, more: seq<byte>, pat: seq<byte>, from: nat)
    requires Find(d, pat, from).Some?
    ensures Find(d + more, pat, from) == Find(d, pat, from)
  {
    hide At;
    var p := Find(d, pat, from).value;
    AtBounds(d, pat, p);
    AtExtends(d, more, pat, p);
    forall j: nat | from <= j < p ensures !At(d + more, pat, j) {
      AtExtends(d, more, pat, j);
    }
    FindIs(d + more, pat, from, p);
  }

  lemma AtBounds(d: seq<byte>, pat: seq<byte>, i: nat)
    requires At(d, pat, i)
    ensures i + |pat| <= |d|
  {
  }

  /** A pattern without line feeds does not run across a line end. */
  lemma NoStraddle(d: seq<byte>, more: seq<byte>, pat: seq<byte>, i: nat)
    requires d != [] && d[|d| - 1] == 10 && 10 !in pat && i < |d| < i + |pat|
    ensures !At(d + more, pat, i)
  {
    if i + |pat| <= |d + more| {
      var k := |d| - 1 - i;
      assert pat[k] != 10 && (d + more)[i..i + |pat|][k] == 10;
    }
  }

  /** A pattern that is not in a text ending a line can only be in the data behind it. */
  lemma OnlyBehind(d: seq<byte>, more: seq<byte>, pat: seq<byte>, j: nat)
    requires d != [] && d[|d| - 1] == 10 && 10 !in pat && pat != []
    requires Find(d, pat, 0).None?
    ensures At(d + more, pat, j) <==> j >= |d| && At(more, pat, j - |d|)
  {
    hide At;
    if j >= |d| {
      AtShift(d, more, pat, j - |d|);
    } else if j + |pat| <= |d| {
      AtExtends(d, more, pat, j);
    } else {
      NoStraddle(d, more, pat, j);
    }
  }

  /** Searching a text that ends a line and then more data: what is in the first part comes first. */
  lemma FindAcross(d: seq<byte>, more: seq<byte>, pat: seq<byte>)
    requires d != [] && d[|d| - 1] == 10 && 10 !in pat && pat != []
    ensures Find(d, pat, 0).Some? ==> Find(d + more, pat, 0) == Find(d, pat, 0)
    ensures Find(d, pat, 0).None? && Find(more, pat, 0).None? ==> Find(d + more, pat, 0).None?
    ensures Find(d, pat, 0).None? && Find(more, pat, 0).Some? ==>
              Find(d + more, pat, 0) == Some(|d| + Find(more, pat, 0).value)
  {
    hide At, Find;
    if Find(d, pat, 0).Some? {
      FindExtends(d, more, pat, 0);
    } else {
      FindBehind(d, more, pat);
    }
  }

  lemma FindBehind(d: seq<byte>, more: seq<byte>, pat: seq<byte>)
    requires d != [] && d[|d| - 1] == 10 && 10 !in pat && pat != [] && Find(d, pat, 0).None?
    ensures Find(d + more, pat, 0) ==
            match Find(more, pat, 0) { case None => None case Some(q) => Some(|d| + q) }
  {
    hide At, Find;
    var both := d + more;
    match Find(more, pat, 0)
    case None =>
      forall j: nat ensures !At(both, pat, j) {
        OnlyBehind(d, more, pat, j);
      }
      FindNone(both, pat, 0);
    case Some(q) =>
      OnlyBehind(d, more, pat, |d| + q);
      forall j: nat | j < |d| + q ensures !At(both, pat, j) {
        OnlyBehind(d, more, pat, j);
      }
      FindIs(both, pat, 0, |d| + q);
  }

  lemma AtShift(d: seq<byte>, more: seq<byte>, pat: seq<byte>, i: nat)
    ensures At(d + more, pat, |d| + i) <==> At(more, pat, i)
  {
    if i + |pat| <= |more| {
      assert (d + more)[|d| + i..|d| + i + |pat|] == more[i..i + |pat|];
    }
  }

  /** Searching only behind the first part. */
  lemma FindShift(d: seq<byte>, more: seq<byte>, pat: seq<byte>, from: nat)
    ensures Find(d + more, pat, |d| + from) ==
            match Find(more, pat, from) { case None => None case Some(q) => Some(|d| + q) }
  {
    hide At, Find;
    var both := d + more;
    match Find(more, pat, from)
    case None =>
      forall j: nat | |d| + from <= j ensures !At(both, pat, j) {
        AtShift(d, more, pat, j - |d|);
      }
      FindNone(both, pat, |d| + from);
    case Some(q) =>
      AtShift(d, more, pat, q);
      forall j: nat | |d| + from <= j < |d| + q ensures !At(both, pat, j) {
        AtShift(d, more, pat, j - |d|);
      }
      FindIs(both, pat, |d| + from, |d| + q);
  }

  // ---- requests that arrive whole, with other bytes behind them ----

  /** req is one complete request with this key. */
  predicate Complete(req: seq<byte>, key: seq<byte>)
  {
    ParseRequest(req) == Upgrade(|req|, key)
  }

  lemma CompleteEnd(req: seq<byte>, key: seq<byte>)
    requires Complete(req, key)
    ensures |req| >= 4 && req[|req| - 1] == 10
    ensures Find(req, BLANK_LINE, 0) == Some(|req| - 4)
  {
    hide GetVerb, TrimEnd, FindKeyHeader, Find, At;
    EndsWith(req, |req| - 4, BLANK_LINE);
  }

  lemma CompleteKey(req: seq<byte>, key: seq<byte>)
    requires Complete(req, key)
    ensures |req| >= 4 && req[..4] == GetVerb() && FindKeyHeader(req).Some?
    ensures var start := FindKeyHeader(req).value + |KeyHeader()|;
            var stop := Find(req, CRLF, start);
            stop.Some? && start <= stop.value <= |req| && key == TrimEnd(req[start..stop.value]) && key != []
  {
    hide GetVerb, TrimEnd, FindKeyHeader, Find, At, KeyHeader;
    var start := FindKeyHeader(req).value + |KeyHeader()|;
    AtBounds(req, CRLF, Find(req, CRLF, start).value);
  }

  lemma EndsWith(d: seq<byte>, p: nat, pat: seq<byte>)
    requires At(d, pat, p) && p + |pat| == |d| && pat != []
    ensures d[|d| - 1] == pat[|pat| - 1]
  {
    assert d[p..p + |pat|][|pat| - 1] == d[|d| - 1];
  }

  lemma HeadersHaveNoLineFeed()
    ensures 10 !in KeyHeader() && 10 !in KeyHeaderLower()
    ensures |KeyHeader()| == 19 && |KeyHeaderLower()| == 19
  {
    var s, t := "Sec-WebSocket-Key: ", "sec-websocket-key: ";
    assert |s| == 19 && |t| == 19;
    assert forall i :: 0 <= i < 19 ==> s[i] != '\n' && t[i] != '\n';
  }

  /** The search for the key looks past the end of the request. It finds the request's own header
      exactly when the request spells it canonically or the bytes behind it do not. */
  lemma KeyHeaderFound(req: seq<byte>, key: seq<byte>, extra: seq<byte>)
    requires Complete(req, key)
    ensures FindKeyHeader(req + extra) == FindKeyHeader(req) <==>
            Find(req, KeyHeader(), 0).Some? || Find(extra, KeyHeader(), 0).None?
  {
    hide Find, KeyHeader, KeyHeaderLower, Complete;
    CompleteEnd(req, key);
    CompleteKey(req, key);
    HeadersHaveNoLineFeed();
    FindAcross(req, extra, KeyHeader());
    FindAcross(req, extra, KeyHeaderLower());
    var p := FindKeyHeader(req).value;
    FoundInside(req, if Find(req, KeyHeader(), 0).Some? then KeyHeader() else KeyHeaderLower(), p);
  }

  lemma FoundInside(d: seq<byte>, pat: seq<byte>, p: nat)
    requires Find(d, pat, 0) == Some(p) && pat != []
    ensures p < |d|
  {
  }

  /** The key that the first canonical header in s names, if its line is complete. */
  function KeyIn(s: seq<byte>): Option<seq<byte>>
  {
    var p := Find(s, KeyHeader(), 0);
    if p.None? then None
    else
      var start := p.value + |KeyHeader()|;
      var stop := Find(s, CRLF, start);
      if stop.None? then None else Some(TrimEnd(s[start..stop.value]))
  }

  /** The bytes behind the request do not replace its key: the request spells the header canonically,
      or they do not, or they name the same key. */
  predicate KeyStands(req: seq<byte>, key: seq<byte>, extra: seq<byte>)
  {
    Find(req, KeyHeader(), 0).Some? || Find(extra, KeyHeader(), 0).None? || KeyIn(extra) == Some(key)
  }

  /** Exactly under that condition, bytes behind a complete request change nothing. */
  lemma ExtraBytesIgnored(req: seq<byte>, key: seq<byte>, extra: seq<byte>)
    requires Complete(req, key)
    ensures ParseRequest(req + extra) == Upgrade(|req|, key) <==> KeyStands(req, key, extra)
  {
    hide Find, KeyHeader, Complete, ParseRequest, KeyIn;
    if Find(req, KeyHeader(), 0).Some? || Find(extra, KeyHeader(), 0).None? {
      OwnKeyRead(req, key, extra);
    } else {
      CompleteKey(req, key);
      OtherKeyRead(req, key, extra);
    }
  }

  lemma OwnKeyRead(req: seq<byte>, key: seq<byte>, extra: seq<byte>)
    requires Complete(req, key)
    requires Find(req, KeyHeader(), 0).Some? || Find(extra, KeyHeader(), 0).None?
    ensures ParseRequest(req + extra) == Upgrade(|req|, key)
  {
    hide Find, KeyHeader, KeyHeaderLower, Complete, FindKeyHeader, TrimEnd, GetVerb;
    var d := req + extra;
    CompleteEnd(req, key);
    CompleteKey(req, key);
    KeyHeaderFound(req, key, extra);
    FindExtends(req, extra, BLANK_LINE, 0);
    assert d[..4] == req[..4];
    var start := FindKeyHeader(req).value + |KeyHeader()|;
    FindExtends(req, extra, CRLF, start);
    var stop := Find(req, CRLF, start).value;
    assert d[start..stop] == req[start..stop];
  }

  /** Otherwise the key is taken from behind the request, or none is found at all. */
  lemma OtherKeyRead(req: seq<byte>, key: seq<byte>, extra: seq<byte>)
    requires Complete(req, key)
    requires Find(req, KeyHeader(), 0).None? && Find(extra, KeyHeader(), 0).Some?
    ensures ParseRequest(req + extra) ==
            match KeyIn(extra)
            case None => Malformed
            case Some(k) => if k == [] then Malformed else Upgrade(|req|, k)
  {
    hide Find, KeyHeader, FindKeyHeader, Complete, TrimEnd, GetVerb, At, ParseRequest;
    CompleteEnd(req, key);
    FindExtends(req, extra, BLANK_LINE, 0);
    assert (req + extra)[..4] == GetVerb() by {
      CompleteKey(req, key);
      assert (req + extra)[..4] == req[..4];
    }
    OtherHeaderFound(req, extra);
    var start := Find(extra, KeyHeader(), 0).value + |KeyHeader()|;
    OtherLine(req, extra, start);
    ParsedAs(req + extra, |req| - 4, |req| + start - |KeyHeader()|, Find(req + extra, CRLF, |req| + start));
  }

  /** A request of which the end, the key header and the end of its line are known. */
  lemma ParsedAs(d: seq<byte>, end: nat, keyPos: nat, stop: Option<nat>)
    requires Find(d, BLANK_LINE, 0) == Some(end) && |d| >= 4 && d[..4] == GetVerb() && FindKeyHeader(d) == Some(keyPos)
    requires Find(d, CRLF, keyPos + |KeyHeader()|) == stop && (stop.Some? ==> keyPos + |KeyHeader()| <= stop.value <= |d|)
    ensures ParseRequest(d) ==
            if stop.None? || TrimEnd(d[keyPos + |KeyHeader()|..stop.value]) == [] then Malformed
            else Upgrade(end + 4, TrimEnd(d[keyPos + |KeyHeader()|..stop.value]))
  {
    hide Find, KeyHeader, FindKeyHeader, TrimEnd, GetVerb, At;
  }

  lemma OtherHeaderFound(req: seq<byte>, extra: seq<byte>)
    requires req != [] && req[|req| - 1] == 10
    requires Find(req, KeyHeader(), 0).None? && Find(extra, KeyHeader(), 0).Some?
    ensures FindKeyHeader(req + extra) == Some(|req| + Find(extra, KeyHeader(), 0).value)
  {
    hide Find, KeyHeader, KeyHeaderLower;
    HeadersHaveNoLineFeed();
    FindAcross(req, extra, KeyHeader());
  }

  lemma OtherLine(req: seq<byte>, extra: seq<byte>, start: nat)
    ensures var stop, here := Find(req + extra, CRLF, |req| + start), Find(extra, CRLF, start);
            && stop.None? == here.None?
            && (here.Some? ==> |req| + start <= stop.value <= |req + extra| && here.value <= |extra| && start <= here.value
                               && (req + extra)[|req| + start..stop.value] == extra[start..here.value])
  {
    hide Find, At;
    FindShift(req, extra, CRLF, start);
    if Find(extra, CRLF, start).Some? {
      AtBounds(extra, CRLF, Find(extra, CRLF, start).value);
    }
  }

  /** A proper prefix of a complete request is not yet a request. */
  lemma PrefixIsWaiting(req: seq<byte>, key: seq<byte>, k: nat)
    requires Complete(req, key) && k < |req|
    ensures ParseRequest(req[..k]) == Waiting
  {
    hide Complete, At;
    CompleteEnd(req, key);
    assert req[..k] + req[k..] == req;
    forall j: nat ensures !At(req[..k], BLANK_LINE, j) {
      if At(req[..k], BLANK_LINE, j) {
        AtBounds(req[..k], BLANK_LINE, j);
        AtExtends(req[..k], req[k..], BLANK_LINE, j);
      }
    }
    FindNone(req[..k], BLANK_LINE, 0);
  }

  // ---- runs ----

  /** Before the request is complete nothing has happened; from its last byte on, the connection has
      been upgraded with exactly this request and has answered it. */
  predicate Tracks(c: Conn, req: seq<byte>, key: seq<byte>)
  {
    if |c.received| < |req| then c.phase == Handshaking
    else
      && c.phase != Handshaking && c.request == req
      && |c.trace| >= 2 && c.trace[0] == Responded(Response(key)) && c.trace[1] == OnOpen
  }

  /** The bytes behind the request that an attempt looks at: it copies at most 1024. */
  function Behind(req: seq<byte>, received: seq<byte>): seq<byte>
    requires |req| <= 1024 && |req| <= |received|
  {
    received[|req|..Min(1024, |received|)]
  }

  lemma AttemptTracks(c: Conn, req: seq<byte>, key: seq<byte>, app: App)
    requires Base(c) && c.phase == Handshaking && c.received != [] && (c.received <= req || req <= c.received)
    requires Complete(req, key) && |req| <= 1024
    requires |req| <= |c.received| ==> KeyStands(req, key, Behind(req, c.received))
    ensures Tracks(HandshakeOnData(c, app), req, key) && HandshakeOnData(c, app).received == c.received
  {
    hide Complete, Response, KeyStands, ParseRequest;
    var data := c.rx[..Min(1024, |c.rx|)];
    if |c.received| < |req| {
      assert data == req[..|data|];
      PrefixIsWaiting(req, key, |data|);
    } else {
      var extra := Behind(req, c.received);
      assert data == req + extra;
      ExtraBytesIgnored(req, key, extra);
      CompleteEnd(req, key);
      SucceedingAttempt(c, req, key, app);
    }
  }

  lemma SucceedingAttempt(c: Conn, req: seq<byte>, key: seq<byte>, app: App)
    requires Base(c) && c.phase == Handshaking && req != [] && req <= c.rx
    requires ParseRequest(c.rx[..Min(1024, |c.rx|)]) == Upgrade(|req|, key)
    ensures Tracks(HandshakeOnData(c, app), req, key) && HandshakeOnData(c, app).received == c.received
  {
    hide Response, ParseRequest, Tracks, Base, ParseHandshake;
    AttemptUpgrades(c, req, key);
    NotifyTracks(ParseHandshake(c).conn.(phase := Open), req, key, app);
  }

  lemma AttemptUpgrades(c: Conn, req: seq<byte>, key: seq<byte>)
    requires Base(c) && c.phase == Handshaking && req != [] && req <= c.rx
    requires ParseRequest(c.rx[..Min(1024, |c.rx|)]) == Upgrade(|req|, key)
    ensures ParseHandshake(c).ok && ParseHandshake(c).conn.received == c.received && |c.received| >= |req|
    ensures var e := Log(ParseHandshake(c).conn.(phase := Open), OnOpen); Base(e) && Tracks(e, req, key)
  {
    hide Response, ParseRequest;
    ResponseLength(key);
    assert c.rx[..|req|] == req;
    UpgradeEnabled(c);
    BaseKept(c, UpgradeTo(|req|, Response(key)));
  }

  /** What a successful attempt does: it takes the request, queues the response, opens, makes the open
      callback and then the calls of that callback. */
  lemma OpenedExactly(c: Conn, size: nat, key: seq<byte>, app: App)
    requires Base(c) && c.phase == Handshaking && c.fault == Fine
    requires ParseRequest(c.rx[..Min(1024, |c.rx|)]) == Upgrade(size, key)
    ensures var e := c.(phase := Open, rx := c.rx[size..], request := c.rx[..size], tx := Response(key), lastError := Ok,
                        trace := [Responded(Response(key)), OnOpen]);
            HandshakeOnData(c, app) == Run(e, Lifecycle.CallSteps(app(e.trace), c.clock), app)
  {
    hide ParseRequest, Response, Notify, Run;
    ResponseLength(key);
    assert [] + Response(key) == Response(key);
    assert [] + [Responded(Response(key))] + [OnOpen] == [Responded(Response(key)), OnOpen];
    Lifecycle.NotifyAsRun(ParseHandshake(c).conn.(phase := Open), OnOpen, app);
  }

  lemma NotifyTracks(d: Conn, req: seq<byte>, key: seq<byte>, app: App)
    requires Base(Log(d, OnOpen)) && Tracks(Log(d, OnOpen), req, key) && req != [] && |d.received| >= |req|
    ensures Tracks(Notify(d, OnOpen, app), req, key) && Notify(d, OnOpen, app).received == d.received
  {
    hide Response, Lifecycle.Later, Base, Tracks;
    var e := Log(d, OnOpen);
    Lifecycle.LaterRefl(e);
    LaterStable(e);
    NotifyKeeps((x: Conn) => Lifecycle.Later(e, x) && x.received == e.received, d, OnOpen, app);
    TracksLater(e, Notify(d, OnOpen, app), req, key);
  }

  lemma TracksLater(c: Conn, d: Conn, req: seq<byte>, key: seq<byte>)
    requires Tracks(c, req, key) && |c.received| >= |req| && req != [] && Lifecycle.Later(c, d)
    ensures Tracks(d, req, key)
  {
    hide Response;
  }

  lemma LaterStable(e: Conn)
    ensures StableUnderCalls((x: Conn) => Lifecycle.Later(e, x) && x.received == e.received)
  {
    hide Lifecycle.Later, Base, Enabled, FitOf, Output;
    forall x: Conn, a: Act | Base(x) && Lifecycle.Later(e, x) && x.received == e.received && Enabled(x, a) && ByUser(a)
      ensures Lifecycle.Later(e, Apply(x, a)) && Apply(x, a).received == e.received
    {
      Lifecycle.LaterKept(e, x, a);
    }
  }

  lemma StepTracks(c: Conn, req: seq<byte>, key: seq<byte>, s: Step, app: App)
    requires Base(c) && c.fault == Fine && Tracks(c, req, key) && !(s.io.Api? && s.io.call.Close?)
    requires Complete(req, key) && |req| <= 1024
    requires var d := DoStep(c, s, app).received;
             && (d <= req || req <= d)
             && (|c.received| < |req| <= |d| ==> KeyStands(req, key, Behind(req, d)))
    requires Lifecycle.Later(c, DoStep(c, s, app))
    ensures Tracks(DoStep(c, s, app), req, key)
  {
    hide Complete, Response, KeyStands, HandshakeOnData;
    if |c.received| >= |req| {
      assert req != [] by { CompleteEnd(req, key); }
      TracksLater(c, DoStep(c, s, app), req, key);
    } else if s.io.Read? && s.io.read.Bytes? && s.io.read.data != [] && |c.rx| < RX_SIZE {
      var c0 := c.(clock := s.now);
      var data := s.io.read.data;
      var got := data[..Min(RX_SIZE - |c.rx|, |data|)];
      var c1 := c0.(rx := c.rx + got, received := c.received + got);
      ReceiveKept(c0, got);
      var d := HandshakeOnData(c1, app);
      assert DoStep(c, s, app) == d.(lastError := Ok);
      HandshakeReceives(c1, app);
      AttemptTracks(c1, req, key, app);
    }
  }

  lemma HandshakeReceives(c: Conn, app: App)
    requires Base(c) && c.phase == Handshaking
    ensures HandshakeOnData(c, app).received == c.received
  {
    hide Response, ParseRequest;
    if ParseHandshake(c).ok {
      var d := ParseHandshake(c).conn.(phase := Open);
      var request := ParseRequest(c.rx[..Min(1024, |c.rx|)]);
      assert Base(Log(d, OnOpen)) by { UpgradeEnabled(c); BaseKept(c, UpgradeTo(request.size, Response(request.key))); }
      var P := (x: Conn) => x.received == c.received;
      assert StableUnderCalls(P);
      NotifyKeeps(P, d, OnOpen, app);
    } else {
      ReceiveRuns.FailedHandshake(c);
    }
  }

  /** In the read that completes the request, the bytes behind it do not replace its key. Only that
      read matters, and of it only the 1024 bytes that the attempt looks at. */
  predicate KeyStandsWhenRead(now: int, req: seq<byte>, key: seq<byte>, steps: seq<Step>, app: App)
    requires |req| <= 1024
  {
    if steps == [] then true
    else
      var init := steps[..|steps| - 1];
      var before, after := Run(Fresh(now), init, app).received, Run(Fresh(now), steps, app).received;
      && KeyStandsWhenRead(now, req, key, init, app)
      && (|before| < |req| <= |after| ==> KeyStands(req, key, Behind(req, after)))
  }

  /** However a complete request of at most 1024 bytes is cut into reads, whatever bytes follow it and
      whatever else is attempted meanwhile: until its last byte is read the connection stays in
      Handshaking, and from that read on it is upgraded, has taken exactly the request and has
      answered with the response to its key. */
  lemma {:induction false} OpensAtLastByte(
    now: int, req: seq<byte>, key: seq<byte>, steps: seq<Step>, app: App)
    requires Complete(req, key) && |req| <= 1024 && KeyStandsWhenRead(now, req, key, steps, app)
    requires forall i :: 0 <= i < |steps| ==> !(steps[i].io.Api? && steps[i].io.call.Close?)
    requires var received := Run(Fresh(now), steps, app).received; received <= req || req <= received
    ensures Tracks(Run(Fresh(now), steps, app), req, key)
  {
    hide Complete, KeyStands, DoStep, Base, Lifecycle.Later, Tracks;
    Lifecycle.FreshBase(now);
    if steps == [] {
      CompleteEnd(req, key);
      FreshTracks(now, req, key);
    } else {
      var last := |steps| - 1;
      var init := steps[..last];
      var mid := Run(Fresh(now), init, app);
      assert init + [steps[last]] == steps;
      Lifecycle.NeverBackwards(Fresh(now), init, [steps[last]], app);
      LaterReceived(mid, Run(Fresh(now), steps, app));
      OpensAtLastByte(now, req, key, init, app);
      RunKeeps(x => true, Fresh(now), init, app) by { assert Stable(x => true); }
      if mid.fault == Fine {
        StepTracks(mid, req, key, steps[last], app);
      } else {
        FrozenStep(mid, steps[last], app);
      }
    }
  }

  lemma FreshTracks(now: int, req: seq<byte>, key: seq<byte>)
    requires req != []
    ensures Tracks(Fresh(now), req, key)
  {
  }

  lemma FrozenStep(c: Conn, s: Step, app: App)
    requires c.fault != Fine
    ensures DoStep(c, s, app) == c
  {
  }

  lemma LaterReceived(c: Conn, d: Conn)
    requires Lifecycle.Later(c, d)
    ensures c.received <= d.received
  {
  }

  /** Over every run: while the connection is in Handshaking its send buffer is empty and no callback
      has been made, so the response always fits and the attempt's buffer-failure exits are
      unreachable. */
  lemma QuietUntilOpen(now: int, steps: seq<Step>, app: App, key: seq<byte>)
    ensures var c := Run(Fresh(now), steps, app);
            c.phase == Handshaking ==>
              c.tx == [] && c.trace == [] && c.rx == c.received && !c.paused
              && |Response(key)| < 256 && |c.tx| + |Response(key)| <= TX_SIZE
  {
    hide Run, Response;
    Lifecycle.FreshBase(now);
    RunKeeps(x => true, Fresh(now), steps, app) by { assert Stable(x => true); }
    ResponseLength(key);
  }

  // ---- requests that are too long ----

  /** Whatever was taken as the request, in any run, is a head of at most 1024 bytes. */
  lemma TakesHeads(now: int, steps: seq<Step>, app: App)
    ensures var c := Run(Fresh(now), steps, app);
            Base(c) && (Upgraded(c) ==> c.request <= c.received && IsHead(c.request))
  {
    hide Run, IsHead, Enabled, Apply;
    Lifecycle.FreshBase(now);
    var P := (x: Conn) => Upgraded(x) ==> IsHead(x.request);
    assert Stable(P) by {
      forall x: Conn, a: Act | Base(x) && P(x) && Enabled(x, a) ensures P(Apply(x, a)) {
        HeadKept(x, a);
      }
    }
    RunKeeps(P, Fresh(now), steps, app);
    ReceiveRuns.DeliveredIsPrefix(now, steps, app);
  }

  lemma HeadKept(c: Conn, a: Act)
    requires Enabled(c, a) && (Upgraded(c) ==> IsHead(c.request))
    ensures Upgraded(Apply(c, a)) ==> IsHead(Apply(c, a).request)
  {
    hide IsHead, FitOf, Output;
  }

  /** A request head of more than 1024 bytes is never answered: whatever else happens, the connection
      is not upgraded and sends nothing at all. */
  lemma LongRequestNeverOpens(now: int, req: seq<byte>, steps: seq<Step>, app: App)
    requires |req| > 1024 && Find(req, BLANK_LINE, 0) == Some(|req| - 4)
    requires var received := Run(Fresh(now), steps, app).received; received <= req || req <= received
    ensures var c := Run(Fresh(now), steps, app);
            !Upgraded(c) && (c.phase == Handshaking || c.phase == Closed) && c.tx == [] && c.sent == []
  {
    hide Run, Find, At;
    TakesHeads(now, steps, app);
    var c := Run(Fresh(now), steps, app);
    if Upgraded(c) {
      assert c.request <= req;
      var p := |c.request| - 4;
      assert c.request + req[|c.request|..] == req;
      AtExtends(c.request, req[|c.request|..], BLANK_LINE, p);
    }
  }

  // ---- what a request looks like ----

  /** A request with `before` behind the verb, the header, and its own blank line behind `after`. */
  function RequestBytes(before: seq<byte>, header: seq<byte>, key: seq<byte>, after: seq<byte>): seq<byte>
  {
    Ascii("GET ") + before + [13, 10] + (header + key + [13, 10] + after)
  }

  /** The header as a client may spell it. */
  predicate IsKeyHeader(header: seq<byte>)
  {
    header == Ascii("Sec-WebSocket-Key: ") || header == Ascii("sec-websocket-key: ")
  }

  /** A key without line end, and without blanks at its end. */
  predicate IsKey(key: seq<byte>)
  {
    key != [] && 13 !in key && key[|key| - 1] != 32 && key[|key| - 1] != 9
  }

  /** Every text of this form is a complete request with its key, if it ends at its first blank line and
      the header comes first where it stands; in lower case, if the canonical spelling occurs nowhere. */
  lemma RequestText(before: seq<byte>, header: seq<byte>, key: seq<byte>, after: seq<byte>)
    requires IsKeyHeader(header) && IsKey(key)
    requires var req := RequestBytes(before, header, key, after);
             && |req| >= 4 && Find(req, BLANK_LINE, 0) == Some(|req| - 4)
             && (header != Ascii("Sec-WebSocket-Key: ") ==> Find(req, Ascii("Sec-WebSocket-Key: "), 0).None?)
    requires Find(Ascii("GET ") + before + [13, 10], header, 0).None?
    ensures Complete(RequestBytes(before, header, key, after), key)
  {
    hide Find, At, Ascii, ParseRequest, TrimEnd;
    HeadersHaveNoLineFeed();
    var head, rest := Ascii("GET ") + before + [13, 10], header + key + [13, 10] + after;
    var req := RequestBytes(before, header, key, after);
    HeaderBehind(head, header, rest, key + [13, 10] + after);
    KeyLine(head + header, key, after);
    assert head + header + key + [13, 10] + after == req;
    assert req[..4] == GetVerb() by { VerbInFront(before, rest); }
    ParsedAs(req, |req| - 4, |head|, Some(|head + header| + |key|));
    assert req[|head| + 19..|head + header| + |key|] == key by { Middle(head + header, key, [13, 10] + after, req); }
    TrimsNothing(key);
  }

  lemma HeaderBehind(head: seq<byte>, header: seq<byte>, rest: seq<byte>, more: seq<byte>)
    requires head != [] && head[|head| - 1] == 10 && 10 !in header && header != [] && rest == header + more
    requires Find(head, header, 0).None?
    ensures Find(head + rest, header, 0) == Some(|head|)
  {
    hide Find, At;
    FrontAt(header, more, rest);
    FindIs(rest, header, 0, 0);
    FindAcross(head, rest, header);
  }

  lemma VerbInFront(before: seq<byte>, rest: seq<byte>)
    ensures (Ascii("GET ") + before + [13, 10] + rest)[..4] == GetVerb()
  {
    hide Ascii;
  }

  lemma Middle(x: seq<byte>, y: seq<byte>, z: seq<byte>, d: seq<byte>)
    requires d == x + y + z
    ensures d[|x|..|x| + |y|] == y
  {
  }

  lemma FrontAt(pat: seq<byte>, more: seq<byte>, d: seq<byte>)
    requires d == pat + more
    ensures At(d, pat, 0)
  {
  }

  lemma TrimsNothing(key: seq<byte>)
    requires IsKey(key)
    ensures TrimEnd(key) == key
  {
  }

  /** The line ends behind the key. */
  lemma KeyLine(d: seq<byte>, key: seq<byte>, after: seq<byte>)
    requires 13 !in key
    ensures Find(d + key + [13, 10] + after, CRLF, |d|) == Some(|d| + |key|)
  {
    hide Find;
    var t := d + key + [13, 10] + after;
    assert t[|d| + |key|..|d| + |key| + 2] == CRLF;
    forall j: nat | |d| <= j < |d| + |key| ensures !At(t, CRLF, j) {
      assert t[j] == key[j - |d|];
      NotAt(t, CRLF, j, 0);
    }
    FindIs(t, CRLF, |d|, |d| + |key|);
  }

  /** In the simplest case it is enough that neither line contains a line end, and the first not the
      header. */
  lemma SimpleRequest(before: seq<byte>, key: seq<byte>)
    requires IsKey(key) && 13 !in before
    requires Find(Ascii("GET ") + before + [13, 10], Ascii("Sec-WebSocket-Key: "), 0).None?
    ensures Complete(RequestBytes(before, Ascii("Sec-WebSocket-Key: "), key, [13, 10]), key)
  {
    hide Find, At, Complete, Ascii;
    var header := Ascii("Sec-WebSocket-Key: ");
    NoReturn();
    OneBlankLine(Ascii("GET ") + before, header + key);
    var req := RequestBytes(before, header, key, [13, 10]);
    assert Ascii("GET ") + before + [13, 10] + (header + key) + [13, 10, 13, 10] == req;
    RequestText(before, header, key, [13, 10]);
  }

  lemma NoReturn()
    ensures 13 !in Ascii("GET ") && 13 !in Ascii("Sec-WebSocket-Key: ")
  {
    var g, s := "GET ", "Sec-WebSocket-Key: ";
    assert |g| == 4 && |s| == 19;
    assert forall i :: 0 <= i < 4 ==> g[i] != '\r';
    assert forall i :: 0 <= i < 19 ==> s[i] != '\r';
  }

  lemma OneBlankLine(x: seq<byte>, y: seq<byte>)
    requires 13 !in x && 13 !in y && y != []
    ensures Find(x + [13, 10] + y + [13, 10, 13, 10], BLANK_LINE, 0) == Some(|x| + 2 + |y|)
  {
    hide Find, At;
    var d := x + [13, 10] + y + [13, 10, 13, 10];
    var p := |x| + 2 + |y|;
    assert At(d, BLANK_LINE, p) by { LineAt(x + [13, 10] + y); }
    forall j: nat | j < p ensures !At(d, BLANK_LINE, j) {
      NoLineYet(x, y, j);
    }
    FindIs(d, BLANK_LINE, 0, p);
  }

  lemma LineAt(d: seq<byte>)
    ensures At(d + [13, 10, 13, 10], BLANK_LINE, |d|)
  {
  }

  lemma NoLineYet(x: seq<byte>, y: seq<byte>, j: nat)
    requires 13 !in x && 13 !in y && y != [] && j < |x| + 2 + |y|
    ensures !At(x + [13, 10] + y + [13, 10, 13, 10], BLANK_LINE, j)
  {
    hide At;
    var d := x + [13, 10] + y + [13, 10, 13, 10];
    if j < |x| {
      assert d[j] == x[j];
      NotAt(d, BLANK_LINE, j, 0);
    } else if j == |x| {
      assert d[j + 2] == y[0];
      NotAt(d, BLANK_LINE, j, 2);
    } else if j == |x| + 1 {
      NotAt(d, BLANK_LINE, j, 0);
    } else {
      assert d[j] == y[j - |x| - 2];
      NotAt(d, BLANK_LINE, j, 0);
    }
  }

  // ---- one request with the header in lower case ----

  /** `GET `, a line end, `sec-websocket-key: a`, and a blank line. */
  const LOWER: seq<byte> := GetVerb() + CRLF + KeyHeaderLower() + [97] + BLANK_LINE

  /** `Sec-WebSocket-Key: b` and a line end. */
  const OTHER: seq<byte> := KeyHeader() + [98] + CRLF

  lemma NotAt(d: seq<byte>, pat: seq<byte>, i: nat, k: nat)
    requires k < |pat| && (i + k < |d| ==> d[i + k] != pat[k])
    ensures !At(d, pat, i)
  {
    if i + |pat| <= |d| {
      assert d[i..i + |pat|][k] == d[i + k];
    }
  }

  /** The bytes in which the patterns differ. */
  lemma Letters()
    ensures |GetVerb()| == 4 && 13 !in GetVerb() && 83 !in GetVerb()
    ensures |KeyHeader()| == 19 && KeyHeader()[0] == 83
    ensures |KeyHeaderLower()| == 19 && KeyHeaderLower()[0] == 115 && 13 !in KeyHeaderLower() && 83 !in KeyHeaderLower()
  {
    var g, s, t := "GET ", "Sec-WebSocket-Key: ", "sec-websocket-key: ";
    assert |g| == 4 && |s| == 19 && |t| == 19 && s[0] == 'S' && t[0] == 's';
    assert forall i :: 0 <= i < 4 ==> g[i] != '\r' && g[i] != 'S';
    assert forall i :: 0 <= i < 19 ==> t[i] != '\r' && t[i] != 'S';
  }

  lemma LowerLayout()
    ensures |LOWER| == 30 && LOWER[..4] == GetVerb() && LOWER[4..6] == CRLF && LOWER[6..25] == KeyHeaderLower()
    ensures LOWER[25] == 97 && LOWER[26..30] == BLANK_LINE && At(LOWER, KeyHeaderLower(), 6)
  {
    hide GetVerb, KeyHeader, KeyHeaderLower;
    Letters();
  }

  lemma LowerBytes(j: nat)
    requires j < 26
    ensures LOWER[j] == 13 <==> j == 4
    ensures LOWER[j] != 83
    ensures j == 6 ==> LOWER[j] == 115
  {
    hide GetVerb, KeyHeader, KeyHeaderLower;
    LowerLayout();
    Letters();
    if j < 4 {
      assert LOWER[j] == GetVerb()[j];
    } else if j < 6 {
      assert LOWER[j] == CRLF[j - 4];
    } else if j < 25 {
      assert LOWER[j] == KeyHeaderLower()[j - 6];
    }
  }

  lemma LowerComplete()
    ensures |LOWER| == 30 && Complete(LOWER, [97]) && Find(LOWER, KeyHeader(), 0).None?
  {
    hide Find, KeyHeader, KeyHeaderLower, GetVerb;
    LowerLayout();
    LowerEnd();
    LowerHeader();
    LowerKey();
  }

  lemma LowerEnd()
    ensures Find(LOWER, BLANK_LINE, 0) == Some(26)
  {
    hide Find;
    LowerLayout();
    forall j: nat | j < 26 ensures !At(LOWER, BLANK_LINE, j) {
      LowerBytes(j);
      LowerBytes(6);
      NotAt(LOWER, BLANK_LINE, j, if j == 4 then 2 else 0);
    }
    FindIs(LOWER, BLANK_LINE, 0, 26);
  }

  lemma LowerHeader()
    ensures Find(LOWER, KeyHeader(), 0).None? && Find(LOWER, KeyHeaderLower(), 0) == Some(6)
  {
    hide Find, At, KeyHeader, KeyHeaderLower;
    LowerLayout();
    Letters();
    forall j: nat ensures !At(LOWER, KeyHeader(), j) {
      if j < 26 { LowerBytes(j); }
      NotAt(LOWER, KeyHeader(), j, if j < 26 then 0 else 18);
    }
    FindNone(LOWER, KeyHeader(), 0);
    forall j: nat | j < 6 ensures !At(LOWER, KeyHeaderLower(), j) {
      HeadersHaveNoLineFeed();
      assert LOWER[5] == CRLF[1];
      NotAt(LOWER, KeyHeaderLower(), j, 5 - j);
    }
    FindIs(LOWER, KeyHeaderLower(), 0, 6);
  }

  lemma LowerKey()
    ensures |KeyHeader()| == 19 && Find(LOWER, CRLF, 25) == Some(26) && TrimEnd(LOWER[25..26]) == [97]
  {
    hide Find, KeyHeader, KeyHeaderLower, GetVerb;
    LowerLayout();
    Letters();
    assert LOWER[26..28] == CRLF && LOWER[25..26] == [97];
    NotAt(LOWER, CRLF, 25, 0);
    FindIs(LOWER, CRLF, 25, 26);
  }

  lemma OtherKey()
    ensures Find(OTHER, KeyHeader(), 0).Some? && KeyIn(OTHER) == Some([98])
  {
    hide Find, KeyHeader, KeyHeaderLower;
    Letters();
    assert OTHER[0..19] == KeyHeader() && OTHER[19] == 98 && OTHER[20..22] == CRLF && OTHER[19..20] == [98];
    FindIs(OTHER, KeyHeader(), 0, 0);
    NotAt(OTHER, CRLF, 19, 0);
    FindIs(OTHER, CRLF, 19, 20);
  }

  /** The key can be replaced: this complete request with key `a`, read together with the line behind
      it, is taken as a request with key `b`. */
  lemma KeyReplaced()
    ensures Complete(LOWER, [97]) && ParseRequest(LOWER + OTHER) == Upgrade(30, [98])
  {
    hide Find, KeyHeader, KeyIn, ParseRequest, Complete;
    LowerComplete();
    OtherKey();
    OtherKeyRead(LOWER, [97], OTHER);
  }

  /** A whole request in the first read. */
  lemma WholeReadTracks(now: int, req: seq<byte>, key: seq<byte>, extra: seq<byte>, app: App)
    requires Complete(req, key) && |req| <= 1024 && |req + extra| <= RX_SIZE
    requires KeyStands(req, key, Behind(req, req + extra))
    ensures var r := HandleRead(Fresh(now), ReadResult.Bytes(req + extra), app).conn;
            Tracks(r, req, key) && r.received == req + extra
  {
    hide Complete, KeyStands, HandshakeOnData, Tracks;
    var got := req + extra;
    assert got[..Min(RX_SIZE, |got|)] == got && [] + got == got;
    var c := Fresh(now).(rx := got, received := got);
    Lifecycle.FreshBase(now);
    ReceiveKept(Fresh(now), got);
    CompleteEnd(req, key);
    AttemptTracks(c, req, key, app);
    TracksNoted(HandshakeOnData(c, app), req, key, Ok);
  }

  lemma TracksNoted(c: Conn, req: seq<byte>, key: seq<byte>, e: ErrorCode)
    requires Tracks(c, req, key)
    ensures Tracks(c.(lastError := e), req, key)
  {
  }

  lemma TooShort(s: seq<byte>)
    requires |s| < 19
    ensures Find(s, KeyHeader(), 0).None?
  {
    hide KeyHeader, KeyHeaderLower;
    HeadersHaveNoLineFeed();
  }

  /** A text frame read together with the request is not delivered, with any callbacks: the client has
      sent one message, and none has been delivered. */
  lemma FrameWithRequestWaits(now: int, req: seq<byte>, key: seq<byte>, app: App)
    requires Complete(req, key) && |req| <= 1024
    ensures var c := Run(Fresh(now), [Step(now, Read(ReadResult.Bytes(req + [0x81, 0x01, 0x41])))], app);
            && c.request == req && c.received == req + [0x81, 0x01, 0x41]
            && Messages(c.trace) == [] && Payloads(Decode(ReceiveRuns.Stream(c), true)) == [[0x41]]
  {
    hide Complete, HandleRead, KeyIn, Find, Messages, Payloads, Decode, Base;
    var text: seq<byte> := [0x81, 0x01, 0x41];
    var s := Step(now, Read(ReadResult.Bytes(req + text)));
    var c := Run(Fresh(now), [s], app);
    Lifecycle.RunOne(Fresh(now), s, app);
    Lifecycle.FreshBase(now);
    ReceiveRuns.HandshakeDeliversNothing(Fresh(now), req + text, app);
    TooShort(Behind(req, req + text));
    WholeReadTracks(now, req, key, text, app);
    assert ReceiveRuns.Stream(c) == text;
    assert Payloads(Decode(text, true)) == [[0x41]] by {
      OneText(text);
      PayloadsNone();
      var f := Frame(true, TEXT, false, [0x41]);
      PayloadsCons(f, []);
      assert [f] + [] == [f];
    }
  }
}
