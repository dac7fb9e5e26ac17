/** The poll reactor: admission, slot mapping, timeouts and removal. Connections are protocol values
    with an identity; a callback may also act on other connections of the server. */
module Servers {
  import opened Bytes
  import opened Protocol
  import opened Actions
  import opened Frames
  import Handshake
  import Lifecycle
  import Backpressure
  import CloseCallbacks
  import SendStream
  import ReceiveStream
  import ReceiveRuns

  const MAX_CONNECTIONS := 64
  const TIMEOUT := 5000

  datatype Peer = Peer(id: nat, conn: Conn)

  /** The application behaviour of each connection. */
  type Apps = nat -> App

  /** What one connection's slot reports, what its system calls would answer, and the calls its
      callbacks make on other connections. */
  datatype SlotEvent = SlotEvent(
    readable: bool, writable: bool, hangup: bool, read: ReadResult, write: WriteResult, others: seq<(nat, Call)>)

  datatype Accept = NewSocket | AcceptBlocked | AcceptFailed

  /** One turn of the reactor as seen from outside. `sweep` are the calls that callbacks make on other
      connections when a timed-out connection is closed. */
  datatype Turn =
    | PollFailed
    | PollIdle
    | Ready(now: int, listener: bool, accept: Accept, slots: seq<SlotEvent>, sweep: seq<seq<(nat, Call)>>)

  datatype Admission = NotAsked | Overloaded | AtMaximum | Full | Admitted | NotAdmitted

  predicate IsClosed(c: Conn)
  {
    !c.socketOpen || c.phase == Closed
  }

  /** `active > capacity * 9 / 10` in 64-bit arithmetic. */
  function Threshold(capacity: nat): nat
  {
    Wrap64(capacity * 9) / 10
  }

  predicate IsOverloaded(active: nat, capacity: nat)
  {
    active > Threshold(capacity)
  }

  predicate TimedOut(c: Conn, now: int)
  {
    || (c.phase == Handshaking && now - c.createdAt > TIMEOUT)
    || (c.phase == Closing && now - c.closingAt > TIMEOUT)
  }

  // ---- one connection ----

  /** The connection has come about by some run of its own, with this application: every theorem
      about runs applies to it. */
  ghost predicate Reachable(c: Conn, app: App)
  {
    exists now: int, steps: seq<Step> :: c == Protocol.Run(Fresh(now), steps, app)
  }

  ghost predicate Good(c: Conn, app: App)
  {
    Base(c) && Synced(c) && Reachable(c, app)
  }

  /** What every connection of a server keeps: its events are in order, its watermarks alternate, its
      output is conserved, and what it delivered is what the client sent. */
  lemma ReachableLaws(c: Conn, app: App)
    requires Reachable(c, app)
    ensures Lifecycle.OpensFirst(c.trace) && Lifecycle.ClosesOnce(c.trace)
    ensures Backpressure.Alternating(Backpressure.Marks(c.trace))
    ensures SendStream.Conserved(c)
    ensures c.request <= c.received
    ensures var m := CloseCallbacks.Closings(c.trace);
            if c.phase == Closed then m in {[true], [false, true], [false, true, true], [true, false, true]} else m == []
    ensures ReceiveStream.Messages(c.trace) <= ReceiveStream.Payloads(Decode(ReceiveRuns.Stream(c), true))
  {
    hide Protocol.Run, SendStream.Conserved, Lifecycle.OpensFirst, Lifecycle.ClosesOnce, Backpressure.Alternating;
    hide CloseCallbacks.Closings;
    hide Backpressure.Marks, ReceiveStream.Messages, ReceiveStream.Payloads, Decode;
    var now: int, steps: seq<Step> :| c == Protocol.Run(Fresh(now), steps, app);
    Lifecycle.EventsInOrder(now, steps, app);
    Backpressure.HysteresisHolds(now, steps, app);
    SendStream.OutputConserved(now, steps, app);
    ReceiveRuns.DeliveredIsPrefix(now, steps, app);
    CloseCallbacks.CloseCallbackShapes(now, steps, app);
  }

  lemma StepGood(c: Conn, s: Step, app: App)
    requires Good(c, app)
    ensures Good(DoStep(c, s, app), app)
  {
    hide Base, DoStep, Protocol.Run;
    StepKeeps(x => true, c, s, app) by { assert Stable(x => true); }
    Lifecycle.StepSynced(c, s, app);
    var now: int, steps: seq<Step> :| c == Protocol.Run(Fresh(now), steps, app);
    Lifecycle.RunAppend(Fresh(now), steps, [s], app);
    Lifecycle.RunOne(c, s, app);
    assert DoStep(c, s, app) == Protocol.Run(Fresh(now), steps + [s], app);
  }

  lemma FreshGood(now: int, app: App)
    ensures Good(Fresh(now), app)
  {
    assert Fresh(now) == Protocol.Run(Fresh(now), [], app);
  }

  /** The server closes a connection. */
  function CloseNow(c: Conn, app: App): (r: Conn)
    requires Good(c, app)
    ensures Good(r, app) && r.clock == c.clock && r.fault == c.fault && Rank(c.phase) <= Rank(r.phase)
    ensures c.fault == Fine ==> r.phase == Closes(c.phase)
  {
    StepGood(c, Step(c.clock, Api(Close(1000))), app);
    if c.fault != Fine then c else Invoke(c, Close(1000), app)
  }

  /** A read that the reactor takes for a failure: no room, an end of the stream, or an error. */
  predicate ReadFails(c: Conn, res: ReadResult)
  {
    |c.rx| >= RX_SIZE || res == ReadResult.Bytes([]) || res == ReadFailed
  }

  predicate WriteFails(c: Conn, res: WriteResult)
  {
    c.tx != [] && res == WriteFailed
  }

  lemma ReadGood(c: Conn, res: ReadResult, app: App)
    requires Good(c, app) && c.fault == Fine
    ensures Good(HandleRead(c, res, app).conn, app) && HandleRead(c, res, app).conn.clock == c.clock
    ensures HandleRead(c, res, app).result != Ok <==> ReadFails(c, res)
    ensures ReadFails(c, res) ==> HandleRead(c, res, app).conn.fault == Fine && HandleRead(c, res, app).conn.phase == c.phase
  {
    hide Good, ParseFrames, ParseHeader, Handshake.ParseRequest, Handshake.Response;
    StepGood(c, Step(c.clock, Read(res)), app);
    assert c.(clock := c.clock) == c;
  }

  function ReadReady(c: Conn, res: ReadResult, app: App): (r: Conn)
    requires Good(c, app)
    ensures Good(r, app) && r.clock == c.clock
  {
    hide HandleRead, Good;
    if c.fault != Fine then c
    else
      ReadGood(c, res, app);
      var o := HandleRead(c, res, app);
      if o.result != Ok then CloseNow(o.conn, app) else o.conn
  }

  lemma WriteGood(c: Conn, vectored: bool, res: WriteResult, app: App)
    requires Good(c, app) && c.fault == Fine
    ensures Good(HandleWrite(c, vectored, res, app).conn, app) && HandleWrite(c, vectored, res, app).conn.clock == c.clock
    ensures HandleWrite(c, vectored, res, app).conn.fault == Fine
    ensures HandleWrite(c, vectored, res, app).result != Ok <==> WriteFails(c, res)
    ensures WriteFails(c, res) ==> HandleWrite(c, vectored, res, app).conn.phase == c.phase
  {
    hide Good;
    StepGood(c, Step(c.clock, Write(vectored, res)), app);
    assert c.(clock := c.clock) == c;
  }

  function WriteReady(c: Conn, vectored: bool, res: WriteResult, app: App): (r: Conn)
    requires Good(c, app)
    ensures Good(r, app) && r.clock == c.clock && r.fault == c.fault
  {
    hide HandleWrite, Good;
    if c.fault != Fine then c
    else
      WriteGood(c, vectored, res, app);
      var o := HandleWrite(c, vectored, res, app);
      if o.result != Ok then CloseNow(o.conn, app) else o.conn
  }

  function AfterRead(c: Conn, ev: SlotEvent, app: App): (r: Conn)
    requires Good(c, app)
    ensures Good(r, app) && r.clock == c.clock
  {
    hide Good;
    if ev.readable then ReadReady(c, ev.read, app) else c
  }

  function AfterWrite(c: Conn, ev: SlotEvent, vectored: bool, app: App): (r: Conn)
    requires Good(c, app)
    ensures Good(r, app) && r.clock == c.clock
  {
    hide Good;
    var c1 := AfterRead(c, ev, app);
    if ev.writable then WriteReady(c1, vectored, ev.write, app) else c1
  }

  /** Serve one connection: read, write, hang up. After a fault in the read nothing follows. */
  function HandleIo(c: Conn, ev: SlotEvent, vectored: bool, app: App): (r: Conn)
    requires Good(c, app)
    ensures Good(r, app) && r.clock == c.clock
  {
    hide Good;
    var c2 := AfterWrite(c, ev, vectored, app);
    if ev.hangup then CloseNow(c2, app) else c2
  }

  /** What closing makes of a state: Open leads to Closing, every other state to Closed. */
  function Closes(p: Phase): Phase
  {
    if p == Open then Closing else Closed
  }

  /** Serving only moves the state forward. A failed read, a failed write and a hang-up each close the
      connection from the state they find: an open connection starts the close handshake, any other is
      closed for good, so two of them always are. A slot that reports nothing changes nothing. */
  lemma IoOutcome(c: Conn, ev: SlotEvent, vectored: bool, app: App)
    requires Good(c, app)
    ensures c.fault != Fine ==> HandleIo(c, ev, vectored, app) == c
    ensures c.fault == Fine ==>
            var c1 := AfterRead(c, ev, app);
            var c2 := AfterWrite(c, ev, vectored, app);
            var r := HandleIo(c, ev, vectored, app);
            var readFails := ev.readable && ReadFails(c, ev.read);
            var writeFails := ev.writable && WriteFails(c1, ev.write);
            var failures := (if readFails then 1 else 0) + (if writeFails then 1 else 0) + (if ev.hangup then 1 else 0);
            && Rank(c.phase) <= Rank(c1.phase) <= Rank(c2.phase) <= Rank(r.phase)
            && r.fault == c2.fault == c1.fault && (readFails ==> c1.fault == Fine)
            && (readFails ==> c1.phase == Closes(c.phase))
            && (c1.fault == Fine && writeFails ==> c2.phase == Closes(c1.phase))
            && (c1.fault == Fine && ev.hangup ==> r.phase == Closes(c2.phase))
            && (c1.fault == Fine && failures >= 1 ==> Rank(r.phase) >= Rank(Closing))
            && (c1.fault == Fine && failures >= 2 ==> IsClosed(r))
            && (readFails && c.phase != Open ==> IsClosed(r))
            && (c1.fault == Fine && c1.phase != Open && (writeFails || ev.hangup) ==> IsClosed(r))
            && (!ev.readable ==> c1 == c) && (!ev.writable ==> c2 == c1) && (!ev.hangup ==> r == c2)
  {
    hide Good, HandleRead, HandleWrite;
    if c.fault != Fine { return; }
    hide CloseNow;
    var c1 := AfterRead(c, ev, app);
    ReadOutcome(c, ev, app);
    if ev.writable && c1.fault == Fine {
      WriteOutcome(c1, vectored, ev.write, app);
    }
  }

  lemma ReadOutcome(c: Conn, ev: SlotEvent, app: App)
    requires Good(c, app) && c.fault == Fine
    ensures var r := AfterRead(c, ev, app);
            && Rank(c.phase) <= Rank(r.phase)
            && (ev.readable && ReadFails(c, ev.read) ==>
                  r.fault == Fine && r.phase == Closes(c.phase))
  {
    hide Good, HandleRead, CloseNow;
    if ev.readable {
      ReadGood(c, ev.read, app);
      ReadForward(c, ev.read, app);
    }
  }

  lemma WriteOutcome(c: Conn, vectored: bool, res: WriteResult, app: App)
    requires Good(c, app) && c.fault == Fine
    ensures var r := WriteReady(c, vectored, res, app);
            && Rank(c.phase) <= Rank(r.phase) && (c.phase != Open ==> r.phase != Open)
            && (WriteFails(c, res) ==> r.phase == Closes(c.phase))
  {
    hide Good, HandleWrite, CloseNow;
    WriteGood(c, vectored, res, app);
    WriteForward(c, vectored, res, app);
    if c.phase == Handshaking {
      NothingToWrite(c, vectored, res, app);
    }
  }

  lemma NothingToWrite(c: Conn, vectored: bool, res: WriteResult, app: App)
    requires Good(c, app) && c.phase == Handshaking
    ensures HandleWrite(c, vectored, res, app) == Report(c, Ok)
  {
  }

  lemma ReadForward(c: Conn, res: ReadResult, app: App)
    requires Good(c, app)
    ensures Rank(c.phase) <= Rank(HandleRead(c, res, app).conn.phase)
  {
    hide Base;
    RankStable(Rank(c.phase));
    ReadKeeps((x: Conn) => Rank(x.phase) >= Rank(c.phase), c, res, app);
  }

  lemma WriteForward(c: Conn, vectored: bool, res: WriteResult, app: App)
    requires Good(c, app)
    ensures Rank(c.phase) <= Rank(HandleWrite(c, vectored, res, app).conn.phase)
  {
    hide Base;
    RankStable(Rank(c.phase));
    WriteKeeps((x: Conn) => Rank(x.phase) >= Rank(c.phase), c, vectored, res, app);
  }

  lemma RankStable(r: nat)
    ensures Stable((x: Conn) => Rank(x.phase) >= r)
  {
    hide Base, FitOf, Output;
  }

  function CallOn(c: Conn, call: Call, app: App): (r: Conn)
    requires Good(c, app)
    ensures Good(r, app) && After(c, r)
  {
    StepGood(c, Step(c.clock, Api(call)), app);
    assert !TimedOut(c, c.clock) ==> !TimedOut(Invoke(c, call, app), c.clock) by {
      if !TimedOut(c, c.clock) { CallInTime(c, call, app); }
    }
    if c.fault != Fine then c else Invoke(c, call, app)
  }

  /** A call never makes a connection overdue: closing starts its clock. */
  lemma CallInTime(c: Conn, call: Call, app: App)
    requires Base(c) && !TimedOut(c, c.clock)
    ensures !TimedOut(Invoke(c, call, app), c.clock)
  {
    hide FitOf, Output, Base;
    var P := (x: Conn) => x.clock == c.clock && !TimedOut(x, c.clock);
    assert StableUnderCalls(P);
    InvokeKeeps(P, c, call, app);
  }

  // ---- lists of connections ----

  ghost predicate AllGood(s: seq<Peer>, apps: Apps)
  {
    forall i :: 0 <= i < |s| ==> Good(s[i].conn, apps(s[i].id))
  }

  predicate AllFine(s: seq<Peer>)
  {
    forall i :: 0 <= i < |s| ==> s[i].conn.fault == Fine
  }

  function Ids(s: seq<Peer>): (r: seq<nat>)
    ensures |r| == |s|
  {
    seq(|s|, i requires 0 <= i < |s| => s[i].id)
  }

  predicate Distinct(s: seq<Peer>)
  {
    forall i, j :: 0 <= i < j < |s| ==> s[i].id != s[j].id
  }

  /** What calls from elsewhere can have done to a connection within one turn. */
  predicate After(c: Conn, r: Conn)
  {
    && r.clock == c.clock && r.fault == c.fault
    && (!TimedOut(c, c.clock) ==> !TimedOut(r, c.clock))
    && (c.phase == Handshaking || c.phase == Closing || c.phase == Closed ==> r == c || IsClosed(r))
  }

  /** Calls made on connections by identity. */
  function CallOthers(s: seq<Peer>, calls: seq<(nat, Call)>, apps: Apps): (r: seq<Peer>)
    requires AllGood(s, apps)
    ensures AllGood(r, apps) && Ids(r) == Ids(s)
    ensures forall i :: 0 <= i < |s| ==> After(s[i].conn, r[i].conn)
    decreases |calls|
  {
    if calls == [] then s
    else CallOthers(CallTarget(s, calls[0].0, calls[0].1, apps), calls[1..], apps)
  }

  function CallTarget(s: seq<Peer>, id: nat, call: Call, apps: Apps): (r: seq<Peer>)
    requires AllGood(s, apps)
    ensures AllGood(r, apps) && Ids(r) == Ids(s)
    ensures forall i :: 0 <= i < |s| ==> After(s[i].conn, r[i].conn)
  {
    seq(|s|, i requires 0 <= i < |s| => if s[i].id == id then Peer(id, CallOn(s[i].conn, call, apps(id))) else s[i])
  }

  /** Connection i is served, then the calls its callbacks make on others are run. */
  function Serve(s: seq<Peer>, i: nat, ev: SlotEvent, vectored: bool, now: int, apps: Apps): (r: seq<Peer>)
    requires AllGood(s, apps) && AllAt(s, now) && i < |s|
    ensures AllGood(r, apps) && AllAt(r, now) && Ids(r) == Ids(s)
    ensures ev.others == [] ==> forall j :: 0 <= j < |s| && j != i ==> r[j] == s[j]
    ensures forall j :: 0 <= j < |s| && j != i ==> r[j].conn.fault == s[j].conn.fault
  {
    hide Good, HandleIo, TimedOut;
    var t := s[i := Peer(s[i].id, HandleIo(s[i].conn, ev, vectored, apps(s[i].id)))];
    assert Ids(t) == Ids(s);
    CallOthers(t, ev.others, apps)
  }

  /** Each of these identities, in order, was served by itself. */
  predicate EachByItself(served: seq<(nat, nat)>, ids: seq<nat>)
  {
    |served| == |ids| && forall k :: 0 <= k < |ids| ==> served[k] == (ids[k], ids[k])
  }

  lemma ServedOne(served: seq<(nat, nat)>, ids: seq<nat>, k: nat)
    requires k < |ids| && EachByItself(served, ids[..k])
    ensures |served| == k && EachByItself(served + [(ids[k], ids[k])], ids[..k + 1])
  {
  }

  lemma ServedNone(ids: seq<nat>)
    ensures EachByItself([], ids[..0])
  {
  }

  /** The first n connections are served in order, up to a fault: then the reactor does not go on. */
  function ServeFirst(s: seq<Peer>, n: nat, slots: seq<SlotEvent>, vectored: bool, now: int, apps: Apps): (r: seq<Peer>)
    requires AllGood(s, apps) && AllAt(s, now) && n <= |s|
    ensures AllGood(r, apps) && AllAt(r, now) && Ids(r) == Ids(s)
  {
    if n == 0 then s
    else
      var t := ServeFirst(s, n - 1, slots, vectored, now, apps);
      SameIds(s, t);
      if !AllFine(t) then t
      else Serve(t, n - 1, if n - 1 < |slots| then slots[n - 1] else QUIET, vectored, now, apps)
  }

  lemma ServeNone(s: seq<Peer>, slots: seq<SlotEvent>, vectored: bool, now: int, apps: Apps)
    requires AllGood(s, apps) && AllAt(s, now)
    ensures ServeFirst(s, 0, slots, vectored, now, apps) == s
  {
  }

  lemma ServeNext(s: seq<Peer>, n: nat, slots: seq<SlotEvent>, vectored: bool, now: int, apps: Apps)
    requires AllGood(s, apps) && AllAt(s, now) && 0 < n <= |s|
    requires AllFine(ServeFirst(s, n - 1, slots, vectored, now, apps))
    ensures var t := ServeFirst(s, n - 1, slots, vectored, now, apps);
            && |t| == |s|
            && ServeFirst(s, n, slots, vectored, now, apps) ==
               Serve(t, n - 1, if n - 1 < |slots| then slots[n - 1] else QUIET, vectored, now, apps)
            && |ServeFirst(s, n, slots, vectored, now, apps)| == |s|
            && (AllFine(ServeFirst(s, n, slots, vectored, now, apps)) <==>
                  ServeFirst(s, n, slots, vectored, now, apps)[n - 1].conn.fault == Fine)
  {
    hide Good, Serve;
    SameIds(s, ServeFirst(s, n - 1, slots, vectored, now, apps));
    SameIds(s, ServeFirst(s, n, slots, vectored, now, apps));
  }

  lemma {:induction false} ServeStops(
    s: seq<Peer>, k: nat, n: nat, slots: seq<SlotEvent>, vectored: bool, now: int, apps: Apps)
    requires AllGood(s, apps) && AllAt(s, now) && k <= n <= |s|
    requires !AllFine(ServeFirst(s, k, slots, vectored, now, apps))
    ensures ServeFirst(s, n, slots, vectored, now, apps) == ServeFirst(s, k, slots, vectored, now, apps)
    decreases n
  {
    hide Good, Serve, AllFine;
    if k < n {
      ServeStops(s, k, n - 1, slots, vectored, now, apps);
    }
  }

  /** What one turn of the timeout sweep can do to a connection. */
  predicate Swept(c: Conn, r: Conn, now: int)
  {
    && (!TimedOut(c, now) ==> !TimedOut(r, now))
    && (TimedOut(c, now) || IsClosed(c) ==> r == c || IsClosed(r))
  }

  /** The sweep's turn for position i. */
  function Expire(s: seq<Peer>, i: nat, now: int, calls: seq<(nat, Call)>, apps: Apps): (r: seq<Peer>)
    requires AllGood(s, apps) && AllAt(s, now) && AllFine(s) && i < |s|
    ensures AllGood(r, apps) && AllAt(r, now) && AllFine(r) && Ids(r) == Ids(s)
    ensures forall j :: 0 <= j < |s| ==> Swept(s[j].conn, r[j].conn, now)
    ensures !TimedOut(r[i].conn, now) && (TimedOut(s[i].conn, now) ==> IsClosed(r[i].conn))
    ensures calls == [] ==> forall j :: 0 <= j < |s| && !(j == i && TimedOut(s[i].conn, now)) ==> r[j] == s[j]
  {
    hide Base, Reachable;
    if !TimedOut(s[i].conn, now) then s
    else
      var closed := CloseNow(s[i].conn, apps(s[i].id));
      var t := s[i := Peer(s[i].id, closed)];
      assert Ids(t) == Ids(s);
      assert closed.phase == Closed;
      CallOthers(t, calls, apps)
  }

  /** The sweep over the first n positions, in order. */
  function SweepFirst(s: seq<Peer>, n: nat, now: int, sweep: seq<seq<(nat, Call)>>, apps: Apps): (r: seq<Peer>)
    requires AllGood(s, apps) && AllAt(s, now) && AllFine(s) && n <= |s|
    ensures AllGood(r, apps) && AllAt(r, now) && AllFine(r) && Ids(r) == Ids(s)
  {
    if n == 0 then s
    else
      var t := SweepFirst(s, n - 1, now, sweep, apps);
      SameIds(s, t);
      Expire(t, n - 1, now, if n - 1 < |sweep| then sweep[n - 1] else [], apps)
  }

  /** The sweep closes every connection whose handshake or close handshake has taken too long, and leaves
      none that has. */
  lemma {:induction false} SweepOutcome(s: seq<Peer>, n: nat, now: int, sweep: seq<seq<(nat, Call)>>, apps: Apps)
    requires AllGood(s, apps) && AllAt(s, now) && AllFine(s) && n <= |s|
    ensures var r := SweepFirst(s, n, now, sweep, apps);
            && |r| == |s|
            && (forall j :: 0 <= j < |s| && TimedOut(s[j].conn, now) ==> IsClosed(r[j].conn) || (j >= n && r[j].conn == s[j].conn))
            && (forall j :: 0 <= j < n ==> !TimedOut(r[j].conn, now))
  {
    hide Good, IsClosed, TimedOut, AllAt, AllFine;
    if n > 0 {
      SweepOutcome(s, n - 1, now, sweep, apps);
      SameIds(s, SweepFirst(s, n - 1, now, sweep, apps));
    }
  }

  lemma SweepNone(s: seq<Peer>, now: int, sweep: seq<seq<(nat, Call)>>, apps: Apps)
    requires AllGood(s, apps) && AllAt(s, now) && AllFine(s)
    ensures SweepFirst(s, 0, now, sweep, apps) == s
  {
  }

  lemma SweepNext(s: seq<Peer>, n: nat, now: int, sweep: seq<seq<(nat, Call)>>, apps: Apps)
    requires AllGood(s, apps) && AllAt(s, now) && AllFine(s) && 0 < n <= |s|
    ensures var t := SweepFirst(s, n - 1, now, sweep, apps);
            && |t| == |s|
            && SweepFirst(s, n, now, sweep, apps) == Expire(t, n - 1, now, if n - 1 < |sweep| then sweep[n - 1] else [], apps)
  {
    hide Good, Expire;
    SameIds(s, SweepFirst(s, n - 1, now, sweep, apps));
  }

  /** It does not touch the others, unless callbacks do. */
  lemma {:induction false} SweepSpares(s: seq<Peer>, n: nat, now: int, apps: Apps)
    requires AllGood(s, apps) && AllAt(s, now) && AllFine(s) && n <= |s|
    ensures var r := SweepFirst(s, n, now, [], apps);
            |r| == |s| && forall j :: 0 <= j < |s| && (j >= n || !TimedOut(s[j].conn, now)) ==> r[j] == s[j]
  {
    hide Good, IsClosed, TimedOut, AllAt, AllFine, Swept;
    if n > 0 {
      SweepSpares(s, n - 1, now, apps);
      SameIds(s, SweepFirst(s, n - 1, now, [], apps));
    }
  }

  lemma SameIds(s: seq<Peer>, t: seq<Peer>)
    requires Ids(s) == Ids(t)
    ensures |s| == |t| && forall i :: 0 <= i < |s| ==> s[i].id == t[i].id
    ensures Distinct(s) ==> Distinct(t)
  {
    assert forall i :: 0 <= i < |s| ==> Ids(s)[i] == s[i].id && Ids(t)[i] == t[i].id;
  }

  /** Replace element i by the last one and drop the last. */
  function DropAt<T>(s: seq<T>, i: nat): (r: seq<T>)
    requires i < |s|
    ensures |r| == |s| - 1
  {
    s[i := s[|s| - 1]][..|s| - 1]
  }

  /** That removes exactly element i, once. */
  lemma DropAtRemoves<T>(s: seq<T>, i: nat)
    requires i < |s|
    ensures multiset(DropAt(s, i)) == multiset(s) - multiset{s[i]}
  {
    var last := |s| - 1;
    var t := s[i := s[last]];
    assert t == t[..last] + [t[last]];
    assert s == s[..last] + [s[last]];
    if i < last {
      assert s == s[..i] + [s[i]] + s[i + 1..];
      assert t == s[..i] + [s[last]] + s[i + 1..];
    }
  }

  lemma DropAtKeeps(s: seq<Peer>, i: nat, apps: Apps)
    requires i < |s| && AllGood(s, apps) && Distinct(s)
    ensures AllGood(DropAt(s, i), apps) && Distinct(DropAt(s, i))
    ensures forall j :: 0 <= j < |s| - 1 ==> DropAt(s, i)[j] == if j == i then s[|s| - 1] else s[j]
  {
    hide Good;
  }

  /** Every open connection occurs in both lists equally often. */
  ghost predicate SameOpen(s: seq<Peer>, t: seq<Peer>)
  {
    forall p: Peer :: !IsClosed(p.conn) ==> multiset(s)[p] == multiset(t)[p]
  }

  /** s is what pruning has made of `start` so far, with the first i known to be open. */
  ghost predicate Pruning(start: seq<Peer>, s: seq<Peer>, i: nat, apps: Apps)
  {
    && i <= |s| <= |start| && AllGood(s, apps) && Distinct(s) && SameOpen(s, start)
    && (forall j :: 0 <= j < |s| ==> s[j] in start)
    && (forall j :: 0 <= j < i ==> !IsClosed(s[j].conn))
  }

  lemma PruneDrop(start: seq<Peer>, s: seq<Peer>, i: nat, apps: Apps)
    requires Pruning(start, s, i, apps) && i < |s| && IsClosed(s[i].conn)
    ensures Pruning(start, DropAt(s, i), i, apps)
  {
    hide Good, IsClosed, AllGood, Distinct;
    DropAtRemoves(s, i);
    DropAtKeeps(s, i, apps);
  }

  /** The counters of a run that started with `kept` connections, has removed `removed` and now has
      n: the connection count misses the kept ones. */
  predicate Counted(active: nat, total: nat, n: nat, removed: nat, kept: nat)
  {
    active == Wrap64(n - kept) && total == Wrap64(n + removed - kept)
  }

  lemma CountedAdmit(active: nat, total: nat, n: nat, removed: nat, kept: nat)
    requires Counted(active, total, n, removed, kept)
    ensures Counted(Wrap64(active + 1), Wrap64(total + 1), n + 1, removed, kept)
  {
    WrapAdd(n - kept, 1);
    WrapAdd(n + removed - kept, 1);
  }

  lemma CountedRemove(active: nat, total: nat, n: nat, m: nat, before: nat, after: nat, kept: nat)
    requires Counted(active, total, n, before, kept) && n - m == after - before && m <= n
    ensures Counted(Wrap64(active - (after - before)), total, m, after, kept)
  {
    WrapAdd(n - kept, before - after);
  }

  lemma PruneStart(s: seq<Peer>, apps: Apps)
    requires AllGood(s, apps) && Distinct(s)
    ensures Pruning(s, s, 0, apps)
  {
    hide Good;
  }

  /** Sound connections with unique identities that have all been handed out, within capacity. */
  ghost predicate Sound(s: seq<Peer>, nextId: nat, apps: Apps)
  {
    && AllGood(s, apps) && Distinct(s) && |s| <= MAX_CONNECTIONS
    && (forall i :: 0 <= i < |s| ==> s[i].id < nextId)
  }

  lemma SoundSame(s: seq<Peer>, t: seq<Peer>, nextId: nat, apps: Apps)
    requires Sound(s, nextId, apps) && Ids(s) == Ids(t) && AllGood(t, apps)
    ensures Sound(t, nextId, apps)
  {
    hide Good;
    SameIds(s, t);
  }

  lemma SoundAdmit(s: seq<Peer>, nextId: nat, apps: Apps, c: Conn)
    requires Sound(s, nextId, apps) && |s| < MAX_CONNECTIONS && Good(c, apps(nextId))
    ensures Sound(s + [Peer(nextId, c)], nextId + 1, apps)
  {
    hide Good;
  }

  /** The list a turn serves: the clocks advanced, and the newly accepted connection behind. */
  function Joined(s: seq<Peer>, now: int, admitted: bool, id: nat, apps: Apps): (r: seq<Peer>)
    requires AllGood(s, apps) && AllFine(s)
    ensures AllGood(r, apps) && AllAt(r, now) && AllFine(r) && |s| <= |r|
  {
    hide Good;
    FreshGood(now, apps(id));
    TickAll(s, now, apps) + if admitted then [Peer(id, Fresh(now))] else []
  }

  predicate AllOpen(s: seq<Peer>)
  {
    forall i :: 0 <= i < |s| ==> !IsClosed(s[i].conn)
  }

  /** Pruning keeps exactly the open connections. */
  ghost predicate PrunedTo(s: seq<Peer>, t: seq<Peer>)
  {
    AllOpen(t) && SameOpen(t, s) && forall i :: 0 <= i < |t| ==> t[i] in s
  }

  lemma PrunedOpen(s: seq<Peer>, t: seq<Peer>)
    ensures PrunedTo(s, t) ==> AllOpen(t)
  {
  }

  /** Every connection that was overdue is gone, and none that is left is overdue. */
  predicate Current(due: seq<Peer>, t: seq<Peer>, now: int)
  {
    && (forall i, j :: 0 <= i < |due| && 0 <= j < |t| && TimedOut(due[i].conn, now) ==> t[j].id != due[i].id)
    && (forall j :: 0 <= j < |t| ==> !TimedOut(t[j].conn, now))
  }

  lemma TurnIsCurrent(due: seq<Peer>, swept: seq<Peer>, t: seq<Peer>, now: int, nextId: nat, apps: Apps)
    requires Sound(swept, nextId, apps) && Ids(swept) == Ids(due) && PrunedTo(swept, t)
    requires forall i :: 0 <= i < |swept| && TimedOut(due[i].conn, now) ==> IsClosed(swept[i].conn)
    requires forall i :: 0 <= i < |swept| ==> !TimedOut(swept[i].conn, now)
    ensures Current(due, t, now)
  {
    hide Good, IsClosed, TimedOut, SameOpen;
    SameIds(due, swept);
  }

  /** The outcome of a turn's admission, decided by the overload test on the counter and then by the limits
      on the list of n connections. */
  predicate Decided(outcome: Admission, listener: bool, accept: Accept, n: nat, active: nat, maximum: nat)
  {
    && (outcome == NotAsked <==> !listener)
    && (outcome == Overloaded <==> listener && IsOverloaded(active, maximum))
    && (outcome == AtMaximum <==> listener && !IsOverloaded(active, maximum) && n >= maximum)
    && (outcome == Full <==> listener && !IsOverloaded(active, maximum) && n < maximum && n == 64)
    && (outcome == Admitted <==> listener && !IsOverloaded(active, maximum) && n < Min(maximum, 64)
                                 && accept == NewSocket)
  }

  lemma NotAskedDecided(accept: Accept, n: nat, active: nat, maximum: nat)
    ensures Decided(NotAsked, false, accept, n, active, maximum)
  {
  }

  /** Once fewer connections are listed at the head of a turn than at the reset, no connection is admitted
      in that turn or any later one. `sizes` are the numbers listed at the heads of the turns. */
  predicate LockedOut(log: seq<Admission>, sizes: seq<nat>, kept: nat)
    requires |sizes| == |log|
  {
    forall i, j :: 0 <= i <= j < |log| && sizes[i] < kept ==> log[j] != Admitted
  }

  /** The record so far of a run that now has n connections. */
  predicate Recorded(log: seq<Admission>, sizes: seq<nat>, kept: nat, n: nat)
  {
    && |sizes| == |log| && LockedOut(log, sizes, kept)
    && (if sizes == [] then n == kept else sizes[0] == kept)
    && (forall i :: 0 <= i < |sizes| && sizes[i] < kept ==> n < kept)
  }

  lemma RecordNone(kept: nat)
    ensures Recorded([], [], kept, kept)
  {
  }

  lemma RecordGives(log: seq<Admission>, sizes: seq<nat>, kept: nat, n: nat)
    requires Recorded(log, sizes, kept, n)
    ensures |sizes| == |log| && LockedOut(log, sizes, kept) && (sizes != [] ==> sizes[0] == kept)
  {
  }

  lemma RecordNext(log: seq<Admission>, sizes: seq<nat>, kept: nat, n: nat, outcome: Admission, after: nat)
    requires Recorded(log, sizes, kept, n) && (n < kept ==> outcome != Admitted)
    requires after <= n + if outcome == Admitted then 1 else 0
    ensures Recorded(log + [outcome], sizes + [n], kept, after)
  {
  }

  class Server {
    const apps: Apps
    var connections: seq<Peer>
    var maxConnections: nat
    var useWritev: bool
    var nextId: nat
    var total: nat
    var active: nat
    var rejected: nat
    var socketErrors: nat
    const pollFds: array<nat>
    ghost var removed: nat

    /** What holds throughout a run whose counters were reset with `kept` connections in the list: every
        connection is sound, identities are unique, and the counters account for the list. */
    ghost predicate Accounted(kept: nat)
      reads this
    {
      && pollFds.Length == MAX_CONNECTIONS + 1 && rejected < WORD && socketErrors < WORD
      && Sound(connections, nextId, apps)
      && Counted(active, total, |connections|, removed, kept)
    }

    /** At a loop head moreover no connection has come to a fault. */
    ghost predicate AtLoopHead(kept: nat)
      reads this
    {
      Accounted(kept) && AllFine(connections)
    }

    constructor (apps: Apps, maxConnections: nat, useWritev: bool)
      ensures AtLoopHead(0) && connections == [] && this.maxConnections == maxConnections
    {
      this.apps, this.maxConnections, this.useWritev := apps, maxConnections, useWritev;
      pollFds := new nat[MAX_CONNECTIONS + 1];
      connections, nextId := [], 1;
      total, active, rejected, socketErrors, removed := 0, 0, 0, 0, 0;
    }

    /** Drop the closed connections, each by moving the last one into its place. */
    method RemoveClosedConnections()
      requires AllGood(connections, apps) && Distinct(connections) && active < WORD
      modifies this`connections, this`active, this`removed
      ensures forall i :: 0 <= i < |connections| ==> connections[i] in old(connections) && !IsClosed(connections[i].conn)
      ensures SameOpen(connections, old(connections))
      ensures AllGood(connections, apps) && Distinct(connections)
      ensures removed - old(removed) == |old(connections)| - |connections| >= 0
      ensures active == Wrap64(old(active) - (removed - old(removed)))
    {
      hide Good, IsClosed, Wrap64, DropAt, SameOpen;
      var count := 0;
      var i := 0;
      PruneStart(connections, apps);
      while i < |connections|
        invariant i >= 0 && Pruning(old(connections), connections, i, apps)
        invariant count == |old(connections)| - |connections| && removed == old(removed) && active == old(active)
        decreases |connections| - i
      {
        if IsClosed(connections[i].conn) {
          PruneDrop(old(connections), connections, i, apps);
          connections := DropAt(connections, i);
          count := count + 1;
        } else {
          i := i + 1;
        }
      }
      removed := removed + count;
      if count > 0 {
        active := Wrap64(active - count);
      }
      WrapSmall(old(active));
    }

    /** Accept one pending connection, if the limits allow it. */
    method AcceptConnection(now: int, accept: Accept) returns (outcome: Admission)
      requires |connections| <= MAX_CONNECTIONS && rejected < WORD && socketErrors < WORD
      modifies this
      ensures maxConnections == old(maxConnections) && useWritev == old(useWritev) && removed == old(removed)
      ensures outcome == AtMaximum <==> |old(connections)| >= maxConnections
      ensures outcome == Full <==> |old(connections)| < maxConnections && |old(connections)| == 64
      ensures outcome == Admitted <==> |old(connections)| < Min(maxConnections, 64) && accept == NewSocket
      ensures outcome in {AtMaximum, Full, Admitted, NotAdmitted}
      ensures rejected == Wrap64(old(rejected) + if outcome == AtMaximum || outcome == Full then 1 else 0)
      ensures socketErrors ==
              Wrap64(old(socketErrors) + if outcome == NotAdmitted && accept == AcceptFailed then 1 else 0)
      ensures if outcome == Admitted
              then connections == old(connections) + [Peer(old(nextId), Fresh(now))] && nextId == old(nextId) + 1
                   && total == Wrap64(old(total) + 1) && active == Wrap64(old(active) + 1)
              else connections == old(connections) && nextId == old(nextId)
                   && total == old(total) && active == old(active)
    {
      WrapSmall(rejected);
      WrapSmall(socketErrors);
      if |connections| >= maxConnections || |connections| >= MAX_CONNECTIONS {
        rejected := Wrap64(rejected + 1);
        return if |connections| >= maxConnections then AtMaximum else Full;
      }
      match accept
      case AcceptBlocked =>
        return NotAdmitted;
      case AcceptFailed =>
        socketErrors := Wrap64(socketErrors + 1);
        return NotAdmitted;
      case NewSocket =>
        connections := connections + [Peer(nextId, Fresh(now))];
        nextId := nextId + 1;
        total := Wrap64(total + 1);
        active := Wrap64(active + 1);
        return Admitted;
    }

    /** Serve the connection in list position i, then the calls its callbacks make on others. */
    method HandleConnectionIo(i: nat, ev: SlotEvent, now: int)
      requires AllGood(connections, apps) && AllAt(connections, now) && i < |connections|
      modifies this`connections
      ensures connections == Serve(old(connections), i, ev, useWritev, now, apps)
    {
      hide Good, HandleIo, TimedOut;
      var p := connections[i];
      var before := connections;
      connections := connections[i := Peer(p.id, HandleIo(p.conn, ev, useWritev, apps(p.id)))];
      assert Ids(connections) == Ids(before);
      connections := CallOthers(connections, ev.others, apps);
    }

    /** Look at every connection once, in order. */
    method EnforceTimeouts(now: int, sweep: seq<seq<(nat, Call)>>)
      requires AllGood(connections, apps) && AllAt(connections, now) && AllFine(connections)
      modifies this`connections
      ensures connections == SweepFirst(old(connections), |old(connections)|, now, sweep, apps)
      ensures AllGood(connections, apps) && Ids(connections) == Ids(old(connections)) && |connections| == |old(connections)|
      ensures forall j :: 0 <= j < |connections| && TimedOut(old(connections)[j].conn, now) ==> IsClosed(connections[j].conn)
      ensures forall j :: 0 <= j < |connections| ==> !TimedOut(connections[j].conn, now)
      ensures sweep == [] ==> forall j :: 0 <= j < |connections| && !TimedOut(old(connections)[j].conn, now) ==>
                connections[j] == old(connections)[j]
    {
      hide Good, Expire, SweepFirst, TimedOut, IsClosed;
      ghost var start := connections;
      SweepNone(start, now, sweep, apps);
      for i := 0 to |connections|
        invariant i <= |start| && connections == SweepFirst(start, i, now, sweep, apps)
      {
        SameIds(start, connections);
        SweepNext(start, i + 1, now, sweep, apps);
        connections := Expire(connections, i, now, if i < |sweep| then sweep[i] else [], apps);
      }
      SweepOutcome(start, |start|, now, sweep, apps);
      SweepSpares(start, |start|, now, apps);
    }

    /** Fill the poll array: the listening socket in slot 0 (as identity 0) and connection k in slot
        k + 1. The array has 65 entries. */
    method FillSlots() returns (nfds: nat)
      requires pollFds.Length == MAX_CONNECTIONS + 1 && |connections| <= MAX_CONNECTIONS
      modifies pollFds
      ensures nfds == |connections| + 1 <= pollFds.Length
      ensures pollFds[0] == 0 && pollFds[1..nfds] == Ids(connections)
    {
      nfds := 0;
      pollFds[nfds] := 0;
      nfds := nfds + 1;
      for i := 0 to |connections|
        invariant nfds == i + 1 && pollFds[0] == 0
        invariant forall k :: 0 <= k < i ==> pollFds[k + 1] == connections[k].id
      {
        pollFds[nfds] := connections[i].id;
        nfds := nfds + 1;
      }
    }

    /** Handle the results in slots 1 to nfds - 1. `served` pairs the identity that filled each slot with
        that of the connection that handled it. The reactor does not go on after a fault. */
    method ServeSlots(nfds: nat, now: int, slots: seq<SlotEvent>) returns (served: seq<(nat, nat)>, halted: bool)
      requires AllGood(connections, apps) && AllAt(connections, now) && AllFine(connections)
      requires 1 <= nfds <= pollFds.Length && nfds - 1 <= |connections|
      requires pollFds[1..nfds] == Ids(connections)[..nfds - 1]
      modifies this`connections
      ensures connections == ServeFirst(old(connections), nfds - 1, slots, useWritev, now, apps)
      ensures halted <==> !AllFine(connections)
      ensures if halted then 0 < |served| <= nfds - 1 && EachByItself(served, pollFds[1..nfds][..|served|])
                             && connections[|served| - 1].conn.fault != Fine
              else EachByItself(served, pollFds[1..nfds])
    {
      hide Good, Serve, EachByItself, ServeFirst, AllFine;
      served, halted := [], false;
      ghost var start, filled := connections, pollFds[1..nfds];
      ServedNone(filled);
      ServeNone(start, slots, useWritev, now, apps);
      for i := 1 to nfds
        invariant i - 1 <= |start| && connections == ServeFirst(start, i - 1, slots, useWritev, now, apps)
        invariant AllFine(connections) && !halted && |connections| == |start|
        invariant EachByItself(served, filled[..i - 1]) && pollFds[1..nfds] == filled
      {
        SameIds(start, connections);
        if i - 1 >= |connections| { break; }
        assert pollFds[i] == filled[i - 1] == Ids(start)[i - 1] == connections[i - 1].id;
        ServedOne(served, filled, i - 1);
        served := served + [(pollFds[i], connections[i - 1].id)];
        ServeNext(start, i, slots, useWritev, now, apps);
        HandleConnectionIo(i - 1, if i - 1 < |slots| then slots[i - 1] else QUIET, now);
        SameIds(start, connections);
        if connections[i - 1].conn.fault != Fine {
          ServeStops(start, i, nfds - 1, slots, useWritev, now, apps);
          return served, true;
        }
      }
      assert filled[..nfds - 1] == filled;
    }

    /** The listening socket's part of a turn. */
    method Admit(now: int, listener: bool, accept: Accept, ghost kept: nat) returns (outcome: Admission)
      requires Accounted(kept) && AllAt(connections, now)
      modifies this
      ensures Accounted(kept) && AllAt(connections, now)
      ensures maxConnections == old(maxConnections) && useWritev == old(useWritev) && removed == old(removed)
      ensures connections == old(connections) + if outcome == Admitted then [Peer(old(nextId), Fresh(now))] else []
      ensures Decided(outcome, listener, accept, |old(connections)|, old(active), maxConnections)
      ensures rejected == Wrap64(old(rejected) + if outcome in {Overloaded, AtMaximum, Full} then 1 else 0)
    {
      hide Good, Wrap64, Threshold, Sound;
      WrapSmall(rejected);
      if !listener { return NotAsked; }
      if IsOverloaded(active, maxConnections) {
        WrapRange(rejected + 1);
        rejected := Wrap64(rejected + 1);
        return Overloaded;
      }
      assert |connections| <= MAX_CONNECTIONS by { SoundSize(connections, nextId, apps); }
      CountedAdmit(active, total, |connections|, removed, kept);
      outcome := AcceptConnection(now, accept);
      if outcome == Admitted {
        FreshGood(now, apps(old(nextId)));
        SoundAdmit(old(connections), old(nextId), apps, Fresh(now));
      }
    }

    /** One turn of the loop. `due` is the list as it stands before the sweep, and `swept` before removal:
        the turn keeps exactly the connections that are then still open. */
    method Iterate(turn: Turn, ghost kept: nat)
      returns (go: bool, halted: bool, outcome: Admission, served: seq<(nat, nat)>, due: seq<Peer>, swept: seq<Peer>)
      requires AtLoopHead(kept)
      modifies this, pollFds
      ensures Accounted(kept) && maxConnections == old(maxConnections) && useWritev == old(useWritev)
      ensures halted <==> !AllFine(connections)
      ensures go <==> !turn.PollFailed? && !halted
      ensures Decided(outcome, turn.Ready? && turn.listener, if turn.Ready? then turn.accept else AcceptBlocked,
                      |old(connections)|, old(active), maxConnections)
      ensures !turn.Ready? ==> !halted && outcome == NotAsked && connections == due == swept == old(connections)
      ensures turn.Ready? ==>
                due == ServeFirst(Joined(old(connections), turn.now, outcome == Admitted, old(nextId), apps),
                                  |old(connections)|, turn.slots, useWritev, turn.now, apps)
      ensures halted ==> connections == due && 0 < |served| <= |old(connections)| <= |due|
                         && EachByItself(served, Ids(old(connections))[..|served|]) && due[|served| - 1].conn.fault != Fine
      ensures turn.Ready? && !halted ==>
                && EachByItself(served, Ids(old(connections)))
                && AllGood(due, apps) && AllAt(due, turn.now) && AllFine(due)
                && swept == SweepFirst(due, |due|, turn.now, turn.sweep, apps)
                && PrunedTo(swept, connections) && Current(due, connections, turn.now)
      ensures |connections| <= |old(connections)| + (if outcome == Admitted then 1 else 0)
    {
      hide Good, IsClosed, Wrap64, TimedOut, Threshold, Sound, EachByItself, ServeFirst, SweepFirst, PrunedTo, Current, Decided;
      hide AllFine, Joined;
      go, halted, outcome, served, due, swept := true, false, NotAsked, [], connections, connections;
      NotAskedDecided(AcceptBlocked, |connections|, active, maxConnections);
      if turn.PollFailed? {
        go := false;
        return;
      }
      if turn.PollIdle? { return; }
      var nfds;
      nfds, outcome := OpenTurn(turn.now, turn.listener, turn.accept, kept);
      ghost var joined := connections;
      served, halted := ServeSlots(nfds, turn.now, turn.slots);
      due := connections;
      SoundSame(joined, due, nextId, apps);
      if halted {
        go := false;
        return;
      }
      SoundSize(due, nextId, apps);
      EnforceTimeouts(turn.now, turn.sweep);
      swept := connections;
      SoundSame(due, swept, nextId, apps);
      Settle(kept);
      TurnIsCurrent(due, swept, connections, turn.now, nextId, apps);
    }

    /** The start of a turn: fill the slots, then accept. */
    method OpenTurn(now: int, listener: bool, accept: Accept, ghost kept: nat) returns (nfds: nat, outcome: Admission)
      requires AtLoopHead(kept)
      modifies this, pollFds
      ensures Accounted(kept) && AllGood(connections, apps) && AllAt(connections, now) && AllFine(connections)
      ensures maxConnections == old(maxConnections) && useWritev == old(useWritev)
      ensures connections == Joined(old(connections), now, outcome == Admitted, old(nextId), apps)
      ensures nfds == |old(connections)| + 1 <= pollFds.Length
      ensures pollFds[1..nfds] == Ids(old(connections)) == Ids(connections)[..nfds - 1]
      ensures |connections| == |old(connections)| + if outcome == Admitted then 1 else 0
      ensures Decided(outcome, listener, accept, |old(connections)|, old(active), maxConnections)
    {
      hide Good, IsClosed, Wrap64, TimedOut, Threshold, Sound, Decided;
      SoundSize(connections, nextId, apps);
      nfds := FillSlots();
      connections := TickAll(connections, now, apps);
      SoundSame(old(connections), connections, nextId, apps);
      ghost var ticked := connections;
      outcome := Admit(now, listener, accept, kept);
      SoundSize(connections, nextId, apps);
      ghost var joined := if outcome == Admitted then [Peer(old(nextId), Fresh(now))] else [];
      IdsAppend(ticked, joined);
    }

    /** A run of the reactor over any turns, from any list left by an earlier run. */
    method Run(turns: seq<Turn>) returns (log: seq<Admission>, sizes: seq<nat>, halted: bool)
      requires Sound(connections, nextId, apps) && AllFine(connections)
      requires pollFds.Length == MAX_CONNECTIONS + 1
      modifies this, pollFds
      ensures Accounted(|old(connections)|) && maxConnections == old(maxConnections)
      ensures halted <==> !AllFine(connections)
      ensures AllOpen(old(connections)) && !halted ==> AllOpen(connections)
      ensures active == |connections| <==> old(connections) == []
      ensures old(connections) == [] ==> total == Wrap64(active + removed)
      ensures old(connections) == [] ==> |connections| <= Min(64, maxConnections)
      ensures old(connections) == [] && 9 * maxConnections < WORD ==> |connections| <= 9 * maxConnections / 10 + 1
      ensures old(connections) == [] && 1 <= maxConnections ==> AtMaximum !in log
      ensures |sizes| == |log| && (sizes != [] ==> sizes[0] == |old(connections)|)
      ensures LockedOut(log, sizes, |old(connections)|)
    {
      hide Good, IsClosed, Wrap64, Threshold, Sound, TimedOut, AllFine, PrunedTo, Current, Recorded, LockedOut;
      hide EachByItself, ServeFirst, SweepFirst, Joined;
      ghost var kept, m := |connections|, maxConnections;
      SoundSize(connections, nextId, apps);
      ResetStats();
      log, sizes, halted := [], [], false;
      RecordNone(kept);
      for n := 0 to |turns|
        invariant Recorded(log, sizes, kept, |connections|)
        invariant AtLoopHead(kept) && maxConnections == m && !halted
        invariant AllOpen(old(connections)) ==> AllOpen(connections)
        invariant kept == 0 ==> |connections| <= Min(m, Threshold(m) + 1)
        invariant kept == 0 && 1 <= m ==> AtMaximum !in log
      {
        SoundSize(connections, nextId, apps);
        ActiveIsRight(active, total, |connections|, removed, kept);
        if 1 <= m { NeverAtMaximum(|connections|, m); }
        var size := |connections|;
        if size < kept { BelowKept(active, total, size, removed, kept, m); }
        var go, outcome, served, due, swept;
        go, halted, outcome, served, due, swept := Iterate(turns[n], kept);
        PrunedOpen(swept, connections);
        RecordNext(log, sizes, kept, size, outcome, |connections|);
        log, sizes := log + [outcome], sizes + [size];
        if !go { break; }
      }
      SoundSize(connections, nextId, apps);
      ActiveIsRight(active, total, |connections|, removed, kept);
      RecordGives(log, sizes, kept, |connections|);
      ThresholdIs(m);
    }

    /** Resetting the statistics, which a run also begins with: from then on the counters miss the
        connections that were in the list. */
    method ResetStats()
      modifies this`total, this`active, this`rejected, this`socketErrors, this`removed
      ensures total == active == rejected == socketErrors == 0
      ensures Counted(active, total, |connections|, removed, |connections|)
    {
      total, active, rejected, socketErrors, removed := 0, 0, 0, 0, 0;
      WrapSmall(0);
    }

    /** The end of a turn: removal. */
    method Settle(ghost kept: nat)
      requires AtLoopHead(kept)
      modifies this`connections, this`active, this`removed
      ensures AtLoopHead(kept) && |connections| <= |old(connections)| && PrunedTo(old(connections), connections)
    {
      hide Good, IsClosed, Wrap64, TimedOut, SameOpen;
      assert active < WORD by { WrapRange(|connections| - kept); }
      RemoveClosedConnections();
      CountedRemove(old(active), total, |old(connections)|, |connections|, old(removed), removed, kept);
    }
  }

  /** The counter of active connections is right at a loop head exactly when the run started with
      none: resetting it forgets connections left from an earlier run. */
  lemma ActiveIsRight(active: nat, total: nat, n: nat, removed: nat, kept: nat)
    requires Counted(active, total, n, removed, kept) && n <= MAX_CONNECTIONS && kept <= MAX_CONNECTIONS
    ensures active == n <==> kept == 0
  {
  }

  /** With fewer connections listed than at the reset, the counter has wrapped below zero and the server
      counts as overloaded whatever its maximum. */
  lemma BelowKept(active: nat, total: nat, n: nat, removed: nat, kept: nat, m: nat)
    requires Counted(active, total, n, removed, kept) && n < kept <= MAX_CONNECTIONS
    ensures IsOverloaded(active, m)
  {
  }

  /** A server below the overload threshold is below its maximum: nine tenths of it are, and where that
      product overflows the maximum exceeds any list. */
  lemma NeverAtMaximum(n: nat, m: nat)
    requires 1 <= m && n <= MAX_CONNECTIONS
    ensures !IsOverloaded(n, m) ==> n < m
  {
  }

  lemma ThresholdIs(m: nat)
    ensures 9 * m < WORD ==> Threshold(m) == 9 * m / 10
  {
  }

  lemma WrapRange(n: int)
    ensures Wrap64(n) < WORD
  {
  }

  lemma SoundSize(s: seq<Peer>, nextId: nat, apps: Apps)
    requires Sound(s, nextId, apps)
    ensures |s| <= MAX_CONNECTIONS && AllGood(s, apps)
  {
  }

  lemma IdsAppend(s: seq<Peer>, t: seq<Peer>)
    ensures Ids(s + t) == Ids(s) + Ids(t)
    ensures Ids(s + t)[..|s|] == Ids(s)
  {
  }

  /** Advance every clock to the time of this turn. */
  function TickAll(s: seq<Peer>, now: int, apps: Apps): (r: seq<Peer>)
    requires AllGood(s, apps) && AllFine(s)
    ensures AllGood(r, apps) && AllAt(r, now) && AllFine(r) && Ids(r) == Ids(s)
  {
    TicksGood(s, now, apps);
    seq(|s|, i requires 0 <= i < |s| => Peer(s[i].id, s[i].conn.(clock := now)))
  }

  lemma TicksGood(s: seq<Peer>, now: int, apps: Apps)
    requires AllGood(s, apps) && AllFine(s)
    ensures forall i :: 0 <= i < |s| ==> Good(s[i].conn.(clock := now), apps(s[i].id))
  {
    hide Good;
    forall i | 0 <= i < |s| ensures Good(s[i].conn.(clock := now), apps(s[i].id)) {
      StepGood(s[i].conn, Step(now, Tick), apps(s[i].id));
    }
  }

  /** A slot that reports nothing. */
  const QUIET := SlotEvent(false, false, false, ReadBlocked, WriteBlocked, [])

  /** All clocks show the time of this turn. */
  predicate AllAt(s: seq<Peer>, now: int)
  {
    forall i :: 0 <= i < |s| ==> s[i].conn.clock == now
  }
}
