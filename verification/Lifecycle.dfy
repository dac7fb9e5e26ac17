/** What every run of a connection keeps about its states, its callbacks and its close frames. */
module Lifecycle {
  import opened Bytes
  import opened Frames
  import opened Protocol
  import opened Actions
  import Handshake

  lemma {:induction false} RunAppend(c: Conn, xs: seq<Step>, ys: seq<Step>, app: App)
    ensures Run(c, xs + ys, app) == Run(Run(c, xs, app), ys, app)
    decreases |ys|
  {
    hide DoStep;
    if ys == [] {
      assert xs + ys == xs;
    } else {
      var last := |ys| - 1;
      RunAppend(c, xs, ys[..last], app);
      assert (xs + ys)[..|xs + ys| - 1] == xs + ys[..last];
    }
  }

  lemma RunOne(c: Conn, s: Step, app: App)
    ensures Run(c, [s], app) == DoStep(c, s, app)
  {
    hide DoStep;
    assert [s][..0] == [];
  }

  lemma RunCons(c: Conn, s: Step, steps: seq<Step>, app: App)
    ensures Run(c, [s] + steps, app) == Run(DoStep(c, s, app), steps, app)
  {
    hide Run, DoStep;
    RunAppend(c, [s], steps, app);
    RunOne(c, s, app);
  }

  /** Calls as steps of their own. */
  function CallSteps(calls: seq<Call>, clock: int): (s: seq<Step>)
    ensures |s| == |calls|
  {
    seq(|calls|, i requires 0 <= i < |calls| => Step(clock, Api(calls[i])))
  }

  /** What a callback calls has exactly the effect of the same calls made one after the other from outside,
      however deep they nest. */
  lemma {:induction false} CallsAsRun(c: Conn, calls: seq<Call>, app: App)
    requires c.fault == Fine
    ensures RunCalls(c, calls, app) == Run(c, CallSteps(calls, c.clock), app)
    decreases |calls|
  {
    hide Invoke;
    if calls != [] {
      var d := Invoke(c, calls[0], app);
      assert c.(clock := c.clock) == c;
      CallsAsRun(d, calls[1..], app);
      RunCons(c, Step(c.clock, Api(calls[0])), CallSteps(calls[1..], c.clock), app);
      assert CallSteps(calls, c.clock) == [Step(c.clock, Api(calls[0]))] + CallSteps(calls[1..], c.clock);
    }
  }

  /** A callback is its event and then these calls. */
  lemma NotifyAsRun(c: Conn, e: Event, app: App)
    requires c.fault == Fine
    ensures Notify(c, e, app) == Run(Log(c, e), CallSteps(app(c.trace + [e]), c.clock), app)
  {
    hide Run;
    CallsAsRun(Log(c, e), app(c.trace + [e]), app);
  }

  // ---- states only move forward, histories only grow ----

  predicate Later(c: Conn, d: Conn)
  {
    && Rank(c.phase) <= Rank(d.phase)
    && c.trace <= d.trace && c.received <= d.received && c.sent <= d.sent
    && (Upgraded(c) ==> d.request == c.request)
  }

  lemma LaterKept(c: Conn, d: Conn, a: Act)
    requires Later(c, d) && Base(d) && Enabled(d, a)
    ensures Later(c, Apply(d, a))
  {
    hide FitOf, Output;
    var e := Apply(d, a);
    assert d.trace <= e.trace && d.received <= e.received && d.sent <= e.sent;
  }

  /** Over any continuation of any run the state never moves backwards, and what has happened, been
      received and been sent stays. */
  lemma NeverBackwards(c: Conn, xs: seq<Step>, ys: seq<Step>, app: App)
    requires Base(c)
    ensures Later(Run(c, xs, app), Run(c, xs + ys, app))
  {
    hide Base, Later, Run, Apply, Enabled;
    RunKeeps(d => true, c, xs, app) by { assert Stable(d => true); }
    var mid := Run(c, xs, app);
    assert Later(mid, mid) by { LaterRefl(mid); }
    var P := (d: Conn) => Later(mid, d);
    assert Stable(P) by {
      forall d: Conn, a: Act | Base(d) && P(d) && Enabled(d, a) ensures P(Apply(d, a)) {
        LaterKept(mid, d, a);
      }
    }
    RunKeeps(P, mid, ys, app);
    RunAppend(c, xs, ys, app);
  }

  lemma LaterRefl(c: Conn)
    ensures Later(c, c)
  {
  }

  // ---- the order of events ----

  predicate IsCloseFrame(e: Event)
  {
    e.Wrote? && e.opcode == CLOSE
  }

  predicate IsDataFrame(e: Event)
  {
    e.Wrote? && (e.opcode == TEXT || e.opcode == BINARY)
  }

  /** The handshake response and the open callback come first, once, before everything except the
      close callback of a connection that never opened. */
  predicate OpensFirst(t: seq<Event>)
  {
    && (forall i :: 0 <= i < |t| && t[i].Responded? ==> i == 0)
    && (forall i :: 0 <= i < |t| && t[i].OnOpen? ==> i == 1)
    && (forall i :: 0 <= i < |t| && !t[i].OnClose? ==> t[0].Responded? && (i > 0 ==> t[1].OnOpen?))
  }

  /** After a close frame there is no second one, and no text or binary frame. */
  predicate ClosesOnce(t: seq<Event>)
  {
    forall i, j :: 0 <= i < j < |t| && IsCloseFrame(t[i]) ==> !IsCloseFrame(t[j]) && !IsDataFrame(t[j])
  }

  predicate Ordered(c: Conn)
  {
    && OpensFirst(c.trace) && ClosesOnce(c.trace)
    && (Upgraded(c) ==> |c.trace| >= 2 && c.trace[0].Responded? && c.trace[1].OnOpen?)
    && (c.phase == Handshaking || c.phase == Open ==>
          forall i :: 0 <= i < |c.trace| ==> !IsCloseFrame(c.trace[i]))
  }

  /** Adding an event at the end. */
  lemma OrderedLog(c: Conn, d: Conn, e: Event)
    requires Ordered(c) && d.trace == c.trace + [e] && d.request == c.request
    requires !e.Responded? && !e.OnOpen? && (e.OnClose? || Upgraded(c))
    requires IsCloseFrame(e) || IsDataFrame(e) ==> c.phase == Open
    requires d.phase == Handshaking || d.phase == Open ==> c.phase == d.phase && !IsCloseFrame(e)
    ensures Ordered(d)
  {
  }

  lemma OrderedKept(c: Conn, a: Act)
    requires Ordered(c) && Base(c) && Enabled(c, a)
    ensures Ordered(Apply(c, a))
  {
    hide FitOf, Output, Ordered;
    var d := Apply(c, a);
    match a
    case Discard(_) => OrderedSame(c, d);
    case Receive(_) => OrderedSame(c, d);
    case Note(_, _) => OrderedSame(c, d);
    case Fail(_) => OrderedSame(c, d);
    case DropSocket => OrderedSame(c, d);
    case UpgradeTo(size, response) => OrderedUpgrade(c, d, response);
    case Flush(n) =>
      if d.trace == c.trace { OrderedSame(c, d); } else { OrderedLog(c, d, d.trace[|c.trace|]); }
    case _ => OrderedLog(c, d, d.trace[|c.trace|]);
  }

  lemma OrderedSame(c: Conn, d: Conn)
    requires Ordered(c) && d.trace == c.trace && d.request == c.request && d.phase == c.phase
    ensures Ordered(d)
  {
  }

  lemma OrderedUpgrade(c: Conn, d: Conn, response: seq<byte>)
    requires c.trace == [] && d.trace == c.trace + [Responded(response)] + [OnOpen]
    ensures Ordered(d)
  {
  }

  /** Over every run from creation, with callbacks calling back at will: the open callback is made at
      most once and before every message; at most one close frame is written, and no text or binary
      frame after it. */
  lemma EventsInOrder(now: int, steps: seq<Step>, app: App)
    ensures OpensFirst(Run(Fresh(now), steps, app).trace)
    ensures ClosesOnce(Run(Fresh(now), steps, app).trace)
  {
    hide Base, Run, Apply, Enabled;
    var P := (d: Conn) => Ordered(d);
    assert Stable(P) by {
      hide Ordered;
      forall d: Conn, a: Act | Base(d) && P(d) && Enabled(d, a) ensures P(Apply(d, a)) {
        OrderedKept(d, a);
      }
    }
    FreshBase(now);
    assert Ordered(Fresh(now));
    RunKeeps(P, Fresh(now), steps, app);
  }

  lemma FreshBase(now: int)
    ensures Base(Fresh(now)) && Synced(Fresh(now))
  {
  }

  /** What a close does in each state: an open connection starts the close handshake now, any other that is
      not closed yet is shut at once with its callback, and a closed one stays as it is. */
  lemma CloseExactly(c: Conn, code: nat, app: App)
    ensures var r := Invoke(c, Close(code), app);
            match c.phase
            case Open => r == WriteFrame(c, CLOSE, [code / 256 % 256, code % 256]).(phase := Closing, closingAt := c.clock)
            case Closed => r == c
            case _ => r == c.(phase := Closed, socketOpen := false, trace := c.trace + [OnClose(true)])
  {
    hide WriteFrame;
    TwoBytes(code);
    assert c.phase != Open ==> Notify(c.(phase := Closed), OnClose(true), app) == Log(c.(phase := Closed), OnClose(true));
  }

  // ---- a closing connection falls silent ----

  /** What closing a connection that is not open amounts to. */
  function ShutDown(c: Conn): Conn
  {
    Log(c.(phase := Closed), OnClose(true)).(socketOpen := false)
  }

  /** Calls on a connection that is closing can only shut it down; sends are ignored. */
  lemma {:induction false} CallsWhileClosing(c: Conn, calls: seq<Call>, app: App)
    requires c.phase == Closing || c.phase == Closed
    ensures RunCalls(c, calls, app) == c || (c.phase == Closing && RunCalls(c, calls, app) == ShutDown(c))
    decreases |calls|
  {
    if calls != [] {
      var c1 := Invoke(c, calls[0], app);
      assert c1 == c || (c.phase == Closing && c1 == ShutDown(c));
      CallsWhileClosing(c1, calls[1..], app);
    }
  }

  /** From c to d only close and drain callbacks were made, nothing was consumed and nothing was
      written. */
  predicate Silent(c: Conn, d: Conn)
  {
    && (d.phase == Closing || d.phase == Closed)
    && c.trace <= d.trace && c.rx <= d.rx
    && c.sent + c.tx == d.sent + d.tx
    && forall i :: |c.trace| <= i < |d.trace| ==> d.trace[i] == OnClose(true) || d.trace[i].OnDrain?
  }

  lemma SilentBy(c: Conn, d: Conn, es: seq<Event>)
    requires (d.phase == Closing || d.phase == Closed) && c.rx <= d.rx
    requires d.trace == c.trace + es && c.sent + c.tx == d.sent + d.tx
    requires forall i :: 0 <= i < |es| ==> es[i] == OnClose(true) || es[i].OnDrain?
    ensures Silent(c, d)
  {
  }

  lemma AdvanceConserves(c: Conn, n: nat)
    requires n <= |c.tx|
    ensures Advance(c, n).sent + Advance(c, n).tx == c.sent + c.tx
  {
    assert c.tx == c.tx[..n] + c.tx[n..];
  }

  lemma SilentLow(c: Conn, d: Conn, app: App)
    requires (c.phase == Closing || c.phase == Closed) && d.phase == c.phase && d.rx == c.rx && d.trace == c.trace
    requires c.sent + c.tx == d.sent + d.tx
    ensures Silent(c, CheckLowWatermark(d, app))
  {
    hide Silent;
    var r := CheckLowWatermark(d, app);
    if d.paused && |d.tx| < TX_LOW {
      var e := Log(d.(paused := false), OnDrain(|d.sent|));
      CallsWhileClosing(e, app(e.trace), app);
      if r == e {
        SilentBy(c, r, [OnDrain(|d.sent|)]);
      } else {
        assert r.trace == c.trace + [OnDrain(|d.sent|), OnClose(true)];
        SilentBy(c, r, [OnDrain(|d.sent|), OnClose(true)]);
      }
    } else {
      assert r.trace == c.trace + [];
      SilentBy(c, r, []);
    }
  }

  lemma SilentSame(c: Conn, d: Conn, e: Conn)
    requires Silent(c, d) && e.phase == d.phase && e.trace == d.trace && e.rx == d.rx && e.sent == d.sent && e.tx == d.tx
    ensures Silent(c, e)
  {
  }

  lemma SilentWrite(c: Conn, vectored: bool, res: WriteResult, app: App)
    requires c.phase == Closing || c.phase == Closed
    ensures Silent(c, HandleWrite(c, vectored, res, app).conn)
  {
    var r := HandleWrite(c, vectored, res, app).conn;
    if c.tx != [] && res.Accepted? && !(vectored && res.n == 0) {
      hide Silent, CheckLowWatermark;
      var k := Min(res.n, if vectored then |c.tx| else Min(512, |c.tx|));
      var d := Advance(c, k);
      AdvanceConserves(c, k);
      SilentLow(c, d, app);
      SilentSame(c, CheckLowWatermark(d, app), r);
    }
  }

  lemma SilentData(c: Conn, d: Conn, app: App)
    requires (c.phase == Closing || c.phase == Closed) && d.phase == c.phase
    requires c.rx <= d.rx && d.trace == c.trace && d.tx == c.tx && d.sent == c.sent
    ensures Silent(c, OnData(d, app))
  {
    hide ParseHeader, Silent;
    var r := OnData(d, app);
    if r.trace == c.trace {
      SilentBy(c, r, []);
    } else {
      SilentBy(c, r, [OnClose(true)]);
    }
  }

  lemma SilentRead(c: Conn, res: ReadResult, app: App)
    requires c.phase == Closing || c.phase == Closed
    ensures Silent(c, HandleRead(c, res, app).conn)
  {
    hide OnData;
    if |c.rx| < RX_SIZE && res.Bytes? && res.data != [] {
      hide Silent;
      var got := res.data[..Min(RX_SIZE - |c.rx|, |res.data|)];
      var d := c.(rx := c.rx + got, received := c.received + got);
      SilentData(c, d, app);
      SilentSame(c, OnData(d, app), HandleRead(c, res, app).conn);
    }
  }

  lemma SilentStep(c: Conn, s: Step, app: App)
    requires c.phase == Closing || c.phase == Closed
    ensures Silent(c, DoStep(c, s, app))
  {
    hide HandleRead, HandleWrite;
    var c0 := c.(clock := s.now);
    match s.io
    case Read(res) => SilentRead(c0, res, app);
    case Write(vectored, res) => SilentWrite(c0, vectored, res, app);
    case Api(call) =>
    case Tick =>
  }

  /** Pongs and messages after a close frame stay within the step that wrote it: once a step ends in
      Closing or Closed, no later step delivers a message or writes a frame. */
  lemma {:induction false} SilentAfterClosing(c: Conn, steps: seq<Step>, app: App)
    requires c.phase == Closing || c.phase == Closed
    ensures Silent(c, Run(c, steps, app))
  {
    hide DoStep;
    if steps != [] {
      var last := |steps| - 1;
      SilentAfterClosing(c, steps[..last], app);
      SilentStep(Run(c, steps[..last], app), steps[last], app);
    }
  }

  // ---- state and socket agree between steps ----

  lemma {:induction false} FramesSynced(c: Conn, app: App)
    requires Synced(c)
    ensures Synced(ParseFrames(c, app))
    decreases |c.rx|
  {
    hide NextFrame;
    var next := NextFrame(c.rx[..Min(4096, |c.rx|)]);
    if next.Whole? && next.frame.opcode != CLOSE {
      var c1 := HandleFrame(c, next.frame, app);
      assert Synced(c1);
      FramesSynced(c1.(rx := c1.rx[next.size..]), app);
    }
  }

  lemma StepSynced(c: Conn, s: Step, app: App)
    requires Synced(c)
    ensures Synced(DoStep(c, s, app))
  {
    hide ParseFrames, ParseHeader, Handshake.ParseRequest, Handshake.Response;
    var c0 := c.(clock := s.now);
    if s.io.Read? && s.io.read.Bytes? && |c.rx| < RX_SIZE {
      var got := s.io.read.data[..Min(RX_SIZE - |c.rx|, |s.io.read.data|)];
      FramesSynced(c0.(rx := c.rx + got, received := c.received + got), app);
    }
  }

  /** After every step of every run the socket is shut exactly when the state is Closed. */
  lemma {:induction false} RunSynced(c: Conn, steps: seq<Step>, app: App)
    requires Synced(c)
    ensures Synced(Run(c, steps, app))
  {
    hide DoStep;
    if steps != [] {
      var last := |steps| - 1;
      RunSynced(c, steps[..last], app);
      StepSynced(Run(c, steps[..last], app), steps[last], app);
    }
  }
}
