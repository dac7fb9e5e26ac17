/** Watermark hysteresis of the send buffer over whole runs. */
module Backpressure {
  import opened Bytes
  import opened Frames
  import opened Protocol
  import opened Actions
  import Lifecycle

  predicate IsMark(e: Event)
  {
    e.OnBackpressure? || e.OnDrain?
  }

  /** The watermark callbacks of a history, in order. */
  function Marks(t: seq<Event>): (m: seq<Event>)
    ensures forall i :: 0 <= i < |m| ==> IsMark(m[i])
  {
    if t == [] then []
    else
      var last := |t| - 1;
      if IsMark(t[last]) then Marks(t[..last]) + [t[last]] else Marks(t[..last])
  }

  lemma MarksLog(t: seq<Event>, e: Event)
    ensures Marks(t + [e]) == if IsMark(e) then Marks(t) + [e] else Marks(t)
  {
    assert (t + [e])[..|t|] == t;
  }

  /** Backpressure and drain alternate, backpressure first, and from each backpressure to the drain
      after it at least 4098 bytes have gone to the socket. */
  predicate Alternating(m: seq<Event>)
  {
    && (forall i :: 0 <= i < |m| && i % 2 == 0 ==> m[i].OnBackpressure?)
    && (forall i :: 0 <= i < |m| && i % 2 == 1 ==>
          m[i].OnDrain? && m[i - 1].OnBackpressure? && m[i].sent >= m[i - 1].sent + 4098)
  }

  predicate Hysteresis(c: Conn)
  {
    var m := Marks(c.trace);
    && Alternating(m)
    && (c.paused <==> |m| % 2 == 1)
    && (c.paused ==> |c.tx| >= TX_LOW && |c.sent| + |c.tx| >= m[|m| - 1].sent + TX_HIGH + 1)
  }

  /** Output may have been added, and an event that is no mark logged. */
  lemma HysteresisSame(c: Conn, d: Conn)
    requires Hysteresis(c) && d.paused == c.paused && Marks(d.trace) == Marks(c.trace)
    requires |d.tx| >= |c.tx| && d.sent == c.sent
    ensures Hysteresis(d)
  {
    hide Marks;
  }

  lemma HysteresisLog(c: Conn, d: Conn, e: Event)
    requires Hysteresis(c) && d.paused == c.paused && d.trace == c.trace + [e] && !IsMark(e)
    requires |d.tx| >= |c.tx| && d.sent == c.sent
    ensures Hysteresis(d)
  {
    hide Hysteresis, Marks;
    MarksLog(c.trace, e);
    HysteresisSame(c, d);
  }

  lemma HysteresisPause(c: Conn)
    requires Hysteresis(c) && !c.paused && |c.tx| > TX_HIGH
    ensures Hysteresis(Log(c.(paused := true), OnBackpressure(|c.sent|)))
  {
    hide Marks;
    MarksLog(c.trace, OnBackpressure(|c.sent|));
  }

  lemma HysteresisFlush(c: Conn, n: nat)
    requires Hysteresis(c) && n <= |c.tx|
    ensures Hysteresis(Apply(c, Flush(n)))
  {
    hide Marks;
    var d := Advance(c, n);
    MarksLog(c.trace, OnDrain(|d.sent|));
  }

  lemma HysteresisKept(c: Conn, a: Act)
    requires Hysteresis(c) && Base(c) && Enabled(c, a)
    ensures Hysteresis(Apply(c, a))
  {
    hide FitOf, Output, Hysteresis, Marks;
    var d := Apply(c, a);
    match a
    case Pause => HysteresisPause(c);
    case Flush(n) => HysteresisFlush(c, n);
    case UpgradeTo(size, response) =>
      MarksLog(c.trace, Responded(response));
      MarksLog(c.trace + [Responded(response)], OnOpen);
      HysteresisSame(c, d);
    case Discard(_) => HysteresisSame(c, d);
    case Receive(_) => HysteresisSame(c, d);
    case DropSocket => HysteresisSame(c, d);
    case Note(_, _) => HysteresisSame(c, d);
    case Fail(_) => HysteresisSame(c, d);
    case _ => HysteresisLog(c, d, d.trace[|c.trace|]);
  }

  /** For every run, whatever the callbacks send: a paused connection has at least 2048 bytes to send
      after every step, and the watermark callbacks alternate with 4098 bytes drained in between. */
  lemma HysteresisHolds(now: int, steps: seq<Step>, app: App)
    ensures var c := Run(Fresh(now), steps, app);
            && (c.paused ==> |c.tx| >= 2048)
            && Alternating(Marks(c.trace))
            && (c.paused <==> |Marks(c.trace)| % 2 == 1)
  {
    hide Run, Apply, Enabled, Base, Marks;
    var P := (d: Conn) => Hysteresis(d);
    assert Stable(P) by {
      hide Hysteresis;
      forall d: Conn, a: Act | Base(d) && P(d) && Enabled(d, a) ensures P(Apply(d, a)) {
        HysteresisKept(d, a);
      }
    }
    Lifecycle.FreshBase(now);
    NoMarks();
    RunKeeps(P, Fresh(now), steps, app);
  }

  /** Backpressure is raised by exactly the send that takes an unpaused connection above 6144 buffered bytes,
      right behind its frame, and then the calls of that callback are made. Every other send does nothing but
      write, and a paused connection stays paused. */
  lemma RaisedExactly(c: Conn, payload: seq<byte>, binary: bool, app: App)
    requires Base(c) && c.phase == Open && c.fault == Fine
    ensures var w := WriteFrame(c, if binary then BINARY else TEXT, payload);
            var r := Invoke(c, Send(payload, binary), app);
            && (r.paused <==> c.paused || |w.tx| > 6144)
            && if !c.paused && |w.tx| > 6144
               then
                 var e := w.(paused := true, trace := w.trace + [OnBackpressure(|c.sent|)]);
                 e.trace <= r.trace && r == Run(e, Lifecycle.CallSteps(app(e.trace), c.clock), app)
               else r == w
  {
    hide FitOf, Output, Base, Notify, Run;
    var opcode := if binary then BINARY else TEXT;
    var w := WriteFrame(c, opcode, payload);
    if !c.paused && |w.tx| > 6144 {
      WrittenKept(c, opcode, payload);
      assert Base(Log(w.(paused := true), OnBackpressure(|w.sent|))) by { BaseKept(w, Pause); }
      var e := Log(w.(paused := true), OnBackpressure(|w.sent|));
      StaysPaused(e);
      NotifyKeeps((x: Conn) => x.paused && e.trace <= x.trace, w.(paused := true), OnBackpressure(|w.sent|), app);
      Lifecycle.NotifyAsRun(w.(paused := true), OnBackpressure(|w.sent|), app);
    }
  }

  lemma StaysPaused(e: Conn)
    ensures StableUnderCalls((x: Conn) => x.paused && e.trace <= x.trace)
  {
    hide Base, FitOf, Output;
  }

  /** The drain callback is made by exactly the write that takes a paused connection below 2048 buffered
      bytes, and its calls with it; every other write does nothing but move the bytes the socket accepted. */
  lemma DrainedExactly(c: Conn, vectored: bool, n: nat, app: App)
    requires c.fault == Fine && c.tx != [] && 0 < n <= if vectored then |c.tx| else Min(512, |c.tx|)
    ensures var d := c.(tx := c.tx[n..], sent := c.sent + c.tx[..n]);
            var r := HandleWrite(c, vectored, Accepted(n), app).conn;
            r == if c.paused && |c.tx| - n < 2048
                 then
                   var e := d.(paused := false, trace := c.trace + [OnDrain(|c.sent| + n)]);
                   Run(e, Lifecycle.CallSteps(app(e.trace), c.clock), app).(lastError := Ok)
                 else d.(lastError := Ok)
  {
    hide Notify, Run;
    var d := Advance(c, n);
    if c.paused && |c.tx| - n < 2048 {
      Lifecycle.NotifyAsRun(d.(paused := false), OnDrain(|d.sent|), app);
    }
  }

  lemma NoMarks()
    ensures Marks([]) == []
  {
  }
}
