/** When a connection is overdue, in terms of when it was created and when it began to close. */
module Timeouts {
  import opened Bytes
  import opened Frames
  import opened Protocol
  import opened Actions
  import Handshake
  import Lifecycle
  import Servers

  /** The time of the last step that found the connection before Closing: if it is in Closing, that step
      brought it there. */
  function BeganClosing(now: int, steps: seq<Step>, app: App): int
  {
    if steps == [] then 0
    else
      var last := |steps| - 1;
      if Rank(Run(Fresh(now), steps[..last], app).phase) < Rank(Closing) then steps[last].now
      else BeganClosing(now, steps[..last], app)
  }

  /** Within one step at time t, whoever enters Closing notes t. */
  predicate Stamped(c: Conn, t: int)
  {
    c.clock == t && (c.phase == Closing ==> c.closingAt == t)
  }

  lemma StampedStable(t: int)
    ensures StableWithin((x: Conn) => Stamped(x, t)) && StableUnderCalls((x: Conn) => Stamped(x, t))
  {
    hide Base, FitOf, Output, Handshake.IsHead;
  }

  lemma StepStamps(c: Conn, s: Step, app: App)
    requires Base(c) && c.fault == Fine && Rank(c.phase) < Rank(Closing)
    ensures Stamped(DoStep(c, s, app), s.now)
  {
    hide OnData, Invoke, Base, Notify;
    var c0 := c.(clock := s.now);
    var P := (x: Conn) => Stamped(x, s.now);
    StampedStable(s.now);
    assert Base(c0) by { NoteKeeps(x => true, c, s.now, c.lastError) by { assert Stable(x => true); } }
    match s.io
    case Read(res) =>
      if |c.rx| < RX_SIZE && res.Bytes? && res.data != [] {
        var got := res.data[..Min(RX_SIZE - |c.rx|, |res.data|)];
        ReceiveKept(c0, got);
        DataKeeps(P, c0.(rx := c0.rx + got, received := c0.received + got), app);
      }
    case Write(vectored, res) =>
      if c.tx != [] && res.Accepted? {
        var k := Min(res.n, if vectored then |c.tx| else Min(512, |c.tx|));
        var d := Advance(c0, k);
        if d.paused && |d.tx| < TX_LOW {
          assert Base(Log(d.(paused := false), OnDrain(|d.sent|))) by { BaseKept(c0, Flush(k)); }
          NotifyKeeps(P, d.(paused := false), OnDrain(|d.sent|), app);
        }
      }
    case Api(call) => InvokeKeeps(P, c0, call, app);
    case Tick =>
  }

  /** A step that begins in Closing and ends there leaves the time alone. */
  lemma StepKeepsStamp(c: Conn, s: Step, app: App)
    requires Base(c) && c.phase == Closing
    ensures DoStep(c, s, app).phase == Closing ==> DoStep(c, s, app).closingAt == c.closingAt
  {
    hide Base, DoStep;
    var t := c.closingAt;
    ClosingStable(t);
    StepKeeps((x: Conn) => Rank(x.phase) >= Rank(Closing) && x.closingAt == t, c, s, app);
  }

  lemma ClosingStable(t: int)
    ensures Stable((x: Conn) => Rank(x.phase) >= Rank(Closing) && x.closingAt == t)
  {
    hide Base, FitOf, Output;
  }

  /** Over every run the connection remembers when it was created and, in Closing, when that began. */
  lemma {:induction false} TimesRemembered(now: int, steps: seq<Step>, app: App)
    ensures var c := Run(Fresh(now), steps, app);
            && Base(c) && c.createdAt == now
            && (c.phase == Closing ==> c.closingAt == BeganClosing(now, steps, app))
  {
    hide DoStep, Base;
    Lifecycle.FreshBase(now);
    if steps != [] {
      var last := |steps| - 1;
      var c, s := Run(Fresh(now), steps[..last], app), steps[last];
      TimesRemembered(now, steps[..last], app);
      CreatedStable(now);
      StepKeeps((x: Conn) => x.createdAt == now, c, s, app);
      if c.phase == Closing {
        StepKeepsStamp(c, s, app);
      } else if c.phase == Closed {
        StaysClosed(c, s, app);
      } else if c.fault == Fine {
        StepStamps(c, s, app);
      } else {
        Frozen(c, s, app);
      }
    }
  }

  lemma CreatedStable(now: int)
    ensures Stable((x: Conn) => x.createdAt == now)
  {
    hide Base, FitOf, Output;
  }

  lemma StaysClosed(c: Conn, s: Step, app: App)
    requires Base(c) && c.phase == Closed
    ensures DoStep(c, s, app).phase == Closed
  {
    hide Base, DoStep;
    ClosedStable();
    StepKeeps((x: Conn) => Rank(x.phase) >= Rank(Closed), c, s, app);
  }

  lemma ClosedStable()
    ensures Stable((x: Conn) => Rank(x.phase) >= Rank(Closed))
  {
    hide Base, FitOf, Output;
  }

  lemma Frozen(c: Conn, s: Step, app: App)
    requires c.fault != Fine
    ensures DoStep(c, s, app) == c
  {
  }

  /** So the sweep finds a connection overdue exactly if it has waited more than 5000 milliseconds in
      Handshaking since it was created, or more than that since it began to close. */
  lemma OverdueExactly(now: int, steps: seq<Step>, app: App, t: int)
    ensures var c := Run(Fresh(now), steps, app);
            Servers.TimedOut(c, t) <==>
              || (c.phase == Handshaking && t > now + 5000)
              || (c.phase == Closing && t > BeganClosing(now, steps, app) + 5000)
  {
    hide Run, Base;
    TimesRemembered(now, steps, app);
  }
}
