/** What a turn of the reactor does to each connection: exactly the steps of its own run that the poll
    results and the calls of other callbacks ask for. */
module Serving {
  import opened Bytes
  import opened Frames
  import opened Protocol
  import opened Servers
  import Lifecycle

  // ---- one slot ----

  /** How the server closes a connection. */
  function Closing1000(clock: int): Step
  {
    Step(clock, Api(Close(1000)))
  }

  /** The steps a readable slot asks for: the read, and a close if it fails. */
  function ReadSteps(c: Conn, ev: SlotEvent): seq<Step>
  {
    if !ev.readable then []
    else [Step(c.clock, Read(ev.read))] + if ReadFails(c, ev.read) then [Closing1000(c.clock)] else []
  }

  function WriteSteps(c: Conn, ev: SlotEvent, vectored: bool): seq<Step>
  {
    if !ev.writable then []
    else [Step(c.clock, Write(vectored, ev.write))] + if WriteFails(c, ev.write) then [Closing1000(c.clock)] else []
  }

  function HangUpSteps(c: Conn, ev: SlotEvent): seq<Step>
  {
    if ev.hangup then [Closing1000(c.clock)] else []
  }

  lemma CloseAsStep(c: Conn, app: App)
    requires Good(c, app)
    ensures CloseNow(c, app) == DoStep(c, Closing1000(c.clock), app)
  {
    hide Invoke;
    assert c.(clock := c.clock) == c;
  }

  lemma ReadAsSteps(c: Conn, ev: SlotEvent, app: App)
    requires Good(c, app)
    ensures AfterRead(c, ev, app) == Run(c, ReadSteps(c, ev), app)
  {
    hide Good, HandleRead, CloseNow, ReadFails;
    if ev.readable {
      var s := Step(c.clock, Read(ev.read));
      assert c.(clock := c.clock) == c;
      var d := DoStep(c, s, app);
      StepGood(c, s, app);
      Lifecycle.RunCons(c, s, ReadSteps(c, ev)[1..], app);
      Lifecycle.RunOne(d, Closing1000(c.clock), app);
      if c.fault == Fine {
        ReadGood(c, ev.read, app);
        if ReadFails(c, ev.read) { CloseAsStep(d, app); }
      }
      assert ReadSteps(c, ev) == [s] + ReadSteps(c, ev)[1..];
    }
  }

  lemma WriteAsSteps(c: Conn, ev: SlotEvent, vectored: bool, app: App)
    requires Good(c, app)
    ensures (if ev.writable then WriteReady(c, vectored, ev.write, app) else c) == Run(c, WriteSteps(c, ev, vectored), app)
  {
    hide Good, HandleWrite, CloseNow, WriteFails;
    if ev.writable {
      var s := Step(c.clock, Write(vectored, ev.write));
      assert c.(clock := c.clock) == c;
      var d := DoStep(c, s, app);
      StepGood(c, s, app);
      Lifecycle.RunCons(c, s, WriteSteps(c, ev, vectored)[1..], app);
      Lifecycle.RunOne(d, Closing1000(c.clock), app);
      if c.fault == Fine {
        WriteGood(c, vectored, ev.write, app);
        if WriteFails(c, ev.write) { CloseAsStep(d, app); }
      }
      assert WriteSteps(c, ev, vectored) == [s] + WriteSteps(c, ev, vectored)[1..];
    }
  }

  /** Serving a slot is exactly this run of its connection: the read if it is readable, the write if it is
      writable, each with a close if it fails, and a close on hang-up. */
  lemma ServedAsRun(c: Conn, ev: SlotEvent, vectored: bool, app: App)
    requires Good(c, app)
    ensures var readSteps := ReadSteps(c, ev);
            var writeSteps := WriteSteps(Run(c, readSteps, app), ev, vectored);
            HandleIo(c, ev, vectored, app) == Run(c, readSteps + writeSteps + HangUpSteps(c, ev), app)
  {
    hide Good, Run, AfterRead, WriteReady, CloseNow, ReadSteps, WriteSteps;
    var readSteps := ReadSteps(c, ev);
    var c1 := AfterRead(c, ev, app);
    var writeSteps := WriteSteps(c1, ev, vectored);
    ReadAsSteps(c, ev, app);
    WriteAsSteps(c1, ev, vectored, app);
    Lifecycle.RunAppend(c, readSteps, writeSteps, app);
    var c2 := Run(c, readSteps + writeSteps, app);
    if ev.hangup {
      CloseAsStep(c2, app);
      Lifecycle.RunAppend(c, readSteps + writeSteps, [Closing1000(c.clock)], app);
      Lifecycle.RunOne(c2, Closing1000(c.clock), app);
    } else {
      assert readSteps + writeSteps + [] == readSteps + writeSteps;
    }
  }

  // ---- calls on other connections ----

  /** The calls addressed to one connection, as steps of its run. */
  function StepsFor(calls: seq<(nat, Call)>, id: nat, clock: int): seq<Step>
  {
    if calls == [] then []
    else (if calls[0].0 == id then [Step(clock, Api(calls[0].1))] else []) + StepsFor(calls[1..], id, clock)
  }

  lemma CallAsStep(c: Conn, call: Call, app: App)
    requires Good(c, app)
    ensures CallOn(c, call, app) == DoStep(c, Step(c.clock, Api(call)), app)
  {
    hide Invoke;
    assert c.(clock := c.clock) == c;
  }

  /** Every connection runs exactly the calls addressed to it, in order. */
  lemma {:induction false} OthersCalled(s: seq<Peer>, calls: seq<(nat, Call)>, apps: Apps, i: nat)
    requires AllGood(s, apps) && i < |s|
    ensures |CallOthers(s, calls, apps)| == |s|
    ensures var p := s[i];
            CallOthers(s, calls, apps)[i] == Peer(p.id, Run(p.conn, StepsFor(calls, p.id, p.conn.clock), apps(p.id)))
    decreases |calls|
  {
    hide Good, DoStep, CallOn;
    SameIds(s, CallOthers(s, calls, apps));
    if calls != [] {
      var p, c := s[i], calls[0];
      var t := CallTarget(s, c.0, c.1, apps);
      SameIds(s, t);
      OthersCalled(t, calls[1..], apps, i);
      var rest := StepsFor(calls[1..], p.id, p.conn.clock);
      if p.id == c.0 {
        CallAsStep(p.conn, c.1, apps(p.id));
        Lifecycle.RunCons(p.conn, Step(p.conn.clock, Api(c.1)), rest, apps(p.id));
      } else {
        assert [] + rest == rest;
      }
    }
  }

  // ---- a whole turn ----

  /** After one slot: its connection has been served, and everyone has run the calls addressed to them. */
  lemma ServeAt(s: seq<Peer>, i: nat, ev: SlotEvent, vectored: bool, now: int, apps: Apps, j: nat)
    requires AllGood(s, apps) && AllAt(s, now) && i < |s| && j < |s|
    ensures |Serve(s, i, ev, vectored, now, apps)| == |s|
    ensures var p := s[j];
            var c := if j == i then HandleIo(p.conn, ev, vectored, apps(p.id)) else p.conn;
            Serve(s, i, ev, vectored, now, apps)[j] == Peer(p.id, Run(c, StepsFor(ev.others, p.id, now), apps(p.id)))
  {
    hide Good, HandleIo, CallOthers, Run, StepsFor;
    var t := s[i := Peer(s[i].id, HandleIo(s[i].conn, ev, vectored, apps(s[i].id)))];
    OthersCalled(t, ev.others, apps, j);
  }

  /** When no callback acts on another connection and nothing comes to a fault, the turn serves every polled
      connection with its own slot, and leaves the rest alone. */
  lemma {:induction false} TurnServesEach(
    s: seq<Peer>, n: nat, slots: seq<SlotEvent>, vectored: bool, now: int, apps: Apps, j: nat)
    requires AllGood(s, apps) && AllAt(s, now) && n <= |s| && j < |s|
    requires forall k :: 0 <= k < |slots| ==> slots[k].others == []
    requires AllFine(ServeFirst(s, n, slots, vectored, now, apps))
    ensures |ServeFirst(s, n, slots, vectored, now, apps)| == |s|
    ensures ServeFirst(s, n, slots, vectored, now, apps)[j] ==
            if j < n && j < |slots| then Peer(s[j].id, HandleIo(s[j].conn, slots[j], vectored, apps(s[j].id))) else s[j]
  {
    hide Good, Serve, HandleIo, AllFine;
    SameIds(s, ServeFirst(s, n, slots, vectored, now, apps));
    if n > 0 {
      var t := ServeFirst(s, n - 1, slots, vectored, now, apps);
      SameIds(s, t);
      TurnServesEach(s, n - 1, slots, vectored, now, apps, j);
      var ev := if n - 1 < |slots| then slots[n - 1] else QUIET;
      ServeAt(t, n - 1, ev, vectored, now, apps, j);
      QuietServes(t[j].conn, vectored, apps(t[j].id));
    }
  }

  lemma QuietServes(c: Conn, vectored: bool, app: App)
    requires Good(c, app)
    ensures HandleIo(c, QUIET, vectored, app) == c
  {
    hide Good, ReadReady, WriteReady, CloseNow;
  }

  /** The sweep closes what is overdue the same way. */
  lemma ExpiredAsStep(s: seq<Peer>, i: nat, now: int, apps: Apps)
    requires AllGood(s, apps) && AllAt(s, now) && AllFine(s) && i < |s| && TimedOut(s[i].conn, now)
    ensures Expire(s, i, now, [], apps)[i] == Peer(s[i].id, DoStep(s[i].conn, Closing1000(now), apps(s[i].id)))
  {
    hide Good, DoStep;
    CloseAsStep(s[i].conn, apps(s[i].id));
  }

  /** Time passes for everyone alike. */
  lemma TickedAsStep(s: seq<Peer>, now: int, apps: Apps, i: nat)
    requires AllGood(s, apps) && AllFine(s) && i < |s|
    ensures TickAll(s, now, apps)[i] == Peer(s[i].id, DoStep(s[i].conn, Step(now, Tick), apps(s[i].id)))
  {
    hide Good;
  }

  // ---- the overload test ----

  /** The server counts as overloaded exactly above nine tenths of its maximum, as long as nine times the
      maximum fits into 64 bits. */
  lemma OverloadedExactly(active: nat, m: nat)
    requires 9 * m < 0x1_0000_0000_0000_0000
    ensures IsOverloaded(active, m) <==> 10 * active > 9 * m
  {
    WrapSmall(m * 9);
  }
}
