/** The calls the driver, the dispatcher and the application make on a connection, and whole runs
    of them on any number of connections, with runs of the deferred-write queue in between. A call
    made by the dispatcher ends whatever wait that task was in. */
module ConnectionRuns {
  import opened Common
  import opened Connection

  datatype Call =
    // the driver
    | Drive(act: Act) | GetReadBuf | ReadDone(data: seq<byte>, err: Option<Error>)
    | ReadPoll(acts: seq<Act>, elapsed: bool) | WritePoll | WaitClose(flush: bool) | Stop(cause: Option<Error>)
    // the application
    | Write(src: seq<byte>, acts: seq<Act>) | SendBuf(acts: seq<Act>) | Vectored(src: seq<byte>, v: Vectored)
    | Decode(n: nat) | Close | Timeout
    // the dispatcher
    | Receive(n: nat, out: Codec) | PollRead | PollNotify | PollFlush(full: bool, acts: seq<Act>) | PollShutdown
    | Pause | PollStatus
  {
    predicate ByDriver() {
      Drive? || GetReadBuf? || ReadDone? || ReadPoll? || WritePoll? || WaitClose? || Stop?
    }
    predicate ByApplication() { Write? || SendBuf? || Vectored? || Decode? || Close? || Timeout? }
  }

  datatype Event = On(id: Id, call: Call) | Ops(acts: seq<seq<Act>>)

  /** What a call of the driver is for has happened. */
  ghost predicate DriverDid(call: Call, s: IoState, t: IoState)
    requires s.out.Conserved()
  {
    match call
    case Drive(act) => t.out == (if act.PutBack? && !s.stop.Closed() then s.out else Acted(s.out, act))
                       && (act.Fail? ==> t.stop.stopped)
    case GetReadBuf => t.inc.held.Some?
    case ReadDone(data, err) => t.inc.received == s.inc.received + data && (err.Some? ==> t.stop.stopped)
    case ReadPoll(acts, elapsed) => elapsed && s.stop.filters ==> t.stop.stopping
    case WritePoll => !t.stop.Closed() ==> t.tasks.writeWaker && (t.wr.paused || t.tasks.owes)
    case WaitClose(flush) => !t.stop.Closed() && !(flush && t.wr.paused) ==> t.tasks.readWaker && t.tasks.writeWaker
    case Stop(_) => t.stop.stopped
    case _ => true
  }

  /** What a call of the application is for has happened. */
  ghost predicate ApplicationDid(call: Call, s: IoState, t: IoState) {
    match call
    case Write(src, acts) => t.out.accepted == if s.stop.Any() then s.out.accepted else s.out.accepted + src
    case SendBuf(acts) => t.stop.Closed() || t.out.wbuf == [] || Attended(t)
    case Vectored(src, v) =>
      t.out.accepted == if v.Took? && v.n <= |src| && s.out.flying == 0 && s.out.wbuf == [] && !s.stop.Any()
                        then s.out.accepted + src[..v.n] else s.out.accepted
    case Decode(n) => t.inc.consumed == s.inc.consumed + Bytes(s.inc.slot)[..Min(n, |Bytes(s.inc.slot)|)]
    case Close => t.stop.filters
    case Timeout => t.dsp.timeout
    case _ => true
  }

  /** What a call of the dispatcher is for has happened. */
  ghost predicate DispatcherDid(call: Call, s: IoState, t: IoState) {
    match call
    case Receive(n, out) => t.inc.consumed == s.inc.consumed + Bytes(s.inc.slot)[..Min(n, |Bytes(s.inc.slot)|)]
                            && (out.Partial? && !t.stop.Closed() && !s.dsp.timeout && !t.dsp.backpressure ==>
                                  t.tasks.recvParked)
    case PollRead => !t.stop.Closed() ==> !t.rd.paused && (s.rd.ready || t.tasks.dispatchWaker)
    case PollNotify => t.stop.stopping || s.rd.notified || (t.rd.notify && t.tasks.dispatchWaker)
    case PollFlush(full, acts) => full && !t.stop.Closed() ==> t.out.wbuf == [] || t.tasks.flushParked
    case PollShutdown => t.stop.filters && (t.stop.stopping || !t.rd.paused)
    case Pause => t.rd.paused
    case PollStatus => t.tasks.dispatchWaker
    case _ => true
  }

  /** What a call is for has happened. */
  ghost predicate Happened(call: Call, s: IoState, t: IoState)
    requires s.out.Conserved()
  {
    DriverDid(call, s, t) && ApplicationDid(call, s, t) && DispatcherDid(call, s, t)
  }

  // ---------------------------------------------------------------- what every reachable state is like

  /** On an open connection, bytes in the write buffer are somebody's to write: if the write task
      is paused a send is scheduled, otherwise that, or that task was woken, or the driver was told
      to go on writing. */
  lemma BytesAttended(s: IoState)
    requires Good(s) && !s.stop.Closed() && s.out.wbuf != []
    ensures if s.wr.paused then s.wr.sendOp else Attended(s)
  {
  }

  lemma SendAttended(s: IoState)
    requires Good(s)
    ensures s.stop.Closed() || s.out.wbuf == [] || Attended(s)
  {
  }

  lemma TaskAttended(s: IoState)
    requires Good(s) && !s.stop.Closed() && s.out.wbuf != [] && !s.wr.sendOp
    ensures !s.wr.paused && (s.tasks.woken || s.tasks.owes)
  {
  }

  /** With nothing scheduled, a paused write task means that the driver has taken every byte. */
  lemma NothingScheduled(s: IoState)
    requires Good(s) && !s.stop.Closed() && !s.wr.sendOp && s.wr.paused
    ensures s.out.wbuf == [] && s.out.taken == s.out.accepted
  {
    assert s.out.taken + [] == s.out.taken;
  }

  lemma SameLater(s: IoState)
    ensures Later(s, s)
  {
  }

  lemma GoodBase(s: IoState)
    requires Good(s)
    ensures Base(s) && s.out.Conserved()
  {
  }

  lemma DirectStep(o: Outgoing, closed: bool, acts: seq<Act>, k: nat)
    requires o.Conserved() && k < |acts|
    ensures DirectOut(o, closed, acts[k..]) ==
            DirectOut(if acts[k].PutBack? && !closed then o else Acted(o, acts[k]),
                      closed || acts[k].Fail?, acts[k + 1..])
  {
    assert acts[k..][0] == acts[k] && acts[k..][1..] == acts[k + 1..];
  }

  lemma BaseConserved(s: IoState)
    requires Base(s)
    ensures s.out.Conserved()
  {
  }

  lemma StillClosed(s: IoState, t: IoState)
    requires Later(s, t) && s.stop.Closed()
    ensures t.stop.Closed()
  {
  }

  lemma ClosedIsStopping(s: IoState)
    requires Good(s)
    ensures s.stop.Closed() <==> s.stop.stopping
  {
  }

  lemma PressedIsPaused(s: IoState)
    requires Good(s)
    ensures s.rd.backpressure ==> s.rd.paused
  {
  }

  lemma GoodSchedulable(s: IoState)
    requires Good(s)
    ensures Base(s) && Schedulable(s)
  {
  }

  lemma PolledSchedulable(s: IoState)
    requires Good(s)
    ensures Base(Polled(s)) && Schedulable(Polled(s))
  {
  }

  lemma AllTaken(s: IoState)
    requires Good(s)
    ensures s.out.wbuf == [] ==> s.out.taken == s.out.accepted
  {
    assert s.out.taken + [] == s.out.taken;
  }

  /** The dispatcher waiting for data and the driver waiting for room never wait on each other. */
  lemma NeverBothParked(s: IoState)
    requires Good(s)
    ensures !(s.tasks.recvParked && s.tasks.readParked)
    ensures s.rd.backpressure ==> s.rd.paused && !s.tasks.recvParked
  {
  }

  /** After a stop without an abort, whatever happens, all accepted bytes are sent except at most
      as many as were in flight when the filters stopped; if none were, all of them. */
  lemma CloseLosesNothing(s: IoState)
    requires Good(s) && s.stop.Closed() && !s.abrupt
    ensures s.out.taken[..|s.out.taken| - s.out.flying] <= s.out.accepted
    ensures |s.out.accepted| - (|s.out.taken| - s.out.flying) <= s.atStop
    ensures s.atStop == 0 ==> s.out.taken == s.out.accepted && s.out.flying == 0
  {
    if s.atStop == 0 { assert s.out.accepted == s.out.taken + []; }
  }

  /** The run ends with bytes in the write buffer. */
  predicate BringsBack(o: Outgoing, acts: seq<Act>)
    requires o.Conserved()
  {
    AllActed(o, acts).wbuf != []
  }

  /** Once the driver has taken everything, as it has when the filters stop, some run of it brings
      bytes back into the write buffer if and only if something is in flight. */
  lemma ComesBack(o: Outgoing)
    requires o.Conserved() && o.wbuf == []
    ensures (exists acts :: BringsBack(o, acts)) <==> o.flying > 0
  {
    if o.flying > 0 {
      var r := Acted(o, PutBack(1));
      assert AllActed(r, []) == r && [PutBack(1)][1..] == [];
      assert BringsBack(o, [PutBack(1)]);
    }
  }

  function Left(s: IoState): IoState { s.(tasks := s.tasks.(owes := false)) }

  /** A driver that ends its turn without a report, because it found nothing to write, leaves the
      next bytes to nobody if and only if the write task is not paused, no send is scheduled and
      it was not woken. Bytes of a paused task stay scheduled even then. */
  lemma TurnWithoutReport(s: IoState)
    requires Good(s) && !s.stop.Closed()
    ensures var t := Left(s);
            && Base(t) && (Scheduled(t) <==> s.wr.paused || s.wr.sendOp || s.tasks.woken)
            && (t.wr.paused && t.out.wbuf != [] ==> t.wr.sendOp)
  {
  }

  /** The queue of connections with a deferred write, and whether a run of it is spawned. */
  class Iops {
    var ops: seq<Id>
    var running: bool

    predicate Valid() reads this { ops != [] ==> running }

    constructor ()
      ensures Valid() && ops == [] && !running
    {
      ops, running := [], false;
    }

    method ScheduleWrite(id: Id)
      requires Valid()
      modifies this
      ensures Valid() && ops == old(ops) + [id]
    {
      ops := ops + [id];
      if !running { running := true; }
    }

    /** The start of a run takes the whole queue. */
    method TakeAll() returns (taken: seq<Id>)
      modifies this
      ensures Valid() && taken == old(ops) && ops == [] && !running
    {
      running, taken := false, ops;
      ops := [];
    }
  }

  class IoRef {
    const id: Id
    const cfg: Config
    const iops: Iops
    var st: IoState

    constructor (id: Id, cfg: Config, iops: Iops, directWr: bool)
      ensures this.id == id && this.cfg == cfg && this.iops == iops && Good(st)
      ensures !st.stop.Any() && st.out == Outgoing([], [], 0, false, []) && st.inc == Incoming(None, None, [], [])
              && st.rd == ReadFlags(false, false, false, false, false) && st.dsp == DispatchFlags(false, false)
              && st.wr == WriteFlags(false, true, false, false, directWr) && st.error.None? && !st.abrupt
    {
      this.id, this.cfg, this.iops := id, cfg, iops;
      st := IoState(StopFlags(false, false, false), ReadFlags(false, false, false, false, false),
                    WriteFlags(false, true, false, false, directWr), DispatchFlags(false, false),
                    Outgoing([], [], 0, false, []), Incoming(None, None, [], []), NOBODY, true, None, false, 0);
    }

    // -------------------------------------------------------------- driver, write side

    /** One thing a driver may do, at any time. */
    method Act(act: Act)
      requires Base(st)
      modifies this`st
      ensures Base(st) && Later(old(st), st) && SameRest(old(st), st) && st.tasks.Within(old(st.tasks))
      ensures SameRoute(old(st.wr), st.wr) && (st.abrupt ==> old(st.abrupt) || act.Fail?)
      ensures OnlyAborted(old(st), st) && (if act.Fail? then st.stop.stopped else st.stop == old(st.stop))
      ensures act.Fail? && !old(st.stop.stopped) ==> st.error == Some(act.err) && st.tasks == NOBODY
      ensures st.out == (if act.PutBack? && !old(st.stop.Closed()) then old(st.out) else Acted(old(st.out), act))
      ensures !st.stop.Closed() ==> st.handle == old(st.handle) && st.stop == old(st.stop)
      ensures !st.stop.Closed() && act.Complete? ==>
                (st.wr.paused <==> st.out.wbuf == []) && (st.wr.paused || st.tasks.owes)
      ensures !st.stop.Closed() && !act.Complete? ==> st == old(st).(out := st.out)
      ensures !st.stop.Closed() && old(st.out.wbuf) == [] && !act.Complete? ==> st.out.wbuf == []
    {
      hide Terminated, Reported, Moved, Taken, Landed, Returned;
      match act {
        case Take(n) => st := Moved(st, Taken(st.out, n));
        case Land(n) => st := Moved(st, Landed(st.out, n));
        case Complete(back, written) =>
          st := Moved(st, Returned(st.out, back));
          st := Reported(st, written, cfg.writeHalf);
        case Fail(back, err) =>
          st := Moved(st, Returned(st.out, back));
          st := Terminated(st, Some(err));
        case PutBack(n) => if st.stop.Closed() { st := Moved(st, Returned(st.out, n)); }
      }
    }

    /** Outside a direct write, whatever the driver does never strands a write. */
    method Drive(act: Act)
      requires Good(st)
      modifies this`st
      ensures Good(st) && Later(old(st), st) && SameRest(old(st), st) && SameRoute(old(st.wr), st.wr)
      ensures st.out == (if act.PutBack? && !old(st.stop.Closed()) then old(st.out) else Acted(old(st.out), act))
      ensures st.abrupt ==> old(st.abrupt) || act.Fail?
      ensures if act.Fail? then st.stop.stopped else st.stop == old(st.stop)
      ensures !st.stop.Closed() && act.Complete? ==> (st.wr.paused <==> st.out.wbuf == [])
      ensures !st.stop.Closed() && !act.Complete? ==> st == old(st).(out := st.out)
    {
      Act(act);
    }

    /** What becomes of the bytes when the driver goes on after the stream has stopped. */
    method DriveStopped(acts: seq<Act>)
      requires Good(st) && st.stop.Closed()
      modifies this`st
      ensures Good(st) && Later(old(st), st) && st.out == AllActed(old(st.out), acts)
    {
      SameLater(st);
      hide Good, Later, Acted;
      GoodBase(st);
      ghost var o := st.out;
      assert acts[0..] == acts;
      for k := 0 to |acts|
        invariant Good(st) && Later(old(st), st) && st.stop.Closed() && st.out.Conserved()
        invariant AllActed(st.out, acts[k..]) == AllActed(o, acts)
      {
        ghost var s := st;
        assert acts[k..][0] == acts[k] && acts[k..][1..] == acts[k + 1..];
        Drive(acts[k]);
        GoodBase(st);
        LaterTrans(old(st), s, st);
        StillClosed(s, st);
      }
    }

    /** What the driver does during one `Handle::write`: once it has spoken, a paused write task
        means that the driver has taken everything. */
    method DirectWrite(acts: seq<Act>)
      requires Base(st) && !st.wr.paused && !st.handle
      modifies this`st
      ensures Base(st) && Driven(old(st), st) && (st.abrupt ==> old(st.abrupt) || Fails(acts))
      ensures !st.stop.Closed() && st.wr.paused ==> st.out.wbuf == []
      ensures st.out == DirectOut(old(st.out), old(st.stop.Closed()), acts) && (acts == [] ==> st == old(st))
    {
      assert Driven(st, st);
      hide Base, Driven, Acted;
      ghost var o, closed := st.out, st.stop.Closed();
      assert acts[0..] == acts;
      for k := 0 to |acts|
        invariant Base(st) && Driven(old(st), st) && (st.abrupt ==> old(st.abrupt) || Fails(acts))
        invariant !st.stop.Closed() && st.wr.paused ==> st.out.wbuf == []
        invariant k == 0 ==> st == old(st)
        invariant st.out.Conserved() && DirectOut(st.out, st.stop.Closed(), acts[k..]) == DirectOut(o, closed, acts)
      {
        ghost var s := st;
        DirectStep(st.out, st.stop.Closed(), acts, k);
        hide DirectOut;
        ActDriven(acts[k]);
        BaseConserved(st);
        DrivenTrans(old(st), s, st);
      }
      assert DirectOut(st.out, st.stop.Closed(), acts[|acts|..]) == st.out;
    }

    /** One thing the driver does in a direct write. */
    method ActDriven(act: Act)
      requires Base(st) && (!st.stop.Closed() && st.wr.paused ==> st.out.wbuf == [])
      modifies this`st
      ensures Base(st) && Driven(old(st), st) && (st.abrupt ==> old(st.abrupt) || act.Fail?)
      ensures !st.stop.Closed() && st.wr.paused ==> st.out.wbuf == []
      ensures st.out == (if act.PutBack? && !old(st.stop.Closed()) then old(st.out) else Acted(old(st.out), act))
      ensures st.stop.Closed() <==> old(st.stop.Closed()) || act.Fail?
    {
      hide Acted;
      Act(act);
    }

    // -------------------------------------------------------------- scheduling writes

    /** `call_write`: the driver's direct write, if there still is a handle to call. */
    method CallWrite(acts: seq<Act>) returns (wake: bool)
      requires Base(st) && (!st.stop.Closed() ==> st.handle)
      modifies this`st
      ensures Base(st) && Later(old(st), st) && SameRest(old(st), st) && st.tasks.Within(old(st.tasks))
      ensures SameRoute(old(st.wr), st.wr) && (st.abrupt ==> old(st.abrupt) || Fails(acts))
      ensures OnlyAborted(old(st), st)
      ensures !st.stop.Closed() ==> st.stop == old(st.stop) && st.handle && (st.wr.paused ==> st.out.wbuf == [])
      ensures wake == !st.wr.paused && st.handle == old(st.handle)
      ensures acts == [] ==> st == old(st).(wr := st.wr) && (old(st.handle) ==> !st.wr.paused)
      ensures st.out == if old(st.handle) then DirectOut(old(st.out), old(st.stop.Closed()), acts) else old(st.out)
    {
      hide DirectOut;
      if st.handle {
        st := st.(handle := false, wr := st.wr.(paused := false));
        DirectWrite(acts);
        st := st.(handle := true);
      }
      wake := !st.wr.paused;
    }

    /** The connection joins the deferred queue unless it is there already. */
    method Schedule()
      requires Base(st) && iops.Valid()
      modifies this`st, iops
      ensures st == old(st).(wr := old(st.wr).(sendOp := true)) && iops.Valid() && old(iops.ops) <= iops.ops
      ensures !old(st.wr.sendOp) ==> id in iops.ops
    {
      if !st.wr.sendOp {
        st := st.(wr := st.wr.(sendOp := true));
        iops.ScheduleWrite(id);
      } else {
        assert st.wr.(sendOp := true) == st.wr;
      }
    }

    ghost predicate Valid()
      reads this, iops
    {
      Good(st) && iops.Valid() && (st.wr.sendOp ==> id in iops.ops)
    }

    /** The part of `consolidate_write_state` that sends in place or schedules a send. */
    method Arrange(force: bool, acts: seq<Act>)
      requires Base(st) && Schedulable(st) && iops.Valid() && (st.wr.sendOp ==> id in iops.ops)
      modifies this`st, iops
      ensures Valid() && Later(old(st), st) && SameRest(old(st), st) && st.tasks.Within(old(st.tasks))
      ensures old(iops.ops) <= iops.ops && (st.abrupt ==> old(st.abrupt) || Fails(acts)) && OnlyAborted(old(st), st)
      ensures !st.stop.Closed() ==> st.stop == old(st.stop)
      ensures old(st.out.wbuf) == [] ==> st == old(st)
      ensures st.out == if SendsNow(old(st), force, cfg.threshold)
                        then DirectOut(old(st.out), old(st.stop.Closed()), acts) else old(st.out)
      ensures old(st.out.wbuf != [] && st.wr.paused) ==>
                if old(st.wr.direct && (force || |st.out.wbuf| >= cfg.threshold)) then st.wr.sendOp <==> !st.wr.paused
                else st.wr == old(st.wr).(sendOp := true)
      ensures old(st.out.wbuf == [] || !st.wr.paused) ==> st == old(st)
      ensures !old(st.wr.direct) ==> st == old(st).(wr := old(st.wr).(sendOp := st.wr.sendOp))
    {
      hide DirectOut;
      if st.out.wbuf != [] && st.wr.paused {
        if st.wr.direct && (force || |st.out.wbuf| >= cfg.threshold) {
          SendNow(acts);
        } else {
          Schedule();
        }
      }
    }

    /** A direct write; what it leaves is scheduled. */
    method SendNow(acts: seq<Act>)
      requires Base(st) && Schedulable(st) && iops.Valid() && (st.wr.sendOp ==> id in iops.ops)
      modifies this`st, iops
      ensures Valid() && Later(old(st), st) && SameRest(old(st), st) && st.tasks.Within(old(st.tasks))
      ensures old(iops.ops) <= iops.ops && (st.abrupt ==> old(st.abrupt) || Fails(acts)) && OnlyAborted(old(st), st)
      ensures !st.stop.Closed() ==> st.stop == old(st.stop)
      ensures st.out == if old(st.handle) then DirectOut(old(st.out), old(st.stop.Closed()), acts) else old(st.out)
      ensures st.wr.sendOp <==> !st.wr.paused
    {
      hide DirectOut;
      var wake := CallWrite(acts);
      if wake {
        Schedule();
      } else {
        st := st.(wr := st.wr.(sendOp := false));
      }
    }

    /** `consolidate_write_state`. */
    method Consolidate(force: bool, acts: seq<Act>)
      requires Base(st) && Schedulable(st) && iops.Valid() && (st.wr.sendOp ==> id in iops.ops)
      modifies this`st, iops
      ensures Valid() && Later(old(st), st) && SameReads(old(st), st) && st.tasks.Within(old(st.tasks))
      ensures old(iops.ops) <= iops.ops && (st.abrupt ==> old(st.abrupt) || Fails(acts)) && OnlyAborted(old(st), st)
      ensures !st.stop.Closed() ==> st.stop == old(st.stop)
      ensures st.dsp == old(st.dsp).(backpressure := old(st.dsp.backpressure) || |old(st.out.wbuf)| >= cfg.writeHigh)
      ensures st.out == if SendsNow(old(st), force, cfg.threshold)
                        then DirectOut(old(st.out), old(st.stop.Closed()), acts) else old(st.out)
      ensures old(st.out.wbuf) == [] ==> st.wr == old(st.wr) && st.stop == old(st.stop) && st.out == old(st.out)
      ensures !old(st.wr.direct) ==>
                st.wr == old(st.wr).(sendOp := st.wr.sendOp) && st.out == old(st.out) && st.stop == old(st.stop)
    {
      hide Pressed, Good, Base, DirectOut, SendsNow;
      var size := |st.out.wbuf|;
      Arrange(force, acts);
      if !st.dsp.backpressure && size >= cfg.writeHigh {
        LaterTrans(old(st), st, Pressed(st));
        st := Pressed(st);
      }
    }

    /** `ops_send_buf`: the deferred queue reaches this connection. Afterwards nothing is scheduled:
        the driver has taken every byte, or the write task has its turn. */
    method OpsSend(acts: seq<Act>)
      requires Good(st)
      modifies this`st
      ensures Good(st) && Later(old(st), st) && SameReads(old(st), st) && !st.wr.sendOp
      ensures st.abrupt ==> old(st.abrupt) || Fails(acts)
      ensures !st.stop.Closed() ==> st.out.wbuf == [] || st.tasks.woken || st.tasks.owes
      ensures st.out == if old(st.wr.sendOp && st.wr.paused && st.handle)
                        then DirectOut(old(st.out), old(st.stop.Closed()), acts) else old(st.out)
      ensures acts == [] ==> st.stop == old(st.stop) && st.wr.direct == old(st.wr.direct)
      ensures acts == [] && old(st.wr.sendOp) && !st.stop.Closed() ==> !st.wr.paused && st.tasks.woken
    {
      assert DirectOut(st.out, st.stop.Closed(), []) == st.out;
      hide DirectOut;
      if st.wr.sendOp {
        st := st.(wr := st.wr.(sendOp := false));
        if st.wr.paused {
          var wake := CallWrite(acts);
          if wake { st := st.(tasks := st.tasks.WakeWrite()); }
        } else {
          st := st.(tasks := st.tasks.WakeWrite());
        }
      }
    }

    /** `with_write_buf` of the application: all of the input is accepted while the stream is
        open, none of it afterwards. */
    method WithWriteBuf(src: seq<byte>, acts: seq<Act>) returns (ok: bool)
      requires Valid()
      modifies this`st, iops
      ensures Valid() && Later(old(st), st) && old(iops.ops) <= iops.ops && st.inc == old(st.inc)
      ensures (ok <==> !old(st.stop.Any())) && (st.abrupt ==> old(st.abrupt) || Fails(acts))
      ensures st.out.accepted == if ok then old(st.out.accepted) + src else old(st.out.accepted)
      ensures ok ==>
                var s := old(st).(out := Appended(old(st.out), src));
                st.out == if SendsNow(s, false, cfg.threshold) then DirectOut(s.out, false, acts) else s.out
      ensures !ok ==> st == old(st)
      ensures ok && !old(st.wr.direct) ==>
                && st.out == Appended(old(st.out), src) && st.stop == old(st.stop)
                && st.wr == old(st.wr).(sendOp := st.wr.sendOp)
    {
      hide DirectOut;
      ok := !st.stop.Any();
      if ok {
        Append(src);
        Consolidate(false, acts);
      }
    }

    method Append(src: seq<byte>)
      requires Good(st) && !st.stop.Any()
      modifies this`st
      ensures Base(st) && Schedulable(st) && Later(old(st), st)
      ensures st == old(st).(out := Appended(old(st.out), src))
    {
      st := st.(out := Appended(st.out, src));
    }

    /** `try_write_vectored`: bytes that bypass the write buffer come right after all earlier ones,
        if the driver has none of those in flight. */
    method TryWriteVectored(src: seq<byte>, v: Vectored) returns (n: nat)
      requires Good(st) && (v.Took? ==> v.n <= |src| && st.out.flying == 0)
      modifies this`st
      ensures Good(st) && Later(old(st), st) && st == old(st).(out := st.out)
      ensures n <= |src| && st.out.accepted == old(st.out.accepted) + src[..n]
      ensures n > 0 ==> st.out.taken == st.out.accepted && st.out.flying == 0
      ensures n == if v.Took? && !old(st.stop.Any()) && old(st.out.wbuf) == [] then v.n else 0
    {
      n := BypassCount(st, v);
      st := Bypassed(st, src, v);
    }

    // -------------------------------------------------------------- graceful close

    /** `shutdown_filters` with the `Base` filter, which is always done. `elapsed`: the disconnect
        timeout has run out. Without a timeout or a failed write the stream goes to stopping only
        when the driver has taken every accepted byte; and it does go there once nothing is
        scheduled and the write task is paused. */
    method ShutdownFilters(acts: seq<Act>, elapsed: bool)
      requires Valid()
      modifies this`st, iops
      ensures Valid() && Later(old(st), st) && SameReads(old(st), st) && old(iops.ops) <= iops.ops
      ensures st.abrupt ==> old(st.abrupt) || Fails(acts) || elapsed
      ensures !old(st.stop.stopping) && st.stop.stopping && !st.abrupt ==>
                st.out.wbuf == [] && st.out.taken == st.out.accepted && st.atStop == st.out.flying
      ensures old(st.stop.filters && st.wr.paused && !st.wr.sendOp) ==> st.stop.stopping
      ensures elapsed && old(st.stop.filters) ==> st.stop.stopping
      ensures old(st.out.wbuf) == [] ==> st.out == old(st.out)
      ensures !old(st.stop.filters) || old(st.stop.Closed()) ==> st == old(st)
      ensures old(st.stop.filters && !st.stop.Closed()) ==>
                st.out == if SendsNow(old(st), true, cfg.threshold) then DirectOut(old(st.out), false, acts)
                          else old(st.out)
    {
      if st.stop.filters && !st.stop.Closed() {
        if st.wr.paused && !st.wr.sendOp { NothingScheduled(st); }
        hide DirectOut, SendsNow;
        Consolidate(true, acts);
        if st.wr.paused && !st.wr.sendOp {
          FinishFilters(false);
        } else if elapsed {
          FinishFilters(true);
        }
      }
      AllTaken(st);
    }

    /** `filters_stopped`, after a timeout or with nothing left to do. */
    method FinishFilters(elapsed: bool)
      requires Good(st) && st.stop.filters && (elapsed || st.stop.Closed() || st.out.wbuf == [])
      modifies this`st
      ensures Good(st) && Later(old(st), st) && SameReads(old(st), st) && st.stop.stopping && st.wr == old(st.wr)
      ensures (st.abrupt ==> old(st.abrupt) || elapsed) && st.out == old(st.out)
      ensures !old(st.stop.stopping) && !st.abrupt ==> st.atStop == st.out.flying && st.out.wbuf == []
    {
      hide FiltersStopped;
      if elapsed && !st.stop.stopping {
        st := st.(abrupt := true);
      }
      st := FiltersStopped(st);
    }

    /** The read task asks whether to read: `shutdown_filters`, then `Base::poll_read_ready`. */
    method ReadPoll(acts: seq<Act>, elapsed: bool) returns (a: Poll)
      requires Valid()
      modifies this`st, iops
      ensures Valid() && Later(old(st), st) && SameReads(old(st), st) && old(iops.ops) <= iops.ops
      ensures st.abrupt ==> old(st.abrupt) || Fails(acts) || elapsed
      ensures old(st.stop.filters && st.wr.paused && !st.wr.sendOp) ==> st.stop.stopping
      ensures elapsed && old(st.stop.filters) ==> st.stop.stopping
      ensures old(st.out.wbuf) == [] ==> st.out == old(st.out)
      ensures !old(st.stop.filters) ==> st == old(st).(tasks := st.tasks)
      ensures (a.Pending? <==> !st.stop.Any() && st.rd.paused) && (a.Terminate? <==> st.stop.Closed())
      ensures (st.tasks.readParked <==> a.Pending?) && (!st.stop.Closed() ==> st.tasks.readWaker)
    {
      hide ReadWaited, Good;
      ShutdownFilters(acts, elapsed);
      LaterTrans(old(st), st, ReadWaited(st));
      PressedIsPaused(st);
      a := ReadAnswer(st);
      st := ReadWaited(st);
    }

    /** The write task asks whether to write. */
    method WritePoll() returns (a: Poll)
      requires Good(st)
      modifies this`st
      ensures Good(st) && Later(old(st), st) && st == old(st).(tasks := st.tasks)
      ensures (a.Pending? <==> !st.stop.Closed() && st.wr.paused) && (a.Terminate? <==> st.stop.Closed())
      ensures (a.Ready? ==> st.tasks.owes) && (!st.stop.Closed() ==> st.tasks.writeWaker && !st.tasks.woken)
    {
      a := WriteAnswer(st);
      st := WriteWaited(st);
    }

    // -------------------------------------------------------------- driver, read side

    /** `get_read_buf`; the model allows one read in flight. */
    method GetReadBuf() returns (buf: seq<byte>)
      requires Good(st) && st.inc.held.None?
      modifies this`st
      ensures Good(st) && Later(old(st), st) && st == old(st).(inc := st.inc) && st.inc.held == Some(buf)
      ensures Bytes(st.inc.slot) + buf == Bytes(old(st.inc.slot))
      ensures if st.rd.ready then st.inc.slot == old(st.inc.slot) else st.inc.slot.None?
    {
      st := st.(inc := Fetched(st.inc, st.rd.ready));
      buf := st.inc.held.value;
    }

    /** `update_read_status` with the driver's buffer, to which the read added `data`: the one it
        fetched, or one of its own. */
    method UpdateReadStatus(data: seq<byte>, err: Option<Error>) returns (r: TaskStatus)
      requires Good(st)
      modifies this`st
      ensures Good(st) && Later(old(st), st) && st.wr == old(st.wr) && st.out == old(st.out)
      ensures st.inc.held.None? && st.inc.received == old(st.inc.received) + data
              && st.inc.consumed == old(st.inc.consumed)
      ensures err.Some? ==> st.stop.stopped && r.Stop? && (!old(st.stop.stopped) ==> st.error == err)
      ensures err.None? && data != [] ==> st.rd.ready && !st.tasks.recvParked && !st.tasks.flushParked
      ensures err.None? ==> st.stop == old(st.stop) && (r.Stop? <==> st.stop.Closed())
                            && (r.Pause? <==> !st.stop.Closed() && st.rd.paused)
      ensures err.None? && data != [] ==>
                st.rd.backpressure == (old(st.rd.backpressure) || |Bytes(st.inc.slot)| >= cfg.readHigh)
      ensures Bytes(st.inc.slot) == old(Bytes(st.inc.slot) + Bytes(st.inc.held)) + data
    {
      hide ReadReported, ReadFailed, Good, Later, Stored;
      st := if err.Some? then ReadFailed(st, data, err.value) else ReadReported(st, data, cfg.readHigh);
      PressedIsPaused(st);
      r := ReadStatus(st);
    }

    // -------------------------------------------------------------- dispatcher and application

    /** `decode_item`, for a codec that takes `n` bytes. */
    method DecodeItem(n: nat)
      requires Good(st) && n <= |Bytes(st.inc.slot)|
      modifies this`st
      ensures Good(st) && Later(old(st), st) && st.tasks.Within(old(st.tasks)) && !st.rd.ready
      ensures st == old(st).(inc := Consumed(old(st.inc), n), rd := st.rd, tasks := st.tasks)
      // back-pressure lasts while the mark is reached, and no longer
      ensures st.rd.backpressure == (old(st.rd.backpressure) && |Bytes(st.inc.slot)| >= cfg.readHigh)
      ensures st.rd.paused == st.rd.backpressure
      ensures !st.rd.paused && old(st.rd.paused) ==> !st.tasks.readWaker && !st.tasks.readParked
    {
      hide Destined, Consumed;
      var left := |Bytes(st.inc.slot)| - n;
      st := st.(rd := st.rd.(ready := false));
      st := Destined(st, left, cfg.readHigh);
      st := st.(inc := Consumed(st.inc, n));
    }

    /** `Io::poll_read_ready`. */
    method PollReadReady() returns (a: Poll)
      requires Good(st)
      modifies this`st
      ensures Good(st) && Later(old(st), st) && st == old(st).(rd := st.rd, tasks := st.tasks)
      ensures !st.stop.Closed() ==> !st.rd.paused && !st.rd.backpressure
      ensures st.rd.notify == old(st.rd.notify) && st.rd.notified == old(st.rd.notified)
      ensures (a.Terminate? <==> st.stop.Closed()) && (a.Ready? <==> !st.stop.Closed() && old(st.rd.ready))
      ensures a.Pending? ==> st.tasks.dispatchWaker && !st.rd.ready
      ensures st.tasks.recvParked == old(st.tasks.recvParked)
    {
      a := ReadReadyAnswer(st);
      st := ReadReadyPolled(st);
    }

    /** `poll_read_notify`: wait for any read, whether or not there is data to decode. */
    method PollReadNotify() returns (a: Poll)
      requires Good(st)
      modifies this`st
      ensures Good(st) && Later(old(st), st) && st == old(st).(rd := st.rd, tasks := st.tasks)
      ensures a == if st.stop.stopping then Terminate else if old(st.rd.notified) then Ready else Pending
      ensures a.Ready? ==> !st.rd.notify && !st.rd.notified
      ensures a.Pending? ==> st.rd.notify && !st.rd.notified && st.tasks.dispatchWaker
    {
      hide Polled, Good, Later;
      ghost var s := st;
      st := Polled(st);
      if st.stop.stopping { return Terminate; }
      if st.rd.notified {
        NotifyMarks(false, false);
        return Ready;
      }
      NotifyMarks(true, false);
      ghost var t := st;
      var ready := PollReadReady();
      LaterTrans(s, t, st);
      Register();
      a := Pending;
    }

    method NotifyMarks(notify: bool, notified: bool)
      requires Good(st)
      modifies this`st
      ensures Good(st) && st == old(st).(rd := old(st.rd).(notify := notify, notified := notified))
      ensures forall s :: Later(s, old(st)) ==> Later(s, st)
    {
      st := st.(rd := st.rd.(notify := notify, notified := notified));
    }

    method Register()
      requires Good(st)
      modifies this`st
      ensures Good(st) && st == old(st).(tasks := old(st.tasks).(dispatchWaker := true))
      ensures forall s :: Later(s, old(st)) ==> Later(s, st)
    {
      st := st.(tasks := st.tasks.(dispatchWaker := true));
    }

    /** `poll_recv_decode`, for a codec that takes `n` bytes and answers `out`. Without an item or
        an error the dispatcher waits, and then reading is neither paused nor back-pressured. */
    method PollRecvDecode(n: nat, out: Codec) returns (a: Recv)
      requires Good(st) && n <= |Bytes(st.inc.slot)|
      modifies this`st
      ensures Good(st) && Later(old(st), st) && st.wr == old(st.wr) && st.out == old(st.out) && st.stop == old(st.stop)
      ensures st.inc.consumed == old(st.inc.consumed) + Bytes(old(st.inc.slot))[..n]
      ensures (a.Item? <==> out.Frame?) && (a.DecodeError? <==> out.Malformed?)
      ensures out.Partial? ==>
                && (a.PeerGone? <==> st.stop.Closed())
                && (a.KeepAlive? <==> !st.stop.Closed() && old(st.dsp.timeout))
                && (a.WriteBackpressure? <==> !st.stop.Closed() && !old(st.dsp.timeout) && st.dsp.backpressure)
      ensures st.dsp == old(st.dsp).(timeout := old(st.dsp.timeout) && !a.KeepAlive?)
      ensures st.tasks.recvParked <==> a.NoItem?
      ensures a.NoItem? ==> st.tasks.dispatchWaker && !st.rd.paused && !st.rd.backpressure && !st.rd.ready
    {
      hide Polled, Consumed, Good, Later;
      ClosedIsStopping(st);
      ghost var s0 := st;
      a := RecvAnswer(st, out);
      st := Polled(st);
      ghost var s1 := st;
      DecodeItem(n);
      LaterTrans(s0, s1, st);
      if a.KeepAlive? {
        ClearTimeout();
      } else if a.NoItem? {
        WaitForData();
      }
    }

    method ClearTimeout()
      requires Good(st)
      modifies this`st
      ensures Good(st) && st == old(st).(dsp := old(st.dsp).(timeout := false))
      ensures forall s :: Later(s, old(st)) ==> Later(s, st)
    {
      st := st.(dsp := st.dsp.(timeout := false));
    }

    /** The dispatcher waits for the read task. */
    method WaitForData()
      requires Good(st) && !st.stop.Closed() && !st.rd.ready
      modifies this`st
      ensures Good(st) && st == old(st).(rd := st.rd, tasks := st.tasks) && st.tasks.recvParked
      ensures st.tasks.dispatchWaker && !st.rd.paused && !st.rd.backpressure && !st.rd.ready
      ensures forall s :: Later(s, old(st)) ==> Later(s, st)
    {
      var a := PollReadReady();
      st := st.(tasks := st.tasks.(recvParked := true));
    }

    /** `poll_flush`: a full flush is done only when the driver has every accepted byte; until then
        the dispatcher waits, and will be woken by the report that empties the buffer. */
    method PollFlush(full: bool, acts: seq<Act>) returns (a: Flush)
      requires Valid()
      modifies this`st, iops
      ensures Valid() && Later(old(st), st) && SameReads(old(st), st) && old(iops.ops) <= iops.ops
      ensures full && a.FlushDone? ==> st.out.taken == st.out.accepted
      ensures full && a.FlushPending? ==> st.tasks.flushParked
      ensures a.FlushPending? ==> st.out.wbuf != [] && st.tasks.dispatchWaker
      ensures a.FlushPending? <==> !st.stop.Closed() && if full then st.out.wbuf != []
                                                        else |st.out.wbuf| >= cfg.writeHigh && st.out.wbuf != []
      ensures a.FlushError? ==> st.stop.Closed()
      ensures st.out == if SendsNow(old(st), false, cfg.threshold)
                        then DirectOut(old(st.out), old(st.stop.Closed()), acts) else old(st.out)
    {
      hide Polled, FlushSettled, Good, Later, Base, Scheduled, DirectOut;
      ghost var s0 := st;
      st := Polled(st);
      PolledSchedulable(s0);
      Consolidate(false, acts);
      a := FlushAnswer(st, cfg, full);
      ghost var s1 := FlushSettled(st, cfg, full);
      LaterTrans(s0, Polled(s0), st);
      LaterTrans(s0, st, s1);
      st := FlushSettled(st, cfg, full);
      AllTaken(st);
    }

    /** `poll_shutdown`. */
    method PollShutdown() returns (stopped: bool)
      requires Good(st)
      modifies this`st
      ensures Good(st) && Later(old(st), st) && SameReads(old(st), st) && st.out == old(st.out) && st.wr == old(st.wr)
      ensures stopped == old(st.stop.stopping) && st.stop.filters && !st.tasks.recvParked && !st.tasks.flushParked
      ensures !stopped ==> st.tasks.dispatchWaker && !st.tasks.readWaker && !st.rd.paused && !st.rd.backpressure
      ensures !old(st.stop.Any()) ==> !st.tasks.writeWaker && st.tasks.woken
    {
      st := Polled(st);
      stopped := st.stop.stopping;
      if !stopped {
        if !st.stop.filters { st := ShutdownStarted(st); }
        st := Reopened(st);
      }
    }

    /** `close`. */
    method Close()
      requires Good(st)
      modifies this`st
      ensures Good(st) && Later(old(st), st) && st == old(st).(stop := st.stop, tasks := st.tasks)
      ensures st.stop == old(st.stop).(filters := true)
      ensures !old(st.stop.Any()) ==> !st.tasks.readWaker && !st.tasks.writeWaker && st.tasks.woken
    {
      st := ShutdownStarted(st);
    }

    /** `pause`. */
    method Pause()
      requires Good(st)
      modifies this`st
      ensures Good(st) && Later(old(st), st) && st == old(st).(rd := old(st.rd).(paused := true), tasks := st.tasks)
      ensures !old(st.rd.paused) ==> !st.tasks.readWaker && !st.tasks.readParked
    {
      st := Polled(st);
      st := Held(st);
    }

    /** `poll_status_update`. */
    method PollStatusUpdate() returns (a: Recv)
      requires Good(st)
      modifies this`st
      ensures Good(st) && Later(old(st), st) && st == old(st).(dsp := st.dsp, tasks := st.tasks)
              && st.tasks.dispatchWaker
      ensures a == if st.stop.Closed() then PeerGone else if old(st.dsp.timeout) then KeepAlive
                   else if old(st.dsp.backpressure) then WriteBackpressure else NoItem
      ensures st.dsp == DispatchFlags(old(st.dsp.timeout) && !a.KeepAlive?,
                                      old(st.dsp.backpressure)
                                          && (!a.WriteBackpressure? || |st.out.wbuf| > cfg.writeHalf))
    {
      a := if st.stop.Closed() then PeerGone else if st.dsp.timeout then KeepAlive
           else if st.dsp.backpressure then WriteBackpressure else NoItem;
      st := StatusTaken(st, cfg.writeHalf);
    }

    // -------------------------------------------------------------- any call

    /** Any call by anybody. One its caller may not make yet (a second fetch of the read buffer, a
        bypassing write while bytes are in flight) does nothing. */
    method Do(call: Call)
      requires Valid()
      modifies this`st, iops
      ensures Valid() && Later(old(st), st) && old(iops.ops) <= iops.ops
      ensures old(st.out.Conserved()) && Happened(call, old(st), st)
    {
      GoodBase(st);
      hide Good, Later;
      if call.ByDriver() {
        hide DriverDid;
        DoDriver(call);
      } else if call.ByApplication() {
        hide ApplicationDid;
        DoApplication(call);
      } else {
        hide DispatcherDid;
        DoDispatcher(call);
      }
    }

    method DoDriver(call: Call)
      requires Valid() && call.ByDriver()
      modifies this`st, iops
      ensures Valid() && Later(old(st), st) && old(iops.ops) <= iops.ops
      ensures old(st.out.Conserved()) && DriverDid(call, old(st), st)
    {
      GoodBase(st);
      hide Good, Later, Acted;
      SameLater(st);
      match call {
        case Drive(act) => Drive(act);
        case GetReadBuf => if st.inc.held.None? { var buf := GetReadBuf(); }
        case ReadDone(data, err) => var r := UpdateReadStatus(data, err);
        case ReadPoll(acts, elapsed) => var a := ReadPoll(acts, elapsed);
        case WritePoll => DoWait(call);
        case WaitClose(_) => DoWait(call);
        case Stop(_) => DoWait(call);
      }
    }

    /** The driver waits to write or for the end, or ends it. */
    method DoWait(call: Call)
      requires Good(st) && (call.WritePoll? || call.WaitClose? || call.Stop?)
      modifies this`st
      ensures Good(st) && Later(old(st), st) && st.wr.sendOp == old(st.wr.sendOp)
      ensures old(st.out.Conserved()) && DriverDid(call, old(st), st)
    {
      GoodBase(st);
      hide Good, Later, Terminated, CloseWaited, Acted;
      match call {
        case WritePoll => var a := WritePoll();
        case WaitClose(flush) => st := CloseWaited(st, flush);
        case Stop(err) => st := Terminated(st, err);
      }
    }

    method DoApplication(call: Call)
      requires Valid() && call.ByApplication()
      modifies this`st, iops
      ensures Valid() && Later(old(st), st) && old(iops.ops) <= iops.ops && ApplicationDid(call, old(st), st)
    {
      hide Good, Later, TimedOut, Appended, DirectOut;
      SameLater(st);
      match call {
        case Write(src, acts) => var ok := WithWriteBuf(src, acts);
        case SendBuf(acts) => GoodSchedulable(st); Consolidate(true, acts); SendAttended(st);
        case Vectored(src, v) =>
          if v.Took? ==> v.n <= |src| && st.out.flying == 0 {
            var n := TryWriteVectored(src, v);
            assert src[..0] == [];
          }
        case Decode(n) => DecodeItem(Min(n, |Bytes(st.inc.slot)|));
        case Close => Close();
        case Timeout => st := TimedOut(st);
      }
    }

    method DoDispatcher(call: Call)
      requires Valid() && !call.ByDriver() && !call.ByApplication()
      modifies this`st, iops
      ensures Valid() && Later(old(st), st) && old(iops.ops) <= iops.ops && DispatcherDid(call, old(st), st)
    {
      hide Good, Later;
      ClosedIsStopping(st);
      match call {
        case Receive(n, out) => var a := PollRecvDecode(Min(n, |Bytes(st.inc.slot)|), out);
        case PollRead => var a := PollReadReady();
        case PollNotify => var a := PollReadNotify();
        case PollFlush(full, acts) => var a := PollFlush(full, acts);
        case PollShutdown => var stopped := PollShutdown();
        case Pause => Pause();
        case PollStatus => var a := PollStatusUpdate();
      }
    }
  }

  // ---------------------------------------------------------------- two runs

  /** Any number of bytes written to a fresh stream, up to the write task's first turn. */
  method FirstTurn(cfg: Config, src: seq<byte>) returns (io: IoRef)
    requires src != []
    ensures fresh(io) && fresh(io.iops) && io.Valid() && !io.st.stop.Any() && !io.st.wr.sendOp && !io.st.wr.direct
    ensures io.st.out == Outgoing(src, [], 0, false, src) && !io.st.abrupt
  {
    hide Base, Later;
    var iops := new Iops();
    io := new IoRef(0, cfg, iops, false);
    var ok := io.WithWriteBuf(src, []);
    io.OpsSend([]);
    var a := io.WritePoll();
  }

  /** The driver takes one byte. */
  method TakeOne(io: IoRef, b: byte)
    requires io.Valid() && !io.st.stop.Any() && io.st.out.wbuf != [] && io.st.out.wbuf[0] == b
    modifies io`st
    ensures io.Valid() && io.st == old(io.st).(out := io.st.out)
    ensures var o := old(io.st.out);
            io.st.out == Outgoing(o.wbuf[1..], o.taken + [b], o.flying + 1, true, o.accepted)
  {
    hide Base, Later;
    assert io.st.out.wbuf[..1] == [b];
    io.Drive(Take(1));
  }

  /** The driver reports on an operation that sent the first byte in flight, or with that one
      still in flight. */
  method Report(io: IoRef, sent: bool)
    requires io.Valid() && !io.st.stop.Any() && io.st.out.flying > 0
    modifies io`st
    ensures io.Valid() && io.st.stop == old(io.st.stop) && SameRoute(old(io.st.wr), io.st.wr)
    ensures io.st.abrupt == old(io.st.abrupt) && (io.st.wr.paused <==> io.st.out.wbuf == [])
    ensures io.st.out == old(io.st.out).(due := false, flying := io.st.out.flying)
    ensures io.st.out.flying == if sent then old(io.st.out.flying) - 1 else old(io.st.out.flying)
  {
    hide Base, Later;
    if sent { io.Drive(Land(1)); }
    var o := io.st.out;
    assert o.taken[|o.taken|..] + o.wbuf == o.wbuf && o.taken[..|o.taken|] == o.taken;
    io.Drive(Complete(0, sent));
  }

  /** A byte can be lost in a graceful close: the driver takes it and reports while it is in
      flight, the stream is closed and stops, and then the operation ends without having sent it. */
  method LostInFlight(cfg: Config) returns (io: IoRef)
    ensures io.st.stop.stopping && !io.st.abrupt && io.st.out.accepted == [7] && io.st.out.wbuf == [7]
  {
    hide Good, Base, Later, Scheduled;
    io := FirstTurn(cfg, [7]);
    TakeOne(io, 7);
    Report(io, false);
    io.Close();
    var r := io.ReadPoll([], false);
    io.Drive(Complete(1, true));
  }

  /** The driver can get its turn with nothing to take, nothing in flight and the write task not paused:
      one operation is reported on while the next is in flight, so that bytes which get a send
      scheduled are taken and reported on before that send runs. */
  method IdleTurn(cfg: Config) returns (io: IoRef)
    ensures Good(io.st) && !io.st.stop.Any() && io.st.out.Unsent() == 0
    ensures !io.st.wr.paused && !io.st.wr.sendOp && !io.st.tasks.woken && io.st.tasks.owes
  {
    hide Base, Later;
    io := FirstTurn(cfg, [1, 2]);
    TakeOne(io, 1);
    TakeOne(io, 2);
    Report(io, true);
    var ok := io.WithWriteBuf([3], []);
    Report(io, true);
    TakeOne(io, 3);
    Report(io, true);
    io.OpsSend([]);
    var a := io.WritePoll();
  }

  /** The per-thread table of connections. */
  class IoManager {
    const iops: Iops
    var table: map<Id, IoRef>

    ghost predicate Linked()
      reads this, table.Values
    {
      forall i :: i in table ==> table[i].id == i && table[i].iops == iops && Good(table[i].st)
    }

    ghost predicate Valid()
      reads this, iops, table.Values
    {
      Linked() && iops.Valid() && forall i :: i in table ==> (table[i].st.wr.sendOp ==> i in iops.ops)
    }

    /** No stranded write: on an open connection with bytes to write, the connection is in the
        deferred queue and a run of that queue is spawned; or the write task is not paused, and it
        was woken or the driver was told to go on and has not reported since. */
    lemma NoStrandedWrite(i: Id)
      requires Valid() && i in table && !table[i].st.stop.Closed() && table[i].st.out.wbuf != []
      ensures || (i in iops.ops && iops.running)
              || (!table[i].st.wr.paused && (table[i].st.tasks.woken || table[i].st.tasks.owes))
    {
      BytesAttended(table[i].st);
    }

    constructor ()
      ensures Valid() && table == map[] && fresh(iops)
    {
      iops := new Iops();
      table := map[];
    }

    method Register(id: Id, cfg: Config, directWr: bool)
      requires Valid() && id !in table
      modifies this`table
      ensures Valid() && table.Keys == old(table).Keys + {id}
              && forall i :: i in old(table) ==> table[i] == old(table)[i]
      ensures fresh(table[id])
    {
      var io := new IoRef(id, cfg, iops, directWr);
      table := table[id := io];
    }

    /** A call on one connection leaves the others alone, and their places in the queue. */
    method Do(id: Id, call: Call)
      requires Valid() && id in table
      modifies table[id], iops
      ensures Valid() && Later(old(table[id].st), table[id].st)
      ensures old(table[id].st.out.Conserved()) && Happened(call, old(table[id].st), table[id].st)
      ensures forall i :: i in table && i != id ==> table[i].st == old(table[i].st)
    {
      hide Good, Later, Happened;
      table[id].Do(call);
    }

    lemma TasksAttended()
      requires Linked() && forall i :: i in table ==> !table[i].st.wr.sendOp
      ensures forall i :: i in table && !table[i].st.stop.Closed() && table[i].st.out.wbuf != [] ==>
                !table[i].st.wr.paused && (table[i].st.tasks.woken || table[i].st.tasks.owes)
    {
      forall i | i in table && !table[i].st.stop.Closed() && table[i].st.out.wbuf != []
        ensures !table[i].st.wr.paused && (table[i].st.tasks.woken || table[i].st.tasks.owes)
      {
        TaskAttended(table[i].st);
      }
    }

    /** The deferred queue reaches one connection. */
    method Serve(id: Id, acts: seq<Act>)
      requires Linked() && id in table
      modifies table[id]
      ensures Linked() && Later(old(table[id].st), table[id].st) && !table[id].st.wr.sendOp
      ensures forall i :: i in table && i != id ==> table[i].st == old(table[i].st)
    {
      hide Good, Later;
      table[id].OpsSend(acts);
    }

    /** A run of the deferred queue: `acts[k]` is what the driver does in the k-th direct write.
        Afterwards nothing is scheduled, so an open connection with bytes to write is its write
        task's turn. */
    method Run(acts: seq<seq<Act>>)
      requires Valid()
      modifies iops, table.Values
      ensures Valid() && iops.ops == [] && table == old(table)
      ensures forall i :: i in table ==> Later(old(table[i].st), table[i].st) && !table[i].st.wr.sendOp
      ensures forall i :: i in table && !table[i].st.stop.Closed() && table[i].st.out.wbuf != [] ==>
                !table[i].st.wr.paused && (table[i].st.tasks.woken || table[i].st.tasks.owes)
    {
      hide Good, Later;
      forall i | i in table ensures Later(table[i].st, table[i].st) { SameLater(table[i].st); }
      var ops := iops.TakeAll();
      for k := 0 to |ops|
        invariant Linked() && iops.Valid() && iops.ops == [] && table == old(table)
        invariant forall i :: i in table ==> (table[i].st.wr.sendOp ==> i in ops[k..])
        invariant forall i :: i in table ==> Later(old(table[i].st), table[i].st)
      {
        if ops[k] in table {
          ghost var s := table[ops[k]].st;
          Serve(ops[k], if k < |acts| then acts[k] else []);
          LaterTrans(old(table[ops[k]].st), s, table[ops[k]].st);
        }
      }
      TasksAttended();
    }

    /** What every connection is like. */
    ghost function States(): map<Id, IoState>
      reads this, table.Values
    {
      map i | i in table :: table[i].st
    }

    /** Any history: what each event is for happens, in order, to the connection it is about and to
        no other; every connection stays well formed, keeps its place in the queue while it has a
        send scheduled, and never takes back a stop flag or a byte of its histories. */
    method History(events: seq<Event>) returns (ghost trace: seq<map<Id, IoState>>)
      requires Valid()
      modifies iops, table.Values
      ensures Valid() && table == old(table)
      ensures Chain(events, trace) && trace[0] == old(States()) && trace[|events|] == States()
      ensures forall i :: i in table ==> Later(old(table[i].st), table[i].st)
    {
      hide Good, Later, Stepped;
      forall i | i in table ensures Later(table[i].st, table[i].st) { SameLater(table[i].st); }
      trace := [States()];
      for k := 0 to |events|
        invariant Valid() && table == old(table)
        invariant |trace| == k + 1 && trace[0] == old(States()) && trace[k] == States()
        invariant forall j :: 0 <= j < k ==> Stepped(events[j], trace[j], trace[j + 1])
        invariant forall i :: i in table ==> Later(old(table[i].st), table[i].st)
      {
        label Before:
        Step(events[k]);
        forall i | i in table ensures Later(old(table[i].st), table[i].st) {
          LaterTrans(old(table[i].st), old@Before(table[i].st), table[i].st);
        }
        trace := trace + [States()];
      }
    }

    method Step(e: Event)
      requires Valid()
      modifies iops, table.Values
      ensures Valid() && table == old(table) && Stepped(e, old(States()), States())
      ensures forall i :: i in table ==> Later(old(table[i].st), table[i].st)
    {
      hide Good, Later, Happened;
      forall i | i in table ensures Later(table[i].st, table[i].st) { SameLater(table[i].st); }
      match e {
        case On(id, call) => if id in table { Do(id, call); }
        case Ops(acts) => Run(acts);
      }
    }
  }

  /** One event: a call does what it is for to its own connection and nothing to the others; a run
      of the queue leaves nothing scheduled. */
  ghost predicate Stepped(e: Event, m: map<Id, IoState>, m': map<Id, IoState>) {
    && m'.Keys == m.Keys
    && match e
       case On(id, call) =>
         && (forall i :: i in m && i != id ==> m'[i] == m[i])
         && (id in m ==> m[id].out.Conserved() && Happened(call, m[id], m'[id]))
       case Ops(acts) => forall i :: i in m ==> Later(m[i], m'[i]) && !m'[i].wr.sendOp
  }

  ghost predicate Chain(events: seq<Event>, trace: seq<map<Id, IoState>>) {
    |trace| == |events| + 1 && forall k :: 0 <= k < |events| ==> Stepped(events[k], trace[k], trace[k + 1])
  }
}
