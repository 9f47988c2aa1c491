/** The framed dispatcher: a four-state loop that reads frames, calls the service, counts calls in
    flight and watches the frame-read rate. What the connection and the service answer is the
    environment's choice. */
module Dispatcher {
  import opened Common

  const U32: nat := 0x1_0000_0000

  datatype Phase = Processing | Backpressure | Stopping | ShuttingDown

  datatype Flags = Flags(readyErr: bool, ioErr: bool, kaEnabled: bool, kaTimeout: bool, readTimeout: bool, idle: bool)

  /** The in-flight counter, the stored response future, the unfinished spawned calls; and, as
      history, how many calls were made and how many results were handled. */
  datatype Calls = Calls(inflight: nat, response: bool, spawned: nat, made: nat, handled: nat)

  /** Frame-read rate settings. */
  datatype Params = Params(timeout: nat, maxTimeout: nat, rate: nat)

  /** The read counters of a frame-read period; and, as history, how often it was extended and what
      each partial decode left in the buffer, one sequence for each stretch between two timeouts
      that counted the bytes. */
  datatype Reads = Reads(remains: nat, prev: nat, max: nat, extensions: nat, left: seq<seq<nat>>)

  /** What became of a service call, and of encoding its response. */
  datatype Outcome = Nothing | Response(encodes: bool) | Failed
  datatype Fault = EncoderFault | ServiceFault

  datatype Service = ServiceReady | ServicePending(pause: Status) | ServiceError
  datatype Status = StatusPending | KeepAliveDue | Gone | WriteFull
  datatype Recv = Decoded(item: bool, remains: nat) | RecvKeepAlive | RecvWriteFull | RecvMalformed | RecvGone
  datatype Flush = FlushPending | FlushDone | FlushError

  /** Everything one turn of the loop may ask about. `call`: whether a call completes at once. */
  datatype Choice = Choice(service: Service, recv: Recv, flush: Flush, call: Option<Outcome>, call2: Option<Outcome>,
                           status: Status, closed: bool, serviceDown: bool)

  datatype Reason = Io | KeepAliveTimeout | ReadTimeout | Decoder | Encoder
  /** What the service is called with: a frame, a notice of write back-pressure, or the end. */
  datatype Message = Frame | Pressure(on: bool) | Stop(reason: Reason)

  datatype PollService = Item(m: Message) | ItemWait(m: Message) | Continue | Ready | Pending
  datatype Turn = Again | Wait | Resolved(failed: bool)

  /** Why `poll_service` has the service told to stop, if it does: the encoder failed, or while the
      service is not ready the connection timed out or went away. */
  function StopOf(service: Service, fault: Option<Fault>, keepAlive: bool): Option<Reason> {
    if service.ServiceReady? && fault == Some(EncoderFault) then Some(Encoder)
    else if service == ServicePending(KeepAliveDue) && keepAlive then Some(KeepAliveTimeout)
    else if service == ServicePending(Gone) then Some(Io)
    else None
  }

  /** The service itself failed, now or in an earlier call. */
  predicate Fails(service: Service, fault: Option<Fault>) {
    service.ServiceError? || (service.ServiceReady? && fault == Some(ServiceFault))
  }

  /** The service is not ready and there is nothing to tell it: nothing happens, or a spurious
      timeout. */
  predicate Idles(service: Service, keepAlive: bool) {
    service == ServicePending(StatusPending) || (service == ServicePending(KeepAliveDue) && !keepAlive)
  }

  /** What the answer of `poll_service` has the service called with. */
  function Says(r: PollService): seq<Message> {
    if r.Item? || r.ItemWait? then [r.m] else []
  }

  function Stops(reason: Option<Reason>): seq<Message> {
    if reason.Some? then [Stop(reason.value)] else []
  }

  /** What a ready service is called with after an answer of `poll_recv_decode`, and where that
      leads: a frame that was decoded always reaches the service. `goesOn`: what the timer says, in
      a read period or not. */
  predicate AfterRecv(recv: Recv, goesOn: bool, period: bool, said: seq<Message>, phase: Phase, t: Turn) {
    && (t.Wait? <==> recv.Decoded? && !recv.item) && !t.Resolved?
    && match recv
       case Decoded(item, _) => said == (if item then [Frame] else []) && phase.Processing?
       case RecvKeepAlive =>
         if goesOn then said == [] && phase.Processing?
         else said == [Stop(if period then ReadTimeout else KeepAliveTimeout)] && phase.Stopping?
       case RecvWriteFull => said == [Pressure(true)] && phase.Backpressure?
       case RecvMalformed => said == [Stop(Decoder)] && phase.Stopping?
       case RecvGone => said == [Stop(Io)] && phase.Stopping?
  }

  /** The same for a service that is not ready, or after a fault. */
  predicate AfterPoll(service: Service, fault: Option<Fault>, keepAlive: bool,
                      said: seq<Message>, phase: Phase, t: Turn)
  {
    && (t.Wait? <==> service == ServicePending(StatusPending)) && !t.Resolved?
    && if service == ServicePending(WriteFull) then said == [Pressure(true)] && phase.Backpressure?
       else said == Stops(StopOf(service, fault, keepAlive))
            && phase == if Idles(service, keepAlive) then Processing else Stopping
  }

  /** What the service is called with in the Backpressure state after the answer of `poll_flush`. */
  predicate AfterFlush(flush: Flush, stop: Option<Reason>, said: seq<Message>, phase: Phase, t: Turn) {
    && (t.Wait? <==> flush.FlushPending?) && !t.Resolved?
    && match flush
       case FlushPending => said == Stops(stop) && phase == if stop.Some? then Stopping else Backpressure
       case FlushError => said == Stops(stop) + [Stop(Io)] && phase.Stopping?
       case FlushDone => said == Stops(stop) + [Pressure(false)] && phase.Processing?
  }

  /** What `update_timer` makes of flags, counters and timer after a decode. A frame ends every
      period. With nothing new and nothing left over the keep-alive timer starts, unless it runs or
      is off. An incomplete frame begins a period with a fresh budget, if there is a rate to keep. */
  ghost predicate TimerUpdated(params: Option<Params>, keepAlive: nat, item: bool, remains: nat,
                               f: Flags, r: Reads, t: nat, f': Flags, r': Reads, t': nat)
    requires f.readTimeout ==> Tracked(r)
  {
    if item then
      f' == f.(kaTimeout := false, readTimeout := false, idle := false) && r' == r.(remains := 0) && t' == t
    else if f.readTimeout then f' == f && r' == Noted(r, remains) && t' == t
    else if r.remains == 0 && remains == 0 then
      && r' == r && f' == f.(kaTimeout := f.kaTimeout || f.kaEnabled)
      && t' == if f.kaEnabled && !f.kaTimeout then keepAlive else t
    else if params.Some? then
      && f' == f.(readTimeout := true) && t' == params.value.timeout
      && r' == Reads(remains % U32, 0, params.value.maxTimeout, 0, [[remains]])
    else f' == f && r' == r && t' == t
  }

  lemma IdleAfter(params: Option<Params>, keepAlive: nat, recv: Recv,
                  f: Flags, r: Reads, t: nat, f': Flags, r': Reads, t': nat)
    requires f.readTimeout ==> Tracked(r)
    requires recv.Decoded? ==> TimerUpdated(params, keepAlive, recv.item, recv.remains, f, r, t, f', r', t')
    ensures recv.Decoded? ==> f'.idle == (f.idle && !recv.item)
  {
  }

  lemma FlushAfterStop(flush: Flush, stop: Option<Reason>, more: seq<Message>, phase: Phase, t: Turn)
    requires AfterFlush(flush, None, more, if flush.FlushPending? then Backpressure else phase, t)
    requires flush.FlushPending? ==> phase == if stop.Some? then Stopping else Backpressure
    ensures AfterFlush(flush, stop, Stops(stop) + more, phase, t)
  {
  }

  // ---------------------------------------------------------------- invariants

  ghost predicate CallsOk(c: Calls, idle: bool) {
    && c.inflight == (if c.response then 1 else 0) + c.spawned
    && (idle ==> c.inflight == 0)
    && c.made == c.handled + c.inflight
  }

  /** What the last partial decode of a stretch left, in 32 bits; nothing if there was none. */
  function LastLeft(stretch: seq<nat>): nat {
    if stretch == [] then 0 else stretch[|stretch| - 1] % U32
  }

  /** The counters hold what the last partial decodes of the last two stretches left. */
  ghost predicate Tracked(r: Reads) {
    var n := |r.left|;
    && n > 0
    && r.remains == LastLeft(r.left[n - 1])
    && r.prev == if n == 1 then 0 else LastLeft(r.left[n - 2])
  }

  /** A partial decode leaves `n` bytes. */
  function Noted(r: Reads, n: nat): (s: Reads)
    requires Tracked(r)
    ensures Tracked(s) && s.remains == n % U32 && s == r.(remains := s.remains, left := s.left)
            && |s.left| == |r.left|
  {
    var k := |r.left| - 1;
    r.(remains := n % U32, left := r.left[..k] + [r.left[k] + [n]])
  }

  /** A timeout counts the bytes. */
  function Counted(r: Reads, max: nat, extensions: nat): (s: Reads)
    requires Tracked(r)
    ensures Tracked(s) && s.remains == 0 && s.prev == r.remains && s.max == max && s.extensions == extensions
            && s.left == r.left + [[]]
  {
    Reads(0, r.remains, max, extensions, r.left + [[]])
  }

  /** The period's budget is spent one timeout at a time, and an extension leaves some of it. */
  ghost predicate ReadsOk(r: Reads, p: Params) {
    && Tracked(r) && r.extensions < |r.left|
    && (p.maxTimeout != 0 ==>
          && (r.max == 0 || r.max == p.maxTimeout - r.extensions * p.timeout)
          && (r.extensions == 0 || r.extensions * p.timeout < p.maxTimeout))
  }

  /** Whether the last notice of back-pressure was that it began. */
  function Pressed(asked: seq<Message>): bool {
    if asked == [] then false
    else
      var m := asked[|asked| - 1];
      if m.Pressure? then m.on else Pressed(asked[..|asked| - 1])
  }

  /** Notices of back-pressure alternate, beginning with one that it began. */
  predicate Alternate(asked: seq<Message>) {
    asked != [] ==>
      var m, before := asked[|asked| - 1], asked[..|asked| - 1];
      Alternate(before) && (m.Pressure? ==> m.on != Pressed(before))
  }

  /** The service has been told whether there is back-pressure. */
  ghost predicate Told(phase: Phase, asked: seq<Message>) {
    && Alternate(asked)
    && (phase.Processing? ==> !Pressed(asked)) && (phase.Backpressure? ==> Pressed(asked))
  }

  lemma Extended(asked: seq<Message>, m: Message)
    ensures Pressed(asked + [m]) == if m.Pressure? then m.on else Pressed(asked)
    ensures Alternate(asked + [m]) <==> Alternate(asked) && (m.Pressure? ==> m.on != Pressed(asked))
  {
    assert (asked + [m])[..|asked|] == asked;
  }

  /** How often a period of `max` seconds can be extended by `timeout` seconds. */
  function MaxExtensions(max: nat, timeout: nat): nat
    requires max > 0 && timeout > 0
  {
    (max + timeout - 1) / timeout - 1
  }

  /** That is, `n` extensions leave some of the budget exactly up to that number. */
  lemma ExtensionBound(n: nat, timeout: nat, max: nat)
    requires timeout > 0 && max > 0
    ensures n <= MaxExtensions(max, timeout) <==> n * timeout < max
  {
    var q := (max + timeout - 1) / timeout;
    assert max + timeout - 1 == q * timeout + (max + timeout - 1) % timeout;
    if n >= q {
      assert n * timeout >= q * timeout;
    } else {
      assert n * timeout <= (q - 1) * timeout;
    }
  }

  lemma Budget(r: Reads, p: Params)
    requires ReadsOk(r, p) && p.maxTimeout != 0 && r.max > p.timeout
    ensures r.max - p.timeout == p.maxTimeout - (r.extensions + 1) * p.timeout
  {
  }

  /** The 32-bit difference `handle_timeout` works with; overflow checks turn the second case into
      a panic. */
  function Total(remains: nat, prev: nat): int {
    if remains >= prev then remains - prev else remains - prev + U32
  }

  /** It is the difference of two 32-bit numbers, in 32 bits. */
  lemma TotalWraps(remains: nat, prev: nat)
    requires remains < U32 && prev < U32
    ensures 0 <= Total(remains, prev) < U32
    ensures (Total(remains, prev) + prev) % U32 == remains
  {
  }

  /** Exactly when the difference is negative, in terms of what was decoded: a timeout has counted
      bytes in this period, and the last partial decode since then, if there was any, left less
      than the last one before it. */
  lemma Wraps(r: Reads, p: Params)
    requires ReadsOk(r, p)
    ensures var n := |r.left|;
            r.remains < r.prev <==> n > 1 && LastLeft(r.left[n - 1]) < LastLeft(r.left[n - 2])
  {
  }

  class Dispatcher {
    const params: Option<Params>
    const keepAlive: nat
    var phase: Phase
    var flags: Flags
    var calls: Calls
    var rd: Reads
    var fault: Option<Fault>
    var failed: bool
    var timer: nat
    /** Everything the service was called with. */
    var asked: seq<Message>

    ghost predicate Valid()
      reads this
    {
      Core() && Told(phase, asked)
    }

    ghost predicate Core()
      reads this
    {
      && CallsOk(calls, flags.idle) && |asked| == calls.made
      && (flags.readTimeout ==> params.Some? && ReadsOk(rd, params.value))
      && (phase.ShuttingDown? ==> calls.inflight == 0)
    }

    constructor (params: Option<Params>, keepAlive: nat)
      ensures Valid() && phase.Processing? && calls.made == 0 && fault.None? && !flags.readTimeout && rd.remains == 0
      ensures this.params == params && this.keepAlive == keepAlive && asked == [] && !failed
      ensures flags == Flags(false, false, keepAlive != 0, false, false, false)
    {
      this.params, this.keepAlive := params, keepAlive;
      phase, fault, failed, timer := Processing, None, false, 0;
      flags := Flags(false, false, keepAlive != 0, false, false, false);
      calls := Calls(0, false, 0, 0, 0);
      rd := Reads(0, 0, 0, 0, []);
      asked := [];
    }

    // -------------------------------------------------------------- calls

    /** `handle_result`: called with the counter above zero, because an unfinished call is counted.
        The caller takes the call off its list. */
    method HandleResult(o: Outcome)
      requires calls.inflight > 0
      modifies this`calls, this`flags, this`fault
      ensures calls == old(calls).(inflight := old(calls).inflight - 1, handled := old(calls).handled + 1)
      ensures flags == old(flags).(idle := old(flags).idle || calls.inflight == 0)
      ensures fault == if o == Response(false) then Some(EncoderFault)
                       else if o.Failed? then Some(ServiceFault)
                       else old(fault)
    {
      match o {
        case Response(encodes) => if !encodes { fault := Some(EncoderFault); }
        case Failed => fault := Some(ServiceFault);
        case Nothing =>
      }
      calls := calls.(inflight := calls.inflight - 1, handled := calls.handled + 1);
      if calls.inflight == 0 { flags := flags.(idle := true); }
    }

    /** `call_service`: the first unfinished call is stored, further ones are spawned. */
    method CallService(m: Message, done: Option<Outcome>)
      requires Core() && !phase.ShuttingDown?
      modifies this`calls, this`flags, this`fault, this`asked
      ensures Core() && asked == old(asked) + [m]
      ensures flags == old(flags).(idle := flags.idle) && calls.made == old(calls.made) + 1
      ensures old(calls.response) ==> calls.spawned == old(calls.spawned) + 1 && calls.response
      ensures !old(calls.response) ==> calls.spawned == old(calls.spawned) && calls.response == done.None?
    {
      hide ReadsOk;
      asked := asked + [m];
      calls := calls.(inflight := calls.inflight + 1, made := calls.made + 1);
      if calls.inflight == 1 { flags := flags.(idle := false); }
      if !calls.response {
        if done.Some? {
          HandleResult(done.value);
        } else {
          calls := calls.(response := true);
        }
      } else {
        calls := calls.(spawned := calls.spawned + 1);
      }
    }

    /** A spawned call finishes. */
    method SpawnedDone(o: Outcome)
      requires Valid() && calls.spawned > 0
      modifies this`calls, this`flags, this`fault
      ensures Valid() && calls.handled == old(calls.handled) + 1 && calls.made == old(calls.made)
      ensures calls.spawned == old(calls.spawned) - 1 && calls.response == old(calls.response)
    {
      HandleResult(o);
      calls := calls.(spawned := calls.spawned - 1);
    }

    /** The start of `poll`: the stored response may be ready. */
    method PollResponse(ready: Option<Outcome>)
      requires Valid()
      modifies this`calls, this`flags, this`fault
      ensures Valid() && calls.made == old(calls.made)
      ensures old(calls.response) && ready.Some? ==>
                !calls.response && calls.handled == old(calls.handled) + 1 && calls.inflight == old(calls.inflight) - 1
      ensures !old(calls.response) || ready.None? ==> calls == old(calls) && flags == old(flags) && fault == old(fault)
    {
      if calls.response && ready.Some? {
        HandleResult(ready.value);
        calls := calls.(response := false);
      }
    }

    // -------------------------------------------------------------- the frame-read timer

    /** `update_timer` after a decode. */
    method UpdateTimer(item: bool, remains: nat)
      requires Core()
      modifies this`flags, this`rd, this`timer
      ensures Core() && old(flags.readTimeout ==> Tracked(rd))
      ensures TimerUpdated(params, keepAlive, item, remains, old(flags), old(rd), old(timer), flags, rd, timer)
    {
      if item {
        rd := rd.(remains := 0);
        flags := flags.(kaTimeout := false, readTimeout := false, idle := false);
      } else if flags.readTimeout {
        rd := Noted(rd, remains);
      } else if rd.remains == 0 && remains == 0 {
        if flags.kaEnabled && !flags.kaTimeout {
          flags := flags.(kaTimeout := true);
          timer := keepAlive;
        }
      } else if params.Some? {
        flags := flags.(readTimeout := true);
        rd := Reads(remains % U32, 0, params.value.maxTimeout, 0, [[remains]]);
        timer := params.value.timeout;
      }
    }

    /** Whether the timer that fired lets the connection go on: in a read period, if more than the
        rate has arrived and there is budget left; otherwise, if nobody waits for it to be kept
        alive. */
    predicate GoesOn()
      reads this
      requires flags.readTimeout ==> params.Some?
    {
      if flags.readTimeout then
        && Total(rd.remains, rd.prev) > params.value.rate
        && (params.value.maxTimeout == 0 || rd.max > params.value.timeout)
      else !(flags.kaTimeout || flags.idle)
    }

    /** `handle_timeout`: whether the connection may go on. An extension always leaves budget, so
        with both settings non-zero a period is extended a bounded number of times. */
    method HandleTimeout() returns (stop: Option<Reason>)
      requires Core()
      modifies this`rd, this`timer
      ensures Core() && (stop.None? <==> old(GoesOn()))
      ensures stop.Some? ==> stop.value == if flags.readTimeout then ReadTimeout else KeepAliveTimeout
      ensures !flags.readTimeout ==> rd == old(rd) && timer == old(timer)
      ensures flags.readTimeout && stop.None? ==>
                && rd.extensions == old(rd.extensions) + 1 && timer == params.value.timeout
                && rd.prev == old(rd.remains) && rd.remains == 0 && rd.left == old(rd.left) + [[]]
                && (params.value.maxTimeout != 0 ==> rd.max == old(rd.max) - params.value.timeout)
      ensures flags.readTimeout ==> old(Tracked(rd))
      ensures flags.readTimeout && stop.Some? ==>
                && timer == old(timer)
                && rd == if Total(old(rd.remains), old(rd.prev)) > params.value.rate
                         then Counted(old(rd), 0, old(rd.extensions)) else old(rd)
      ensures flags.readTimeout && params.value.timeout > 0 && params.value.maxTimeout > 0 ==>
                rd.extensions <= MaxExtensions(params.value.maxTimeout, params.value.timeout)
    {
      if flags.readTimeout {
        var p := params.value;
        var total := Total(rd.remains, rd.prev);
        stop := Some(ReadTimeout);
        if total > p.rate {
          var left := if p.maxTimeout == 0 then rd.max else if rd.max >= p.timeout then rd.max - p.timeout else 0;
          if p.maxTimeout == 0 || left != 0 {
            if p.maxTimeout != 0 { Budget(rd, p); }
            rd := Counted(rd, left, rd.extensions + 1);
            timer := p.timeout;
            stop := None;
          } else {
            rd := Counted(rd, left, rd.extensions);
          }
        }
        if p.timeout > 0 && p.maxTimeout > 0 { ExtensionBound(rd.extensions, p.timeout, p.maxTimeout); }
      } else {
        stop := if flags.kaTimeout || flags.idle then Some(KeepAliveTimeout) else None;
      }
    }

    // -------------------------------------------------------------- the loop

    /** `check_error`: a fault stops the dispatcher; the service is told of one of the encoder, and
        one of its own becomes the result. */
    method CheckError() returns (r: PollService)
      requires Core() && !phase.ShuttingDown?
      modifies this`phase, this`fault, this`failed
      ensures Core() && fault.None? && phase == if old(fault).None? then old(phase) else Stopping
      ensures r == match old(fault)
                   case None => Ready
                   case Some(EncoderFault) => Item(Stop(Encoder))
                   case Some(ServiceFault) => Continue
      ensures failed == (old(failed) || old(fault) == Some(ServiceFault))
    {
      if fault.Some? {
        phase := Stopping;
        if fault.value.EncoderFault? {
          r := Item(Stop(Encoder));
        } else {
          failed, r := true, Continue;
        }
        fault := None;
      } else {
        r := Ready;
      }
    }

    /** `poll_service`. */
    method PollServiceReady(service: Service) returns (r: PollService)
      requires Core() && !phase.ShuttingDown?
      modifies this`phase, this`fault, this`failed, this`flags, this`timer
      ensures Core() && !phase.ShuttingDown?
      ensures r.Ready? <==> service.ServiceReady? && old(fault).None?
      ensures r.Pending? <==> service == ServicePending(StatusPending)
      ensures r.Continue? <==>
                Fails(service, old(fault)) || (service == ServicePending(KeepAliveDue) && !flags.kaEnabled)
      ensures if service == ServicePending(WriteFull)
              then r == ItemWait(Pressure(true)) && StopOf(service, old(fault), flags.kaEnabled).None?
              else Says(r) == Stops(StopOf(service, old(fault), flags.kaEnabled))
      ensures phase == if r.Ready? || Idles(service, flags.kaEnabled) then old(phase)
                       else if service == ServicePending(WriteFull) then Backpressure else Stopping
      ensures failed == (old(failed) || Fails(service, old(fault)))
      ensures flags == match service
                       case ServiceReady => old(flags)
                       case ServicePending(_) => old(flags).(kaTimeout := false, readTimeout := false, idle := false)
                       case ServiceError => old(flags).(readyErr := true)
      ensures timer == if service.ServicePending? then 0 else old(timer)
    {
      hide ReadsOk;
      match service {
        case ServiceReady => r := CheckError();
        case ServicePending(pause) =>
          flags := flags.(kaTimeout := false, readTimeout := false, idle := false);
          timer := 0;
          match pause {
            case StatusPending => r := Pending;
            case KeepAliveDue =>
              if flags.kaEnabled { phase, r := Stopping, ItemWait(Stop(KeepAliveTimeout)); } else { r := Continue; }
            case Gone => phase, r := Stopping, ItemWait(Stop(Io));
            case WriteFull => phase, r := Backpressure, ItemWait(Pressure(true));
          }
        case ServiceError =>
          phase, failed, r := Stopping, true, Continue;
          flags := flags.(readyErr := true);
      }
    }

    /** After a decode the timers are adjusted and a frame goes to the service. */
    method Framed(item: bool, remains: nat) returns (call: Option<Message>, t: Turn)
      requires Core()
      modifies this`flags, this`rd, this`timer
      ensures Core() && call == (if item then Some(Frame) else None) && t == (if item then Again else Wait)
      ensures old(flags.readTimeout ==> Tracked(rd))
      ensures TimerUpdated(params, keepAlive, item, remains, old(flags), old(rd), old(timer), flags, rd, timer)
    {
      UpdateTimer(item, remains);
      hide ReadsOk, CallsOk, Tracked, TimerUpdated;
      if item { call, t := Some(Frame), Again; } else { call, t := None, Wait; }
    }

    /** What a ready service in the Processing state does with the answer of `poll_recv_decode`. */
    method Received(recv: Recv) returns (call: Option<Message>, t: Turn)
      requires Core() && phase.Processing?
      modifies this`phase, this`flags, this`rd, this`timer
      ensures Core() && (t.Wait? <==> recv.Decoded? && !recv.item) && !t.Resolved?
      ensures recv.Decoded? ==> call == (if recv.item then Some(Frame) else None) && phase.Processing?
      ensures old(flags.readTimeout ==> Tracked(rd)) && (!recv.Decoded? ==> flags == old(flags))
      ensures recv.Decoded? ==>
                TimerUpdated(params, keepAlive, recv.item, recv.remains, old(flags), old(rd), old(timer),
                             flags, rd, timer)
      ensures recv.RecvKeepAlive? && flags.readTimeout && call.None? ==>
                rd.extensions == old(rd.extensions) + 1 && rd.prev == old(rd.remains) && timer == params.value.timeout
      ensures recv.RecvKeepAlive? ==>
                if old(GoesOn()) then call.None? && phase.Processing?
                else phase.Stopping?
                     && call == Some(Stop(if old(flags.readTimeout) then ReadTimeout else KeepAliveTimeout))
      ensures recv.RecvWriteFull? ==>
                call == Some(Pressure(true)) && phase.Backpressure? && rd == old(rd) && flags == old(flags)
      ensures recv.RecvMalformed? ==> call == Some(Stop(Decoder)) && phase.Stopping?
      ensures recv.RecvGone? ==> call == Some(Stop(Io)) && phase.Stopping?
    {
      assert flags.readTimeout ==> Tracked(rd);
      hide ReadsOk, MaxExtensions, TimerUpdated, Tracked;
      t := Again;
      match recv {
        case Decoded(item, remains) => call, t := Framed(item, remains);
        case RecvKeepAlive =>
          var stop := HandleTimeout();
          if stop.Some? {
            phase := Stopping;
            call := Some(Stop(stop.value));
          } else {
            call := None;
          }
        case RecvWriteFull => phase, call := Backpressure, Some(Pressure(true));
        case RecvMalformed => phase, call := Stopping, Some(Stop(Decoder));
        case RecvGone => phase, call := Stopping, Some(Stop(Io));
      }
    }

    /** The service is called with what there is to tell it. */
    method Tell(said: seq<Message>, done: Option<Outcome>)
      requires Core() && !phase.ShuttingDown? && |said| <= 1 && Told(phase, asked + said)
      modifies this`calls, this`flags, this`fault, this`asked
      ensures Valid() && asked == old(asked) + said && flags == old(flags).(idle := flags.idle)
    {
      hide ReadsOk, CallsOk, Told;
      if said != [] {
        assert said == [said[0]];
        CallService(said[0], done);
      } else {
        assert asked + said == asked;
      }
    }

    /** A turn in the Processing state with a ready service and no fault. */
    method TurnReady(c: Choice) returns (t: Turn, ghost said: seq<Message>)
      requires Valid() && phase.Processing?
      modifies this`phase, this`flags, this`rd, this`timer, this`calls, this`fault, this`asked
      ensures Valid() && asked == old(asked) + said
      ensures AfterRecv(c.recv, old(GoesOn()), old(flags.readTimeout), said, phase, t)
      ensures old(flags.readTimeout ==> Tracked(rd))
      ensures c.recv.Decoded? ==>
                TimerUpdated(params, keepAlive, c.recv.item, c.recv.remains, old(flags), old(rd), old(timer),
                             flags.(idle := old(flags.idle) && !c.recv.item), rd, timer)
    {
      assert flags.readTimeout ==> Tracked(rd);
      hide ReadsOk, CallsOk, Pressed, Alternate, Tracked;
      var call: Option<Message>;
      call, t := Received(c.recv);
      IdleAfter(params, keepAlive, c.recv, old(flags), old(rd), old(timer), flags, rd, timer);
      hide TimerUpdated;
      said := if call.Some? then [call.value] else [];
      if call.Some? { Extended(asked, call.value); } else { assert asked + [] == asked; }
      Tell(if call.Some? then [call.value] else [], c.call);
    }

    /** What `poll_service` has to say is passed on. */
    method Pass(p: PollService, done: Option<Outcome>)
      requires Core() && !phase.ShuttingDown? && Told(Processing, asked) && |Says(p)| <= 1
      requires match phase
               case Processing => Says(p) == []
               case Backpressure => Says(p) == [Pressure(true)]
               case _ => Says(p) == [] || p.m.Stop?
      modifies this`calls, this`flags, this`fault, this`asked
      ensures Valid() && asked == old(asked) + Says(p) && flags == old(flags).(idle := flags.idle)
    {
      hide ReadsOk, CallsOk, Pressed, Alternate;
      if Says(p) != [] { Extended(asked, p.m); } else { assert asked + Says(p) == asked; }
      Tell(Says(p), done);
    }

    /** A turn in the Processing state. */
    method TurnProcessing(c: Choice) returns (t: Turn, ghost said: seq<Message>)
      requires Valid() && phase.Processing?
      modifies this
      ensures Valid() && asked == old(asked) + said && failed == (old(failed) || Fails(c.service, old(fault)))
      ensures if c.service.ServiceReady? && old(fault).None?
              then AfterRecv(c.recv, old(GoesOn()), old(flags.readTimeout), said, phase, t)
              else AfterPoll(c.service, old(fault), old(flags.kaEnabled), said, phase, t)
      ensures old(flags.readTimeout ==> Tracked(rd))
      ensures c.service.ServiceReady? && old(fault).None? && c.recv.Decoded? ==>
                TimerUpdated(params, keepAlive, c.recv.item, c.recv.remains, old(flags), old(rd), old(timer),
                             flags.(idle := old(flags.idle) && !c.recv.item), rd, timer)
    {
      assert flags.readTimeout ==> Tracked(rd);
      hide ReadsOk, CallsOk, Pressed, Alternate, AfterRecv, StopOf, Fails, TimerUpdated, Tracked;
      var p := PollServiceReady(c.service);
      if p.Ready? {
        t, said := TurnReady(c);
      } else {
        t := if p.Pending? then Wait else Again;
        said := Says(p);
        Pass(p, c.call);
      }
    }

    /** The end of a turn in the Backpressure state. */
    method Flushed(flush: Flush, done: Option<Outcome>) returns (t: Turn, ghost said: seq<Message>)
      requires Core() && (phase.Backpressure? || phase.Stopping?) && Told(Backpressure, asked)
      modifies this`phase, this`calls, this`flags, this`fault, this`asked
      ensures Valid() && asked == old(asked) + said && flags == old(flags).(idle := flags.idle)
      ensures AfterFlush(flush, None, said, if flush.FlushPending? then Backpressure else phase, t)
      ensures flush.FlushPending? ==> phase == old(phase)
    {
      hide ReadsOk, CallsOk, Pressed, Alternate;
      t, said := Again, [];
      match flush {
        case FlushPending => return Wait, [];
        case FlushError =>
          phase, said := Stopping, [Stop(Io)];
          Extended(asked, Stop(Io));
          Tell([Stop(Io)], done);
        case FlushDone =>
          phase, said := Processing, [Pressure(false)];
          Extended(asked, Pressure(false));
          Tell([Pressure(false)], done);
      }
    }

    /** A flush that succeeds sends the dispatcher back to Processing, whatever the service poll
        decided just before: then, and only then, a stop the service was told of does not stop the
        dispatcher. */
    method TurnBackpressure(c: Choice) returns (t: Turn, ghost said: seq<Message>)
      requires Valid() && phase.Backpressure?
      modifies this`phase, this`fault, this`failed, this`flags, this`timer, this`calls, this`asked
      ensures Valid() && asked == old(asked) + said && failed == (old(failed) || Fails(c.service, old(fault)))
      ensures c.service.ServiceReady? ==> flags.readTimeout == old(flags.readTimeout)
      ensures if Idles(c.service, old(flags.kaEnabled)) then said == [] && phase.Backpressure? && !t.Resolved?
              else if Fails(c.service, old(fault)) then said == [] && phase.Stopping? && t.Again?
              else AfterFlush(c.flush, StopOf(c.service, old(fault), old(flags.kaEnabled)), said, phase, t)
    {
      hide ReadsOk, CallsOk, Pressed, Alternate, StopOf, AfterFlush, Fails;
      ghost var stop := StopOf(c.service, fault, flags.kaEnabled);
      var p := PollServiceReady(c.service);
      t, said := if p.Pending? then Wait else Again, [];
      if p.Pending? || p.Continue? { return; }
      if p.Item? || (p.ItemWait? && p.m != Pressure(true)) {
        Extended(asked, p.m);
        CallService(p.m, c.call);
      }
      assert asked == old(asked) + Stops(stop);
      ghost var more;
      t, more := Flushed(c.flush, c.call2);
      FlushAfterStop(c.flush, stop, more, phase, t);
      said := Stops(stop) + more;
    }

    /** A turn in the Stopping state makes no call. It shuts down once every call is done and the
        stream is closed, and until the stream is known to be lost it watches the stream. */
    method TurnStopping(c: Choice) returns (t: Turn)
      requires Valid() && phase.Stopping?
      modifies this`phase, this`flags, this`timer
      ensures Valid() && timer == 0
      ensures phase == if calls.inflight == 0 && c.closed then ShuttingDown else Stopping
      ensures flags == old(flags).(ioErr := flags.ioErr, readyErr := old(flags.readyErr) || c.service.ServiceError?)
      ensures flags.ioErr == (old(flags.ioErr)
                              || (calls.inflight > 0 && (c.status.Gone? || c.status.KeepAliveDue?
                                                         || (c.status.WriteFull? && c.flush.FlushError?))))
      ensures t == if calls.inflight == 0 then (if c.closed then Again else Wait)
                   else if old(flags.ioErr) || c.status.StatusPending? || (c.status.WriteFull? && c.flush.FlushPending?)
                   then Wait else Again
    {
      hide ReadsOk, CallsOk, Pressed, Alternate;
      timer := 0;
      if !flags.readyErr && c.service.ServiceError? { flags := flags.(readyErr := true); }
      if calls.inflight == 0 {
        if c.closed {
          phase := ShuttingDown;
          return Again;
        }
      } else if !flags.ioErr {
        match c.status {
          case StatusPending => return Wait;
          case WriteFull =>
            if c.flush.FlushPending? { return Wait; }
            if c.flush.FlushError? { flags := flags.(ioErr := true); }
          case _ => flags := flags.(ioErr := true);
        }
        return Again;
      }
      return Wait;
    }

    /** One turn of the loop in `poll`. The future resolves only when every call that was ever made
        has had its result handled, with an error exactly if the service failed, and from the
        Shutdown state on no call is made. */
    method TurnOnce(c: Choice) returns (t: Turn, ghost said: seq<Message>)
      requires Valid()
      modifies this
      ensures Valid() && asked == old(asked) + said
      ensures t.Resolved? ==>
                && old(phase).ShuttingDown? && c.serviceDown && t.failed == failed
                && calls.inflight == 0 && calls.made == calls.handled && calls.spawned == 0
      ensures old(phase).ShuttingDown? ==>
                phase.ShuttingDown? && calls == old(calls) && said == [] && (c.serviceDown <==> t.Resolved?)
      ensures old(phase).Stopping? ==> said == [] && (phase.Stopping? || phase.ShuttingDown?)
      ensures if old(phase).Processing? && c.service.ServiceReady? && old(fault).None? && c.recv.Decoded? && c.recv.item
              then said == [Frame]
              else forall k :: 0 <= k < |said| ==> said[k] != Frame
    {
      hide ReadsOk, Pressed, Alternate;
      said := [];
      match phase {
        case Processing => t, said := TurnProcessing(c);
        case Backpressure => t, said := TurnBackpressure(c);
        case Stopping => t := TurnStopping(c);
        case ShuttingDown => t := if c.serviceDown then Resolved(failed) else Wait;
      }
    }

    /** Any sequence of polls, loop turns and finishing spawned calls: every call is accounted for,
        and the service hears of the beginning and the end of back-pressure in turn. */
    method History(events: seq<Event>) returns (resolved: bool)
      requires Valid()
      modifies this
      ensures Valid() && old(asked) <= asked && Alternate(asked)
      ensures resolved ==> calls.inflight == 0 && calls.made == calls.handled
      ensures old(phase).ShuttingDown? ==>
                (resolved <==> exists k :: 0 <= k < |events| && events[k].Looped? && events[k].c.serviceDown)
    {
      hide ReadsOk, Pressed, Alternate;
      resolved := false;
      for k := 0 to |events|
        invariant Valid() && old(asked) <= asked
        invariant resolved ==> phase.ShuttingDown? && calls.inflight == 0
        invariant old(phase).ShuttingDown? ==>
                    && phase.ShuttingDown?
                    && (resolved <==> exists j :: 0 <= j < k && events[j].Looped? && events[j].c.serviceDown)
      {
        match events[k] {
          case Polled(ready) => PollResponse(ready);
          case Looped(c) =>
            var t, said := TurnOnce(c);
            if t.Resolved? { resolved := true; }
          case Finished(o) => if calls.spawned > 0 { SpawnedDone(o); }
        }
      }
    }
  }

  datatype Event = Polled(ready: Option<Outcome>) | Looped(c: Choice) | Finished(o: Outcome)

  /** The difference does go negative: after an extension the next answer of the connection can be
      write back-pressure, and the timer can fire before anything more is decoded. The wrapped
      difference then buys another extension although no byte arrived. */
  method ExtendedWithoutData() returns (d: Dispatcher)
    ensures d.rd.extensions == 2 && d.rd.left == [[100], [], []]
  {
    hide CallsOk, ReadsOk, MaxExtensions;
    d := new Dispatcher(Some(Params(1, 10, 4)), 0);
    d.UpdateTimer(false, 100);
    var stop := d.HandleTimeout();
    assert stop.None? && d.rd.remains == 0 && d.rd.prev == 100 && d.rd.max == 9;
    var call, t := d.Received(RecvWriteFull);
    Extended([], Pressure(true));
    d.CallService(Pressure(true), None);
    ghost var said;
    t, said := d.TurnBackpressure(Choice(ServiceReady, RecvGone, FlushDone, None, None, Gone, false, false));
    stop := d.HandleTimeout();
  }

  /** A stop the service was told of is overruled: the peer is gone while the service is not ready,
      and the flush succeeds in the same turn. */
  method StopOverruled() returns (d: Dispatcher)
    ensures d.phase.Processing? && Stop(Io) in d.asked
  {
    hide CallsOk, ReadsOk;
    d := new Dispatcher(None, 0);
    var t, said := d.TurnProcessing(Choice(ServiceReady, RecvWriteFull, FlushDone, None, None, Gone, false, false));
    t, said := d.TurnBackpressure(Choice(ServicePending(Gone), RecvGone, FlushDone, None, None, Gone, false, false));
    assert said[0] == Stop(Io);
  }
}
