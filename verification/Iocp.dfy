/** The IOCP back end: sockets polled through AFD, one operation at a time, with a queue of updates
    that any thread may add to and any thread may drain. Every step below is one critical section
    or one atomic operation; runs are arbitrary interleavings. */
module Iocp {
  import opened Common

  type Id = nat
  type Mask = bv32

  const RECEIVE: Mask := 0x001
  const RECEIVE_EXPEDITED: Mask := 0x002
  const SEND: Mask := 0x004
  const DISCONNECT: Mask := 0x008
  const ABORT: Mask := 0x010
  const LOCAL_CLOSE: Mask := 0x020
  const ACCEPT: Mask := 0x080
  const CONNECT_FAIL: Mask := 0x100

  datatype Interest = Interest(readable: bool, writable: bool, extra: Mask)

  const NONE := Interest(false, false, 0)

  // ---------------------------------------------------------------- masks

  /** `event_to_afd_mask`. */
  function ToMask(i: Interest, error: bool): Mask {
    (if error || i.readable || i.writable then ABORT | CONNECT_FAIL else 0)
    | (if i.readable then RECEIVE | ACCEPT | DISCONNECT | RECEIVE_EXPEDITED else 0)
    | (if i.writable then SEND else 0)
    | i.extra
  }

  /** `afd_mask_to_event`. */
  function ToEvent(m: Mask): Interest {
    var failed := m & (ABORT | CONNECT_FAIL) != 0;
    Interest(failed || m & (RECEIVE | ACCEPT | DISCONNECT | RECEIVE_EXPEDITED) != 0, failed || m & SEND != 0, m)
  }

  /** Which kernel bits make an event readable, and which writable. */
  lemma EventBits(m: Mask)
    ensures ToEvent(m).readable <==>
              || m & RECEIVE != 0 || m & RECEIVE_EXPEDITED != 0 || m & ACCEPT != 0 || m & DISCONNECT != 0
              || m & ABORT != 0 || m & CONNECT_FAIL != 0
    ensures ToEvent(m).writable <==> m & SEND != 0 || m & ABORT != 0 || m & CONNECT_FAIL != 0
    ensures ToEvent(m).extra == m
  {
  }

  /** The event as the user asked for it, and whether there is anything to report. */
  function Filtered(e: Interest, asked: Interest): Interest {
    Interest(e.readable && asked.readable, e.writable && asked.writable, e.extra)
  }

  predicate Reportable(e: Interest, asked: Interest) {
    e.readable || e.writable || Overlap(e.extra, asked.extra)
  }

  predicate Overlap(a: Mask, b: Mask) { a & b != 0 }

  /** Polling for the mask of an interest loses nothing that was asked for: what a set of kernel
      events would report is reported from the polled part of it alone. */
  lemma MaskIsEnough(events: Mask, asked: Interest, error: bool)
    ensures var seen := events & ToMask(asked, error);
            && Filtered(ToEvent(seen), asked).readable == Filtered(ToEvent(events), asked).readable
            && Filtered(ToEvent(seen), asked).writable == Filtered(ToEvent(events), asked).writable
            && seen & asked.extra == events & asked.extra
  {
  }

  // ---------------------------------------------------------------- state

  datatype Status = Idle | Polling(mask: Mask) | Cancelled

  /** How a kernel operation ended. */
  datatype Outcome = WasCancelled | WasError | Nothing | Happened(events: Mask)

  /** A socket's packet. The kernel operation it is part of is in the kernel, in the completion
      port, or taken from the port and not yet fed back. `spent`: a one-shot interest has been
      reported and not set again. */
  datatype Packet = Packet(
    status: Status, interest: Interest, error: bool, oneshot: bool, deleted: bool,
    inKernel: nat, inPort: nat, unlocked: nat, inUse: bool, outcome: Outcome, spent: bool)
  {
    function Wanted(): Mask { ToMask(interest, error) }
    function Outstanding(): nat { inKernel + inPort + unlocked }
  }

  datatype Waiter = Outside | Draining | Blocked

  /** Threads inside `update_packet` or draining the queue: before the load of the polling flag,
      about to update, about to push. */
  datatype State = State(
    packets: map<Id, Packet>, queue: seq<Id>, capacity: nat, polling: bool, waiter: Waiter,
    owing: multiset<Id>, updating: multiset<Id>, pushing: multiset<Id>)
  {
    predicate Owed(id: Id) { id in owing || id in updating || id in pushing }
  }

  // ---------------------------------------------------------------- packet operations

  /** `set_events`; the packet then needs an update unless it is polling for just that mask. */
  function Set(p: Packet, i: Interest, oneshot: bool): Packet {
    p.(interest := i, oneshot := oneshot, error := true, spent := false)
  }

  predicate NeedsUpdate(p: Packet) { p.status != Polling(p.Wanted()) }

  /** `update`. `Afd::poll` takes the packet's lock; a packet in use would be left without an
      operation and marked as polling all the same. */
  function Updated(p: Packet): Packet {
    if p.deleted then p
    else match p.status
      case Polling(mask) => if p.Wanted() != mask then p.(status := Cancelled) else p
      case Cancelled => p
      case Idle =>
        if p.inUse then p.(status := Polling(p.Wanted()))
        else p.(status := Polling(p.Wanted()), inUse := true, inKernel := p.inKernel + 1)
  }

  /** `begin_delete`. */
  function Deleting(p: Packet): Packet {
    if p.deleted then p
    else p.(deleted := true, status := if p.status.Polling? then Cancelled else p.status)
  }

  /** The event `feed_event` makes of a finished operation, if there is anything to report. */
  function Report(p: Packet): Option<Interest> {
    var raw := match p.outcome
      case WasCancelled => NONE
      case WasError => Interest(true, true, 0)
      case Nothing => NONE
      case Happened(events) => ToEvent(events);
    var e := Filtered(raw, p.interest);
    if !p.deleted && Reportable(e, p.interest) then Some(e) else None
  }

  /** Nothing is reported for a deleted socket, a cancelled operation or one without events. */
  lemma NothingReported(p: Packet)
    requires p.deleted || p.outcome.WasCancelled? || p.outcome.Nothing?
    ensures Report(p).None?
  {
    NoBits(p.interest.extra);
  }

  /** A failed operation is reported as whatever was asked for. */
  lemma ErrorReported(p: Packet)
    requires !p.deleted && p.outcome.WasError?
    ensures Report(p) == if p.interest.readable || p.interest.writable
                         then Some(Interest(p.interest.readable, p.interest.writable, 0)) else None
  {
    NoBits(p.interest.extra);
  }

  /** Kernel events are reported as what happened and was asked for. */
  lemma EventsReported(p: Packet)
    requires !p.deleted && p.outcome.Happened?
    ensures var e, asked := ToEvent(p.outcome.events), p.interest;
            var readable, writable := e.readable && asked.readable, e.writable && asked.writable;
            Report(p) == if readable || writable || Overlap(p.outcome.events, asked.extra)
                         then Some(Interest(readable, writable, p.outcome.events)) else None
  {
    assert ToEvent(p.outcome.events).extra == p.outcome.events by { EventBits(p.outcome.events); }
    hide ToEvent, Overlap;
  }

  lemma NoBits(m: Mask)
    ensures 0 & m == 0
  {
  }

  /** `feed_event`: back to idle; a reported one-shot interest is removed. */
  function Fed(p: Packet): Packet
    requires p.unlocked > 0
  {
    var q := p.(status := Idle, unlocked := p.unlocked - 1);
    if Report(p).Some? && p.oneshot then q.(interest := NONE, error := false, spent := true) else q
  }

  // ---------------------------------------------------------------- steps

  datatype Step =
    | Add(id: Id, i: Interest, oneshot: bool) | Modify(id: Id, i: Interest, oneshot: bool) | Delete(id: Id)
    | Load(id: Id) | Update(id: Id) | Push(id: Id) | PushFails(id: Id) | Pop
    | Complete(id: Id, o: Outcome) | Dequeue(id: Id) | Feed(id: Id)
    | StartPolling | Block | Wake

  predicate Enabled(s: State, step: Step) {
    match step
    case Add(id, _, _) => id !in s.packets
    case Modify(id, _, _) => id in s.packets
    case Delete(id) => id in s.packets
    case Load(id) => id in s.packets && id in s.owing
    case Update(id) => id in s.packets && id in s.updating
    case Push(id) => id in s.pushing && |s.queue| < s.capacity
    case PushFails(id) => id in s.pushing && |s.queue| >= s.capacity
    case Pop => s.queue != []
    case Complete(id, o) =>
      id in s.packets && s.packets[id].inKernel > 0 && (o.Happened? ==> o.events & LOCAL_CLOSE == 0)
    case Dequeue(id) => id in s.packets && s.packets[id].inPort > 0
    case Feed(id) => id in s.packets && s.packets[id].unlocked > 0
    case StartPolling => s.waiter.Outside?
    case Block => s.waiter.Draining? && s.queue == []
    case Wake => s.waiter.Blocked?
  }

  function Next(s: State, step: Step): State
    requires Enabled(s, step)
  {
    match step
    case Add(id, i, oneshot) =>
      s.(packets := s.packets[id := Packet(Idle, i, true, oneshot, false, 0, 0, 0, false, Nothing, false)],
         owing := s.owing + multiset{id})
    case Modify(id, i, oneshot) =>
      var p := Set(s.packets[id], i, oneshot);
      s.(packets := s.packets[id := p], owing := if NeedsUpdate(p) then s.owing + multiset{id} else s.owing)
    case Delete(id) => s.(packets := s.packets[id := Deleting(s.packets[id])])
    case Load(id) =>
      if s.polling then s.(owing := s.owing - multiset{id}, updating := s.updating + multiset{id})
      else s.(owing := s.owing - multiset{id}, pushing := s.pushing + multiset{id})
    case Update(id) =>
      s.(packets := s.packets[id := Updated(s.packets[id])], updating := s.updating - multiset{id})
    case Push(id) => s.(pushing := s.pushing - multiset{id}, queue := s.queue + [id])
    case PushFails(id) => s.(pushing := s.pushing - multiset{id}, owing := s.owing + multiset{id})
    case Pop => s.(queue := s.queue[1..], updating := s.updating + multiset{s.queue[0]})
    case Complete(id, o) =>
      var p := s.packets[id];
      s.(packets := s.packets[id := p.(inKernel := p.inKernel - 1, inPort := p.inPort + 1, outcome := o)])
    case Dequeue(id) =>
      var p := s.packets[id];
      s.(packets := s.packets[id := p.(inPort := p.inPort - 1, unlocked := p.unlocked + 1, inUse := false)])
    case Feed(id) =>
      var p := s.packets[id];
      s.(packets := s.packets[id := Fed(p)], owing := if p.deleted then s.owing else s.owing + multiset{id})
    case StartPolling => s.(polling := true, waiter := Draining)
    case Block => s.(waiter := Blocked)
    case Wake => s.(polling := false, waiter := Outside)
  }

  // ---------------------------------------------------------------- invariant

  ghost predicate PacketOk(p: Packet) {
    && p.Outstanding() == (if p.status.Idle? then 0 else 1)
    && (p.inUse <==> p.inKernel + p.inPort == 1)
    && (p.spent ==> p.interest == NONE && !p.error)
    && (p.deleted ==> !p.status.Polling?)
  }

  /** The polled mask is the wanted one, or the packet is queued, or cancelled with its operation
      still to come back, or some thread still owes it an update. */
  ghost predicate Tracked(s: State, id: Id)
    requires id in s.packets
  {
    var p := s.packets[id];
    !p.deleted ==> p.status == Polling(p.Wanted()) || id in s.queue || p.status.Cancelled? || s.Owed(id)
  }

  ghost predicate Inv(s: State) {
    && (forall id :: id in s.packets ==> PacketOk(s.packets[id]) && Tracked(s, id))
    && (forall id :: id in s.queue || s.Owed(id) ==> id in s.packets)
  }

  lemma UpdatedOk(p: Packet)
    requires PacketOk(p)
    ensures PacketOk(Updated(p)) && Updated(p).deleted == p.deleted
    ensures p.status.Idle? ==> !p.inUse
    ensures !p.deleted ==> Updated(p).status == Polling(Updated(p).Wanted()) || Updated(p).status.Cancelled?
  {
  }

  lemma FedOk(p: Packet)
    requires PacketOk(p) && p.unlocked > 0
    ensures PacketOk(Fed(p)) && Fed(p).deleted == p.deleted
    ensures p.spent ==> Report(p).None? && Fed(p).spent
  {
  }

  /** The interest is removed exactly when a one-shot one was reported; otherwise it stays, and the
      packet will be polled for it again. */
  lemma InterestAfter(p: Packet)
    requires p.unlocked > 0
    ensures var gone := Report(p).Some? && p.oneshot;
            && Fed(p).interest == (if gone then NONE else p.interest)
            && Fed(p).error == (!gone && p.error) && Fed(p).spent == (gone || p.spent) && Fed(p).oneshot == p.oneshot
  {
    hide Report;
  }

  /** The step is not about packet `id`. */
  predicate Elsewhere(step: Step, id: Id) {
    step.Pop? || step.StartPolling? || step.Block? || step.Wake? || step.id != id
  }

  lemma OtherPacket(s: State, step: Step, id: Id)
    requires Enabled(s, step) && id in s.packets && Elsewhere(step, id)
    ensures id in Next(s, step).packets && Next(s, step).packets[id] == s.packets[id]
  {
  }

  lemma OtherQueued(s: State, step: Step, id: Id)
    requires Enabled(s, step) && Elsewhere(step, id) && id in s.queue
    ensures id in Next(s, step).queue || id in Next(s, step).updating
  {
    match step
    case Pop => assert s.queue == [s.queue[0]] + s.queue[1..];
    case _ =>
  }

  lemma OtherOwed(s: State, step: Step, id: Id)
    requires Enabled(s, step) && Elsewhere(step, id) && s.Owed(id)
    ensures Next(s, step).Owed(id)
  {
  }

  /** What a step does to the bookkeeping of a packet it is not about. */
  lemma OtherKept(s: State, step: Step, id: Id)
    requires Inv(s) && Enabled(s, step) && id in s.packets && Elsewhere(step, id)
    ensures var t := Next(s, step);
            id in t.packets && PacketOk(t.packets[id]) && Tracked(t, id)
  {
    assert PacketOk(s.packets[id]) && Tracked(s, id);
    hide Inv, Next, Enabled, PacketOk, Elsewhere;
    OtherPacket(s, step, id);
    if id in s.queue { OtherQueued(s, step, id); }
    if s.Owed(id) { OtherOwed(s, step, id); }
  }

  lemma SameKept(s: State, step: Step)
    requires Inv(s) && Enabled(s, step) && !step.Pop? && !step.StartPolling? && !step.Block? && !step.Wake?
    ensures var t := Next(s, step);
            step.id in t.packets && PacketOk(t.packets[step.id]) && Tracked(t, step.id)
  {
    var id := step.id;
    match step
    case Update(_) => UpdatedOk(s.packets[id]);
    case Feed(_) => FedOk(s.packets[id]);
    case Push(_) =>
      var t := Next(s, step);
      assert t.queue[|s.queue|] == id;
    case _ =>
  }

  lemma KnownKept(s: State, step: Step, id: Id)
    requires Inv(s) && Enabled(s, step)
    requires id in Next(s, step).queue || Next(s, step).Owed(id)
    ensures id in Next(s, step).packets
  {
    if step.Pop? { assert s.queue[0] in s.queue; }
    assert id in s.packets || (step.Add? && id == step.id);
  }

  /** Every step keeps the invariant, for every socket. */
  lemma NextInv(s: State, step: Step)
    requires Inv(s) && Enabled(s, step)
    ensures Inv(Next(s, step))
  {
    var t := Next(s, step);
    forall id | id in t.packets ensures PacketOk(t.packets[id]) && Tracked(t, id) {
      if Elsewhere(step, id) {
        OtherKept(s, step, id);
      } else {
        SameKept(s, step);
      }
    }
    forall id | id in t.queue || t.Owed(id) ensures id in t.packets { KnownKept(s, step, id); }
  }

  // ---------------------------------------------------------------- runs

  function Initial(capacity: nat): State {
    State(map[], [], capacity, false, Outside, multiset{}, multiset{}, multiset{})
  }

  /** A run; steps that are not possible are skipped. */
  function Run(s: State, steps: seq<Step>): State
    decreases |steps|
  {
    if steps == [] then s
    else Run(if Enabled(s, steps[0]) then Next(s, steps[0]) else s, steps[1..])
  }

  /** In every reachable state every registered, undeleted socket is polled for the mask of its
      current interest, or queued, or cancelled and about to come back, or owed an update; and no
      socket has more than one kernel operation. */
  lemma {:induction false} AlwaysTracked(s: State, steps: seq<Step>)
    requires Inv(s)
    ensures Inv(Run(s, steps))
    ensures forall id :: id in Run(s, steps).packets ==> Run(s, steps).packets[id].Outstanding() <= 1
    decreases |steps|
  {
    if steps != [] {
      var t := s;
      if Enabled(s, steps[0]) {
        NextInv(s, steps[0]);
        t := Next(s, steps[0]);
      }
      AlwaysTracked(t, steps[1..]);
    }
  }

  lemma InitialInv(capacity: nat)
    ensures Inv(Initial(capacity))
  {
  }

  // ---------------------------------------------------------------- what was asked for

  /** What a user asks for with `add` or `modify`. */
  datatype Ask = Ask(interest: Interest, oneshot: bool)

  /** Whether the socket was deleted, from the steps alone. */
  function Deleted(d: bool, a: Option<Ask>, steps: seq<Step>, id: Id): bool
    decreases |steps|
  {
    if steps == [] then d
    else Deleted(d || (steps[0] == Delete(id) && a.Some?), Asking(a, steps[0], id), steps[1..], id)
  }

  function Asking(a: Option<Ask>, step: Step, id: Id): Option<Ask> {
    if (step.Add? && step.id == id && a.None?) || (step.Modify? && step.id == id && a.Some?)
    then Some(Ask(step.i, step.oneshot)) else a
  }

  /** The last thing asked for a socket, from the steps alone: adding an existing socket and
      modifying an unknown one do not count. */
  function LastAsk(a: Option<Ask>, steps: seq<Step>, id: Id): Option<Ask>
    decreases |steps|
  {
    if steps == [] then a else LastAsk(Asking(a, steps[0], id), steps[1..], id)
  }

  predicate Reporting(r: bool, s: State, step: Step, id: Id)
    requires Enabled(s, step)
  {
    if (step.Add? || step.Modify?) && step.id == id then false
    else r || (step == Feed(id) && Report(s.packets[id]).Some?)
  }

  /** Whether an event was reported for a socket since it was last asked for. */
  predicate ReportedSince(r: bool, s: State, steps: seq<Step>, id: Id)
    decreases |steps|
  {
    if steps == [] then r
    else if !Enabled(s, steps[0]) then ReportedSince(r, s, steps[1..], id)
    else ReportedSince(Reporting(r, s, steps[0], id), Next(s, steps[0]), steps[1..], id)
  }

  /** The mask to poll for: that of what was asked for, or nothing once a one-shot ask was reported. */
  function MaskFor(a: Ask, reported: bool): Mask {
    if a.oneshot && reported then 0 else ToMask(a.interest, true)
  }

  /** A socket is registered once it was asked for, and its packet wants just that. */
  ghost predicate Serves(s: State, id: Id, a: Option<Ask>, r: bool, d: bool) {
    && (id in s.packets <==> a.Some?) && (d ==> a.Some?)
    && (a.Some? ==>
          var p := s.packets[id];
          && p.deleted == d && p.oneshot == a.value.oneshot && p.spent == (a.value.oneshot && r)
          && p.interest == (if p.spent then NONE else a.value.interest) && p.error == !p.spent)
  }

  lemma NextServes(s: State, step: Step, id: Id, a: Option<Ask>, r: bool, d: bool)
    requires Inv(s) && Enabled(s, step) && Serves(s, id, a, r, d)
    ensures Serves(Next(s, step), id, Asking(a, step, id), Reporting(r, s, step, id), d || step == Delete(id))
  {
    hide Inv, Next, Serves, Enabled, Asking, Reporting;
    if Elsewhere(step, id) {
      OtherServes(s, step, id, a, r, d);
    } else if step.Feed? {
      Known(s, id, a, r, d);
      FeedServes(s, id, a.value, r, d);
    } else {
      SameServes(s, step, a, r, d);
    }
  }

  lemma Known(s: State, id: Id, a: Option<Ask>, r: bool, d: bool)
    requires Serves(s, id, a, r, d) && Enabled(s, Feed(id))
    ensures a.Some? && Asking(a, Feed(id), id) == a
  {
  }

  lemma OtherServes(s: State, step: Step, id: Id, a: Option<Ask>, r: bool, d: bool)
    requires Enabled(s, step) && Serves(s, id, a, r, d) && Elsewhere(step, id)
    ensures Asking(a, step, id) == a && Reporting(r, s, step, id) == r && Serves(Next(s, step), id, a, r, d)
    ensures step != Delete(id)
  {
    if id in s.packets { OtherPacket(s, step, id); }
  }

  lemma SameServes(s: State, step: Step, a: Option<Ask>, r: bool, d: bool)
    requires !step.Pop? && !step.StartPolling? && !step.Block? && !step.Wake? && !step.Feed?
    requires Enabled(s, step) && Serves(s, step.id, a, r, d)
    ensures Serves(Next(s, step), step.id, Asking(a, step, step.id), Reporting(r, s, step, step.id),
                   d || step == Delete(step.id))
  {
  }

  lemma FeedServes(s: State, id: Id, a: Ask, r: bool, d: bool)
    requires Inv(s) && Enabled(s, Feed(id)) && Serves(s, id, Some(a), r, d)
    ensures Serves(Next(s, Feed(id)), id, Some(a), Reporting(r, s, Feed(id), id), d)
  {
    assert PacketOk(s.packets[id]);
    FedOk(s.packets[id]);
  }

  lemma {:induction false} RunServes(s: State, steps: seq<Step>, id: Id, a: Option<Ask>, r: bool, d: bool)
    requires Inv(s) && Serves(s, id, a, r, d)
    ensures Serves(Run(s, steps), id, LastAsk(a, steps, id), ReportedSince(r, s, steps, id), Deleted(d, a, steps, id))
    decreases |steps|
  {
    hide Inv, Serves, Next;
    if steps != [] {
      var a', d' := Asking(a, steps[0], id), d || (steps[0] == Delete(id) && a.Some?);
      if Enabled(s, steps[0]) {
        NextInv(s, steps[0]);
        if steps[0] == Delete(id) { Registered(s, id, a, r, d); }
        NextServes(s, steps[0], id, a, r, d);
        RunServes(Next(s, steps[0]), steps[1..], id, a', Reporting(r, s, steps[0], id), d');
      } else {
        NotAsked(s, steps[0], id, a, r, d);
        RunServes(s, steps[1..], id, a, r, d);
      }
    }
  }

  lemma Registered(s: State, id: Id, a: Option<Ask>, r: bool, d: bool)
    requires Serves(s, id, a, r, d) && Enabled(s, Delete(id))
    ensures a.Some?
  {
  }

  lemma NotAsked(s: State, step: Step, id: Id, a: Option<Ask>, r: bool, d: bool)
    requires Serves(s, id, a, r, d) && !Enabled(s, step)
    ensures Asking(a, step, id) == a && !(step == Delete(id) && a.Some?)
  {
  }

  /** After every run a socket is registered exactly if it was asked for, and its packet holds what
      was last asked for, unless that was one-shot and has been reported; it is marked as deleted
      exactly if it was deleted. */
  lemma HoldsLastAsk(capacity: nat, steps: seq<Step>, id: Id)
    ensures var s, a := Run(Initial(capacity), steps), LastAsk(None, steps, id);
            var done := ReportedSince(false, Initial(capacity), steps, id);
            && (id in s.packets <==> a.Some?)
            && (a.Some? ==>
                  && s.packets[id].Wanted() == MaskFor(a.value, done)
                  && s.packets[id].oneshot == a.value.oneshot
                  && s.packets[id].deleted == Deleted(false, None, steps, id)
                  && (!(a.value.oneshot && done) ==> s.packets[id].interest == a.value.interest))
  {
    InitialInv(capacity);
    RunServes(Initial(capacity), steps, id, None, false, false);
  }

  /** The same in full, from the start: a socket that was not deleted is polled for the mask of what
      was last asked for, or queued, or cancelled and about to come back, or owed an update. */
  lemma EverySocketTracked(capacity: nat, steps: seq<Step>, id: Id)
    requires LastAsk(None, steps, id).Some?
    ensures var s := Run(Initial(capacity), steps);
            var done := ReportedSince(false, Initial(capacity), steps, id);
            && id in s.packets
            && var p := s.packets[id];
               && p.Outstanding() <= 1 && (p.status.Idle? <==> p.Outstanding() == 0)
               && if Deleted(false, None, steps, id) then !p.status.Polling?
                  else || p.status == Polling(MaskFor(LastAsk(None, steps, id).value, done)) || id in s.queue
                       || (p.status.Cancelled? && p.Outstanding() == 1)
                       || id in s.owing || id in s.updating || id in s.pushing
  {
    InitialInv(capacity);
    HoldsLastAsk(capacity, steps, id);
    AlwaysTracked(Initial(capacity), steps);
    var s := Run(Initial(capacity), steps);
    assert PacketOk(s.packets[id]) && Tracked(s, id);
  }

  // ---------------------------------------------------------------- progress

  /** The step is taken by the poller, not by a user. */
  predicate Internal(step: Step) {
    step.Load? || step.Update? || step.Push? || step.PushFails? || step.Pop? || step.Complete? || step.Dequeue?
    || step.Feed?
  }

  predicate AllInternal(steps: seq<Step>) { forall k :: 0 <= k < |steps| ==> Internal(steps[k]) }

  /** The socket is polled for what is wanted. */
  predicate Settled(s: State, id: Id) {
    id in s.packets && s.packets[id].status == Polling(s.packets[id].Wanted())
  }

  /** How far an operation that is on its way back still has to go. */
  function WayBack(p: Packet): nat {
    if p.inKernel > 0 then 3 else if p.inPort > 0 then 2 else if p.unlocked > 0 then 1 else 0
  }

  function IndexOf(queue: seq<Id>, id: Id): (k: nat)
    requires id in queue
    ensures k < |queue| && queue[k] == id
  {
    if queue[0] == id then 0 else 1 + IndexOf(queue[1..], id)
  }

  /** How far a packet is from its next update. */
  function WayToUpdate(s: State, id: Id): nat {
    if id in s.updating then 0
    else if id in s.queue then 1 + IndexOf(s.queue, id)
    else if id in s.pushing then 2 + |s.queue|
    else 3 + |s.queue|
  }

  function Stage(p: Packet): nat {
    match p.status case Idle => 0 case Cancelled => 1 case Polling(_) => 2
  }

  function Way(s: State, id: Id): nat
    requires id in s.packets
  {
    if s.packets[id].status.Cancelled? then WayBack(s.packets[id]) else WayToUpdate(s, id)
  }

  /** The step that brings a packet closer to being settled. */
  function Closer(s: State, id: Id): Step
    requires id in s.packets
  {
    var p := s.packets[id];
    if p.status.Cancelled? then
      if p.inKernel > 0 then Complete(id, WasCancelled) else if p.inPort > 0 then Dequeue(id) else Feed(id)
    else if id in s.updating then Update(id)
    else if id in s.queue then Pop
    else if id in s.pushing then (if |s.queue| < s.capacity then Push(id) else Pop)
    else Load(id)
  }

  lemma CloserEnabled(s: State, id: Id)
    requires Inv(s) && s.capacity > 0 && id in s.packets && !s.packets[id].deleted && !Settled(s, id)
    ensures Enabled(s, Closer(s, id)) && Internal(Closer(s, id))
  {
    assert PacketOk(s.packets[id]) && Tracked(s, id);
    NoBits(LOCAL_CLOSE);
  }

  /** An operation on its way back gets closer to idle. */
  lemma BackCloser(s: State, id: Id)
    requires Inv(s) && id in s.packets && s.packets[id].status.Cancelled?
    ensures Enabled(s, Closer(s, id))
    ensures var t := Next(s, Closer(s, id));
            && id in t.packets && t.packets[id].deleted == s.packets[id].deleted
            && (t.packets[id].status.Idle? || (t.packets[id].status.Cancelled? && Way(t, id) < Way(s, id)))
  {
    assert PacketOk(s.packets[id]);
    NoBits(LOCAL_CLOSE);
  }

  lemma PopCloser(s: State, id: Id)
    requires s.queue != [] && id !in s.updating && (id in s.queue || id in s.pushing)
    ensures WayToUpdate(Next(s, Pop), id) < WayToUpdate(s, id)
  {
    assert s.queue == [s.queue[0]] + s.queue[1..];
  }

  lemma PushCloser(s: State, id: Id)
    requires id in s.pushing && |s.queue| < s.capacity && id !in s.updating && id !in s.queue
    ensures WayToUpdate(Next(s, Push(id)), id) < WayToUpdate(s, id)
  {
    var q := s.queue + [id];
    assert q[|s.queue|] == id && id in q;
    assert IndexOf(q, id) <= |s.queue|;
  }

  /** Without a user a packet that waits for an update gets it. */
  lemma UpdateCloser(s: State, id: Id)
    requires Inv(s) && s.capacity > 0 && id in s.packets && !s.packets[id].deleted && !Settled(s, id)
    requires !s.packets[id].status.Cancelled?
    ensures Enabled(s, Closer(s, id))
    ensures var t := Next(s, Closer(s, id));
            && id in t.packets && !t.packets[id].deleted
            && (Settled(t, id) || Stage(t.packets[id]) < Stage(s.packets[id])
                || (t.packets[id] == s.packets[id] && Way(t, id) < Way(s, id)))
  {
    CloserEnabled(s, id);
    var step := Closer(s, id);
    if step.Update? {
      UpdatedOk(s.packets[id]);
    } else if step.Pop? {
      PopCloser(s, id);
    } else if step.Push? {
      PushCloser(s, id);
    }
  }

  /** A socket is never stuck: from every state the invariant allows, the poller alone can bring a
      socket that is not deleted to be polled for what is wanted. */
  lemma {:induction false} CanSettle(s: State, id: Id) returns (steps: seq<Step>)
    requires Inv(s) && s.capacity > 0 && id in s.packets && !s.packets[id].deleted
    ensures AllInternal(steps) && Settled(Run(s, steps), id)
    decreases Stage(s.packets[id]), Way(s, id)
  {
    hide Inv, Next, Enabled;
    if Settled(s, id) { return []; }
    CloserEnabled(s, id);
    var step := Closer(s, id);
    NextInv(s, step);
    CapacityStays(s, step);
    if s.packets[id].status.Cancelled? { BackCloser(s, id); } else { UpdateCloser(s, id); }
    var t := Next(s, step);
    var rest: seq<Step> := [];
    if !Settled(t, id) { rest := CanSettle(t, id); }
    steps := [step] + rest;
    assert steps[0] == step && steps[1..] == rest;
  }

  lemma CapacityStays(s: State, step: Step)
    requires Enabled(s, step)
    ensures Next(s, step).capacity == s.capacity
  {
  }

  /** What becomes of an event: the kernel completes the operation, the packet comes out of the port,
      and what is reported is what happened and was asked for. */
  lemma EventDelivered(s: State, id: Id, events: Mask)
    requires Inv(s) && id in s.packets && s.packets[id].inKernel > 0 && events & LOCAL_CLOSE == 0
    ensures Enabled(s, Complete(id, Happened(events)))
    ensures Enabled(Next(s, Complete(id, Happened(events))), Dequeue(id))
    ensures var t := Next(Next(s, Complete(id, Happened(events))), Dequeue(id));
            && Enabled(t, Feed(id)) && Report(t.packets[id]) == Report(s.packets[id].(outcome := Happened(events)))
            && Next(t, Feed(id)).packets[id].status.Idle?
  {
    assert PacketOk(s.packets[id]);
    hide Report;
    SameReport(s.packets[id].(outcome := Happened(events)),
        Next(Next(s, Complete(id, Happened(events))), Dequeue(id)).packets[id]);
  }

  lemma SameReport(p: Packet, q: Packet)
    requires p.deleted == q.deleted && p.outcome == q.outcome && p.interest == q.interest
    ensures Report(p) == Report(q)
  {
  }

  /** How many updates are due: queued, or in the hands of a thread. */
  function Due(s: State): nat { |s.queue| + |s.owing| + |s.updating| + |s.pushing| }

  /** An update that is due is neither lost nor made up: it moves between the queue and the threads
      until it is run. */
  lemma UpdatesConserved(s: State, step: Step)
    requires Enabled(s, step)
    ensures Due(Next(s, step)) ==
            Due(s) + (if step.Add? || (step.Modify? && NeedsUpdate(Set(s.packets[step.id], step.i, step.oneshot)))
                         || (step.Feed? && !s.packets[step.id].deleted) then 1
                      else if step.Update? then -1 else 0)
  {
  }

  /** The queue never outgrows its capacity, and a thread that wants to push always can, or is told
      that the queue is full. */
  lemma {:induction false} QueueBounded(s: State, steps: seq<Step>)
    requires |s.queue| <= s.capacity
    ensures var t := Run(s, steps);
            && |t.queue| <= s.capacity == t.capacity
            && forall id :: id in t.pushing ==>
                 && (Enabled(t, Push(id)) <==> |t.queue| < t.capacity)
                 && (Enabled(t, PushFails(id)) <==> |t.queue| == t.capacity)
    decreases |steps|
  {
    if steps != [] {
      QueueBounded(if Enabled(s, steps[0]) then Next(s, steps[0]) else s, steps[1..]);
    }
  }

  /** `Afd::poll` never finds the packet locked, so a packet marked as polling has its operation. */
  lemma PollIsNeverRefused(s: State, id: Id)
    requires Inv(s) && id in s.packets && id in s.updating
    requires !s.packets[id].deleted && s.packets[id].status.Idle?
    ensures var t := Next(s, Update(id));
            && s.packets[id].Outstanding() == 0 && t.packets[id].inKernel == 1
            && t.packets[id].status == Polling(t.packets[id].Wanted())
  {
    UpdatedOk(s.packets[id]);
  }

  /** How many events a run reports for a socket. */
  function Reports(s: State, steps: seq<Step>, id: Id): nat
    decreases |steps|
  {
    if steps == [] then 0
    else if !Enabled(s, steps[0]) then Reports(s, steps[1..], id)
    else
      var one := if steps[0] == Feed(id) && Report(s.packets[id]).Some? then 1 else 0;
      one + Reports(Next(s, steps[0]), steps[1..], id)
  }

  /** Reporting a one-shot interest spends it. */
  lemma ReportSpends(s: State, id: Id)
    requires Inv(s) && Enabled(s, Feed(id)) && Report(s.packets[id]).Some? && s.packets[id].oneshot
    ensures Next(s, Feed(id)).packets[id].spent
  {
  }

  lemma SpentStays(s: State, step: Step, id: Id)
    requires Inv(s) && Enabled(s, step) && id in s.packets && s.packets[id].spent && !(step.Modify? && step.id == id)
    ensures id in Next(s, step).packets && Next(s, step).packets[id].spent
  {
    if step.Feed? && step.id == id { FedOk(s.packets[id]); }
  }

  /** After a one-shot socket has reported an event, nothing more is reported for it until it is
      modified, however many operations complete in between. */
  lemma {:induction false} OneshotReportsOnce(s: State, steps: seq<Step>, id: Id)
    requires Inv(s) && id in s.packets && s.packets[id].spent
    requires forall k :: 0 <= k < |steps| ==> !(steps[k].Modify? && steps[k].id == id)
    ensures Reports(s, steps, id) == 0
    decreases |steps|
  {
    if steps != [] {
      assert !(steps[0].Modify? && steps[0].id == id);
      if Enabled(s, steps[0]) {
        NextInv(s, steps[0]);
        SpentStays(s, steps[0], id);
        if steps[0] == Feed(id) { FedOk(s.packets[id]); }
        OneshotReportsOnce(Next(s, steps[0]), steps[1..], id);
      } else {
        OneshotReportsOnce(s, steps[1..], id);
      }
    }
  }

  /** The polling flag says whether the waiter is inside its loop. */
  ghost predicate FlagOk(s: State) { s.polling <==> !s.waiter.Outside? }

  lemma {:induction false} AlwaysFlagged(s: State, steps: seq<Step>)
    requires FlagOk(s)
    ensures FlagOk(Run(s, steps))
    decreases |steps|
  {
    if steps != [] {
      AlwaysFlagged(if Enabled(s, steps[0]) then Next(s, steps[0]) else s, steps[1..]);
    }
  }

  predicate WakeFree(steps: seq<Step>) { forall k :: 0 <= k < |steps| ==> !steps[k].Wake? }

  /** While the waiter sleeps, nobody new comes to push: an empty queue that no thread is about to
      push to stays empty. */
  lemma {:induction false} StaysEmpty(s: State, later: seq<Step>)
    requires s.polling && s.waiter.Blocked? && s.queue == [] && s.pushing == multiset{} && WakeFree(later)
    ensures Run(s, later).queue == []
    decreases |later|
  {
    if later != [] {
      assert !later[0].Wake?;
      StaysEmpty(if Enabled(s, later[0]) then Next(s, later[0]) else s, later[1..]);
    }
  }

  /** A thread that read the polling flag before the waiter set it can push once the waiter sleeps. */
  lemma CanQueue(s: State, id: Id)
    requires s.queue == [] && s.capacity > 0 && id in s.pushing
    ensures Run(s, [Push(id)]).queue == [id] && WakeFree([Push(id)])
  {
    assert [Push(id)][1..] == [];
    assert Run(Next(s, Push(id)), []) == Next(s, Push(id));
  }

  /** Updates are meant to run at once while the waiter sleeps in the port. They do, all of them,
      until it wakes, if and only if no thread was about to push when it went to sleep: then, and
      only then, no run without a wake leaves anything in the queue. */
  lemma ImmediateUnlessPushing(capacity: nat, before: seq<Step>)
    requires capacity > 0
    requires var s := Run(Initial(capacity), before); s.waiter.Blocked? && s.queue == []
    ensures var s := Run(Initial(capacity), before);
            && s.polling
            && ((forall later :: WakeFree(later) ==> Run(s, later).queue == []) <==> s.pushing == multiset{})
  {
    var s := Run(Initial(capacity), before);
    AlwaysFlagged(Initial(capacity), before);
    CapacityKept(Initial(capacity), before);
    if s.pushing == multiset{} {
      forall later | WakeFree(later) ensures Run(s, later).queue == [] { StaysEmpty(s, later); }
    } else {
      var id :| id in s.pushing;
      CanQueue(s, id);
    }
  }

  lemma {:induction false} CapacityKept(s: State, steps: seq<Step>)
    ensures Run(s, steps).capacity == s.capacity
    decreases |steps|
  {
    if steps != [] {
      CapacityKept(if Enabled(s, steps[0]) then Next(s, steps[0]) else s, steps[1..]);
    }
  }

  /** What such a thread leaves behind: the update sits in the queue, the socket is not polled, and
      nobody owes it anything. */
  lemma QueuedWhileBlocked(s: State, id: Id)
    requires Inv(s) && s.waiter.Outside? && s.queue == [] && s.capacity > 0
    requires id in s.packets && s.packets[id].status.Idle?
    requires s.pushing == multiset{id} && id !in s.owing && id !in s.updating
    ensures Enabled(s, StartPolling) && Enabled(Next(s, StartPolling), Block)
    ensures Enabled(Next(Next(s, StartPolling), Block), Push(id))
    ensures var t := Next(Next(Next(s, StartPolling), Block), Push(id));
            Inv(t) && t.waiter.Blocked? && t.queue == [id] && t.packets[id].status.Idle? && !t.Owed(id)
  {
    var s1 := Next(s, StartPolling);
    var s2 := Next(s1, Block);
    NextInv(s, StartPolling);
    NextInv(s1, Block);
    NextInv(s2, Push(id));
  }

  /** Such a thread exists as soon as a socket is added while nobody is polling. */
  lemma PusherReachable(s: State, id: Id, i: Interest, oneshot: bool)
    requires Inv(s) && s.waiter.Outside? && !s.polling && s.queue == [] && id !in s.packets && s.pushing == multiset{}
    ensures Enabled(s, Add(id, i, oneshot)) && Enabled(Next(s, Add(id, i, oneshot)), Load(id))
    ensures var t := Next(Next(s, Add(id, i, oneshot)), Load(id));
            && Inv(t) && t.waiter.Outside? && t.queue == [] && t.packets[id].status.Idle?
            && t.pushing == multiset{id} && id !in t.owing && id !in t.updating
  {
    hide Inv, Next;
    JustAdded(s, id, i, oneshot);
    var s1 := Next(s, Add(id, i, oneshot));
    NextInv(s, Add(id, i, oneshot));
    JustLoaded(s1, id);
    NextInv(s1, Load(id));
  }

  lemma JustAdded(s: State, id: Id, i: Interest, oneshot: bool)
    requires Inv(s) && id !in s.packets
    ensures var t := Next(s, Add(id, i, oneshot));
            && t.owing[id] == 1 && id !in t.updating && id in t.packets && t.packets[id].status.Idle?
            && t.pushing == s.pushing && t.queue == s.queue && t.waiter == s.waiter && t.polling == s.polling
  {
    assert !s.Owed(id);
  }

  lemma JustLoaded(s: State, id: Id)
    requires id in s.packets && s.owing[id] == 1 && !s.polling
    ensures var t := Next(s, Load(id));
            && id !in t.owing && t.updating == s.updating && t.pushing == s.pushing + multiset{id}
            && t.packets == s.packets && t.queue == s.queue && t.waiter == s.waiter
  {
  }
}
