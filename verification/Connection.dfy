/** One connection: the flag word, the two buffers, the three waker slots and the deferred-write
    mark that the application, the dispatcher and the I/O driver share. All of it lives on one
    thread, so a public call is one step; the driver may do anything its context lets it do,
    including inside a direct write. This module has the state, its invariant and the elementary
    state changes; the calls themselves are methods of `IoRef` in module ConnectionRuns.

    The state also records its own history: what was accepted and taken, received and consumed,
    what is in flight, which task waits after a `Pending` answer and whose turn it is to write.
    No decision depends on those. */
module Connection {
  import opened Common

  type Id = nat
  type Error = nat

  /** The flag word, by prefix: `IO_`, `RD_` with `BUF_R_READY`, `WR_` with `DIRECT_WR_SUP`, `DSP_`. */
  datatype StopFlags = StopFlags(stopped: bool, stopping: bool, filters: bool) {
    predicate Closed() { stopping || stopped }
    predicate Any() { stopped || stopping || filters }
  }
  datatype ReadFlags = ReadFlags(paused: bool, backpressure: bool, notify: bool, notified: bool, ready: bool)
  datatype WriteFlags = WriteFlags(flush: bool, paused: bool, notify: bool, sendOp: bool, direct: bool)
  datatype DispatchFlags = DispatchFlags(timeout: bool, backpressure: bool)

  datatype Config = Config(readHigh: nat, writeHigh: nat, writeHalf: nat, threshold: nat)

  /** The three waker slots; whoever got `Pending` and has not been woken since (the dispatcher in
      a receive or in a full flush, the driver waiting to read); and the write task's turns:
      `woken`, it was woken and has not asked since, `owes`, it was told to write and has not
      reported since. */
  datatype Tasks = Tasks(
    readWaker: bool, writeWaker: bool, dispatchWaker: bool,
    recvParked: bool, flushParked: bool, readParked: bool, woken: bool, owes: bool)
  {
    function WakeRead(): Tasks { this.(readWaker := false, readParked := false) }
    function WakeWrite(): Tasks { this.(writeWaker := false, woken := woken || writeWaker) }
    function WakeDispatch(): Tasks { this.(dispatchWaker := false, recvParked := false, flushParked := false) }
    /** Every waiter here was waiting in `t` too. */
    predicate Within(t: Tasks) {
      && (recvParked ==> t.recvParked) && (flushParked ==> t.flushParked)
      && (readParked ==> t.readParked)
    }
  }

  /** Everybody was woken and nobody has asked since. */
  const NOBODY := Tasks(false, false, false, false, false, false, true, false)

  /** The write buffer; the bytes the driver has taken and not put back; how many of those, at the
      end, are in flight, so that the driver may still put them back; whether it has taken any
      since its last report; all bytes accepted so far. */
  datatype Outgoing = Outgoing(wbuf: seq<byte>, taken: seq<byte>, flying: nat, due: bool, accepted: seq<byte>) {
    ghost predicate Conserved() { accepted == taken + wbuf && flying <= |taken| }
    /** There is nothing left to write or for the driver to report on. */
    predicate Quiet() { wbuf == [] && !due }
    /** How many accepted bytes have not been sent for good. */
    function Unsent(): nat { |wbuf| + flying }
  }

  /** The read buffer, the buffer an in-flight read holds, all bytes read and all bytes decoded. */
  datatype Incoming = Incoming(
    slot: Option<seq<byte>>, held: Option<seq<byte>>, received: seq<byte>, consumed: seq<byte>)
  {
    ghost predicate Conserved() { received == consumed + Bytes(slot) + Bytes(held) && slot != Some([]) }
  }

  /** What an `IoRef` points to. `abrupt`: the connection was terminated, or its shutdown timed
      out, before the filters stopped. `atStop`: how many bytes were in flight when they stopped. */
  datatype IoState = IoState(
    stop: StopFlags, rd: ReadFlags, wr: WriteFlags, dsp: DispatchFlags,
    out: Outgoing, inc: Incoming, tasks: Tasks,
    handle: bool, error: Option<Error>, abrupt: bool, atStop: nat)

  function Bytes(b: Option<seq<byte>>): seq<byte> {
    match b case None => [] case Some(s) => s
  }

  function Slot(s: seq<byte>): (r: Option<seq<byte>>)
    ensures Bytes(r) == s && r != Some([])
  {
    if s == [] then None else Some(s)
  }

  function Min(a: nat, b: nat): nat { if a <= b then a else b }

  // ---------------------------------------------------------------- invariant

  ghost predicate StopOrder(f: StopFlags) {
    (f.stopped ==> f.stopping) && (f.stopping ==> f.filters)
  }

  /** A parked task has its waker registered and a reason to wait; nobody waits on a closed
      connection. The write task has its waker registered or is about to ask. */
  ghost predicate ParkedOk(t: Tasks, stop: StopFlags, rd: ReadFlags, flush: bool, quiet: bool) {
    && (t.recvParked ==> t.dispatchWaker && !rd.paused && !rd.ready && !stop.Closed())
    && (t.flushParked ==> t.dispatchWaker && flush && !stop.Closed() && !quiet)
    && (t.readParked ==> t.readWaker && rd.paused && !stop.Any())
    && (t.writeWaker || t.woken)
  }

  ghost predicate Base(s: IoState) {
    && StopOrder(s.stop) && (s.rd.backpressure ==> s.rd.paused)
    && (s.stop.stopping && !s.abrupt ==> s.out.Unsent() <= s.atStop)
    && s.out.Conserved() && s.inc.Conserved()
    && ParkedOk(s.tasks, s.stop, s.rd, s.wr.flush, s.out.Quiet())
  }

  /** While the connection is open, bytes in the write buffer of a paused write task have a send
      scheduled, and if it is not marked paused somebody is about to write: the scheduled
      send, the write task that was woken, or the driver that was told to go on. */
  ghost predicate Scheduled(s: IoState) {
    !s.stop.Closed() ==>
      && s.handle
      && (s.wr.paused && s.out.wbuf != [] ==> s.wr.sendOp)
      && (s.wr.paused || Attended(s))
  }

  predicate Attended(s: IoState) { s.wr.sendOp || s.tasks.woken || s.tasks.owes }

  ghost predicate Good(s: IoState) { Base(s) && Scheduled(s) }

  /** What no step ever undoes: stop flags, and the histories. */
  ghost predicate Later(s: IoState, t: IoState) {
    && (s.stop.stopped ==> t.stop.stopped) && (s.stop.stopping ==> t.stop.stopping)
    && (s.stop.filters ==> t.stop.filters)
    && s.out.accepted <= t.out.accepted && s.inc.received <= t.inc.received && s.inc.consumed <= t.inc.consumed
    && (s.abrupt ==> t.abrupt) && (s.stop.stopping ==> t.abrupt == s.abrupt && t.atStop == s.atStop)
  }

  lemma LaterTrans(s: IoState, t: IoState, u: IoState)
    requires Later(s, t) && Later(t, u)
    ensures Later(s, u)
  {
  }

  // ---------------------------------------------------------------- the environment's choices

  /** What a driver can do to the write side, in any order: take bytes off the front of the write
      buffer; learn that the first of the bytes in flight are sent; complete an operation, which
      puts back the last of the bytes in flight and then reports progress or an error, whether or
      not it has reported while they were in flight; and, on a closed stream, put back alone. */
  datatype Act =
    | Take(n: nat) | Land(n: nat) | Complete(back: nat, written: bool) | Fail(back: nat, err: Error)
    | PutBack(n: nat)

  predicate Fails(acts: seq<Act>) { exists k :: 0 <= k < |acts| && acts[k].Fail? }

  /** The parts of the state that write-side work leaves alone. */
  ghost predicate SameReads(s: IoState, r: IoState) {
    r.inc == s.inc && r.out.accepted == s.out.accepted
  }

  /** What the driver's own work leaves alone. */
  ghost predicate SameRest(s: IoState, r: IoState) { SameReads(s, r) && r.dsp == s.dsp }

  /** If the stream was stopped in between, then by an abort. */
  ghost predicate OnlyAborted(s: IoState, r: IoState) {
    r.stop.Closed() ==> s.stop.Closed() || r.abrupt
  }

  /** The driver does not touch what decides how bytes get to it. */
  predicate SameRoute(w: WriteFlags, u: WriteFlags) { u.sendOp == w.sendOp && u.direct == w.direct }

  /** What the driver's work as a whole respects. */
  ghost predicate Driven(s: IoState, r: IoState) {
    && Later(s, r) && SameRest(s, r) && r.tasks.Within(s.tasks) && SameRoute(s.wr, r.wr) && OnlyAborted(s, r)
    && (!r.stop.Closed() ==> r.stop == s.stop)
  }

  lemma DrivenTrans(s: IoState, t: IoState, u: IoState)
    requires Driven(s, t) && Driven(t, u)
    ensures Driven(s, u)
  {
  }

  datatype TaskStatus = More | Pause | Stop
  /** What a codec makes of the bytes it is shown. */
  datatype Codec = Frame | Partial | Malformed
  datatype Recv = Item | NoItem | DecodeError | PeerGone | KeepAlive | WriteBackpressure
  datatype Flush = FlushPending | FlushDone | FlushError
  datatype Vectored = Unsupported | Took(n: nat) | WriteError
  datatype Poll = Pending | Ready | Terminate

  // ---------------------------------------------------------------- stopping

  /** `terminate_connection`. */
  function Terminated(s: IoState, err: Option<Error>): (r: IoState)
    requires Base(s)
    ensures Good(r) && Later(s, r) && r.tasks.Within(s.tasks) && r.stop.stopped
    ensures r.abrupt <==> s.abrupt || !s.stop.stopping
    ensures r.wr == s.wr && r.out == s.out && r.inc == s.inc && r.dsp == s.dsp && (s.stop.stopped ==> r == s)
    ensures !s.stop.stopped ==>
              r.tasks == NOBODY && !r.handle && r.rd == s.rd.(ready := true)
              && r.error == if err.Some? then err else s.error
  {
    if s.stop.stopped then s
    else s.(stop := StopFlags(true, true, true), rd := s.rd.(ready := true), handle := false, tasks := NOBODY,
            error := if err.Some? then err else s.error, abrupt := s.abrupt || !s.stop.stopping)
  }

  /** `filters_stopped`: reader and writer may now close the stream. */
  function FiltersStopped(s: IoState): (r: IoState)
    requires Base(s) && s.stop.filters && (s.abrupt || s.stop.stopping || s.out.wbuf == [])
    ensures Good(r) && Later(s, r) && r.tasks.Within(s.tasks) && r.stop.stopping
            && r == s.(stop := r.stop, tasks := r.tasks, atStop := r.atStop)
    ensures r.tasks == NOBODY && (!s.stop.stopping ==> r.atStop == s.out.flying)
    ensures r.stop == s.stop.(stopping := true)
  {
    s.(stop := s.stop.(stopping := true), tasks := NOBODY,
       atStop := if s.stop.stopping then s.atStop else s.out.flying)
  }

  /** `start_shutdown`, also reached by `close`. */
  function ShutdownStarted(s: IoState): (r: IoState)
    requires Good(s)
    ensures Good(r) && Later(s, r) && r.tasks.Within(s.tasks) && r.stop.filters
    ensures r.stop == s.stop.(filters := true) && r == s.(stop := r.stop, tasks := r.tasks)
    ensures if s.stop.Any() then r == s else !r.tasks.readWaker && !r.tasks.writeWaker && r.tasks.woken
  {
    if s.stop.Any() then s
    else s.(stop := s.stop.(filters := true), tasks := s.tasks.WakeRead().WakeWrite())
  }

  // ---------------------------------------------------------------- driver, write side

  /** Bytes moved between the write buffer and the driver: none is lost or made up, none comes
      back from the wire, and a flush that waits still has something to wait for. */
  ghost predicate Shifted(o: Outgoing, r: Outgoing) {
    r.Conserved() && r.accepted == o.accepted && r.Unsent() <= o.Unsent() && (r.Quiet() ==> o.Quiet())
  }

  lemma Regroup(a: seq<byte>, b: seq<byte>, k: nat)
    requires k <= |b|
    ensures a + b == a + b[..k] + b[k..]
  {
  }

  /** The driver removes bytes from the front of the write buffer; they are in flight. */
  function Taken(o: Outgoing, n: nat): (r: Outgoing)
    requires o.Conserved()
    ensures Shifted(o, r)
    ensures r.wbuf == o.wbuf[Min(n, |o.wbuf|)..] && r.flying == o.flying + Min(n, |o.wbuf|)
    ensures r.due <==> o.due || |r.wbuf| < |o.wbuf|
  {
    var k := Min(n, |o.wbuf|);
    Regroup(o.taken, o.wbuf, k);
    o.(taken := o.taken + o.wbuf[..k], flying := o.flying + k, due := o.due || k > 0, wbuf := o.wbuf[k..])
  }

  /** The first of the bytes in flight are sent for good. */
  function Landed(o: Outgoing, n: nat): (r: Outgoing)
    requires o.Conserved()
    ensures Shifted(o, r) && r.wbuf == o.wbuf && r.flying == o.flying - Min(n, o.flying)
  {
    o.(flying := o.flying - Min(n, o.flying))
  }

  /** The driver puts the last of the bytes in flight back in front. */
  function Returned(o: Outgoing, n: nat): (r: Outgoing)
    requires o.Conserved()
    ensures Shifted(o, r) && r.flying == o.flying - Min(n, o.flying)
    ensures r.wbuf == o.taken[|o.taken| - Min(n, o.flying)..] + o.wbuf
  {
    var k := Min(n, o.flying);
    var cut := |o.taken| - k;
    Regroup([], o.taken, cut);
    o.(wbuf := o.taken[cut..] + o.wbuf, taken := o.taken[..cut], flying := o.flying - k)
  }

  /** Who `update_write_status` wakes. */
  function Announced(t: Tasks, s: IoState, written: bool, half: nat): (r: Tasks)
    ensures r.Within(t) && r.owes == t.owes && (t.writeWaker || t.woken ==> r.writeWaker || r.woken)
    ensures s.wr.flush && s.out.wbuf == [] ==> !r.dispatchWaker && !r.flushParked && !r.recvParked
    ensures !s.wr.flush && s.dsp.backpressure && |s.out.wbuf| <= half ==>
              !r.dispatchWaker && !r.flushParked && !r.recvParked
    ensures written && s.wr.notify ==> !r.readWaker && !r.writeWaker && (t.writeWaker ==> r.woken)
    ensures !s.stop.Closed() && s.out.wbuf == [] && s.stop.filters ==> !r.readWaker
  {
    var told := if s.wr.flush then s.out.wbuf == [] else s.dsp.backpressure && |s.out.wbuf| <= half;
    var a := if told then t.WakeDispatch() else t;
    var b := if written && s.wr.notify then a.WakeRead().WakeWrite() else a;
    if !s.stop.Closed() && s.out.wbuf == [] && s.stop.filters then b.WakeRead() else b
  }

  /** Nobody is woken without one of those reasons. */
  lemma NobodyElseWoken(t: Tasks, s: IoState, written: bool, half: nat)
    ensures var r := Announced(t, s, written, half);
            && (t.dispatchWaker && !r.dispatchWaker ==>
                  if s.wr.flush then s.out.wbuf == [] else s.dsp.backpressure && |s.out.wbuf| <= half)
            && (t.writeWaker && !r.writeWaker ==> written && s.wr.notify)
            && (t.readWaker && !r.readWaker ==>
                  (written && s.wr.notify) || (!s.stop.Closed() && s.out.wbuf == [] && s.stop.filters))
  {
  }

  /** `update_write_status` after a write that moved bytes or did not. A driver with bytes left to
      write is told to go on. */
  function Reported(s: IoState, written: bool, half: nat): (r: IoState)
    requires Base(s)
    ensures Base(r) && Later(s, r) && r.tasks.Within(s.tasks) && r.out == s.out.(due := false)
    ensures r == s.(out := r.out, tasks := r.tasks, wr := r.wr) && SameRoute(s.wr, r.wr)
    ensures !r.stop.Closed() ==> (r.wr.paused <==> r.out.wbuf == []) && (r.wr.paused <==> !r.tasks.owes)
    ensures r.wr == s.wr.(paused := r.wr.paused, notify := s.wr.notify && !written)
    ensures r.tasks == Announced(s.tasks, s, written, half).(owes := r.tasks.owes)
  {
    s.(out := s.out.(due := false),
       tasks := Announced(s.tasks, s, written, half).(owes := WriteStatus(s).More?),
       wr := s.wr.(paused := if s.stop.Closed() then s.wr.paused else s.out.wbuf == [],
                   notify := s.wr.notify && !written))
  }

  /** The answer of `update_write_status`. */
  function WriteStatus(s: IoState): TaskStatus {
    if s.stop.Closed() then Stop else if s.out.wbuf == [] then Pause else More
  }

  /** Bytes move between the write buffer and the driver. */
  function Moved(s: IoState, o: Outgoing): (r: IoState)
    requires Base(s) && Shifted(s.out, o)
    ensures Base(r) && Later(s, r) && r == s.(out := o)
  {
    s.(out := o)
  }

  /** What an act does to the bytes. */
  function Acted(o: Outgoing, a: Act): (r: Outgoing)
    requires o.Conserved()
    ensures r.Conserved() && r.accepted == o.accepted && r.Unsent() <= o.Unsent()
  {
    match a
    case Take(n) => Taken(o, n)
    case Land(n) => Landed(o, n)
    case Complete(back, written) => Returned(o, back).(due := false)
    case Fail(back, err) => Returned(o, back)
    case PutBack(n) => Returned(o, n)
  }

  /** What the acts in one direct write do to the bytes; until one of them fails the stream is
      open, and then nothing is put back without a report. */
  function DirectOut(o: Outgoing, closed: bool, acts: seq<Act>): (r: Outgoing)
    requires o.Conserved()
    ensures r.Conserved() && r.accepted == o.accepted && r.Unsent() <= o.Unsent()
    decreases |acts|
  {
    if acts == [] then o
    else DirectOut(if acts[0].PutBack? && !closed then o else Acted(o, acts[0]), closed || acts[0].Fail?, acts[1..])
  }

  /** Everything a driver does to the bytes in one run. */
  function AllActed(o: Outgoing, acts: seq<Act>): (r: Outgoing)
    requires o.Conserved()
    ensures r.Conserved() && r.accepted == o.accepted && r.Unsent() <= o.Unsent()
    decreases |acts|
  {
    if acts == [] then o else AllActed(Acted(o, acts[0]), acts[1..])
  }

  // ---------------------------------------------------------------- scheduling writes

  /** What holds when `consolidate_write_state` is called: new bytes may lie in the write buffer
      without a send scheduled for them. */
  ghost predicate Schedulable(s: IoState) {
    !s.stop.Closed() ==>
      s.handle && (s.wr.paused || Attended(s))
  }

  /** Bytes are sent in place: there are some, nobody is writing, the driver can, and the caller
      insists or there are enough of them. */
  predicate SendsNow(s: IoState, force: bool, threshold: nat) {
    s.out.wbuf != [] && s.wr.paused && s.wr.direct && s.handle && (force || |s.out.wbuf| >= threshold)
  }

  /** Write back-pressure begins, and the dispatcher is told. */
  function Pressed(s: IoState): (r: IoState)
    requires Good(s)
    ensures Good(r) && Later(s, r) && r.tasks.Within(s.tasks)
    ensures r == s.(dsp := s.dsp.(backpressure := true), tasks := s.tasks.WakeDispatch())
  {
    s.(dsp := s.dsp.(backpressure := true), tasks := s.tasks.WakeDispatch())
  }

  /** The application adds bytes at the end of the write buffer. */
  function Appended(o: Outgoing, src: seq<byte>): (r: Outgoing)
    requires o.Conserved()
    ensures r.Conserved() && r.accepted == o.accepted + src && r.wbuf == o.wbuf + src
            && r == o.(wbuf := r.wbuf, accepted := r.accepted)
  {
    assert o.taken + o.wbuf + src == o.taken + (o.wbuf + src);
    o.(wbuf := o.wbuf + src, accepted := o.accepted + src)
  }

  /** The dispatch task runs again. */
  function Polled(s: IoState): (r: IoState)
    requires Good(s)
    ensures Good(r) && Later(s, r) && !r.tasks.recvParked && !r.tasks.flushParked && r == s.(tasks := r.tasks)
  {
    s.(tasks := s.tasks.(recvParked := false, flushParked := false))
  }

  // ---------------------------------------------------------------- driver, read side

  /** `get_read_buf`: the read buffer itself, unless the dispatcher has yet to look at it. */
  function Fetched(i: Incoming, ready: bool): (r: Incoming)
    requires i.Conserved() && i.held.None?
    ensures r.Conserved() && r.held.Some? && r.received == i.received && r.consumed == i.consumed
    ensures if ready then r.slot == i.slot else r.slot.None?
    ensures Bytes(r.slot) + r.held.value == Bytes(i.slot)
  {
    if ready || i.slot.None? then i.(held := Some([])) else i.(slot := None, held := i.slot)
  }

  /** `set_read_buf` with the driver's buffer, to which the read added `data`: the one it fetched,
      or one of its own, which was empty. */
  function Stored(i: Incoming, data: seq<byte>): (r: Incoming)
    requires i.Conserved()
    ensures r.Conserved() && r.held.None? && r.received == i.received + data && r.consumed == i.consumed
    ensures Bytes(r.slot) == Bytes(i.slot) + Bytes(i.held) + data
  {
    var buf := Bytes(i.held) + data;
    assert i.received + data == i.consumed + (Bytes(i.slot) + buf);
    i.(slot := if i.slot.Some? then Some(i.slot.value + buf) else Slot(buf),
       held := None, received := i.received + data)
  }

  /** The read flags after `update_read_status` saw the read buffer grow to `size`. */
  function Grown(rd: ReadFlags, size: nat, high: nat): ReadFlags {
    var f := if size >= high then rd.(paused := true, ready := true, backpressure := true) else rd.(ready := true);
    if rd.notify then f.(notified := true) else f
  }

  /** `update_read_status` after a read of `data`: new bytes always wake the dispatcher. */
  function ReadReported(s: IoState, data: seq<byte>, high: nat): (r: IoState)
    requires Good(s)
    ensures Good(r) && Later(s, r) && r.tasks.Within(s.tasks)
    ensures r == s.(inc := Stored(s.inc, data), rd := r.rd, tasks := r.tasks)
    ensures data != [] ==> r.rd.ready && !r.tasks.recvParked && !r.tasks.flushParked && (s.rd.notify ==> r.rd.notified)
    ensures data == [] ==> r.rd == s.rd && r.tasks == s.tasks
    ensures data != [] ==>
              var full := |Bytes(r.inc.slot)| >= high;
              && r.rd.backpressure == (s.rd.backpressure || full) && r.rd.paused == (s.rd.paused || full)
              && r.tasks == s.tasks.WakeDispatch() && r.rd.notify == s.rd.notify
  {
    var i := Stored(s.inc, data);
    if data == [] then s.(inc := i)
    else s.(inc := i, rd := Grown(s.rd, |Bytes(i.slot)|, high), tasks := s.tasks.WakeDispatch())
  }

  /** `update_read_status` after a failed read; the buffer still comes back. */
  function ReadFailed(s: IoState, data: seq<byte>, err: Error): (r: IoState)
    requires Good(s)
    ensures Good(r) && Later(s, r) && r.stop.stopped && r.inc == Stored(s.inc, data) && r.wr == s.wr && r.out == s.out
    ensures !s.stop.stopped ==> r.error == Some(err) && r.tasks == NOBODY
  {
    Terminated(s.(inc := Stored(s.inc, data)), Some(err))
  }

  function ReadStatus(s: IoState): TaskStatus {
    if s.stop.Closed() then Stop else if s.rd.paused || s.rd.backpressure then Pause else More
  }

  /** `Base::poll_read_ready` for the read task. */
  function ReadWaited(s: IoState): (r: IoState)
    requires Good(s)
    ensures Good(r) && Later(s, r) && r == s.(tasks := r.tasks) && (r.tasks.readParked <==> ReadAnswer(s).Pending?)
    ensures r.tasks.readParked <==> !s.stop.Any() && s.rd.paused
    ensures !s.stop.Closed() ==> r.tasks.readWaker
  {
    if s.stop.Closed() then s
    else s.(tasks := s.tasks.(readWaker := true, readParked := ReadAnswer(s).Pending?))
  }

  function ReadAnswer(s: IoState): Poll {
    if s.stop.Closed() then Terminate
    else if s.stop.filters then Ready
    else if s.rd.paused || s.rd.backpressure then Pending
    else Ready
  }

  /** `Base::poll_write_ready` for the write task. */
  function WriteWaited(s: IoState): (r: IoState)
    requires Good(s)
    ensures Good(r) && Later(s, r) && r == s.(tasks := r.tasks)
    ensures !s.stop.Closed() ==> r.tasks.writeWaker && !r.tasks.woken
    ensures r.tasks.owes == (s.tasks.owes || (!s.stop.Closed() && !s.wr.paused))
  {
    if s.stop.Closed() then s
    else s.(tasks := s.tasks.(writeWaker := true, woken := false, owes := s.tasks.owes || WriteAnswer(s).Ready?))
  }

  function WriteAnswer(s: IoState): Poll {
    if s.stop.Closed() then Terminate else if s.wr.paused then Pending else Ready
  }

  /** `IoContext::shutdown`: the driver waits for the stream to close, or first for a flush. */
  function CloseWaited(s: IoState, flush: bool): (r: IoState)
    requires Good(s)
    ensures Good(r) && Later(s, r) && r.wr.sendOp == s.wr.sendOp
    ensures CloseAnswer(s, flush).Ready? ==> r == s
    ensures CloseAnswer(s, flush).Ready? <==> if flush && !s.stop.stopping then s.wr.paused else s.stop.stopping
    ensures CloseAnswer(s, flush).Pending? ==> r.tasks.readWaker && r.tasks.writeWaker
    ensures CloseAnswer(s, flush).Pending? ==>
              && r == s.(wr := r.wr, tasks := r.tasks)
              && r.wr == s.wr.(notify := s.wr.notify || (flush && !s.stop.stopping))
  {
    if CloseAnswer(s, flush).Ready? then s
    else s.(tasks := s.tasks.(readWaker := true, writeWaker := true),
            wr := s.wr.(notify := s.wr.notify || (flush && !s.stop.stopping)))
  }

  function CloseAnswer(s: IoState, flush: bool): Poll {
    if flush && !s.stop.stopping then (if s.wr.paused then Ready else Pending)
    else if !s.stop.Closed() then Pending
    else Ready
  }

  // ---------------------------------------------------------------- dispatcher and application

  /** `update_read_destination` once `len` bytes are left in the read buffer. */
  function Destined(s: IoState, len: nat, high: nat): (r: IoState)
    requires Good(s)
    ensures Good(r) && Later(s, r) && r.tasks.Within(s.tasks) && r == s.(rd := r.rd, tasks := r.tasks)
    // over the mark, back-pressure stays as it is; otherwise reading resumes
    ensures s.rd.backpressure && len >= high ==> r == s
    ensures !(s.rd.backpressure && len >= high) ==>
              && !r.rd.paused && !r.rd.backpressure && !r.rd.ready
              && r.tasks == if s.rd.paused then s.tasks.WakeRead() else s.tasks
    ensures r.rd.notify == s.rd.notify && r.rd.notified == s.rd.notified
  {
    if s.rd.backpressure && len >= high then s
    else if s.rd.paused then
      s.(rd := s.rd.(ready := false, backpressure := false, paused := false), tasks := s.tasks.WakeRead())
    else s.(rd := s.rd.(ready := false))
  }

  /** A codec takes `n` bytes off the read buffer. */
  function Consumed(i: Incoming, n: nat): (r: Incoming)
    requires i.Conserved() && n <= |Bytes(i.slot)|
    ensures r.Conserved() && r.held == i.held && r.received == i.received
    ensures r.consumed == i.consumed + Bytes(i.slot)[..n] && Bytes(r.slot) == Bytes(i.slot)[n..]
  {
    var b := Bytes(i.slot);
    assert b == b[..n] + b[n..];
    i.(slot := Slot(b[n..]), consumed := i.consumed + b[..n])
  }

  /** `Io::poll_read_ready`: asking for data restarts a paused read task. */
  function ReadReadyPolled(s: IoState): (r: IoState)
    requires Good(s)
    ensures Good(r) && Later(s, r) && r.wr == s.wr && r.inc == s.inc && r.stop == s.stop && r.dsp == s.dsp
    ensures !s.stop.Closed() ==> !r.rd.paused && !r.rd.backpressure
    ensures r.rd.notify == s.rd.notify && r.rd.notified == s.rd.notified
    ensures ReadReadyAnswer(s).Pending? ==> r.tasks.dispatchWaker && !r.rd.ready
    ensures r.tasks.recvParked == s.tasks.recvParked
    ensures !s.stop.Closed() && s.rd.paused ==> !r.rd.ready && !r.tasks.readWaker && !r.tasks.readParked
    ensures s.stop.Closed() || !s.rd.paused ==>
              r.rd == s.rd && r.tasks == s.tasks.(dispatchWaker := r.tasks.dispatchWaker)
    ensures r.tasks.dispatchWaker == (s.tasks.dispatchWaker || ReadReadyAnswer(s).Pending?)
  {
    if s.stop.Closed() then s
    else if s.rd.paused || s.rd.backpressure then
      var t := s.tasks.WakeRead();
      s.(rd := s.rd.(ready := false, backpressure := false, paused := false),
         tasks := if s.rd.ready then t else t.(dispatchWaker := true))
    else if s.rd.ready then s
    else s.(tasks := s.tasks.(dispatchWaker := true))
  }

  function ReadReadyAnswer(s: IoState): Poll {
    if s.stop.Closed() then Terminate else if s.rd.ready then Ready else Pending
  }

  function RecvAnswer(s: IoState, out: Codec): Recv {
    if out.Malformed? then DecodeError
    else if out.Frame? then Item
    else if s.stop.stopping then PeerGone
    else if s.dsp.timeout then KeepAlive
    else if s.dsp.backpressure then WriteBackpressure
    else if s.stop.Closed() then PeerGone
    else NoItem
  }

  /** `poll_flush` after its `consolidate_write_state`. */
  function FlushSettled(c: IoState, cfg: Config, full: bool): (r: IoState)
    requires Good(c) && !c.tasks.recvParked && !c.tasks.flushParked
    ensures Good(r) && Later(c, r) && r == c.(wr := r.wr, dsp := r.dsp, tasks := r.tasks) && r.wr.sendOp == c.wr.sendOp
    ensures FlushAnswer(c, cfg, full).FlushPending? ==> r.tasks.dispatchWaker
    ensures r.tasks.flushParked <==> full && FlushAnswer(c, cfg, full).FlushPending?
    ensures full && !r.wr.flush && !r.stop.Closed() ==> r.out.wbuf == []
    // a waiting flush marks what it waits for, and a finished one clears both marks
    ensures match FlushAnswer(c, cfg, full)
            case FlushPending => r.wr == (if full then c.wr.(flush := true) else c.wr)
                                 && r.dsp == (if full then c.dsp else c.dsp.(backpressure := true))
            case FlushDone => r.wr == c.wr.(flush := false) && r.dsp == c.dsp.(backpressure := false)
            case FlushError => r == c
  {
    match FlushAnswer(c, cfg, full)
    case FlushPending =>
      var t := c.tasks.(dispatchWaker := true);
      if full then c.(wr := c.wr.(flush := true), tasks := t.(flushParked := true))
      else c.(dsp := c.dsp.(backpressure := true), tasks := t)
    case FlushDone => c.(wr := c.wr.(flush := false), dsp := c.dsp.(backpressure := false))
    case FlushError => c
  }

  /** The answer of `poll_flush`, from the state its `consolidate_write_state` left. */
  function FlushAnswer(c: IoState, cfg: Config, full: bool): (r: Flush)
    ensures r.FlushDone? && full ==> c.out.wbuf == []
    ensures r.FlushPending? <==> !c.stop.Closed() && if full then c.out.wbuf != []
                                                     else |c.out.wbuf| >= cfg.writeHigh && c.out.wbuf != []
    ensures r.FlushError? <==> c.stop.Closed() && (c.out.wbuf != [] || !c.wr.flush)
  {
    if c.out.wbuf != [] && c.stop.Closed() then FlushError
    else if c.out.wbuf != [] && (full || |c.out.wbuf| >= cfg.writeHigh) then FlushPending
    else if c.stop.Closed() && !c.wr.flush then FlushError
    else FlushDone
  }

  /** `poll_shutdown` lets reading go on, so that the filters can finish. */
  function Reopened(s: IoState): (r: IoState)
    requires Good(s)
    ensures Good(r) && Later(s, r) && r == s.(rd := r.rd, tasks := r.tasks)
    ensures r.tasks.dispatchWaker && !r.tasks.readWaker && !r.rd.paused && !r.rd.backpressure && !r.rd.ready
    ensures r.rd.notify == s.rd.notify && r.rd.notified == s.rd.notified
  {
    s.(rd := s.rd.(ready := false, backpressure := false, paused := false),
       tasks := s.tasks.(dispatchWaker := true, readWaker := false, readParked := false))
  }

  /** `pause` of a dispatcher that is not waiting for data. */
  function Held(s: IoState): (r: IoState)
    requires Good(s) && !s.tasks.recvParked
    ensures Good(r) && Later(s, r) && r == s.(rd := s.rd.(paused := true), tasks := r.tasks)
    ensures r.tasks == if s.rd.paused then s.tasks else s.tasks.WakeRead()
  {
    if s.rd.paused then
      assert s.rd.(paused := true) == s.rd;
      s
    else s.(rd := s.rd.(paused := true), tasks := s.tasks.WakeRead())
  }

  /** `poll_status_update`: a timeout is reported once, write back-pressure until the write buffer
      is down to half. */
  function StatusTaken(s: IoState, half: nat): (r: IoState)
    requires Good(s)
    ensures Good(r) && Later(s, r) && r == s.(dsp := r.dsp, tasks := r.tasks) && r.tasks.dispatchWaker
    ensures r.dsp.timeout <==> s.dsp.timeout && s.stop.Closed()
    ensures r.dsp.backpressure <==> s.dsp.backpressure && (s.stop.Closed() || s.dsp.timeout || |s.out.wbuf| > half)
  {
    s.(tasks := s.tasks.(dispatchWaker := true, recvParked := false, flushParked := false),
       dsp := if s.stop.Closed() then s.dsp
              else if s.dsp.timeout then s.dsp.(timeout := false)
              else s.dsp.(backpressure := s.dsp.backpressure && |s.out.wbuf| > half))
  }

  /** `notify_timeout`: the timer wakes the dispatcher, once until it has looked. */
  function TimedOut(s: IoState): (r: IoState)
    requires Good(s)
    ensures Good(r) && Later(s, r) && r == s.(dsp := s.dsp.(timeout := true), tasks := r.tasks)
    ensures r.tasks == if s.dsp.timeout then s.tasks else s.tasks.WakeDispatch()
  {
    if s.dsp.timeout then
      assert s.dsp.(timeout := true) == s.dsp;
      s
    else s.(dsp := s.dsp.(timeout := true), tasks := s.tasks.WakeDispatch())
  }

  /** `try_write_vectored`: bytes that bypass the write buffer come right after all earlier ones,
      if the driver has none of those in flight. */
  function Bypassed(s: IoState, src: seq<byte>, v: Vectored): (r: IoState)
    requires Good(s) && (v.Took? ==> v.n <= |src| && s.out.flying == 0)
    ensures Good(r) && Later(s, r) && r == s.(out := r.out)
    ensures r.out.accepted == s.out.accepted + src[..BypassCount(s, v)]
  {
    if BypassCount(s, v) == 0 then
      assert s.out.accepted + src[..0] == s.out.accepted;
      s
    else
      assert s.out.taken == s.out.accepted;
      s.(out := s.out.(taken := s.out.taken + src[..v.n], accepted := s.out.accepted + src[..v.n]))
  }

  function BypassCount(s: IoState, v: Vectored): nat {
    if s.stop.Any() || s.out.wbuf != [] || !s.handle || !v.Took? then 0 else v.n
  }

  /** The order on the wire when `src` bypasses the write buffer while the driver has taken `taken`
      and later puts the last `back` bytes of it back. */
  function OnTheWire(taken: seq<byte>, back: nat, src: seq<byte>): seq<byte>
    requires back <= |taken|
  {
    taken[..|taken| - back] + src + taken[|taken| - back..]
  }

  /** Bypassing bytes stay behind the earlier ones whatever the driver puts back, if and only if it
      has nothing in flight. */
  lemma BypassInOrder(o: Outgoing)
    requires o.Conserved()
    ensures (forall back, src :: 0 <= back <= o.flying ==> OnTheWire(o.taken, back, src) == o.taken + src)
            <==> o.flying == 0
  {
    if o.flying > 0 {
      var last := |o.taken| - 1;
      var other: byte := if o.taken[last] == 0 then 1 else 0;
      assert OnTheWire(o.taken, 1, [other])[last] == other;
      assert OnTheWire(o.taken, 1, [other]) != o.taken + [other];
    }
  }
}
