/** The notify/wait handshake of the epoll back end: any number of threads notify, one waits. Every
    step is one atomic operation or one system call; the eventfd is level-triggered. */
module Notify {

  /** Where the one thread inside `wait` is. `Returned(saw)`: `epoll_wait` has returned, with the
      notification key in its list or not (the timer uses the same key). `Cleared`: about to reset
      the flag. */
  datatype Waiter = Outside | Waiting | Returned(saw: bool) | Cleared

  /** `pending`: threads that have set the flag and not yet written the eventfd. */
  datatype State = State(notified: bool, counter: nat, pending: nat, waiter: Waiter)

  /** The largest value an eventfd counter can hold; a write that would pass it fails. */
  const EVENTFD_MAX: nat := 0xffff_ffff_ffff_fffe

  datatype Step = Flag | Write | Enter | Return(saw: bool) | Interrupted | Failed | Clear | Reset

  predicate Enabled(s: State, step: Step) {
    match step
    case Flag => true
    case Write => s.pending > 0
    case Enter => s.waiter.Outside?
    case Return(_) => s.waiter.Waiting?
    case Interrupted => s.waiter.Waiting?
    case Failed => s.waiter.Waiting?
    case Clear => s.waiter.Returned?
    case Reset => s.waiter.Cleared?
  }

  function Next(s: State, step: Step): State
    requires Enabled(s, step)
  {
    match step
    case Flag => if s.notified then s else s.(notified := true, pending := s.pending + 1)
    case Write => s.(pending := s.pending - 1, counter := if s.counter < EVENTFD_MAX then s.counter + 1 else s.counter)
    case Enter => s.(waiter := Waiting)
    case Return(saw) => s.(waiter := Returned(saw))
    case Interrupted => s
    case Failed => s.(waiter := Outside)
    case Clear => s.(waiter := Cleared, counter := if s.waiter.saw then 0 else s.counter)
    case Reset => s.(waiter := Outside, notified := false)
  }

  ghost predicate Inv(s: State) {
    s.notified ==> s.counter > 0 || s.pending > 0 || s.waiter.Cleared?
  }

  const INITIAL := State(false, 0, 0, Outside)

  function Run(s: State, steps: seq<Step>): State
    decreases |steps|
  {
    if steps == [] then s
    else Run(if Enabled(s, steps[0]) then Next(s, steps[0]) else s, steps[1..])
  }

  /** No lost notification: whenever the waiter is blocked or on its way into the system call and
      the flag is set, the eventfd is readable or a notifier has yet to write it. */
  lemma {:induction false} NoLostNotification(s: State, steps: seq<Step>)
    requires Inv(s)
    ensures Inv(Run(s, steps))
    ensures var t := Run(s, steps);
            t.notified && (t.waiter.Waiting? || t.waiter.Outside?) ==> t.counter > 0 || t.pending > 0
    decreases |steps|
  {
    if steps != [] {
      NoLostNotification(if Enabled(s, steps[0]) then Next(s, steps[0]) else s, steps[1..]);
    }
  }

  /** A write is done once, leaves the eventfd readable and never passes its largest value. */
  lemma WriteLands(s: State)
    requires s.pending > 0 && s.counter <= EVENTFD_MAX
    ensures var t := Next(s, Write);
            && t.pending == s.pending - 1 && 0 < t.counter <= EVENTFD_MAX
            && (s.counter < EVENTFD_MAX ==> t.counter == s.counter + 1)
            && t.notified == s.notified && t.waiter == s.waiter
  {
  }

  lemma {:induction false} CounterBounded(s: State, steps: seq<Step>)
    requires s.counter <= EVENTFD_MAX
    ensures Run(s, steps).counter <= EVENTFD_MAX
    decreases |steps|
  {
    if steps != [] {
      CounterBounded(if Enabled(s, steps[0]) then Next(s, steps[0]) else s, steps[1..]);
    }
  }

  /** A whole `wait` on its own: it ends outside with the flag clear, and it has emptied the eventfd
      exactly if its list held the notification. */
  lemma WaitConsumes(s: State, saw: bool)
    requires s.waiter.Outside?
    ensures Run(s, [Enter, Interrupted, Return(saw), Clear, Reset])
            == State(false, if saw then 0 else s.counter, s.pending, Outside)
  {
    var s1 := Next(s, Enter);
    var s2 := Next(Next(s1, Interrupted), Return(saw));
    var s3 := Next(s2, Clear);
    RunStep(s, Enter, [Interrupted, Return(saw), Clear, Reset]);
    assert [Enter] + [Interrupted, Return(saw), Clear, Reset] == [Enter, Interrupted, Return(saw), Clear, Reset];
    assert [Interrupted] + [Return(saw), Clear, Reset] == [Interrupted, Return(saw), Clear, Reset];
    assert [Return(saw)] + [Clear, Reset] == [Return(saw), Clear, Reset];
    assert [Clear] + [Reset] == [Clear, Reset] && [Reset] + [] == [Reset];
    RunStep(s1, Interrupted, [Return(saw), Clear, Reset]);
    RunStep(s1, Return(saw), [Clear, Reset]);
    RunStep(s2, Clear, [Reset]);
    RunStep(s3, Reset, []);
  }

  /** A `wait` that fails leaves everything as it was. */
  lemma WaitFails(s: State)
    requires s.waiter.Outside?
    ensures Run(s, [Enter, Failed]) == s
  {
    assert [Enter] + [Failed] == [Enter, Failed] && [Failed] + [] == [Failed];
    RunStep(s, Enter, [Failed]);
    RunStep(Next(s, Enter), Failed, []);
  }

  lemma RunStep(s: State, step: Step, rest: seq<Step>)
    requires Enabled(s, step)
    ensures Run(s, [step] + rest) == Run(Next(s, step), rest)
  {
    assert ([step] + rest)[0] == step && ([step] + rest)[1..] == rest;
  }

  /** The waiter comes out of `epoll_wait` at some point of the run. */
  predicate Returns(s: State, steps: seq<Step>)
    decreases |steps|
  {
    steps != [] &&
      if Enabled(s, steps[0]) then steps[0].Return? || Returns(Next(s, steps[0]), steps[1..])
      else Returns(s, steps[1..])
  }

  /** Once a notifier has written, the eventfd stays readable until the waiter has come out: no
      `epoll_wait` entered in between can block, however often it is interrupted or fails. */
  lemma {:induction false} WrittenStaysReadable(s: State, steps: seq<Step>)
    requires s.counter > 0 && (s.waiter.Waiting? || s.waiter.Outside?) && !Returns(s, steps)
    ensures Run(s, steps).counter > 0 && (Run(s, steps).waiter.Waiting? || Run(s, steps).waiter.Outside?)
    decreases |steps|
  {
    if steps != [] {
      WrittenStaysReadable(if Enabled(s, steps[0]) then Next(s, steps[0]) else s, steps[1..]);
    }
  }

  /** A whole `notify` call before or during a wait: the flag was clear or somebody is responsible
      for it, so once no writer is outstanding the next or current wait finds the eventfd readable. */
  lemma NotifyWakes(before: seq<Step>, during: seq<Step>)
    requires var s := Run(INITIAL, before); s.waiter.Waiting? || s.waiter.Outside?
    requires var s := Next(Run(INITIAL, before), Flag); !Returns(s, during) && Run(s, during).pending == 0
    ensures var t := Run(Next(Run(INITIAL, before), Flag), during);
            t.counter > 0 && (t.waiter.Waiting? || t.waiter.Outside?)
  {
    NoLostNotification(INITIAL, before);
    FlagHeld(Next(Run(INITIAL, before), Flag), during);
  }

  /** While the waiter has not come out, a set flag stays set and somebody answers for it. */
  lemma {:induction false} FlagHeld(s: State, steps: seq<Step>)
    requires Inv(s) && s.notified && (s.waiter.Waiting? || s.waiter.Outside?) && !Returns(s, steps)
    ensures var t := Run(s, steps);
            t.notified && (t.waiter.Waiting? || t.waiter.Outside?) && (t.counter > 0 || t.pending > 0)
    decreases |steps|
  {
    if steps != [] {
      FlagHeld(if Enabled(s, steps[0]) then Next(s, steps[0]) else s, steps[1..]);
    }
  }
}
