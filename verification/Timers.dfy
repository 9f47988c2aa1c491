/** The one-second timer table: keys are tick numbers, entries are the connections to notify. Each
    connection stores the key it was last given. */
module Timers {

  type Id = nat

  /** `current` counts ticks; `stored` holds every connection's timer handle, absent or 0 for none. */
  datatype Table = Table(running: bool, current: nat, entries: map<nat, set<Id>>, stored: map<Id, nat>) {
    function Handle(id: Id): nat { if id in stored then stored[id] else 0 }
    predicate At(k: nat, id: Id) { k in entries && id in entries[k] }
    predicate Live(id: Id) { At(Handle(id), id) }
  }

  ghost predicate Inv(s: Table) {
    // an entry is its connection's stored handle
    && (forall k, id :: s.At(k, id) ==> s.Handle(id) == k)
    // a stored handle without an entry has fired, and lies in the past
    && (forall id :: id in s.stored && s.stored[id] != 0 && !s.Live(id) ==> s.stored[id] < s.current)
    && (forall k :: k in s.entries ==> s.current <= k && k != 0)
    && (s.running <==> s.entries != map[])
  }

  // ---------------------------------------------------------------- what the calls do

  function Unregistered(s: Table, hnd: nat, id: Id): Table {
    if hnd in s.entries then s.(entries := s.entries[hnd := s.entries[hnd] - {id}]) else s
  }

  function Registered(s: Table, timeout: nat, id: Id, now: nat): Table {
    var current := if s.running then s.current else now;
    var key := current + timeout;
    var items := if key in s.entries then s.entries[key] else {};
    Table(true, current, s.entries[key := items + {id}], s.stored[id := key])
  }

  predicate Kept(s: Table, timeout: nat, id: Id) {
    s.Handle(id) == s.current + timeout || s.Handle(id) == s.current + timeout + 1
  }

  /** `start_timer`; `now` is what the clock reads if the table has to be started. */
  function Started(s: Table, id: Id, timeout: nat, now: nat): Table {
    if timeout == 0 then Stopped(s, id)
    else if s.Handle(id) == 0 then Registered(s, timeout, id, now)
    else if Kept(s, timeout, id) then s
    else Registered(Unregistered(s, s.Handle(id), id), timeout, id, now)
  }

  /** `stop_timer`. */
  function Stopped(s: Table, id: Id): Table {
    if s.Handle(id) == 0 then s else Unregistered(s.(stored := s.stored[id := 0]), s.Handle(id), id)
  }

  /** One tick: everything due is notified and leaves the table. */
  function Ticked(s: Table): Table {
    if !s.running then s
    else
      var rest := map k | k in s.entries && k > s.current :: s.entries[k];
      Table(rest != map[], s.current + 1, rest, s.stored)
  }

  ghost predicate Fired(s: Table, id: Id) {
    s.running && exists k: nat :: s.At(k, id) && k <= s.current
  }

  // ---------------------------------------------------------------- the invariant

  /** A fired handle is never taken for a live one: a timer is kept only while it is in the table. */
  lemma StaleNeverKept(s: Table, id: Id, timeout: nat)
    requires Inv(s) && timeout > 0 && Kept(s, timeout, id)
    ensures s.Live(id)
  {
  }

  /** What `Inv` says, except about connection `id`, which is not in the table. */
  ghost predicate InvBut(s: Table, id: Id) {
    && (forall k, j :: s.At(k, j) ==> j != id && s.Handle(j) == k)
    && (forall j :: j in s.stored && j != id && s.stored[j] != 0 && !s.Live(j) ==> s.stored[j] < s.current)
    && (forall k :: k in s.entries ==> s.current <= k && k != 0)
    && (s.running <==> s.entries != map[])
  }

  lemma UnregisteredInv(s: Table, id: Id)
    requires Inv(s)
    ensures InvBut(Unregistered(s, s.Handle(id), id), id)
  {
    var u := Unregistered(s, s.Handle(id), id);
    forall k, j | u.At(k, j) ensures j != id && u.Handle(j) == k { assert s.At(k, j); }
    forall j | j in u.stored && j != id && u.stored[j] != 0 && !u.Live(j) ensures u.stored[j] < u.current {
      assert u.Handle(j) == s.Handle(j);
    }
    assert s.Handle(id) in s.entries ==> s.Handle(id) in u.entries;
  }

  lemma RegisteredInv(s: Table, timeout: nat, id: Id, now: nat)
    requires InvBut(s, id) && timeout > 0 && now >= s.current
    ensures Inv(Registered(s, timeout, id, now)) && Registered(s, timeout, id, now).Live(id)
  {
    var r := Registered(s, timeout, id, now);
    var key := r.current + timeout;
    assert key in r.entries;
    forall k, j | r.At(k, j) ensures r.Handle(j) == k {
      assert s.At(k, j) || (k == key && j == id);
    }
    forall j | j in r.stored && r.stored[j] != 0 && !r.Live(j) ensures r.stored[j] < r.current {
      assert r.Live(id) && s.stored[j] == r.stored[j];
      assert !s.Live(j);
    }
  }

  lemma StoppedInv(s: Table, id: Id)
    requires Inv(s)
    ensures Inv(Stopped(s, id)) && !Stopped(s, id).Live(id)
  {
    if s.Handle(id) == 0 {
      assert s.At(0, id) ==> 0 in s.entries;
    } else {
      UnregisteredInv(s, id);
      var u, r := Unregistered(s, s.Handle(id), id), Stopped(s, id);
      assert r == u.(stored := s.stored[id := 0]);
      forall k, j | r.At(k, j) ensures j != id && r.Handle(j) == k { assert u.At(k, j); }
      forall j | j in r.stored && r.stored[j] != 0 && !r.Live(j) ensures r.stored[j] < r.current {
        assert j != id && r.Handle(j) == u.Handle(j);
        assert !u.Live(j);
      }
    }
  }

  lemma StartedInv(s: Table, id: Id, timeout: nat, now: nat)
    requires Inv(s) && now >= s.current
    ensures Inv(Started(s, id, timeout, now)) && (timeout > 0 ==> Started(s, id, timeout, now).Live(id))
  {
    if timeout == 0 {
      StoppedInv(s, id);
    } else if s.Handle(id) == 0 {
      forall k, j | s.At(k, j) ensures j != id && s.Handle(j) == k { assert k in s.entries; }
      RegisteredInv(s, timeout, id, now);
    } else if Kept(s, timeout, id) {
      StaleNeverKept(s, id, timeout);
    } else {
      UnregisteredInv(s, id);
      RegisteredInv(Unregistered(s, s.Handle(id), id), timeout, id, now);
    }
  }

  lemma TickedInv(s: Table)
    requires Inv(s)
    ensures Inv(Ticked(s))
  {
    var r := Ticked(s);
    forall k, j | r.At(k, j) ensures r.Handle(j) == k { assert s.At(k, j); }
    forall j | j in r.stored && r.stored[j] != 0 && !r.Live(j) ensures r.stored[j] < r.current {
      if s.Live(j) && s.running { assert s.stored[j] <= s.current; }
    }
  }

  // ---------------------------------------------------------------- exactly one notification

  datatype Event = Start(id: Id, timeout: nat, now: nat) | Stop(id: Id) | Tick

  function Next(s: Table, e: Event): Table {
    match e
    case Start(id, timeout, now) => Started(s, id, timeout, now)
    case Stop(id) => Stopped(s, id)
    case Tick => Ticked(s)
  }

  /** The clock never reads behind the tick counter when the table is started. */
  ghost predicate ClockOk(s: Table, events: seq<Event>)
    decreases |events|
  {
    events != [] ==>
      && (events[0].Start? ==> events[0].now >= s.current)
      && ClockOk(Next(s, events[0]), events[1..])
  }

  predicate Untouched(e: Event, id: Id) { e.Tick? || e.id != id }

  function Ticks(events: seq<Event>): nat {
    if events == [] then 0 else (if events[0].Tick? then 1 else 0) + Ticks(events[1..])
  }

  /** How often connection `id` is notified along `events`. */
  ghost function Notified(s: Table, events: seq<Event>, id: Id): nat
    decreases |events|
  {
    if events == [] then 0
    else (if events[0].Tick? && Fired(s, id) then 1 else 0) + Notified(Next(s, events[0]), events[1..], id)
  }

  lemma NextInv(s: Table, e: Event)
    requires Inv(s) && (e.Start? ==> e.now >= s.current)
    ensures Inv(Next(s, e))
  {
    match e
    case Start(id, timeout, now) => StartedInv(s, id, timeout, now);
    case Stop(id) => StoppedInv(s, id);
    case Tick => TickedInv(s);
  }

  /** Other connections' calls leave an entry where it is; while it is there, ticks are counted. */
  lemma OthersKeep(s: Table, e: Event, id: Id)
    requires Inv(s) && !e.Tick? && Untouched(e, id) && (e.Start? ==> e.now >= s.current)
    ensures Next(s, e).Handle(id) == s.Handle(id) && (Next(s, e).Live(id) <==> s.Live(id))
    ensures s.Live(id) ==> Next(s, e).current == s.current && s.running
  {
    assert s.Live(id) ==> s.Handle(id) in s.entries;
  }

  lemma TickMoves(s: Table, id: Id)
    requires Inv(s) && s.Live(id)
    ensures Ticked(s).current == s.current + 1 && Ticked(s).Handle(id) == s.Handle(id)
    ensures Fired(s, id) <==> s.Handle(id) == s.current
    ensures Ticked(s).Live(id) <==> s.Handle(id) > s.current
  {
    assert s.At(s.Handle(id), id) && s.Handle(id) in s.entries;
  }

  lemma {:induction false} NeverAgain(s: Table, events: seq<Event>, id: Id)
    requires Inv(s) && !s.Live(id) && ClockOk(s, events)
    requires forall k :: 0 <= k < |events| ==> Untouched(events[k], id)
    ensures Notified(s, events, id) == 0
    decreases |events|
  {
    if events != [] {
      var e := events[0];
      assert Untouched(e, id);
      NextInv(s, e);
      if e.Tick? {
        assert forall k: nat :: s.At(k, id) ==> s.Handle(id) == k;
      } else {
        OthersKeep(s, e, id);
      }
      NeverAgain(Next(s, e), events[1..], id);
    }
  }

  lemma {:induction false} FiresOnce(s: Table, events: seq<Event>, id: Id)
    requires Inv(s) && s.Live(id) && ClockOk(s, events)
    requires forall k :: 0 <= k < |events| ==> Untouched(events[k], id)
    ensures Notified(s, events, id) == if Ticks(events) > s.Handle(id) - s.current then 1 else 0
    decreases |events|
  {
    assert s.Handle(id) in s.entries;
    if events != [] {
      var e := events[0];
      assert Untouched(e, id);
      NextInv(s, e);
      if e.Tick? { TickMoves(s, id); } else { OthersKeep(s, e, id); }
      if Next(s, e).Live(id) {
        FiresOnce(Next(s, e), events[1..], id);
      } else {
        NeverAgain(Next(s, e), events[1..], id);
      }
    }
  }

  /** `start_timer(t)` with no later start or stop of that connection leads to exactly one
      notification, on the (t+1)-th or (t+2)-th tick, whatever the other connections do. */
  lemma StartFiresOnce(s: Table, id: Id, timeout: nat, now: nat, events: seq<Event>)
    requires Inv(s) && timeout > 0 && now >= s.current
    requires ClockOk(Started(s, id, timeout, now), events)
    requires forall k :: 0 <= k < |events| ==> Untouched(events[k], id)
    ensures var r := Started(s, id, timeout, now);
            && timeout + 1 <= Due(r, id) <= timeout + 2
            && Notified(r, events, id) == if Ticks(events) >= Due(r, id) then 1 else 0
  {
    StartedInv(s, id, timeout, now);
    FiresOnce(Started(s, id, timeout, now), events, id);
  }

  /** On which tick from now an entry is notified. */
  function Due(s: Table, id: Id): int { s.Handle(id) - s.current + 1 }

  // ---------------------------------------------------------------- the table in place

  /** A non-empty key set has a smallest element. */
  lemma SmallestKey(keys: set<nat>) returns (k: nat)
    requires keys != {}
    ensures k in keys && forall j :: j in keys ==> k <= j
    decreases |keys|
  {
    var x :| x in keys;
    if keys == {x} { return x; }
    k := SmallestKey(keys - {x});
    assert forall j :: j in keys ==> j == x || j in keys - {x};
    if x < k { k := x; }
  }

  ghost predicate DueBy(entries: map<nat, set<Id>>, cur: nat, id: Id) {
    exists k: nat :: k in entries && k <= cur && id in entries[k]
  }

  /** The loop of a tick: entries leave smallest key first, until one is not due. */
  method DrainDue(entries: map<nat, set<Id>>, cur: nat) returns (rest: map<nat, set<Id>>, notified: set<Id>)
    ensures rest == map k | k in entries && k > cur :: entries[k]
    ensures forall id :: id in notified <==> DueBy(entries, cur, id)
  {
    rest, notified := entries, {};
    while rest != map[]
      invariant forall k :: k in rest ==> k in entries && rest[k] == entries[k]
      invariant forall k :: k in entries && k > cur ==> k in rest
      invariant forall id :: id in notified ==> DueBy(entries, cur, id)
      invariant forall k, id :: k in entries && k !in rest && id in entries[k] ==> id in notified
      decreases |rest|
    {
      assert rest.Keys != {};
      ghost var least := SmallestKey(rest.Keys);
      var key :| key in rest && forall k :: k in rest ==> key <= k;
      if key > cur { break; }
      notified := notified + rest[key];
      rest := rest - {key};
    }
  }

  class TimerStorage {
    var running: bool
    var current: nat
    var notifications: map<nat, set<Id>>
    var timeouts: map<Id, nat>

    function State(): Table
      reads this
    {
      Table(running, current, notifications, timeouts)
    }

    constructor ()
      ensures Inv(State())
    {
      running, current, notifications, timeouts := false, 0, map[], map[];
    }

    method Unregister(hnd: nat, id: Id)
      modifies this`notifications
      ensures State() == Unregistered(old(State()), hnd, id)
      // only the one entry goes, and no key
      ensures forall k, j :: State().At(k, j) <==> old(State()).At(k, j) && !(k == hnd && j == id)
      ensures notifications.Keys == old(notifications.Keys)
    {
      if hnd in notifications {
        notifications := notifications[hnd := notifications[hnd] - {id}];
      }
    }

    method Register(timeout: nat, id: Id, now: nat)
      modifies this
      ensures State() == Registered(old(State()), timeout, id, now)
      // the entry and the stored handle agree, and every other entry and handle stays
      ensures State().Live(id) && State().Handle(id) == current + timeout && running
      ensures forall k, j :: State().At(k, j) <==> old(State()).At(k, j) || (k == current + timeout && j == id)
      ensures forall j :: j != id ==> State().Handle(j) == old(State()).Handle(j)
      ensures current == if old(running) then old(current) else now
    {
      if !running { current := now; }
      var hnd := current + timeout;
      if hnd in notifications {
        notifications := notifications[hnd := notifications[hnd] + {id}];
      } else {
        notifications := notifications[hnd := {} + {id}];
      }
      running := true;
      timeouts := timeouts[id := hnd];
    }

    method StartTimer(id: Id, timeout: nat, now: nat)
      requires Inv(State()) && now >= current
      modifies this
      ensures Inv(State()) && State() == Started(old(State()), id, timeout, now)
      ensures timeout > 0 ==> State().Live(id) && timeout + 1 <= Due(State(), id) <= timeout + 2
    {
      StartedInv(State(), id, timeout, now);
      var hnd := if id in timeouts then timeouts[id] else 0;
      if timeout == 0 {
        StopTimer(id);
      } else if hnd != 0 {
        var key := current + timeout;
        if hnd != key && hnd != key + 1 {
          Unregister(hnd, id);
          Register(timeout, id, now);
        }
      } else {
        Register(timeout, id, now);
      }
    }

    method StopTimer(id: Id)
      requires Inv(State())
      modifies this
      ensures Inv(State()) && State() == Stopped(old(State()), id) && !State().Live(id)
    {
      StoppedInv(State(), id);
      var hnd := if id in timeouts then timeouts[id] else 0;
      if hnd != 0 {
        timeouts := timeouts[id := 0];
        Unregister(hnd, id);
      }
    }

    /** One second has passed. */
    method Tick() returns (notified: set<Id>)
      requires Inv(State()) && running
      modifies this
      ensures Inv(State()) && State() == Ticked(old(State()))
      ensures forall id :: id in notified <==> Fired(old(State()), id)
    {
      TickedInv(State());
      var cur := current;
      current := cur + 1;
      notifications, notified := DrainDue(notifications, cur);
      if notifications == map[] { running := false; }
      forall id ensures id in notified <==> Fired(old(State()), id) {
        assert forall k: nat :: old(State()).At(k, id) <==> k in old(notifications) && id in old(notifications)[k];
      }
    }
  }
}
