/** The file-descriptor table of the `poll()` back end: a vector of poll slots, the first of which is
    the notifier, and a map from descriptor to slot kept in step through swap-removal. */
module PollFds {
  type Fd = int
  type PollFlags = bv16

  const IN: PollFlags := 0x001
  const PRI: PollFlags := 0x002
  const OUT: PollFlags := 0x004
  const ERR: PollFlags := 0x008
  const HUP: PollFlags := 0x010
  const WRBAND: PollFlags := 0x200

  datatype Mode = Oneshot | Level | Edge | EdgeOneshot
  datatype Error = InvalidInput | AlreadyExists | NotFound | Unsupported
  datatype Result = Ok | Err(error: Error)

  datatype PollFd = PollFd(fd: Fd, events: PollFlags, revents: PollFlags)
  datatype FdData = FdData(index: nat, key: nat, remove: bool)
  /** What is registered for a descriptor. */
  datatype Entry = Entry(key: nat, once: bool, events: PollFlags)
  datatype Event = Event(key: nat, readable: bool, writable: bool, flags: PollFlags)

  function PollEvents(readable: bool, writable: bool): PollFlags {
    (if readable then IN | PRI else 0) | (if writable then OUT | WRBAND else 0)
  }

  function EventOf(key: nat, revents: PollFlags): Event {
    Event(key, revents & (IN | PRI | HUP | ERR) != 0, revents & (OUT | WRBAND | HUP | ERR) != 0, revents)
  }

  /** Of what happens to a descriptor, data is reported to whoever polls for reading and room to
      whoever polls for writing, and nothing else is. */
  lemma PollsWhatWasAsked(key: nat, readable: bool, writable: bool, revents: PollFlags)
    requires revents & HUP == 0 && revents & ERR == 0
    ensures var e := EventOf(key, revents & PollEvents(readable, writable));
            && e.key == key && e.flags == revents & PollEvents(readable, writable)
            && (e.readable <==> readable && (revents & IN != 0 || revents & PRI != 0))
            && (e.writable <==> writable && (revents & OUT != 0 || revents & WRBAND != 0))
  {
  }

  /** A hang-up or an error, which `poll` reports unasked, makes an event both readable and writable. */
  lemma FailureIsBoth(key: nat, revents: PollFlags)
    requires revents & HUP != 0 || revents & ERR != 0
    ensures EventOf(key, revents).readable && EventOf(key, revents).writable
  {
  }

  /** Slot 0 is the notifier; the map and the remaining slots are in bijection. */
  ghost predicate InStep(slots: seq<PollFd>, data: map<Fd, FdData>, notify: Fd) {
    && |slots| > 0 && slots[0].fd == notify
    && (forall fd :: fd in data ==> 0 < data[fd].index < |slots| && slots[data[fd].index].fd == fd)
    && (forall k :: 0 < k < |slots| ==> slots[k].fd in data && data[slots[k].fd].index == k)
  }

  ghost function Entries(slots: seq<PollFd>, data: map<Fd, FdData>): map<Fd, Entry>
    requires forall fd :: fd in data ==> data[fd].index < |slots|
  {
    map fd | fd in data :: Entry(data[fd].key, data[fd].remove, slots[data[fd].index].events)
  }

  /** Appending a slot for a new descriptor. */
  lemma Added(slots: seq<PollFd>, data: map<Fd, FdData>, notify: Fd, fd: Fd, d: FdData, slot: PollFd)
    requires InStep(slots, data, notify) && fd !in data && d.index == |slots| && slot.fd == fd
    ensures InStep(slots + [slot], data[fd := d], notify)
    ensures Entries(slots + [slot], data[fd := d]) == Entries(slots, data)[fd := Entry(d.key, d.remove, slot.events)]
  {
    var s', d' := slots + [slot], data[fd := d];
    forall f | f in d' ensures 0 < d'[f].index < |s'| && s'[d'[f].index].fd == f { assert f == fd || f in data; }
  }

  /** Replacing what is registered for a descriptor. */
  lemma Changed(slots: seq<PollFd>, data: map<Fd, FdData>, notify: Fd, fd: Fd, d: FdData, slot: PollFd)
    requires InStep(slots, data, notify) && fd in data && d.index == data[fd].index && slot.fd == fd
    ensures InStep(slots[d.index := slot], data[fd := d], notify)
    ensures Entries(slots[d.index := slot], data[fd := d])
            == Entries(slots, data)[fd := Entry(d.key, d.remove, slot.events)]
  {
    var s', d' := slots[d.index := slot], data[fd := d];
    forall f | f in d' ensures 0 < d'[f].index < |s'| && s'[d'[f].index].fd == f { assert f in data; }
    forall f | f in data && f != fd ensures s'[d'[f].index] == slots[data[f].index] { }
  }

  /** Swap-removal: the last slot moves into the freed one, and its map entry follows. */
  lemma Removed(slots: seq<PollFd>, data: map<Fd, FdData>, notify: Fd, fd: Fd)
    requires InStep(slots, data, notify) && fd in data
    ensures var index, last := data[fd].index, |slots| - 1;
            var s', m := slots[index := slots[last]][..last], slots[last].fd;
            && (index < last ==> m in data - {fd})
            && var d' := if index < last then (data - {fd})[m := data[m].(index := index)] else data - {fd};
               InStep(s', d', notify) && Entries(s', d') == Entries(slots, data) - {fd}
  {
    var index, last := data[fd].index, |slots| - 1;
    var s', m := slots[index := slots[last]][..last], slots[last].fd;
    var d' := if index < last then (data - {fd})[m := data[m].(index := index)] else data - {fd};
    forall f | f in d'
      ensures 0 < d'[f].index < |s'| && s'[d'[f].index].fd == f
      ensures s'[d'[f].index].events == slots[data[f].index].events
    {
      assert f in data && f != fd;
      assert data[f].index != index;
    }
    forall k | 0 < k < |s'| ensures s'[k].fd in d' && d'[s'[k].fd].index == k {
      assert slots[k].fd in data;
    }
  }

  class Fds {
    /** The notifier's descriptors; `notifyRead` is the one polled. */
    const notifyRead: Fd
    const notifyWrite: Fd
    var pollFds: seq<PollFd>
    var fdData: map<Fd, FdData>

    predicate HasFd(fd: Fd) { fd == notifyRead || fd == notifyWrite }

    ghost predicate Valid()
      reads this
    {
      InStep(pollFds, fdData, notifyRead) && !(notifyRead in fdData) && !(notifyWrite in fdData)
    }

    constructor (notifyRead: Fd, notifyWrite: Fd)
      ensures Valid() && fdData == map[] && this.notifyRead == notifyRead && this.notifyWrite == notifyWrite
    {
      this.notifyRead, this.notifyWrite := notifyRead, notifyWrite;
      pollFds, fdData := [PollFd(notifyRead, IN, 0)], map[];
    }

    /** What is registered, by descriptor. */
    ghost function Registered(): map<Fd, Entry>
      reads this
      requires Valid()
    {
      Entries(pollFds, fdData)
    }

    method Add(fd: Fd, key: nat, readable: bool, writable: bool, mode: Mode) returns (r: Result)
      requires Valid()
      modifies this
      ensures Valid()
      ensures r == if HasFd(fd) then Err(InvalidInput) else if fd in old(fdData) then Err(AlreadyExists)
                   else if mode.Edge? || mode.EdgeOneshot? then Err(Unsupported) else Ok
      ensures Registered() == if r.Ok? then
              old(Registered())[fd := Entry(key, mode.Oneshot?, PollEvents(readable, writable))]
                              else old(Registered())
    {
      if HasFd(fd) { return Err(InvalidInput); }
      if fd in fdData { return Err(AlreadyExists); }
      if mode.Edge? || mode.EdgeOneshot? { return Err(Unsupported); }
      hide InStep, Entries;
      var index := |pollFds|;
      Added(pollFds, fdData, notifyRead, fd, FdData(index, key, mode.Oneshot?),
          PollFd(fd, PollEvents(readable, writable), 0));
      fdData := fdData[fd := FdData(index, key, mode.Oneshot?)];
      pollFds := pollFds + [PollFd(fd, PollEvents(readable, writable), 0)];
      r := Ok;
    }

    /** With an edge mode the call fails, but only after it has changed the key and the polled
        events: it is atomic exactly when the mode is supported or the descriptor is unknown. */
    method Modify(fd: Fd, key: nat, readable: bool, writable: bool, mode: Mode) returns (r: Result)
      requires Valid()
      modifies this
      ensures Valid()
      ensures r == if HasFd(fd) then Err(InvalidInput) else if fd !in old(fdData) then Err(NotFound)
                   else if mode.Edge? || mode.EdgeOneshot? then Err(Unsupported) else Ok
      ensures Registered() ==
              if r.Ok? then old(Registered())[fd := Entry(key, mode.Oneshot?, PollEvents(readable, writable))]
              else if r == Err(Unsupported) then
                  old(Registered())[fd := Entry(key, old(fdData)[fd].remove, PollEvents(readable, writable))]
              else old(Registered())
    {
      if HasFd(fd) { return Err(InvalidInput); }
      if fd !in fdData { return Err(NotFound); }
      var index := fdData[fd].index;
      var slot := PollFd(fd, PollEvents(readable, writable), 0);
      Changed(pollFds, fdData, notifyRead, fd, fdData[fd].(key := key), slot);
      Changed(pollFds, fdData, notifyRead, fd, FdData(index, key, mode.Oneshot?), slot);
      hide InStep, Entries;
      fdData := fdData[fd := fdData[fd].(key := key)];
      pollFds := pollFds[index := slot];
      if mode.Edge? || mode.EdgeOneshot? {
        return Err(Unsupported);
      }
      fdData := fdData[fd := fdData[fd].(remove := mode.Oneshot?)];
      assert fdData == old(fdData)[fd := FdData(index, key, mode.Oneshot?)];
      r := Ok;
    }

    /** The descriptor moved into the freed slot is always in the map, so its entry can be fixed. */
    method Delete(fd: Fd) returns (r: Result)
      requires Valid()
      modifies this
      ensures Valid()
      ensures r == if HasFd(fd) then Err(InvalidInput) else if fd !in old(fdData) then Err(NotFound) else Ok
      ensures Registered() == if r.Ok? then old(Registered()) - {fd} else old(Registered())
    {
      if HasFd(fd) { return Err(InvalidInput); }
      if fd !in fdData { return Err(NotFound); }
      Removed(pollFds, fdData, notifyRead, fd);
      var index := fdData[fd].index;
      var last := |pollFds| - 1;
      hide InStep, Entries;
      fdData := fdData - {fd};
      var moved := pollFds[last];
      pollFds := pollFds[index := moved][..last];
      if index < |pollFds| {
        fdData := fdData[moved.fd := fdData[moved.fd].(index := index)];
      }
      r := Ok;
    }

    // -------------------------------------------------------------- collecting events

    /** What the collection loop does with one ready descriptor. */
    method Take(fd: Fd, events: seq<Event>) returns (out: seq<Event>)
      requires Valid() && fd in fdData
      modifies this`pollFds
      ensures Valid() && out == events + [EventOf(fdData[fd].key, old(pollFds)[fdData[fd].index].revents)]
      ensures pollFds == if fdData[fd].remove then old(pollFds)[fdData[fd].index := PollFd(fd, 0, 0)] else old(pollFds)
    {
      var d := fdData[fd];
      out := events + [EventOf(d.key, pollFds[d.index].revents)];
      if d.remove { pollFds := pollFds[d.index := PollFd(fd, 0, 0)]; }
    }

    /** The collection loop, in whatever order the map is walked, with the number of ready
        descriptors `poll` returned. `order` lists the descriptors reported. Each ready descriptor
        is reported at most once, with its own key and flags; and every one is, exactly when the
        list it appends to was empty or already held at least that many events. */
    method Collect(events: seq<Event>, num: nat) returns (out: seq<Event>, ghost order: seq<Fd>)
      requires Valid() && num == |ReadyFds(pollFds, fdData)|
      modifies this`pollFds
      ensures Valid() && Distinct(order) && Elems(order) <= old(ReadyFds(pollFds, fdData))
      ensures Listed(events, out, order, old(pollFds), fdData)
      ensures |order| == if 0 < |events| < num then num - |events| else num
      ensures Elems(order) == old(ReadyFds(pollFds, fdData)) <==> !(0 < |events| < num)
      ensures Disarmed(old(pollFds), pollFds, fdData, Elems(order))
    {
      hide InStep, Listed, Progress, Disarmed, Elems;
      out, order := events, [];
      ghost var slots, ready := pollFds, ReadyFds(pollFds, fdData);
      var todo := fdData.Keys;
      AtStart(events, slots, fdData);
      if num > 0 {
        while todo != {}
          invariant Valid() && todo <= fdData.Keys && Listed(events, out, order, slots, fdData)
                    && |out| == |events| + |order|
          invariant Progress(order, ready, todo)
          invariant Disarmed(slots, pollFds, fdData, Elems(order))
          invariant 0 < |events| < num ==> |out| < num
          decreases |todo|
        {
          SomeMember(todo);
          var fd :| fd in todo;
          SlotOf(pollFds, fdData, notifyRead, fd);
          StillArmed(slots, pollFds, fdData, order, ready, todo, fd);
          if pollFds[fdData[fd].index].revents != 0 {
            DisarmOne(slots, pollFds, fdData, notifyRead, Elems(order), fd);
            Reported(events, out, order, slots, fdData, ready, todo, fd);
            out := Take(fd, out);
            order := order + [fd];
            todo := todo - {fd};
            if |out| == num { break; }
          } else {
            Skipped(order, ready, todo, fd);
            todo := todo - {fd};
          }
        }
      }
      AtEnd(order, ready, todo);
    }
  }

  ghost predicate Distinct(s: seq<Fd>) { forall i, j :: 0 <= i < j < |s| ==> s[i] != s[j] }

  ghost function Elems(s: seq<Fd>): set<Fd> { set k | 0 <= k < |s| :: s[k] }

  ghost function Slot(slots: seq<PollFd>, data: map<Fd, FdData>, fd: Fd): PollFd {
    if fd in data && data[fd].index < |slots| then slots[data[fd].index] else PollFd(fd, 0, 0)
  }

  /** The registered descriptors `poll` has marked ready. */
  ghost function ReadyFds(slots: seq<PollFd>, data: map<Fd, FdData>): set<Fd> {
    set fd | fd in data && Slot(slots, data, fd).revents != 0
  }

  /** `out` is `events` followed by the events of the descriptors in `order`. */
  ghost predicate Listed(events: seq<Event>, out: seq<Event>, order: seq<Fd>,
                         slots: seq<PollFd>, data: map<Fd, FdData>)
  {
    && |out| == |events| + |order| && out[..|events|] == events
    && forall k :: 0 <= k < |order| ==>
         order[k] in data && out[|events| + k] == EventOf(data[order[k]].key, Slot(slots, data, order[k]).revents)
  }

  /** The ready descriptors already walked past are the ones reported. */
  ghost predicate Progress(order: seq<Fd>, ready: set<Fd>, todo: set<Fd>) {
    Distinct(order) && Elems(order) == ready - todo && |order| == |ready - todo|
  }

  lemma SomeMember(s: set<Fd>)
    requires s != {}
    ensures exists fd :: fd in s
  {
    assert (forall fd :: fd !in s) ==> s == {};
  }

  lemma AtStart(events: seq<Event>, slots: seq<PollFd>, data: map<Fd, FdData>)
    ensures Listed(events, events, [], slots, data) && Progress([], ReadyFds(slots, data), data.Keys)
    ensures Disarmed(slots, slots, data, Elems([]))
  {
    assert ReadyFds(slots, data) - data.Keys == {};
  }

  lemma SlotOf(slots: seq<PollFd>, data: map<Fd, FdData>, notify: Fd, fd: Fd)
    requires InStep(slots, data, notify) && fd in data
    ensures 0 < data[fd].index < |slots| && Slot(slots, data, fd) == slots[data[fd].index]
            && slots[data[fd].index].fd == fd
  {
  }

  /** One-shot descriptors that were reported are no longer polled for anything; nothing else has
      changed. */
  ghost predicate Disarmed(slots: seq<PollFd>, now: seq<PollFd>, data: map<Fd, FdData>, done: set<Fd>) {
    && |now| == |slots|
    && forall fd :: fd in data ==>
         Slot(now, data, fd) == if fd in done && data[fd].remove then PollFd(fd, 0, 0) else Slot(slots, data, fd)
  }

  lemma StillArmed(slots: seq<PollFd>, now: seq<PollFd>, data: map<Fd, FdData>,
                   order: seq<Fd>, ready: set<Fd>, todo: set<Fd>, fd: Fd)
    requires Disarmed(slots, now, data, Elems(order)) && Progress(order, ready, todo) && fd in todo && fd in data
    ensures Slot(now, data, fd) == Slot(slots, data, fd)
  {
  }

  lemma DisarmOne(slots: seq<PollFd>, now: seq<PollFd>, data: map<Fd, FdData>, notify: Fd, done: set<Fd>, fd: Fd)
    requires InStep(now, data, notify) && Disarmed(slots, now, data, done) && fd in data
    ensures data[fd].index < |now|
    ensures Disarmed(slots, if data[fd].remove then now[data[fd].index := PollFd(fd, 0, 0)] else now, data, done + {fd})
  {
    var next := if data[fd].remove then now[data[fd].index := PollFd(fd, 0, 0)] else now;
    forall f | f in data
      ensures Slot(next, data, f)
              == if f in done + {fd} && data[f].remove then PollFd(f, 0, 0) else Slot(slots, data, f)
    {
      assert f != fd ==> data[f].index != data[fd].index;
    }
  }

  lemma Reported(events: seq<Event>, out: seq<Event>, order: seq<Fd>, slots: seq<PollFd>, data: map<Fd, FdData>,
                 ready: set<Fd>, todo: set<Fd>, fd: Fd)
    requires Listed(events, out, order, slots, data) && Progress(order, ready, todo) && fd in todo && fd in ready
             && fd in data
    ensures Listed(events, out + [EventOf(data[fd].key, Slot(slots, data, fd).revents)], order + [fd], slots, data)
    ensures Progress(order + [fd], ready, todo - {fd}) && Elems(order + [fd]) == Elems(order) + {fd}
  {
    assert ready - (todo - {fd}) == (ready - todo) + {fd};
    forall k | 0 <= k < |order| ensures order[k] != fd { assert order[k] in Elems(order); }
    forall f ensures f in Elems(order + [fd]) <==> f in Elems(order) || f == fd {
      if f in Elems(order) {
        var k :| 0 <= k < |order| && order[k] == f;
        assert (order + [fd])[k] == f;
      }
      assert (order + [fd])[|order|] == fd;
    }
  }

  lemma Skipped(order: seq<Fd>, ready: set<Fd>, todo: set<Fd>, fd: Fd)
    requires Progress(order, ready, todo) && fd !in ready
    ensures Progress(order, ready, todo - {fd})
  {
    assert ready - (todo - {fd}) == ready - todo;
  }

  lemma AtEnd(order: seq<Fd>, ready: set<Fd>, todo: set<Fd>)
    requires Progress(order, ready, todo)
    ensures Distinct(order) && Elems(order) <= ready && |order| <= |ready|
    ensures Elems(order) == ready <==> |order| == |ready|
    ensures todo == {} ==> |order| == |ready|
  {
    assert ready == (ready - todo) + (ready * todo);
    assert |ready| == |ready - todo| + |ready * todo|;
    if todo == {} { assert ready - todo == ready; }
  }

  /** An event is lost: with one event in the list and two descriptors ready, the list ends up with
      two events instead of three. */
  method LosesAnEvent() returns (out: seq<Event>)
    ensures |out| == 2
  {
    var t := new Fds(0, 1);
    t.pollFds := [PollFd(0, IN, 0), PollFd(5, IN, IN), PollFd(6, IN, IN)];
    t.fdData := map[5 := FdData(1, 50, false), 6 := FdData(2, 60, false)];
    assert ReadyFds(t.pollFds, t.fdData) == {5, 6};
    ghost var order: seq<Fd>;
    out, order := t.Collect([EventOf(7, IN)], 2);
  }
}
