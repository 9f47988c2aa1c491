/** `BytePage` and the rope `BytePages`: a deque of pages followed by a page being filled.
    Pages live in an `Arena`; adopting one moves its handle, so nothing is copied. */
module PageRope {
  import opened Common
  import opened BufferHeap
  import opened SharedBuffers

  /** A `BytePage`: immutable bytes, a storage block taken over whole, or a plain vector. */
  datatype PageRef = BytesPage(id: Id) | StoragePage(id: Id) | VecPage(bytes: seq<byte>)

  /** The handle a page owns, if any. */
  function PSet(p: PageRef): set<Id> {
    if p.VecPage? then {} else {p.id}
  }

  // ---------------------------------------------------------------- pages as values

  /** The page's handle is live, of the right kind, and small enough for a block. */
  ghost predicate PageIn(m: map<Id, Val>, p: PageRef) {
    match p
    case BytesPage(i) => i in m && m[i].FrozenV? && Fits(|m[i].data|)
    case StoragePage(i) => i in m && m[i].PageV? && Fits(|m[i].data|)
    case VecPage(bytes) => Fits(|bytes|)
  }

  ghost function PData(m: map<Id, Val>, p: PageRef): seq<byte>
    requires PageIn(m, p)
  {
    if p.VecPage? then p.bytes else m[p.id].data
  }

  ghost predicate PagesIn(m: map<Id, Val>, ps: seq<PageRef>) {
    forall k :: 0 <= k < |ps| ==> PageIn(m, ps[k])
  }

  /** The bytes of a run of pages, in order. */
  ghost function Flat(m: map<Id, Val>, ps: seq<PageRef>): seq<byte>
    requires PagesIn(m, ps)
  {
    if ps == [] then [] else PData(m, ps[0]) + Flat(m, ps[1..])
  }

  lemma {:induction false} FlatAppend(m: map<Id, Val>, ps: seq<PageRef>, qs: seq<PageRef>)
    requires PagesIn(m, ps) && PagesIn(m, qs)
    ensures PagesIn(m, ps + qs) && Flat(m, ps + qs) == Flat(m, ps) + Flat(m, qs)
  {
    if ps == [] {
      assert ps + qs == qs;
    } else {
      FlatAppend(m, ps[1..], qs);
      assert (ps + qs)[1..] == ps[1..] + qs;
    }
  }

  lemma FlatPrefix(m: map<Id, Val>, ps: seq<PageRef>, k: nat)
    requires PagesIn(m, ps) && k <= |ps|
    ensures Flat(m, ps[..k]) <= Flat(m, ps)
  {
    FlatAppend(m, ps[..k], ps[k..]);
    assert ps == ps[..k] + ps[k..];
  }

  lemma FlatPush(m: map<Id, Val>, ps: seq<PageRef>, p: PageRef)
    requires PagesIn(m, ps) && PageIn(m, p)
    ensures PagesIn(m, ps + [p]) && Flat(m, ps + [p]) == Flat(m, ps) + PData(m, p)
    ensures PagesIn(m, [p] + ps) && Flat(m, [p] + ps) == PData(m, p) + Flat(m, ps)
  {
    FlatAppend(m, ps, [p]);
    FlatAppend(m, [p], ps);
    assert Flat(m, [p]) == PData(m, p) + Flat(m, []);
  }

  /** Pages whose handles did not change keep their bytes. */
  lemma {:induction false} FlatFrame(m: map<Id, Val>, m': map<Id, Val>, ps: seq<PageRef>)
    requires PagesIn(m, ps)
    requires forall k :: 0 <= k < |ps| && !ps[k].VecPage? ==> ps[k].id in m' && m'[ps[k].id] == m[ps[k].id]
    ensures PagesIn(m', ps) && Flat(m', ps) == Flat(m, ps)
  {
    if ps != [] {
      assert PageIn(m, ps[0]);
      FlatFrame(m, m', ps[1..]);
    }
  }

  // ---------------------------------------------------------------- ownership

  /** A step by the owner of the handles `own`, who owns `own'` afterwards: handles of others are
      untouched, whatever is owned now was owned before or is new, and nothing is left behind. */
  ghost predicate Bounded(m: map<Id, Val>, own: set<Id>, m': map<Id, Val>, own': set<Id>) {
    && (forall j :: j in m && j !in own ==> j in m' && m'[j] == m[j])
    && (forall j :: j in own' ==> j in own || j !in m)
    && (forall j :: j in m' ==> j in own' || (j in m && j !in own))
  }

  lemma BoundedTrans(m: map<Id, Val>, o: set<Id>, m1: map<Id, Val>, o1: set<Id>, m2: map<Id, Val>, o2: set<Id>)
    requires Bounded(m, o, m1, o1) && Bounded(m1, o1, m2, o2)
    ensures Bounded(m, o, m2, o2)
  {
  }

  lemma BoundedSame(m: map<Id, Val>, o: set<Id>)
    ensures Bounded(m, o, m, o)
  {
  }

  lemma BoundedPut(m: map<Id, Val>, o: set<Id>, r: Id, v: Val)
    requires r in o || r !in m
    ensures Bounded(m, o, m[r := v], o + {r})
  {
  }

  lemma BoundedWiden(m: map<Id, Val>, o: set<Id>, m1: map<Id, Val>, o1: set<Id>, s: set<Id>)
    requires Bounded(m, o, m1, o1)
    ensures Bounded(m, o + s, m1, o1 + s)
  {
  }

  // ---------------------------------------------------------------- single pages

  function PageBytes(ar: Arena, p: PageRef): (d: seq<byte>)
    reads ar
    requires ar.Valid() && PageIn(ar.A(), p)
    ensures d == PData(ar.A(), p)
  {
    match p
    case BytesPage(i) => ar.FreshId(); ar.Bytes(i)
    case StoragePage(i) => ar.FreshId(); Window(ar.Hdr(i))
    case VecPage(bytes) => bytes
  }

  method DropPage(ar: Arena, p: PageRef)
    requires ar.Valid() && PageIn(ar.A(), p)
    modifies ar
    ensures ar.Valid() && Bounded(old(ar.A()), PSet(p), ar.A(), {})
  {
    hide Inv, View, ValOf, HandleOk;
    ar.FreshId();
    if !p.VecPage? { ar.Drop(p.id); }
  }

  /** `BytePage::freeze`. */
  method FreezePage(ar: Arena, p: PageRef) returns (r: Id)
    requires ar.Valid() && PageIn(ar.A(), p)
    modifies ar
    ensures ar.Valid() && ar.IsFrozen(r) && r in ar.A() && ar.A()[r] == FrozenV(PData(old(ar.A()), p))
    ensures Bounded(old(ar.A()), PSet(p), ar.A(), {r})
  {
    hide Inv, View, ValOf, HandleOk;
    ar.FreshId();
    match p {
      case BytesPage(i) => r := i;
      case StoragePage(i) =>
        ar.Freeze(i);
        r := i;
      case VecPage(bytes) => r := ar.FromSlice(bytes);
    }
  }

  /** `BytePage::split_to`: both halves are `Bytes` pages afterwards. */
  method SplitPage(ar: Arena, p: PageRef, at: nat) returns (head: PageRef, rest: PageRef)
    requires ar.Valid() && PageIn(ar.A(), p)
    modifies ar
    ensures ar.Valid() && PageIn(ar.A(), head) && PageIn(ar.A(), rest)
    ensures PData(ar.A(), head) == Keep(PData(old(ar.A()), p), at)
    ensures PData(ar.A(), rest) == Skip(PData(old(ar.A()), p), at)
    ensures Bounded(old(ar.A()), PSet(p), ar.A(), PSet(head) + PSet(rest)) && PSet(head) !! PSet(rest)
  {
    hide Inv, View, ValOf, HandleOk;
    ghost var m := ar.A();
    var i := FreezePage(ar, p);
    ghost var m1 := ar.A();
    var d := ar.Bytes(i);
    ghost var st := ar.Storage(i);
    var n := if at <= |d| then at else |d|;
    assert d[..|d|] == d && d[|d|..] == [];
    var r := ar.FrozenSplitToChecked(i, n);
    head, rest := BytesPage(r.value), BytesPage(i);
    BoundedTrans(m, PSet(p), m1, {i}, ar.A(), PSet(head) + PSet(rest));
  }

  /** `BytePage::clone`. */
  method ClonePage(ar: Arena, p: PageRef) returns (r: PageRef)
    requires ar.Valid() && PageIn(ar.A(), p)
    modifies ar
    ensures ar.Valid() && PageIn(ar.A(), r) && PData(ar.A(), r) == PData(old(ar.A()), p)
    ensures Bounded(old(ar.A()), {}, ar.A(), PSet(r))
  {
    hide Inv, View, ValOf, HandleOk;
    ar.FreshId();
    match p {
      case BytesPage(i) =>
        ghost var st := ar.Storage(i);
        var t := ar.ShallowClone(i);
        r := BytesPage(t);
      case StoragePage(i) =>
        var t := ar.ClonePage(i);
        r := StoragePage(t);
      case VecPage(bytes) =>
        var t := ar.FromSlice(bytes);
        r := BytesPage(t);
    }
  }

  // ---------------------------------------------------------------- rope as a value

  ghost function OwnSet(ps: seq<PageRef>, cur: Option<Id>): set<Id> {
    (set k | 0 <= k < |ps| && !ps[k].VecPage? :: ps[k].id) + if cur.Some? then {cur.value} else {}
  }

  ghost predicate Distinct(ps: seq<PageRef>, cur: Option<Id>) {
    && (forall k, l :: 0 <= k < l < |ps| ==> PSet(ps[k]) !! PSet(ps[l]))
    && (cur.Some? ==> forall k :: 0 <= k < |ps| ==> cur.value !in PSet(ps[k]))
  }

  ghost predicate RopeOk(m: map<Id, Val>, ps: seq<PageRef>, cur: Option<Id>) {
    PagesIn(m, ps) && Distinct(ps, cur) && (cur.Some? ==> cur.value in m && m[cur.value].MutV?)
  }

  ghost function CurText(m: map<Id, Val>, cur: Option<Id>): seq<byte>
    requires cur.Some? ==> cur.value in m
  {
    if cur.Some? then m[cur.value].data else []
  }

  ghost function Text(m: map<Id, Val>, ps: seq<PageRef>, cur: Option<Id>): seq<byte>
    requires RopeOk(m, ps, cur)
  {
    Flat(m, ps) + CurText(m, cur)
  }

  lemma OwnedLive(m: map<Id, Val>, ps: seq<PageRef>, cur: Option<Id>)
    requires RopeOk(m, ps, cur)
    ensures OwnSet(ps, cur) <= m.Keys && (cur.Some? ==> cur.value in m && cur.value in OwnSet(ps, cur))
  {
    forall k | 0 <= k < |ps| && !ps[k].VecPage? ensures ps[k].id in m { assert PageIn(m, ps[k]); }
  }

  /** A step by owners of other handles leaves a rope as it is. */
  lemma TextFrame(m: map<Id, Val>, m': map<Id, Val>, ps: seq<PageRef>, cur: Option<Id>, o: set<Id>, o': set<Id>)
    requires RopeOk(m, ps, cur) && Bounded(m, o, m', o') && OwnSet(ps, cur) !! o
    ensures RopeOk(m', ps, cur) && Text(m', ps, cur) == Text(m, ps, cur) && OwnSet(ps, cur) !! o'
    ensures forall j :: j in OwnSet(ps, cur) ==> j in m && j in m' && m'[j] == m[j]
  {
    OwnedLive(m, ps, cur);
    forall k | 0 <= k < |ps| && !ps[k].VecPage? ensures ps[k].id in m' && m'[ps[k].id] == m[ps[k].id] {
      assert ps[k].id in OwnSet(ps, cur);
    }
    FlatFrame(m, m', ps);
  }

  lemma Opened(m: map<Id, Val>, ps: seq<PageRef>, st: Id)
    requires RopeOk(m, ps, None) && st !in m
    ensures var m' := m[st := MutV([])];
            && RopeOk(m', ps, Some(st)) && Text(m', ps, Some(st)) == Text(m, ps, None)
            && Bounded(m, OwnSet(ps, None), m', OwnSet(ps, Some(st)))
  {
    OwnedLive(m, ps, None);
    forall k | 0 <= k < |ps| ensures st !in PSet(ps[k]) { assert PageIn(m, ps[k]); }
    FlatFrame(m, m[st := MutV([])], ps);
  }

  lemma Filled(m: map<Id, Val>, ps: seq<PageRef>, st: Id, data: seq<byte>)
    requires RopeOk(m, ps, Some(st))
    ensures var m' := m[st := MutV(m[st].data + data)];
            && RopeOk(m', ps, Some(st)) && Text(m', ps, Some(st)) == Text(m, ps, Some(st)) + data
            && Bounded(m, OwnSet(ps, Some(st)), m', OwnSet(ps, Some(st)))
  {
    FlatFrame(m, m[st := MutV(m[st].data + data)], ps);
  }

  /** The page being filled turned into the last page of the deque. */
  lemma Retired(m: map<Id, Val>, ps: seq<PageRef>, st: Id)
    requires RopeOk(m, ps, Some(st)) && Fits(|m[st].data|)
    ensures var m', ps' := m[st := PageV(m[st].data)], ps + [StoragePage(st)];
            && RopeOk(m', ps', None) && Text(m', ps', None) == Text(m, ps, Some(st))
            && OwnSet(ps', None) == OwnSet(ps, Some(st))
            && Bounded(m, OwnSet(ps, Some(st)), m', OwnSet(ps', None))
  {
    var m', p := m[st := PageV(m[st].data)], StoragePage(st);
    FlatFrame(m, m', ps);
    FlatPush(m', ps, p);
    OwnPush(ps, None, p);
  }

  lemma OwnPush(ps: seq<PageRef>, cur: Option<Id>, p: PageRef)
    ensures OwnSet(ps + [p], cur) == OwnSet(ps, cur) + PSet(p)
    ensures OwnSet([p] + ps, cur) == OwnSet(ps, cur) + PSet(p)
  {
    forall j | j in OwnSet(ps, cur) ensures j in OwnSet(ps + [p], cur) && j in OwnSet([p] + ps, cur) {
      if k :| 0 <= k < |ps| && !ps[k].VecPage? && ps[k].id == j {
        assert (ps + [p])[k] == ps[k] && ([p] + ps)[k + 1] == ps[k];
      }
    }
    assert (ps + [p])[|ps|] == p && ([p] + ps)[0] == p;
  }

  lemma OwnEach(ps: seq<PageRef>, cur: Option<Id>)
    ensures forall k :: 0 <= k < |ps| ==> PSet(ps[k]) <= OwnSet(ps, cur)
  {
  }

  lemma PushedBack(m: map<Id, Val>, ps: seq<PageRef>, cur: Option<Id>, p: PageRef)
    requires RopeOk(m, ps, cur) && CurText(m, cur) == [] && PageIn(m, p) && PSet(p) !! OwnSet(ps, cur)
    ensures RopeOk(m, ps + [p], cur) && Text(m, ps + [p], cur) == Text(m, ps, cur) + PData(m, p)
    ensures OwnSet(ps + [p], cur) == OwnSet(ps, cur) + PSet(p)
  {
    FlatPush(m, ps, p);
    OwnPush(ps, cur, p);
    OwnEach(ps, cur);
    hide OwnSet, Flat;
  }

  lemma PushedFront(m: map<Id, Val>, ps: seq<PageRef>, cur: Option<Id>, p: PageRef)
    requires RopeOk(m, ps, cur) && PageIn(m, p) && PSet(p) !! OwnSet(ps, cur)
    ensures RopeOk(m, [p] + ps, cur) && Text(m, [p] + ps, cur) == PData(m, p) + Text(m, ps, cur)
    ensures OwnSet([p] + ps, cur) == OwnSet(ps, cur) + PSet(p)
  {
    FlatPush(m, ps, p);
    OwnPush(ps, cur, p);
    OwnEach(ps, cur);
    hide OwnSet, Flat;
  }

  lemma PoppedFront(m: map<Id, Val>, ps: seq<PageRef>, cur: Option<Id>)
    requires RopeOk(m, ps, cur) && ps != []
    ensures RopeOk(m, ps[1..], cur) && PageIn(m, ps[0]) && Text(m, ps, cur) == PData(m, ps[0]) + Text(m, ps[1..], cur)
    ensures PSet(ps[0]) !! OwnSet(ps[1..], cur) && OwnSet(ps, cur) == OwnSet(ps[1..], cur) + PSet(ps[0])
  {
    assert ps == [ps[0]] + ps[1..];
    OwnPush(ps[1..], cur, ps[0]);
    forall k | 0 <= k < |ps[1..]| ensures PSet(ps[0]) !! PSet(ps[1..][k]) { assert ps[1..][k] == ps[k + 1]; }
  }

  /** A page taken over as the one being filled; the empty page it replaces goes away. */
  lemma Adopted(m: map<Id, Val>, m': map<Id, Val>, ps: seq<PageRef>, cur: Option<Id>, st: Id)
    requires RopeOk(m, ps, cur) && CurText(m, cur) == [] && st in m && st !in OwnSet(ps, cur)
    requires m' == if cur.Some? then m[st := MutV(m[st].data)] - {cur.value} else m[st := MutV(m[st].data)]
    ensures RopeOk(m', ps, Some(st)) && Text(m', ps, Some(st)) == Text(m, ps, cur) + m[st].data
    ensures Bounded(m, OwnSet(ps, cur) + {st}, m', OwnSet(ps, Some(st)))
  {
    forall k | 0 <= k < |ps| ensures st !in PSet(ps[k]) { assert PSet(ps[k]) <= OwnSet(ps, cur); }
    FlatFrame(m, m', ps);
  }

  lemma PageUnchanged(m: map<Id, Val>, m': map<Id, Val>, ps: seq<PageRef>, cur: Option<Id>, k: nat)
    requires k < |ps| && PageIn(m, ps[k])
    requires forall j :: j in OwnSet(ps, cur) ==> j in m && j in m' && m'[j] == m[j]
    ensures PageIn(m', ps[k]) && PData(m', ps[k]) == PData(m, ps[k])
  {
    assert PSet(ps[k]) <= OwnSet(ps, cur);
  }

  lemma SplitConcat(d: seq<byte>, e: seq<byte>, n: nat)
    requires n <= |d|
    ensures (d + e)[..n] == Keep(d, n) && (d + e)[n..] == Skip(d, n) + e
  {
  }

  lemma KeepSkipSplit(c: seq<byte>, k: nat, n: nat)
    requires k <= |c|
    ensures Keep(c, k + n) == c[..k] + Keep(c[k..], n) && Skip(c, k + n) == Skip(c[k..], n)
  {
  }

  lemma TextParts(m: map<Id, Val>, ps: seq<PageRef>, cur: Option<Id>)
    requires RopeOk(m, ps, cur)
    ensures PagesIn(m, ps) && (cur.Some? ==> cur.value in m) && Text(m, ps, cur) == Flat(m, ps) + CurText(m, cur)
  {
  }

  lemma Assoc(a: seq<byte>, b: seq<byte>, c: seq<byte>)
    ensures a + b + c == a + (b + c)
  {
  }

  /** `k` bytes of `c` are over already, `len` more follow. */
  lemma Further(t: seq<byte>, c: seq<byte>, k: nat, len: nat)
    requires k <= |c| && len <= |c[k..]|
    ensures t + c[..k] + c[k..][..len] == t + c[..k + len] && c[k..][len..] == c[k + len..]
  {
    assert c[..k] + c[k..][..len] == c[..k + len];
    Assoc(t, c[..k], c[k..][..len]);
  }

  lemma Lent(m: map<Id, Val>, ps: seq<PageRef>, st: Id)
    requires RopeOk(m, ps, Some(st))
    ensures RopeOk(m, ps, None) && Text(m, ps, Some(st)) == Text(m, ps, None) + m[st].data
    ensures st !in OwnSet(ps, None) && OwnSet(ps, Some(st)) == OwnSet(ps, None) + {st}
  {
    forall k | 0 <= k < |ps| ensures st !in PSet(ps[k]) { }
  }

  lemma Regained(m: map<Id, Val>, ps: seq<PageRef>, st: Id)
    requires RopeOk(m, ps, None) && st in m && m[st].MutV? && st !in OwnSet(ps, None)
    ensures RopeOk(m, ps, Some(st)) && Text(m, ps, Some(st)) == Text(m, ps, None) + m[st].data
    ensures OwnSet(ps, Some(st)) == OwnSet(ps, None) + {st}
  {
    forall k | 0 <= k < |ps| ensures st !in PSet(ps[k]) { assert PSet(ps[k]) <= OwnSet(ps, None); }
  }

  // ---------------------------------------------------------------- the rope

  class BytePages {
    const arena: Arena
    var size: PageSize
    var pages: seq<PageRef>
    var current: Option<Id>

    ghost predicate Valid()
      reads this, arena
    {
      arena.Valid() && size != Unset && RopeOk(arena.A(), pages, current)
    }

    ghost function Contents(): seq<byte>
      reads this, arena
      requires Valid()
    {
      Text(arena.A(), pages, current)
    }

    /** The handles of the rope's pages. */
    ghost function Own(): set<Id>
      reads this
    {
      OwnSet(pages, current)
    }

    /** The step touched nothing but the rope's pages and the pages `x` it was given. */
    twostate predicate Around(x: set<Id>)
      reads this, arena
      requires old(arena.Valid()) && arena.Valid()
    {
      Bounded(old(arena.A()), old(Own()) + x, arena.A(), Own())
    }

    constructor (ar: Arena, size: PageSize)
      requires ar.Valid() && size != Unset
      ensures Valid() && arena == ar && this.size == size && Contents() == [] && Own() == {} && pages == []
    {
      arena, this.size, pages, current := ar, size, [], None;
    }

    function CurrentLen(): (n: nat)
      reads this, arena
      requires Valid()
      ensures n == |CurText(arena.A(), current)|
    {
      if current.Some? then arena.FreshId(); arena.Hdr(current.value).len else 0
    }

    function NumPages(): nat
      reads this
    {
      |pages| + if current.Some? then 1 else 0
    }

    /** The header of the page being filled. */
    function Page(): Block
      reads this, arena
      requires Valid() && current.Some?
      ensures BlockOk(Page()) && arena.A()[current.value] == MutV(Window(Page())) && arena.IsMut(current.value)
    {
      arena.FreshId();
      arena.Hdr(current.value)
    }

    predicate IsFull()
      reads this, arena
      requires Valid() && current.Some?
    {
      Page().remaining == 0
    }

    // -------------------------------------------------------------- the page being filled

    /** The page being filled, taken from the cache or allocated when there is none. */
    method OpenCurrent()
      requires Valid()
      modifies this`current, arena
      ensures Valid() && current.Some? && Contents() == old(Contents()) && Around({})
      ensures old(current.Some?) ==> current == old(current) && arena.A() == old(arena.A()) && IsFull() == old(IsFull())
      ensures old(current.None?) ==> FreshHeader(Page(), size)
    {
      hide Inv, View, ValOf, HandleOk, RopeOk, OwnSet, Text;
      if current.None? {
        ghost var m := arena.A();
        arena.FreshId();
        var st := arena.Sized(size);
        Opened(m, pages, st);
        current := Some(st);
      }
    }

    /** Append to the current page what fits into it already. */
    method Fill(data: seq<byte>)
      requires Valid() && current.Some? && |data| <= Page().remaining
      modifies arena
      ensures Valid() && Contents() == old(Contents()) + data && Around({})
      ensures Page().remaining == old(Page().remaining) - |data|
    {
      hide Inv, View, ValOf, HandleOk, RopeOk, OwnSet, Text;
      ghost var m := arena.A();
      var st := current.value;
      var b := Page();
      ghost var d := m[st].data;
      assert d[..|d|] + data + Skip(d, |d| + |data|) == d + data;
      Filled(m, pages, st, data);
      arena.WriteAt(st, b.len, data);
    }

    /** The current page moves to the deque. */
    method Retire()
      requires Valid() && current.Some?
      modifies this`pages, this`current, arena
      ensures Valid() && Contents() == old(Contents()) && Around({}) && Own() == old(Own()) && current.None?
      ensures pages == old(pages) + [StoragePage(old(current.value))]
    {
      hide Inv, View, ValOf, HandleOk, RopeOk, OwnSet, Text;
      ghost var m := arena.A();
      var st := current.value;
      assert Fits(Page().len) && m[st].data == Window(Page());
      Retired(m, pages, st);
      arena.IntoPage(st);
      pages, current := pages + [StoragePage(st)], None;
    }

    /** The end of `with_current`: a full page moves to the deque. */
    method RetireIfFull()
      requires Valid() && current.Some?
      modifies this`pages, this`current, arena
      ensures Valid() && Contents() == old(Contents()) && Around({})
      ensures current == if old(IsFull()) then None else old(current)
      ensures current.Some? ==> !IsFull()
    {
      if IsFull() { Retire(); }
    }

    /** One pass of `put_slice`: fill the current page as far as it goes. */
    method WriteSome(src: seq<byte>) returns (amount: nat)
      requires Valid() && src != []
      modifies this`pages, this`current, arena
      ensures Valid() && amount <= |src| && Contents() == old(Contents()) + src[..amount] && Around({})
      ensures amount == 0 ==> old(current.Some? && IsFull()) && current.None?
      ensures current.Some? ==> !IsFull()
    {
      hide Inv, View, ValOf, HandleOk, RopeOk, OwnSet, Text, Flat, PData, Bounded;
      ghost var m, o := arena.A(), Own() + {};
      OpenCurrent();
      ghost var m1, o1 := arena.A(), Own() + {};
      assert o1 == Own();
      var room := Page().remaining;
      amount := if |src| <= room then |src| else room;
      FillAndClose(src[..amount]);
      BoundedTrans(m, o, m1, o1, arena.A(), Own());
    }

    /** What `with_current` does with bytes that fit: they are appended, and a page that is full then
        is no longer current. */
    method FillAndClose(data: seq<byte>)
      requires Valid() && current.Some? && |data| <= Page().remaining
      modifies this`pages, this`current, arena
      ensures Valid() && Contents() == old(Contents()) + data && Around({})
      ensures current == if |data| == old(Page().remaining) then None else old(current)
      ensures current.Some? ==> !IsFull()
    {
      hide Inv, View, ValOf, HandleOk, RopeOk, OwnSet, Text, Flat, PData, Bounded;
      ghost var m, o := arena.A(), Own() + {};
      Fill(data);
      ghost var m1, o1 := arena.A(), Own() + {};
      assert o1 == Own();
      RetireIfFull();
      BoundedTrans(m, o, m1, o1, arena.A(), Own());
    }

    /** `put_slice` appends exactly its input from every state; a pass that copies nothing only
        happens when the current page is full, and gets rid of that page. */
    method PutSlice(src: seq<byte>)
      requires Valid()
      modifies this`pages, this`current, arena
      ensures Valid() && Contents() == old(Contents()) + src && Around({})
    {
      hide Inv, View, ValOf, HandleOk, RopeOk, OwnSet, Text;
      var s := src;
      assert src[0..] == src;
      while s != []
        invariant Valid() && |s| <= |src| && s == src[|src| - |s|..]
        invariant Contents() == old(Contents()) + src[..|src| - |s|]
        invariant Around({})
        decreases |s|, current.Some? && IsFull()
      {
        ghost var done := src[..|src| - |s|];
        var amount := WriteSome(s);
        assert done + s[..amount] == src[..|src| - |s| + amount];
        s := s[amount..];
      }
      assert src[..|src|] == src;
    }

    /** `put_u8`: goes wrong exactly when the page being filled is already full. */
    method PutU8(n: byte) returns (ok: bool)
      requires Valid()
      modifies this`pages, this`current, arena
      ensures Valid() && (ok <==> !old(current.Some? && IsFull()))
      ensures ok ==> Contents() == old(Contents()) + [n] && Around({})
    {
      hide Inv, View, ValOf, HandleOk, RopeOk, OwnSet, Text, Flat, PData, Bounded;
      ghost var m, o := arena.A(), Own() + {};
      OpenCurrent();
      if Page().remaining == 0 { return false; }
      ghost var m1, o1 := arena.A(), Own() + {};
      assert o1 == Own();
      FillAndClose([n]);
      BoundedTrans(m, o, m1, o1, arena.A(), Own());
      ok := true;
    }

    // -------------------------------------------------------------- moving pages

    /** A page handed to the rope by someone else. */
    ghost predicate Foreign(p: PageRef)
      reads this, arena
      requires Valid()
    {
      PageIn(arena.A(), p) && PSet(p) !! Own()
    }

    /** `append`: an empty rope tail adopts a page with room, a short page is copied into the
        current one, and anything else goes to the deque behind it. */
    method Append(p: PageRef)
      requires Valid() && Foreign(p)
      modifies this`pages, this`current, arena
      ensures Valid() && Contents() == old(Contents()) + PData(old(arena.A()), p) && Around(PSet(p))
      // behind a page being filled, what fits is copied and the rest is adopted as it is
      ensures PData(old(arena.A()), p) == [] ==> pages == old(pages) && current == old(current)
      ensures old(CurrentLen()) > 0 && |PData(old(arena.A()), p)| > old(Page().remaining) ==>
                current.None? && |pages| == |old(pages)| + 2 && pages[|old(pages)| + 1] == p
      ensures old(CurrentLen()) > 0 && |PData(old(arena.A()), p)| <= old(Page().remaining) ==>
                PSet(p) !! Own()
    {
      hide Inv, View, ValOf, HandleOk, RopeOk, OwnSet, Text;
      var d := PageBytes(arena, p);
      if d == [] {
        Discard(p);
      } else if CurrentLen() == 0 {
        AppendWhole(p);
      } else if |d| <= Page().remaining {
        AppendCopy(p, d);
      } else {
        AppendBehind(p);
      }
    }

    /** The page's bytes fit behind the current ones: copy them and drop the page. */
    method AppendCopy(p: PageRef, d: seq<byte>)
      requires Valid() && Foreign(p) && d == PData(arena.A(), p)
      modifies this`pages, this`current, arena
      ensures Valid() && Contents() == old(Contents()) + d && Around(PSet(p)) && PSet(p) !! Own()
    {
      hide Inv, View, ValOf, HandleOk, RopeOk, OwnSet, Text;
      ghost var m, o := arena.A(), Own();
      PutSlice(d);
      BoundedWiden(m, o, arena.A(), Own(), PSet(p));
      Discard(p);
    }

    /** The current page is closed and the new one follows it. */
    method AppendBehind(p: PageRef)
      requires Valid() && Foreign(p) && current.Some?
      modifies this`pages, this`current, arena
      ensures Valid() && Contents() == old(Contents()) + PData(old(arena.A()), p) && Around(PSet(p))
      ensures pages == old(pages) + [StoragePage(old(current.value)), p] && current.None?
    {
      hide Inv, View, ValOf, HandleOk, RopeOk, OwnSet, Text;
      ghost var m, o := arena.A(), Own();
      Retire();
      BoundedWiden(m, o, arena.A(), Own(), PSet(p));
      PushBack(p);
    }

    /** A page dropped without becoming part of the rope. */
    method Discard(p: PageRef)
      requires Valid() && Foreign(p)
      modifies arena
      ensures Valid() && Contents() == old(Contents()) && Around(PSet(p))
    {
      hide Inv, View, ValOf, HandleOk, RopeOk, OwnSet, Text;
      ghost var m := arena.A();
      DropPage(arena, p);
      TextFrame(m, arena.A(), pages, current, PSet(p), {});
      BoundedWiden(m, PSet(p), arena.A(), {}, Own());
    }

    method PushBack(p: PageRef)
      requires Valid() && Foreign(p) && CurrentLen() == 0
      modifies this`pages
      ensures Valid() && Contents() == old(Contents()) + PData(arena.A(), p) && Around(PSet(p))
      ensures pages == old(pages) + [p]
    {
      hide Inv, View, ValOf, HandleOk, RopeOk, OwnSet, Text;
      PushedBack(arena.A(), pages, current, p);
      pages := pages + [p];
    }

    /** Nothing is being filled: the page becomes the current one if it can, else joins the deque. */
    method AppendWhole(p: PageRef)
      requires Valid() && Foreign(p) && CurrentLen() == 0
      modifies this`pages, this`current, arena
      ensures Valid() && Contents() == old(Contents()) + PData(old(arena.A()), p) && Around(PSet(p))
    {
      hide Inv, View, ValOf, HandleOk, RopeOk, OwnSet, Text;
      if p.StoragePage? {
        var ok := TryAdopt(p.id);
        if ok { return; }
      }
      PushBack(p);
    }

    /** Adoption needs a page nobody shares and with room left; otherwise nothing changes. */
    method TryAdopt(st: Id) returns (ok: bool)
      requires Valid() && Foreign(StoragePage(st)) && CurrentLen() == 0
      modifies this`current, arena
      ensures Valid()
      ensures ok ==> Contents() == old(Contents()) + old(arena.A())[st].data && current == Some(st) && Around({st})
      ensures !ok ==> arena.A() == old(arena.A()) && current == old(current)
    {
      hide Inv, View, ValOf, HandleOk, RopeOk, OwnSet, Text;
      arena.FreshId();
      ghost var m, cur := arena.A(), current;
      OwnedLive(m, pages, current);
      ok := arena.IntoStorage(st);
      if ok {
        SetCurrent(st);
        Adopted(m, arena.A(), pages, cur, st);
      }
    }

    /** `self.current = Some(st)`; the page it replaces is dropped. */
    method SetCurrent(st: Id)
      requires arena.Valid() && (current.Some? ==> current.value in arena.A())
      modifies this`current, arena
      ensures arena.Valid() && current == Some(st)
      ensures arena.A() == if old(current).Some? then old(arena.A()) - {old(current).value} else old(arena.A())
    {
      hide Inv, View, ValOf, HandleOk;
      arena.FreshId();
      if current.Some? { arena.Drop(current.value); }
      current := Some(st);
    }

    /** `prepend`: a page in front of everything. */
    method Prepend(p: PageRef) returns (added: bool)
      requires Valid() && Foreign(p)
      modifies this`pages, arena
      ensures Valid() && Contents() == PData(old(arena.A()), p) + old(Contents()) && Around(PSet(p))
      ensures added <==> PData(old(arena.A()), p) != []
    {
      hide Inv, View, ValOf, HandleOk, RopeOk, OwnSet, Text;
      var d := PageBytes(arena, p);
      if d == [] {
        Discard(p);
        return false;
      }
      PushedFront(arena.A(), pages, current, p);
      pages := [p] + pages;
      return true;
    }

    /** `take`: the first page, or the one being filled when the deque is empty. */
    method TakePage() returns (r: Option<PageRef>)
      requires Valid()
      modifies this`pages, this`current, arena
      ensures Valid() && (r.None? <==> old(NumPages()) == 0)
      ensures r.None? ==> old(Contents()) == Contents() == [] && arena.A() == old(arena.A()) && Own() == old(Own())
      ensures r.Some? ==> Foreign(r.value) && old(Contents()) == PData(arena.A(), r.value) + Contents()
      ensures r.Some? ==> Own() + PSet(r.value) == old(Own()) && NumPages() == old(NumPages()) - 1
      ensures Bounded(old(arena.A()), old(Own()), arena.A(), old(Own()))
      ensures old(pages) != [] ==> pages == old(pages)[1..] && current == old(current)
      ensures NumPages() == 0 ==> Contents() == []
    {
      hide Inv, View, ValOf, HandleOk, RopeOk, OwnSet;
      if pages != [] {
        PoppedFront(arena.A(), pages, current);
        r := Some(pages[0]);
        pages := pages[1..];
      } else if current.Some? {
        Retire();
        PoppedFront(arena.A(), pages, current);
        r := Some(pages[0]);
        pages := pages[1..];
      } else {
        r := None;
      }
    }

    /** `clear`. */
    method Clear()
      requires Valid()
      modifies this`pages, this`current, arena
      ensures Valid() && Contents() == [] && Around({})
    {
      hide Inv, View, ValOf, HandleOk, RopeOk, OwnSet, Text;
      while true
        invariant Valid() && Around({})
        decreases NumPages()
      {
        ghost var m, o := arena.A(), Own();
        var r := TakePage();
        if r.None? { break; }
        Discard(r.value);
      }
    }

    // -------------------------------------------------------------- with_bytes_mut

    /** The first half of `with_bytes_mut`: the current page leaves the rope as a `BytesMut` for the
        caller to change in any way. */
    method LendCurrent() returns (st: Id, cap: nat)
      requires Valid()
      modifies this`current, arena
      ensures Valid() && current.None? && pages == old(pages) && arena.IsMut(st) && st !in Own()
              && cap == arena.Hdr(st).capacity
      ensures old(Contents()) == Contents() + arena.A()[st].data
      ensures Bounded(old(arena.A()), old(Own()), arena.A(), Own() + {st})
    {
      hide Inv, View, ValOf, HandleOk, RopeOk, OwnSet;
      OpenCurrent();
      st, cap := current.value, Page().capacity;
      Lent(arena.A(), pages, st);
      current := None;
    }

    /** The second half: the page, possibly in another block by now, becomes current again or, when
        it holds a page's worth of bytes, joins the deque. A changed capacity clears the page tag. */
    method ReturnCurrent(st: Id, cap: nat)
      requires Valid() && current.None? && arena.IsMut(st) && st !in Own()
      modifies this`pages, this`current, arena
      ensures Valid() && Contents() == old(Contents()) + old(arena.A())[st].data && Around({st})
      ensures current == if old(arena.Hdr(st).len) < size.Capacity() then Some(st) else None
      // a page without room stays current exactly when it is shorter than a page of the rope
      ensures current.Some? ==> (IsFull() <==> old(arena.Hdr(st).remaining) == 0)
      ensures current.Some? ==> Page().size == if old(arena.Hdr(st).capacity) != cap then Unset
                                               else old(arena.Hdr(st).size)
    {
      hide Inv, View, ValOf, HandleOk, RopeOk, OwnSet;
      ghost var m := arena.A();
      arena.FreshId();
      if arena.Hdr(st).capacity != cap { arena.Unsize(st); }
      assert arena.A() == m;
      Regained(m, pages, st);
      current := Some(st);
      if Page().len >= size.Capacity() { Retire(); }
    }

    // -------------------------------------------------------------- two ropes

    /** Two ropes over the same arena that share no page. */
    ghost predicate Apart(to: BytePages)
      reads this, to, arena
    {
      && to != this && to.arena == arena && Valid() && to.Valid() && Own() !! to.Own()
    }

    /** Only pages of the two ropes, and the pages `x` in transit before and `y` after, changed. */
    twostate predicate AroundBoth(to: BytePages, x: set<Id>, y: set<Id>)
      reads this, to, arena
      requires old(arena.Valid()) && arena.Valid()
    {
      Bounded(old(arena.A()), old(Own()) + old(to.Own()) + x, arena.A(), Own() + to.Own() + y)
    }

    ghost predicate InTransit(p: PageRef, to: BytePages)
      reads this, to, arena
      requires Apart(to)
    {
      Foreign(p) && to.Foreign(p)
    }

    /** A page that belongs to neither rope is appended to the other one. */
    method GiveTo(p: PageRef, to: BytePages, ghost x: set<Id>)
      requires Apart(to) && InTransit(p, to) && x !! Own() && x !! to.Own() && x !! PSet(p) && x <= arena.A().Keys
      modifies to`pages, to`current, arena
      ensures Apart(to) && Contents() == old(Contents())
      ensures to.Contents() == old(to.Contents()) + PData(old(arena.A()), p)
      ensures AroundBoth(to, PSet(p) + x, x) && x !! to.Own()
      ensures forall j :: j in Own() + x ==> j in old(arena.A()) && j in arena.A() && arena.A()[j] == old(arena.A())[j]
    {
      hide Inv, View, ValOf, HandleOk, RopeOk, OwnSet, Text;
      ghost var m, o := arena.A(), to.Own() + PSet(p);
      to.Append(p);
      TextFrame(m, arena.A(), pages, current, o, to.Own());
      BoundedWiden(m, o, arena.A(), to.Own(), Own() + x);
      assert old(Own()) + old(to.Own()) + (PSet(p) + x) == o + (Own() + x);
      assert Own() + to.Own() + x == to.Own() + (Own() + x);
    }

    /** `take` with a second rope standing by. */
    method TakeBeside(to: BytePages) returns (r: Option<PageRef>)
      requires Apart(to)
      modifies this`pages, this`current, arena
      ensures Apart(to) && to.Contents() == old(to.Contents()) && (r.None? <==> old(NumPages()) == 0)
      ensures r.None? ==> old(Contents()) == Contents() == [] && AroundBoth(to, {}, {})
      ensures r.Some? ==> InTransit(r.value, to) && NumPages() == old(NumPages()) - 1
      ensures r.Some? ==> old(Contents()) == PData(arena.A(), r.value) + Contents() && AroundBoth(to, {}, PSet(r.value))
      ensures old(pages) != [] ==> pages == old(pages)[1..] && current == old(current)
      ensures NumPages() == 0 ==> Contents() == []
    {
      hide Inv, View, ValOf, HandleOk, RopeOk, OwnSet, Text;
      ghost var m, o := arena.A(), Own();
      r := TakePage();
      TextFrame(m, arena.A(), to.pages, to.current, o, o);
      BoundedWiden(m, o, arena.A(), o, to.Own());
      if r.Some? { assert Own() + to.Own() + PSet(r.value) == o + to.Own(); }
    }

    /** `move_to`: everything goes to the end of the other rope, in order. */
    method MoveTo(to: BytePages)
      requires Apart(to)
      modifies this`pages, this`current, to`pages, to`current, arena
      ensures Apart(to) && Contents() == [] && to.Contents() == old(to.Contents()) + old(Contents())
      ensures AroundBoth(to, {}, {})
    {
      hide Inv, View, ValOf, HandleOk, RopeOk, OwnSet, Text, Bounded, Flat, PData;
      ghost var m, o := arena.A(), Own() + to.Own() + {};
      BoundedSame(m, o);
      while true
        invariant Apart(to) && AroundBoth(to, {}, {})
        invariant to.Contents() + Contents() == old(to.Contents()) + old(Contents())
        decreases NumPages()
      {
        ghost var m1, o1 := arena.A(), Own() + to.Own() + {};
        var more := MoveOne(to);
        BoundedTrans(m, o, m1, o1, arena.A(), Own() + to.Own() + {});
        if !more { break; }
      }
      assert to.Contents() + Contents() == to.Contents();
    }

    /** The next page, if there is one, moves to the end of the other rope. */
    method MoveOne(to: BytePages) returns (more: bool)
      requires Apart(to)
      modifies this`pages, this`current, to`pages, to`current, arena
      ensures Apart(to) && AroundBoth(to, {}, {})
      ensures to.Contents() + Contents() == old(to.Contents()) + old(Contents())
      ensures if more then NumPages() < old(NumPages()) else Contents() == []
    {
      hide Inv, View, ValOf, HandleOk, RopeOk, OwnSet, Text, Flat;
      ghost var t := to.Contents();
      var r := TakeBeside(to);
      more := r.Some?;
      if more {
        Assoc(t, PData(arena.A(), r.value), Contents());
        GiveTo(r.value, to, {});
      }
    }

    /** One page cloned to the end of the other rope. */
    method CloneTo(p: PageRef, to: BytePages)
      requires Apart(to) && PageIn(arena.A(), p)
      modifies to`pages, to`current, arena
      ensures Apart(to) && Contents() == old(Contents())
      ensures to.Contents() == old(to.Contents()) + PData(old(arena.A()), p)
      ensures AroundBoth(to, {}, {})
      ensures forall j :: j in Own() ==> j in old(arena.A()) && j in arena.A() && arena.A()[j] == old(arena.A())[j]
    {
      hide Inv, View, ValOf, HandleOk, RopeOk, OwnSet, Text;
      ghost var m := arena.A();
      var c := ClonePage(arena, p);
      TextFrame(m, arena.A(), pages, current, {}, PSet(c));
      TextFrame(m, arena.A(), to.pages, to.current, {}, PSet(c));
      BoundedWiden(m, {}, arena.A(), PSet(c), Own() + to.Own());
      GiveTo(c, to, {});
    }

    /** `copy_to`: the other rope gains this rope's bytes, and this rope keeps them. */
    method CopyTo(to: BytePages)
      requires Apart(to)
      modifies to`pages, to`current, arena
      ensures Apart(to) && Contents() == old(Contents()) && to.Contents() == old(to.Contents()) + old(Contents())
      ensures AroundBoth(to, {}, {})
    {
      hide Inv, View, ValOf, HandleOk, RopeOk, OwnSet, Text, Bounded;
      ghost var m, o := arena.A(), Own() + to.Own() + {};
      OwnedLive(m, pages, current);
      TextParts(m, pages, current);
      CopyPages(to);
      ghost var m1, o1 := arena.A(), Own() + to.Own() + {};
      assert CurText(m1, current) == CurText(m, current);
      Assoc(old(to.Contents()), Flat(m, pages), CurText(m, current));
      CopyCurrent(to);
      BoundedTrans(m, o, m1, o1, arena.A(), Own() + to.Own() + {});
    }

    method CopyCurrent(to: BytePages)
      requires Apart(to) && (current.Some? ==> current.value in arena.A())
      modifies to`pages, to`current, arena
      ensures Apart(to) && Contents() == old(Contents())
      ensures to.Contents() == old(to.Contents()) + CurText(old(arena.A()), current)
      ensures AroundBoth(to, {}, {})
    {
      hide Inv, View, ValOf, HandleOk, RopeOk, OwnSet, Text;
      if current.Some? {
        var b := Page();
        assert Fits(b.len) && PData(arena.A(), VecPage(Window(b))) == CurText(arena.A(), current);
        CloneTo(VecPage(Window(b)), to);
      }
    }

    method CopyPages(to: BytePages)
      requires Apart(to)
      modifies to`pages, to`current, arena
      ensures Apart(to) && Contents() == old(Contents())
      ensures PagesIn(old(arena.A()), pages) && to.Contents() == old(to.Contents()) + Flat(old(arena.A()), pages)
      ensures AroundBoth(to, {}, {})
      ensures forall j :: j in Own() ==> j in old(arena.A()) && j in arena.A() && arena.A()[j] == old(arena.A())[j]
    {
      hide Inv, View, ValOf, HandleOk, RopeOk, OwnSet, Text, Bounded, PData, CurText;
      ghost var m, o := arena.A(), Own() + to.Own() + {};
      OwnedLive(m, pages, current);
      TextParts(m, pages, current);
      BoundedSame(m, o);
      assert pages[..|pages|] == pages && Flat(m, pages[..0]) == [];
      hide Flat;
      for k := 0 to |pages|
        invariant Apart(to) && Contents() == old(Contents()) && AroundBoth(to, {}, {})
        invariant to.Contents() == old(to.Contents()) + Flat(m, pages[..k])
        invariant forall j :: j in Own() ==> j in m && j in arena.A() && arena.A()[j] == m[j]
      {
        PageUnchanged(m, arena.A(), pages, current, k);
        FlatPush(m, pages[..k], pages[k]);
        assert pages[..k + 1] == pages[..k] + [pages[k]];
        ghost var m1, o1 := arena.A(), Own() + to.Own() + {};
        CloneTo(pages[k], to);
        BoundedTrans(m, o, m1, o1, arena.A(), Own() + to.Own() + {});
      }
    }

    // -------------------------------------------------------------- splitting

    /** The first `n` bytes of a page in transit go to the other rope. */
    method HeadTo(p: PageRef, n: nat, to: BytePages) returns (rest: PageRef)
      requires Apart(to) && InTransit(p, to)
      modifies to`pages, to`current, arena
      ensures Apart(to) && Contents() == old(Contents())
      ensures to.Contents() == old(to.Contents()) + Keep(PData(old(arena.A()), p), n)
      ensures InTransit(rest, to) && PData(arena.A(), rest) == Skip(PData(old(arena.A()), p), n)
      ensures AroundBoth(to, PSet(p), PSet(rest))
    {
      hide Inv, View, ValOf, HandleOk, RopeOk, OwnSet, Text;
      ghost var m := arena.A();
      var head;
      head, rest := SplitPage(arena, p, n);
      ghost var m1, y := arena.A(), PSet(head) + PSet(rest);
      TextFrame(m, m1, pages, current, PSet(p), y);
      TextFrame(m, m1, to.pages, to.current, PSet(p), y);
      BoundedWiden(m, PSet(p), m1, y, Own() + to.Own());
      hide Bounded, Flat;
      ghost var o, o1 := Own() + to.Own() + PSet(p), Own() + to.Own() + (PSet(head) + PSet(rest));
      assert o == PSet(p) + (Own() + to.Own()) && o1 == y + (Own() + to.Own());
      GiveTo(head, to, PSet(rest));
      BoundedTrans(m, o, m1, o1, arena.A(), Own() + to.Own() + PSet(rest));
    }

    method DiscardBeside(p: PageRef, to: BytePages)
      requires Apart(to) && InTransit(p, to)
      modifies arena
      ensures Apart(to) && AroundBoth(to, PSet(p), {})
      ensures Contents() == old(Contents()) && to.Contents() == old(to.Contents())
    {
      hide Inv, View, ValOf, HandleOk, RopeOk, OwnSet, Text;
      ghost var m := arena.A();
      DropPage(arena, p);
      TextFrame(m, arena.A(), pages, current, PSet(p), {});
      TextFrame(m, arena.A(), to.pages, to.current, PSet(p), {});
      BoundedWiden(m, PSet(p), arena.A(), {}, Own() + to.Own());
    }

    /** `split_into` for the first page of the deque; what is left of it goes back to the front. */
    method SplitFirst(n: nat, to: BytePages) returns (len: nat, left: bool)
      requires Apart(to) && pages != []
      modifies this`pages, this`current, to`pages, to`current, arena
      ensures Apart(to) && AroundBoth(to, {}, {}) && current == old(current)
      ensures len <= n && len <= |old(Contents())|
      ensures to.Contents() == old(to.Contents()) + old(Contents())[..len] && Contents() == old(Contents())[len..]
      ensures if left then len == n else |pages| == |old(pages)| - 1
    {
      hide Inv, View, ValOf, HandleOk, RopeOk, OwnSet, Text, Flat, PData, Bounded;
      ghost var m, o := arena.A(), Own() + to.Own() + {};
      var r := TakeBeside(to);
      ghost var m1, o1 := arena.A(), Own() + to.Own() + PSet(r.value);
      var d := PageBytes(arena, r.value);
      len := if |d| <= n then |d| else n;
      SplitConcat(d, Contents(), len);
      var rest := HeadTo(r.value, len, to);
      ghost var m2, o2 := arena.A(), Own() + to.Own() + PSet(rest);
      BoundedTrans(m, o, m1, o1, m2, o2);
      left := PageBytes(arena, rest) != [];
      if left {
        PutBack(rest, to);
      } else {
        DiscardBeside(rest, to);
      }
      BoundedTrans(m, o, m2, o2, arena.A(), Own() + to.Own() + {});
    }

    method PutBack(p: PageRef, to: BytePages)
      requires Apart(to) && InTransit(p, to)
      modifies this`pages
      ensures Apart(to) && Contents() == PData(arena.A(), p) + old(Contents()) && AroundBoth(to, PSet(p), {})
    {
      hide Inv, View, ValOf, HandleOk, RopeOk, OwnSet, Text;
      PushedFront(arena.A(), pages, current, p);
      pages := [p] + pages;
    }

    /** `split_into`: the first `min(at, len)` bytes go to the other rope, the rest stays, in order. */
    method SplitInto(at: nat, to: BytePages)
      requires Apart(to)
      modifies this`pages, this`current, to`pages, to`current, arena
      ensures Apart(to) && AroundBoth(to, {}, {})
      ensures to.Contents() == old(to.Contents()) + Keep(old(Contents()), at)
      ensures Contents() == Skip(old(Contents()), at)
    {
      hide Inv, View, ValOf, HandleOk, RopeOk, OwnSet, Text, Bounded, Flat, PData;
      ghost var c, t := Contents(), to.Contents();
      ghost var m, o := arena.A(), Own() + to.Own() + {};
      BoundedSame(m, o);
      var n: nat := at;
      while pages != []
        invariant Apart(to) && AroundBoth(to, {}, {}) && n <= at && at - n <= |c|
        invariant to.Contents() == t + c[..at - n] && Contents() == c[at - n..]
        decreases |pages|
      {
        ghost var m1, o1 := arena.A(), Own() + to.Own() + {};
        var len, left := SplitFirst(n, to);
        BoundedTrans(m, o, m1, o1, arena.A(), Own() + to.Own() + {});
        Further(t, c, at - n, len);
        n := n - len;
        if left { return; }
      }
      KeepSkipSplit(c, at - n, n);
      if n > 0 {
        ghost var m1, o1 := arena.A(), Own() + to.Own() + {};
        SplitCurrent(n, to);
        Assoc(t, c[..at - n], Keep(c[at - n..], n));
        BoundedTrans(m, o, m1, o1, arena.A(), Own() + to.Own() + {});
      }
    }

    /** `split_into` once the deque is empty. */
    method SplitCurrent(n: nat, to: BytePages)
      requires Apart(to) && pages == []
      modifies this`pages, this`current, to`pages, to`current, arena
      ensures Apart(to) && AroundBoth(to, {}, {})
      ensures to.Contents() == old(to.Contents()) + Keep(old(Contents()), n) && Contents() == Skip(old(Contents()), n)
    {
      hide Inv, View, ValOf, HandleOk, RopeOk, OwnSet, Text, Flat, PData, Bounded;
      ghost var m, o := arena.A(), Own() + to.Own() + {};
      var r := TakeBeside(to);
      if r.Some? {
        assert PData(arena.A(), r.value) + [] == old(Contents());
        ghost var m1, o1 := arena.A(), Own() + to.Own() + PSet(r.value);
        var rest := HeadTo(r.value, n, to);
        ghost var m2, o2 := arena.A(), Own() + to.Own() + PSet(rest);
        assert o2 == to.Own() + Own() + (PSet(rest) + {});
        to.GiveTo(rest, this, {});
        assert to.Own() + Own() + {} == Own() + to.Own() + {};
        BoundedTrans(m, o, m1, o1, m2, o2);
        BoundedTrans(m, o, m2, o2, arena.A(), Own() + to.Own() + {});
      }
    }

    // -------------------------------------------------------------- freeze

    method IsEmpty() returns (empty: bool)
      requires Valid()
      ensures empty <==> Contents() == []
    {
      hide Inv, View, ValOf, HandleOk, OwnSet;
      assert pages[..|pages|] == pages;
      for k := 0 to |pages|
        invariant Flat(arena.A(), pages[..k]) == []
      {
        FlatPush(arena.A(), pages[..k], pages[k]);
        assert pages[..k + 1] == pages[..k] + [pages[k]];
        if PageBytes(arena, pages[k]) != [] {
          FlatPrefix(arena.A(), pages, k + 1);
          return false;
        }
      }
      return CurrentLen() == 0;
    }

    /** `freeze`: all bytes as one `Bytes`, without copying when there is a single page. */
    method Freeze() returns (r: Id)
      requires Valid() && Fits(|Contents()|)
      modifies this`pages, this`current, arena
      ensures Valid() && Contents() == [] && r in arena.A() && arena.A()[r] == FrozenV(old(Contents())) && r !in Own()
      ensures Bounded(old(arena.A()), old(Own()), arena.A(), Own() + {r})
    {
      hide Inv, View, ValOf, HandleOk, RopeOk, OwnSet, Text;
      ghost var m, o := arena.A(), Own();
      var empty := IsEmpty();
      if NumPages() == 0 || empty {
        OwnedLive(m, pages, current);
        TextParts(m, pages, current);
        arena.FreshId();
        r := arena.NewPlain(Inline([]));
        TextFrame(m, arena.A(), pages, current, {}, {r});
      } else if NumPages() == 1 {
        var p := TakePage();
        ghost var m1 := arena.A();
        assert PData(m1, p.value) + [] == old(Contents());
        r := FreezePage(arena, p.value);
        TextFrame(m1, arena.A(), pages, current, PSet(p.value), {r});
        BoundedWiden(m1, PSet(p.value), arena.A(), {r}, Own());
      } else {
        r := Join();
      }
    }

    /** Several pages are copied into one buffer of the total length. */
    method Join() returns (r: Id)
      requires Valid() && Fits(|Contents()|)
      modifies this`pages, this`current, arena
      ensures Valid() && Contents() == [] && r in arena.A() && arena.A()[r] == FrozenV(old(Contents())) && r !in Own()
      ensures Bounded(old(arena.A()), old(Own()), arena.A(), Own() + {r})
    {
      hide Inv, View, ValOf, HandleOk, RopeOk, OwnSet, Text, Bounded;
      ghost var m, o := arena.A(), Own();
      OwnedLive(m, pages, current);
      arena.FreshId();
      var len := Len();
      r := arena.WithCapacity(len);
      BoundedPut(m, {}, r, MutV([]));
      BoundedPut(m, o, r, MutV([]));
      TextFrame(m, arena.A(), pages, current, {}, {} + {r});
      while true
        invariant Valid() && r !in Own() && r in arena.A() && arena.A()[r].MutV?
        invariant arena.A()[r].data + Contents() == old(Contents())
        invariant Bounded(m, o, arena.A(), Own() + {r})
        decreases NumPages()
      {
        ghost var m1, o1 := arena.A(), Own() + {r};
        var more := TakeInto(r);
        BoundedTrans(m, o, m1, o1, arena.A(), Own() + {r});
        if !more { break; }
      }
      assert arena.A()[r].data + [] == arena.A()[r].data;
      ghost var m1 := arena.A();
      arena.FreshId();
      arena.Freeze(r);
      BoundedPut(m1, {r}, r, arena.A()[r]);
      BoundedPut(m1, Own() + {r}, r, arena.A()[r]);
      TextFrame(m1, arena.A(), pages, current, {r}, {r} + {r});
      assert Own() + {r} + {r} == Own() + {r};
      BoundedTrans(m, o, m1, Own() + {r}, arena.A(), Own() + {r});
    }

    method Len() returns (n: nat)
      requires Valid()
      ensures n == |Contents()|
    {
      hide Inv, View, ValOf, HandleOk, OwnSet;
      n := CurrentLen();
      assert pages[..|pages|] == pages;
      for k := 0 to |pages|
        invariant n == CurrentLen() + |Flat(arena.A(), pages[..k])|
      {
        FlatPush(arena.A(), pages[..k], pages[k]);
        assert pages[..k + 1] == pages[..k] + [pages[k]];
        n := n + |PageBytes(arena, pages[k])|;
      }
    }

    /** The next page is appended to a buffer outside the rope and dropped. */
    method TakeInto(r: Id) returns (more: bool)
      requires Valid() && r !in Own() && r in arena.A() && arena.A()[r].MutV?
               && Fits(|arena.A()[r].data| + |Contents()|)
      modifies this`pages, this`current, arena
      ensures Valid() && r !in Own() && r in arena.A() && arena.A()[r].MutV?
      ensures arena.A()[r].data + Contents() == old(arena.A()[r].data + Contents())
      ensures Bounded(old(arena.A()), old(Own()) + {r}, arena.A(), Own() + {r})
      ensures if more then NumPages() < old(NumPages()) else Contents() == []
    {
      hide Inv, View, ValOf, HandleOk, RopeOk, OwnSet, Text;
      ghost var m, o := arena.A(), Own();
      var p := TakePage();
      BoundedWiden(m, o, arena.A(), o, {r});
      if p.None? { return false; }
      more := true;
      ghost var m1, o1 := arena.A(), Own() + {r} + PSet(p.value);
      Assoc(m1[r].data, PData(m1, p.value), Contents());
      assert o1 == o + {r} && m1[r] == m[r];
      Absorb(r, p.value);
      BoundedTrans(m, o + {r}, m1, o1, arena.A(), Own() + {r});
    }

    /** A page outside the rope is appended to a buffer outside the rope and dropped. */
    method Absorb(r: Id, p: PageRef)
      requires Valid() && Foreign(p) && r !in Own() && r !in PSet(p) && r in arena.A() && arena.A()[r].MutV?
      requires Fits(|arena.A()[r].data| + |PData(arena.A(), p)|)
      modifies arena
      ensures Valid() && Contents() == old(Contents()) && r in arena.A()
      ensures arena.A()[r] == MutV(old(arena.A())[r].data + PData(old(arena.A()), p))
      ensures Bounded(old(arena.A()), Own() + {r} + PSet(p), arena.A(), Own() + {r})
    {
      hide Inv, View, ValOf, HandleOk, RopeOk, OwnSet, Text;
      ghost var m := arena.A();
      var d := PageBytes(arena, p);
      arena.FreshId();
      assert arena.Hdr(r).len == |m[r].data|;
      arena.PutSlice(r, d);
      ghost var m1 := arena.A();
      BoundedPut(m, {r}, r, m1[r]);
      assert {r} + {r} == {r};
      TextFrame(m, m1, pages, current, {r}, {r});
      BoundedWiden(m, {r}, m1, {r}, Own() + PSet(p));
      DropPage(arena, p);
      TextFrame(m1, arena.A(), pages, current, PSet(p), {});
      BoundedWiden(m1, PSet(p), arena.A(), {}, Own() + {r});
      ghost var o, o1, o2 := Own() + {r} + PSet(p), Own() + {r} + PSet(p), Own() + {r};
      assert {r} + (Own() + PSet(p)) == o && PSet(p) + (Own() + {r}) == o1 && {} + (Own() + {r}) == o2;
      BoundedTrans(m, o, m1, o1, arena.A(), o2);
    }
  }

  /** A new rope lends its current page; a closure that writes five bytes and moves them into a
      block without room hands back a full page. */
  method LendAndFill() returns (p: BytePages, st: Id, cap: nat)
    ensures fresh(p) && fresh(p.arena) && p.Valid() && p.current.None? && p.size == Size4
    ensures p.arena.IsMut(st) && st !in p.Own()
    ensures p.arena.Hdr(st).len == 5 && p.arena.Hdr(st).remaining == 0
  {
    hide Inv, View, ValOf, HandleOk, Bounded;
    var ar := new Arena();
    p := new BytePages(ar, Size4);
    st, cap := p.LendCurrent();
    assert ar.A()[st].data == [] && ar.Hdr(st).len == |ar.A()[st].data|;
    ar.PutSlice(st, seq(5, _ => 7 as byte));
    assert ar.Hdr(st).len == |ar.A()[st].data| == 5;
    var fits := ar.ReserveCapacity(st, 5);
    assert fits && ar.Hdr(st).len == |ar.A()[st].data| == 5;
  }

  /** `put_u8` does go wrong: such a closure given to `with_bytes_mut` leaves a full page current. */
  method PutU8Refused() returns (ok: bool)
    ensures !ok
  {
    hide Inv, View, ValOf, HandleOk, Bounded, RopeOk, OwnSet, Text, Flat, PData;
    var p, st, cap := LendAndFill();
    p.ReturnCurrent(st, cap);
    ok := p.PutU8(1);
  }
}
