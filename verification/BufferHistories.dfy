/** What holds of the buffers after any history of operations, and where encodings disagree. */
module BufferHistories {
  import opened Common
  import opened BufferHeap
  import opened SharedBuffers

  // ---------------------------------------------------------------- what the invariant means

  /** The bytes a writer may change: its window and the spare capacity behind it. */
  ghost predicate Writable(h: Heap, i: Id, a: Addr, m: nat) {
    && i in h.handles && h.handles[i] == Mut(a) && a in h.blocks
    && h.blocks[a].offset <= m < h.blocks[a].offset + h.blocks[a].capacity
  }

  /** The bytes a `Bytes` shows. */
  ghost predicate Shown(h: Heap, j: Id, a: Addr, m: nat) {
    && j in h.handles && h.handles[j].Frozen? && h.handles[j].st.Vec? && h.handles[j].st.addr == a
    && h.handles[j].st.offset <= m < h.handles[j].st.offset + h.handles[j].st.len
  }

  /** A block has at most one writer, and no byte is writable through it and shown by a `Bytes`. */
  lemma WriterIsolated(h: Heap)
    requires Inv(h)
    ensures forall i, j, a ::
              i in h.handles && j in h.handles && h.handles[i] == Mut(a) && h.handles[j] == Mut(a) ==> i == j
    ensures forall i, j, a, m :: Writable(h, i, a, m) ==> !Shown(h, j, a, m)
  {
    forall i, j, a, m | Writable(h, i, a, m) ensures !Shown(h, j, a, m) {
      assert j in h.handles && i != j ==> Compatible(h.blocks, h.handles[i], h.handles[j]);
    }
    forall i, j, a | i in h.handles && j in h.handles && h.handles[i] == Mut(a) && h.handles[j] == Mut(a)
      ensures i == j
    {
      assert i != j ==> Compatible(h.blocks, h.handles[i], h.handles[j]);
    }
  }

  ghost predicate HasOwner(h: Heap, a: Addr) {
    InCache(h.cache, a) || exists i :: i in h.handles && PointsTo(h.handles[i], a)
  }

  /** Every block ever allocated is live exactly while something owns it; once freed it was freed
      with the size it was allocated with, and its header still spans the whole allocation until then. */
  lemma NoLeakNoDoubleFree(h: Heap, a: Addr)
    requires Inv(h) && a < h.next
    ensures a in h.blocks <==> HasOwner(h, a)
    ensures a in h.freed <==> a !in h.blocks
    ensures a in h.sizes
    ensures a in h.freed ==> h.freed[a] == h.sizes[a]
    ensures a in h.blocks ==> h.blocks[a].offset + h.blocks[a].capacity == h.sizes[a]
    ensures a in h.blocks && !InCache(h.cache, a) ==> h.blocks[a].refs == |Pointers(h.handles, a)|
  {
    if a in h.blocks {
      assert BlockOk(h.blocks[a]);
      if !InCache(h.cache, a) {
        assert Pointers(h.handles, a) != {};
        var i :| i in Pointers(h.handles, a);
      }
    }
    if InCache(h.cache, a) {
      var k :| k in h.cache && a in h.cache[k];
      assert SlotsOk(h.blocks, k, h.cache[k]);
    }
  }

  /** A page waiting in class `k` belongs to nobody and has the header of a new page of that class. */
  lemma CacheInvisible(h: Heap, k: PageSize, p: nat)
    requires Inv(h) && k in h.cache && p < |h.cache[k]|
    ensures var a := h.cache[k][p];
            a in h.blocks && FreshHeader(h.blocks[a], k) && forall i :: i in h.handles ==> !PointsTo(h.handles[i], a)
  {
    assert SlotsOk(h.blocks, k, h.cache[k]);
    CachedUnowned(h, k, h.cache[k][p]);
  }

  // ---------------------------------------------------------------- histories

  datatype Maker =
    | New(capacity: nat) | NewPage(size: PageSize) | Copy(src: seq<byte>) | Borrow(src: seq<byte>)
    | External(src: seq<byte>, clonable: bool) | LimitCache(limit: nat)

  datatype Act =
    | Put(src: seq<byte>) | Write(n: nat, src: seq<byte>) | Reserve(n: nat) | Regrow(n: nat)
    | Resize(n: nat, value: byte)
    | Truncate(n: nat) | Advance(n: nat) | SplitTo(n: nat) | SplitOff(n: nat) | Slice(n: nat, end: nat)
    | Take | Freeze | Clone | GetByte | Trim | Clear | ToPage | ToStorage | Drop

  datatype Op = Make(maker: Maker) | On(i: Id, act: Act)

  // ---------------------------------------------------------------- what an operation means

  /** What every handle shows. The effects below speak of this alone: no block, no encoding. */
  type Shows = map<Id, Val>

  /** A handle `m` does not have appears on top of `base` and shows `v`. */
  ghost predicate Gives(m: Shows, base: Shows, r: Id, v: Val, m': Shows) {
    r !in m && m' == base[r := v]
  }

  ghost predicate Adds(m: Shows, base: Shows, v: Val, m': Shows) {
    exists r: Id :: Gives(m, base, r, v, m')
  }

  ghost predicate Made(m: Shows, mk: Maker, m': Shows) {
    match mk
    case New(n) => if Fits(n) then Adds(m, m, MutV([]), m') else m' == m
    case NewPage(k) => if k != Unset then Adds(m, m, MutV([]), m') else m' == m
    case Copy(src) => if Fits(|src|) then Adds(m, m, FrozenV(src), m') else m' == m
    case Borrow(src) => Adds(m, m, FrozenV(src), m')
    case External(src, _) => Adds(m, m, FrozenV(src), m')
    case LimitCache(_) => m' == m
  }

  /** An operation on a `BytesMut` that shows `d`. `advance_to` may refuse a count past the length. */
  ghost predicate WriterEffect(m: Shows, i: Id, d: seq<byte>, act: Act, m': Shows) {
    match act
    case Put(src) => m' == if Fits(|d| + |src|) then m[i := MutV(d + src)] else m
    case Write(at, src) => m' == if at + |src| <= |d| then m[i := MutV(d[..at] + src + d[at + |src|..])] else m
    case Resize(n, v) =>
      m' == if !Fits(n) then m else m[i := MutV(if n <= |d| then d[..n] else d + Copies(n - |d|, v))]
    case Truncate(n) => m' == m[i := MutV(Keep(d, n))]
    case Advance(n) => m' == m[i := MutV(Skip(d, n % U32))] || (m' == m && n % U32 > |d|)
    case SplitTo(n) => if n <= |d| then Adds(m, m[i := MutV(d[n..])], FrozenV(d[..n]), m') else m' == m
    case Take => Adds(m, m[i := MutV([])], FrozenV(d), m')
    case Freeze => m' == m[i := FrozenV(d)]
    case ToPage => m' == m[i := PageV(d)]
    case _ => m' == m
  }

  /** An operation on a `Bytes` that shows `d`. `advance_to` past the length empties it or is
      refused, and `truncate` may be refused, by encoding. */
  ghost predicate BytesEffect(m: Shows, i: Id, d: seq<byte>, act: Act, m': Shows) {
    match act
    case Truncate(n) => m' == m[i := FrozenV(Keep(d, n))] || (m' == m && INLINE_CAP <= n <= |d|)
    case Advance(n) => m' == m[i := FrozenV(Skip(d, n))] || (m' == m && n > |d|)
    case GetByte => m' == if d == [] then m else m[i := FrozenV(d[1..])]
    case Clear => m' == m[i := FrozenV([])]
    case SplitTo(n) => if n <= |d| then Adds(m, m[i := FrozenV(d[n..])], FrozenV(d[..n]), m') else m' == m
    case SplitOff(n) => if n <= |d| then Adds(m, m[i := FrozenV(d[..n])], FrozenV(d[n..]), m') else m' == m
    case Slice(n, end) => if n <= end <= |d| then Adds(m, m, FrozenV(d[n..end]), m') else m' == m
    case Clone => Adds(m, m, FrozenV(d), m')
    case _ => m' == m
  }

  /** An operation on a storage page that shows `d`. A shared or full page stays a page. */
  ghost predicate PageEffect(m: Shows, i: Id, d: seq<byte>, act: Act, m': Shows) {
    match act
    case Freeze => m' == m[i := FrozenV(d)]
    case Clone => Adds(m, m, PageV(d), m')
    case ToStorage => m' == m[i := MutV(d)] || m' == m
    case _ => m' == m
  }

  /** One operation. One on a `Bytes` too large for a block may be refused: external bytes are
      copied. */
  ghost predicate Effect(m: Shows, op: Op, m': Shows) {
    match op
    case Make(mk) => Made(m, mk, m')
    case On(i, act) =>
      if i !in m then m' == m
      else if act.Drop? then m' == m - {i}
      else match m[i]
        case MutV(d) => WriterEffect(m, i, d, act, m')
        case PageV(d) => PageEffect(m, i, d, act, m')
        case FrozenV(d) => BytesEffect(m, i, d, act, m') || (!Fits(|d|) && m' == m)
  }

  // ---------------------------------------------------------------- the operations have these effects

  method ApplyMake(ar: Arena, mk: Maker)
    requires ar.Valid()
    modifies ar
    ensures ar.Valid() && Made(old(ar.A()), mk, ar.A())
  {
    hide Inv, View, ValOf, HandleOk;
    ar.FreshId();
    ghost var m, r := ar.A(), ar.nextId;
    match mk {
      case New(n) => if Fits(n) { var _ := ar.WithCapacity(n); assert Gives(m, m, r, MutV([]), ar.A()); }
      case NewPage(k) => if k != Unset { var _ := ar.Sized(k); assert Gives(m, m, r, MutV([]), ar.A()); }
      case Copy(src) => if Fits(|src|) { var _ := ar.FromSlice(src); assert Gives(m, m, r, FrozenV(src), ar.A()); }
      case Borrow(src) => var _ := ar.FromStatic(src); assert Gives(m, m, r, FrozenV(src), ar.A());
      case External(src, c) => var _ := ar.FromExt(src, c); assert Gives(m, m, r, FrozenV(src), ar.A());
      case LimitCache(n) => ar.SetPagesCache(n);
    }
  }

  /** Operations of a `BytesMut` that keep all its bytes or replace them. */
  method ApplyGrow(ar: Arena, i: Id, act: Act)
    requires ar.Valid() && ar.IsMut(i) && (act.Put? || act.Write? || act.Reserve? || act.Regrow? || act.Resize?)
    modifies ar
    ensures ar.Valid() && i in old(ar.A()) && WriterEffect(old(ar.A()), i, old(ar.A())[i].data, act, ar.A())
  {
    hide Inv, View, ValOf, HandleOk;
    var len := ar.Hdr(i).len;
    match act {
      case Put(src) => if Fits(len + |src|) { ar.PutSlice(i, src); }
      case Write(at, src) => if at + |src| <= len { ar.WriteAt(i, at, src); }
      case Reserve(n) => if Fits(len + n) { ar.Reserve(i, n); }
      case Regrow(n) => if Fits(n) { var _ := ar.ReserveCapacity(i, n); }
      case Resize(n, v) => if Fits(n) { ar.Resize(i, n, v); }
    }
  }

  /** The other operations of a `BytesMut`. */
  method ApplyShrink(ar: Arena, i: Id, act: Act)
    requires ar.Valid() && ar.IsMut(i) && !(act.Put? || act.Write? || act.Reserve? || act.Regrow? || act.Resize?)
    modifies ar
    ensures ar.Valid() && i in old(ar.A()) && WriterEffect(old(ar.A()), i, old(ar.A())[i].data, act, ar.A())
  {
    hide Inv, View, ValOf, HandleOk;
    ar.FreshId();
    ghost var m, r := ar.A(), ar.nextId;
    ghost var b, d := ar.Hdr(i), ar.A()[i].data;
    match act {
      case Truncate(n) => ar.Truncate(i, n);
      case Advance(n) => var _ := ar.AdvanceTo(i, n);
      case SplitTo(n) =>
        var t := ar.SplitToChecked(i, n);
        assert t.Some? ==> Gives(m, m[i := MutV(d[n..])], r, FrozenV(d[..n]), ar.A());
      case Take =>
        var _ := ar.Take(i);
        assert Gives(m, m[i := MutV([])], r, FrozenV(d), ar.A());
      case Freeze => ar.Freeze(i);
      case ToPage => ar.IntoPage(i);
      case _ =>
    }
  }

  /** Operations of a `Bytes` on itself. */
  method ApplyFrozen(ar: Arena, i: Id, act: Act)
    requires ar.Valid() && ar.IsFrozen(i) && ExtFits(ar.handles[i].st)
    requires !(act.SplitTo? || act.SplitOff? || act.Slice? || act.Clone?)
    modifies ar
    ensures ar.Valid() && i in old(ar.A()) && BytesEffect(old(ar.A()), i, old(ar.A())[i].data, act, ar.A())
  {
    hide Inv, View, ValOf, HandleOk;
    ghost var st := ar.Storage(i);
    match act {
      case Truncate(n) => var _ := ar.FrozenTruncate(i, n);
      case Advance(n) => var _ := ar.FrozenAdvanceTo(i, n);
      case GetByte => var _ := ar.GetU8(i);
      case Trim => var _ := ar.Trimdown(i);
      case Clear => ar.FrozenClear(i);
      case _ =>
    }
  }

  /** Operations of a `Bytes` that make another one. */
  method ApplyShare(ar: Arena, i: Id, act: Act)
    requires ar.Valid() && ar.IsFrozen(i) && ExtFits(ar.handles[i].st)
    requires act.SplitTo? || act.SplitOff? || act.Slice? || act.Clone?
    modifies ar
    ensures ar.Valid() && i in old(ar.A()) && BytesEffect(old(ar.A()), i, old(ar.A())[i].data, act, ar.A())
  {
    hide Inv, View, ValOf, HandleOk;
    ar.FreshId();
    ghost var m, next, st := ar.A(), ar.nextId, ar.Storage(i);
    ghost var d := m[i].data;
    match act {
      case SplitTo(n) =>
        var t := ar.FrozenSplitToChecked(i, n);
        assert t.Some? ==> Gives(m, m[i := FrozenV(d[n..])], t.value, FrozenV(d[..n]), ar.A());
      case SplitOff(n) =>
        var t := ar.SplitOffChecked(i, n);
        assert t.Some? ==> Gives(m, m[i := FrozenV(d[..n])], t.value, FrozenV(d[n..]), ar.A());
      case Slice(n, end) =>
        var t := ar.SliceChecked(i, n, end);
        assert t.Some? ==> Gives(m, m, t.value, FrozenV(d[n..end]), ar.A());
      case Clone =>
        var _ := ar.ShallowClone(i);
        assert Gives(m, m, next, FrozenV(d), ar.A());
    }
  }

  /** Operations of a storage page. */
  method ApplyPage(ar: Arena, i: Id, act: Act)
    requires ar.Valid() && ar.IsPage(i)
    modifies ar
    ensures ar.Valid() && i in old(ar.A()) && PageEffect(old(ar.A()), i, old(ar.A())[i].data, act, ar.A())
  {
    hide Inv, View, ValOf, HandleOk;
    ar.FreshId();
    ghost var m, next, b := ar.A(), ar.nextId, ar.Hdr(i);
    match act {
      case Freeze => ar.Freeze(i);
      case Clone => var _ := ar.ClonePage(i); assert Gives(m, m, next, m[i], ar.A());
      case ToStorage => var _ := ar.IntoStorage(i);
      case _ =>
    }
  }

  /** One operation; one its handle's type does not have, or too large for a block, does nothing. */
  method Apply(ar: Arena, i: Id, act: Act)
    requires ar.Valid()
    modifies ar
    ensures ar.Valid() && Effect(old(ar.A()), On(i, act), ar.A())
  {
    hide Inv, View, ValOf, HandleOk, WriterEffect, BytesEffect, PageEffect;
    ar.FreshId();
    if i !in ar.handles {
    } else if act.Drop? {
      ar.Drop(i);
    } else if ar.IsMut(i) {
      if act.Put? || act.Write? || act.Reserve? || act.Regrow? || act.Resize? {
        ApplyGrow(ar, i, act);
      } else {
        ApplyShrink(ar, i, act);
      }
    } else if ar.IsPage(i) {
      ApplyPage(ar, i, act);
    } else {
      var st := ar.Storage(i);
      if st.Ext? && !Fits(|st.bytes|) {
      } else if act.SplitTo? || act.SplitOff? || act.Slice? || act.Clone? {
        ApplyShare(ar, i, act);
      } else {
        ApplyFrozen(ar, i, act);
      }
    }
  }

  // ---------------------------------------------------------------- histories

  /** What the handles show before, between and after the operations of a history. */
  ghost predicate Chain(trace: seq<Shows>, ops: seq<Op>) {
    |trace| == |ops| + 1 && forall n :: 0 <= n < |ops| ==> Effect(trace[n], ops[n], trace[n + 1])
  }

  /** An operation that may change what handle `j` shows. */
  predicate Alters(op: Op, j: Id) {
    op.On? && op.i == j && !(op.act.Reserve? || op.act.Regrow? || op.act.Slice? || op.act.Clone? || op.act.Trim?)
  }

  lemma EffectKeeps(m: Shows, op: Op, m': Shows, j: Id)
    requires Effect(m, op, m') && j in m && !Alters(op, j)
    ensures j in m' && m'[j] == m[j]
  {
  }

  lemma {:induction false} ChainKeeps(trace: seq<Shows>, ops: seq<Op>, j: Id, n: nat)
    requires Chain(trace, ops) && n <= |ops| && j in trace[0]
    requires forall q :: 0 <= q < n ==> !Alters(ops[q], j)
    ensures j in trace[n] && trace[n][j] == trace[0][j]
  {
    if n > 0 {
      ChainKeeps(trace, ops, j, n - 1);
      EffectKeeps(trace[n - 1], ops[n - 1], trace[n], j);
    }
  }

  /** `part` is a stretch of `whole`. */
  ghost predicate Part(part: seq<byte>, whole: seq<byte>) {
    exists a: nat, b: nat :: a <= b <= |whole| && part == whole[a..b]
  }

  lemma IsPart(d: seq<byte>, a: nat, b: nat)
    requires a <= b <= |d|
    ensures Part(d[a..b], d)
  {
  }

  lemma PartTrans(x: seq<byte>, y: seq<byte>, z: seq<byte>)
    requires Part(x, y) && Part(y, z)
    ensures Part(x, z)
  {
    var a: nat, b: nat :| a <= b <= |y| && x == y[a..b];
    var c: nat, e: nat :| c <= e <= |z| && y == z[c..e];
    SubSlice(z, c, e, a, b);
    IsPart(z, c + a, c + b);
  }

  lemma Parts(d: seq<byte>, n: nat)
    ensures Part(d, d) && Part([], d)
    ensures Part(Keep(d, n), d) && Part(Skip(d, n), d)
  {
    assert d == d[0..|d|] && [] == d[0..0];
    if n <= |d| { assert d[..n] == d[0..n] && d[n..] == d[n..|d|]; }
  }

  lemma OwnEffect(m: Shows, j: Id, d: seq<byte>, act: Act, m': Shows)
    requires j in m && m[j] == FrozenV(d) && BytesEffect(m, j, d, act, m')
    ensures j in m' && m'[j].FrozenV? && Part(m'[j].data, d)
  {
    var cuts := act.Truncate? || act.Advance? || act.SplitTo? || act.SplitOff?;
    Parts(d, if act.GetByte? then 1 else if cuts then act.n else 0);
    hide Part;
  }

  /** An operation leaves a `Bytes` a stretch of what it was; only dropping it takes it away. */
  lemma BytesOnlyShrink(m: Shows, op: Op, m': Shows, j: Id)
    requires Effect(m, op, m') && j in m && m[j].FrozenV? && op != On(j, Drop)
    ensures j in m' && m'[j].FrozenV? && Part(m'[j].data, m[j].data)
  {
    Parts(m[j].data, 0);
    hide Part, BytesEffect;
    if !Alters(op, j) {
      EffectKeeps(m, op, m', j);
    } else if BytesEffect(m, j, m[j].data, op.act, m') {
      OwnEffect(m, j, m[j].data, op.act, m');
    }
  }

  /** No `Bytes` content ever changes: as long as it is not dropped, a `Bytes` shows a stretch of
      what it showed at first, through every history of every other handle and its own. */
  lemma {:induction false} BytesNeverChange(trace: seq<Shows>, ops: seq<Op>, j: Id, n: nat)
    requires Chain(trace, ops) && n <= |ops| && j in trace[0] && trace[0][j].FrozenV?
    requires forall q :: 0 <= q < n ==> ops[q] != On(j, Drop)
    ensures j in trace[n] && trace[n][j].FrozenV? && Part(trace[n][j].data, trace[0][j].data)
  {
    var d := trace[0][j].data;
    if n == 0 {
      assert d == d[0..|d|];
      IsPart(d, 0, |d|);
    } else {
      BytesNeverChange(trace, ops, j, n - 1);
      BytesOnlyShrink(trace[n - 1], ops[n - 1], trace[n], j);
      PartTrans(trace[n][j].data, trace[n - 1][j].data, d);
    }
  }

  /** Every history refines one on plain byte sequences: the heap stays sound, and what the handles
      show goes from state to state by the effects above, whatever was shared, reclaimed, recycled
      or freed meanwhile. */
  method Run(ar: Arena, ops: seq<Op>) returns (ghost trace: seq<Shows>)
    requires ar.Valid()
    modifies ar
    ensures ar.Valid() && Chain(trace, ops) && trace[0] == old(ar.A()) && trace[|ops|] == ar.A()
    ensures forall j :: j in old(ar.A()) && (forall n :: 0 <= n < |ops| ==> !Alters(ops[n], j)) ==>
              j in ar.A() && ar.A()[j] == old(ar.A())[j]
    ensures forall j :: j in old(ar.A()) && old(ar.A())[j].FrozenV? && On(j, Drop) !in ops ==>
              j in ar.A() && ar.A()[j].FrozenV? && Part(ar.A()[j].data, old(ar.A())[j].data)
  {
    hide Inv, Effect, Alters, Part;
    trace := [ar.A()];
    for n := 0 to |ops|
      invariant ar.Valid() && |trace| == n + 1 && trace[0] == old(ar.A()) && trace[n] == ar.A()
      invariant forall q :: 0 <= q < n ==> Effect(trace[q], ops[q], trace[q + 1])
    {
      Perform(ar, ops[n]);
      trace := trace + [ar.A()];
    }
    forall j | j in old(ar.A()) && (forall n :: 0 <= n < |ops| ==> !Alters(ops[n], j))
      ensures j in ar.A() && ar.A()[j] == old(ar.A())[j]
    {
      ChainKeeps(trace, ops, j, |ops|);
    }
    forall j | j in old(ar.A()) && old(ar.A())[j].FrozenV? && On(j, Drop) !in ops
      ensures j in ar.A() && ar.A()[j].FrozenV? && Part(ar.A()[j].data, old(ar.A())[j].data)
    {
      BytesNeverChange(trace, ops, j, |ops|);
    }
  }

  method Perform(ar: Arena, op: Op)
    requires ar.Valid()
    modifies ar
    ensures ar.Valid() && Effect(old(ar.A()), op, ar.A())
  {
    hide Inv, Made, WriterEffect, BytesEffect, PageEffect;
    match op {
      case Make(mk) => ApplyMake(ar, mk);
      case On(i, act) => Apply(ar, i, act);
    }
  }

  // ---------------------------------------------------------------- where encodings disagree

  ghost predicate Encodes(st: Storage, d: seq<byte>) {
    if st.Vec? then st.len == |d| else st.bytes == d && (st.Inline? ==> |d| <= INLINE_CAP)
  }

  /** What `advance_to` makes of the bytes `d` in a given encoding; `None` is a panic. */
  function AdvanceResult(st: Storage, d: seq<byte>, cnt: nat): Option<seq<byte>> {
    if Arena.SetStartOk(st, cnt) then Some(Skip(d, cnt)) else None
  }

  /** `advance_to` does the same in every encoding of the same bytes exactly up to their number;
      past it, a shared buffer is emptied where a static one panics. */
  lemma AdvanceAgrees(d: seq<byte>, cnt: nat)
    ensures (forall s, t :: Encodes(s, d) && Encodes(t, d) ==> AdvanceResult(s, d, cnt) == AdvanceResult(t, d, cnt))
            <==> cnt <= |d|
    ensures cnt <= |d| ==> forall s :: Encodes(s, d) ==> AdvanceResult(s, d, cnt) == Some(d[cnt..])
    ensures cnt > |d| ==>
              forall s :: Encodes(s, d) ==>
                AdvanceResult(s, d, cnt) == if s.Vec? || (s.Inline? && cnt <= 23) then Some([]) else None
  {
    if cnt > |d| {
      var s, t := Vec(0, METADATA, |d|), Static(d);
      assert Encodes(s, d) && Encodes(t, d);
    }
  }

  /** A `Bytes` split from a `BytesMut` cannot be truncated to a length it does have: the check
      compares with the capacity left to the writer. */
  method TruncateRefused() returns (ok: bool)
    ensures !ok
  {
    hide Inv;
    var ar := new Arena();
    var m := ar.WithCapacity(1000);
    ar.PutSlice(m, seq(1000, _ => 7 as byte));
    assert ar.Hdr(m).capacity == 1000 && ar.Hdr(m).len == |ar.A()[m].data|;
    var b := ar.SplitTo(m, 900);
    assert ar.Storage(b).len == 900;
    ok := ar.FrozenTruncate(b, 500);
  }

  /** The same `Bytes` cannot be trimmed down: the subtraction underflows. */
  method TrimdownRefused() returns (ok: bool)
    ensures !ok
  {
    hide Inv;
    var ar := new Arena();
    var m := ar.WithCapacity(1000);
    ar.PutSlice(m, seq(1000, _ => 7 as byte));
    assert ar.Hdr(m).capacity == 1000 && ar.Hdr(m).len == |ar.A()[m].data|;
    var b := ar.SplitTo(m, 900);
    assert ar.Storage(b).len == 900;
    ok := ar.Trimdown(b);
  }

  /** A `BytesMut` of three bytes can be advanced by five, and is empty then. */
  method AdvancedPastLength() returns (ok: bool, left: nat)
    ensures ok && left == 0
  {
    hide Inv;
    var ar := new Arena();
    var m := ar.WithCapacity(10);
    ar.PutSlice(m, [1, 2, 3]);
    assert ar.Hdr(m).capacity == 10 && |ar.A()[m].data| == 3;
    ok := ar.AdvanceTo(m, 5);
    assert ar.A()[m].data == [];
    left := ar.Hdr(m).len;
  }
}
