/** The memory behind `Bytes`, `BytesMut` and page storage: reference-counted blocks,
    the handles that point into them, and the per-size cache of released pages.

    A block address is never reused, so "freed once" can be stated about addresses. */
module BufferHeap {
  import opened Common

  /** Size of the header in front of every block: five 32-bit counters and the page-size tag. */
  const METADATA: nat := 24
  /** Bytes that fit in a `Storage` value besides its tag byte. */
  const INLINE_CAP: nat := 23
  const U32: nat := 0x1_0000_0000

  /** A block for `n` bytes has a size that fits in 32 bits. */
  predicate Fits(n: nat) { METADATA + n < U32 }

  datatype PageSize = Size4 | Size8 | Size16 | Size24 | Size32 | Size48 | Size64 | Unset {
    function Capacity(): nat {
      match this
      case Size4 => 4 * 1024
      case Size8 => 8 * 1024
      case Size16 => 16 * 1024
      case Size24 => 24 * 1024
      case Size32 => 32 * 1024
      case Size48 => 48 * 1024
      case Size64 | Unset => 64 * 1024
    }
  }

  type Addr = nat
  type Id = nat

  /** Header fields plus the memory of the whole allocation; offsets count from its first byte. */
  datatype Block = Block(
    offset: nat, len: nat, capacity: nat, remaining: nat, refs: nat, size: PageSize, mem: seq<byte>)

  /** The four encodings of an immutable buffer. `Ext` says whether its owner supports cloning. */
  datatype Storage =
    | Inline(bytes: seq<byte>)
    | Static(bytes: seq<byte>)
    | Vec(addr: Addr, offset: nat, len: nat)
    | Ext(bytes: seq<byte>, clonable: bool)

  /** External bytes, which most operations copy into a block, fit into one. */
  predicate ExtFits(st: Storage) { st.Ext? ==> Fits(|st.bytes|) }

  /** `Mut` is a `BytesMut`, `Page` a storage page held read-only by a rope, `Frozen` a `Bytes`. */
  datatype Handle = Mut(addr: Addr) | Page(addr: Addr) | Frozen(st: Storage)

  /** What a handle's owner sees. */
  datatype Val = MutV(data: seq<byte>) | PageV(data: seq<byte>) | FrozenV(data: seq<byte>)

  datatype Heap = Heap(
    blocks: map<Addr, Block>,
    handles: map<Id, Handle>,
    cache: map<PageSize, seq<Addr>>,
    next: Addr,
    sizes: map<Addr, nat>,   // what each address was allocated with
    freed: map<Addr, nat>)   // what each freed address was handed back with

  // ---------------------------------------------------------------- views

  predicate PointsTo(x: Handle, a: Addr) {
    match x
    case Mut(b) => a == b
    case Page(b) => a == b
    case Frozen(Vec(b, _, _)) => a == b
    case Frozen(_) => false
  }

  ghost function Pointers(handles: map<Id, Handle>, a: Addr): set<Id> {
    set i | i in handles && PointsTo(handles[i], a)
  }

  /** The header window of a block: what its `BytesMut` or page shows. */
  function Window(b: Block): seq<byte>
    requires b.offset + b.len <= |b.mem|
  {
    b.mem[b.offset..b.offset + b.len]
  }

  ghost predicate HandleOk(blocks: map<Addr, Block>, x: Handle) {
    match x
    case Mut(a) => a in blocks
    case Page(a) => a in blocks
    case Frozen(Vec(a, off, len)) => a in blocks && (len > 0 ==> METADATA <= off && off + len <= |blocks[a].mem|)
    case Frozen(Inline(bytes)) => |bytes| <= INLINE_CAP
    case Frozen(_) => true
  }

  ghost predicate BlockOk(b: Block) {
    && METADATA <= b.offset
    && b.offset + b.capacity == |b.mem| < U32
    && b.len + b.remaining == b.capacity && b.len <= b.capacity
    && (b.size != Unset ==> |b.mem| == METADATA + b.size.Capacity())
  }

  function View(blocks: map<Addr, Block>, x: Handle): seq<byte>
    requires HandleOk(blocks, x)
    requires forall a :: a in blocks ==> BlockOk(blocks[a])
  {
    match x
    case Mut(a) => assert BlockOk(blocks[a]); Window(blocks[a])
    case Page(a) => assert BlockOk(blocks[a]); Window(blocks[a])
    case Frozen(Vec(a, off, len)) => if len == 0 then [] else blocks[a].mem[off..off + len]
    case Frozen(st) => st.bytes
  }

  ghost function ValOf(blocks: map<Addr, Block>, x: Handle): Val
    requires HandleOk(blocks, x)
    requires forall a :: a in blocks ==> BlockOk(blocks[a])
  {
    match x
    case Mut(_) => MutV(View(blocks, x))
    case Page(_) => PageV(View(blocks, x))
    case Frozen(_) => FrozenV(View(blocks, x))
  }

  // ---------------------------------------------------------------- invariant

  ghost predicate InCache(cache: map<PageSize, seq<Addr>>, a: Addr) {
    exists k :: k in cache && a in cache[k]
  }

  /** The header of a page as `SharedVec::create` writes it for size class `k`. */
  ghost predicate FreshHeader(b: Block, k: PageSize) {
    && b.offset == METADATA && b.len == 0 && b.refs == 1
    && b.capacity == k.Capacity() && b.remaining == k.Capacity()
  }

  ghost predicate Compatible(blocks: map<Addr, Block>, x: Handle, y: Handle) {
    x.Mut? && x.addr in blocks && PointsTo(y, x.addr) ==>
      y.Frozen? && (y.st.len > 0 ==> y.st.offset + y.st.len <= blocks[x.addr].offset)
  }

  ghost predicate BlocksOk(h: Heap) {
    forall a :: a in h.blocks ==> BlockOk(h.blocks[a])
  }

  ghost predicate HandlesOk(h: Heap) {
    forall i :: i in h.handles ==> HandleOk(h.blocks, h.handles[i])
  }

  /** One writer per block, and every frozen window lies below the writer's window. */
  ghost predicate Isolated(h: Heap) {
    forall i, j :: i in h.handles && j in h.handles && i != j ==> Compatible(h.blocks, h.handles[i], h.handles[j])
  }

  /** The reference count of a block is the number of its owners: handles, or one cache slot. */
  ghost predicate Counted(h: Heap) {
    forall a :: a in h.blocks ==>
      if InCache(h.cache, a) then Pointers(h.handles, a) == {}
      else h.blocks[a].refs == |Pointers(h.handles, a)| && h.blocks[a].refs > 0
  }

  /** Pages waiting in class `k`: each has the header of a new page and appears once. */
  ghost predicate SlotsOk(blocks: map<Addr, Block>, k: PageSize, slots: seq<Addr>) {
    && (forall p :: 0 <= p < |slots| ==>
          slots[p] in blocks && FreshHeader(blocks[slots[p]], k) && blocks[slots[p]].size == Unset)
    && (forall p, q :: 0 <= p < q < |slots| ==> slots[p] != slots[q])
  }

  ghost predicate CacheOk(h: Heap) {
    Unset !in h.cache && forall k :: k in h.cache ==> SlotsOk(h.blocks, k, h.cache[k])
  }

  /** Every address below `next` is either live or freed, never both, and freed with its own size. */
  ghost predicate Accounted(h: Heap) {
    && (forall a :: a in h.blocks ==> a < h.next && a in h.sizes && h.sizes[a] == |h.blocks[a].mem|)
    && (forall a :: a in h.freed ==> a < h.next && a in h.sizes && h.sizes[a] == h.freed[a])
    && h.blocks.Keys !! h.freed.Keys
    && (forall a :: 0 <= a < h.next ==> a in h.blocks || a in h.freed)
  }

  ghost predicate Inv(h: Heap) {
    BlocksOk(h) && HandlesOk(h) && Isolated(h) && Counted(h) && CacheOk(h) && Accounted(h)
  }

  ghost function Abs(h: Heap): map<Id, Val>
    requires BlocksOk(h) && HandlesOk(h)
  {
    map i | i in h.handles :: ValOf(h.blocks, h.handles[i])
  }

  /** Handles other than `i` show the same bytes before and after. */
  lemma AbsFrame(h: Heap, h': Heap, i: Id)
    requires BlocksOk(h) && HandlesOk(h) && BlocksOk(h') && HandlesOk(h')
    requires i in h'.handles && h'.handles.Keys == h.handles.Keys + {i}
    requires forall j :: j in h.handles && j != i ==> h'.handles[j] == h.handles[j]
    requires forall j :: j in h.handles && j != i ==> View(h'.blocks, h.handles[j]) == View(h.blocks, h.handles[j])
    ensures Abs(h') == Abs(h)[i := ValOf(h'.blocks, h'.handles[i])]
  {
  }

  lemma AbsDrop(h: Heap, h': Heap, i: Id)
    requires BlocksOk(h) && HandlesOk(h) && BlocksOk(h') && HandlesOk(h')
    requires h'.handles == h.handles - {i}
    requires forall j :: j in h'.handles ==> View(h'.blocks, h.handles[j]) == View(h.blocks, h.handles[j])
    ensures Abs(h') == Abs(h) - {i}
  {
  }

  lemma AbsMove(h: Heap, h': Heap, t: Id, i: Id)
    requires BlocksOk(h) && HandlesOk(h) && HandlesOk(h') && h'.blocks == h.blocks
    requires t in h.handles && i !in h.handles && h'.handles == (h.handles - {t})[i := h.handles[t]]
    ensures Abs(h') == (Abs(h) - {t})[i := Abs(h)[t]]
  {
  }

  // ---------------------------------------------------------------- counting

  lemma SoleOwner(h: Heap, i: Id, a: Addr)
    requires Inv(h) && i in h.handles && PointsTo(h.handles[i], a) && h.blocks[a].refs == 1
    ensures Pointers(h.handles, a) == {i}
  {
    var p := Pointers(h.handles, a);
    assert i in p;
    assert !InCache(h.cache, a);
    assert p == {i} by {
      if j :| j in p && j != i { assert {i, j} <= p; SubsetCard({i, j}, p); assert false; }
    }
  }

  lemma SubsetCard(s: set<Id>, t: set<Id>)
    requires s <= t
    ensures |s| <= |t|
  {
    assert t == s + (t - s);
  }

  lemma PointersAdd(handles: map<Id, Handle>, i: Id, x: Handle, a: Addr)
    requires i !in handles
    ensures Pointers(handles[i := x], a) == if PointsTo(x, a) then Pointers(handles, a) + {i} else Pointers(handles, a)
    ensures |Pointers(handles[i := x], a)| == |Pointers(handles, a)| + if PointsTo(x, a) then 1 else 0
  {
    var p := Pointers(handles[i := x], a);
    assert p == if PointsTo(x, a) then Pointers(handles, a) + {i} else Pointers(handles, a);
  }

  lemma PointersRemove(handles: map<Id, Handle>, i: Id, a: Addr)
    requires i in handles
    ensures Pointers(handles - {i}, a) == Pointers(handles, a) - {i}
    ensures |Pointers(handles - {i}, a)| == |Pointers(handles, a)| - if PointsTo(handles[i], a) then 1 else 0
  {
    assert Pointers(handles - {i}, a) == Pointers(handles, a) - {i};
  }

  /** Replacing a handle by one that points to the same block leaves every owner set alone. */
  lemma PointersKeep(handles: map<Id, Handle>, i: Id, x: Handle, a: Addr)
    requires i in handles && (PointsTo(x, a) <==> PointsTo(handles[i], a))
    ensures Pointers(handles[i := x], a) == Pointers(handles, a)
  {
  }

  // ---------------------------------------------------------------- steps

  /** What the writer of block `b` may turn it into: a window moved up with the memory below it
      untouched, or anything at all inside the allocation when it is the only owner. */
  ghost predicate WriterMay(b: Block, b': Block) {
    && BlockOk(b') && |b'.mem| == |b.mem| && b'.refs == b.refs && b'.size in {b.size, Unset}
    && (b.refs == 1 || (b'.offset >= b.offset && forall m :: 0 <= m < b.offset <= |b.mem| ==> b'.mem[m] == b.mem[m]))
  }

  lemma SubSlice(s: seq<byte>, a: nat, b: nat, c: nat, d: nat)
    requires a <= b <= |s| && c <= d <= b - a
    ensures s[a..b][c..d] == s[a + c..a + d]
  {
    var x, y := s[a..b][c..d], s[a + c..a + d];
    assert |x| == |y|;
    forall k | 0 <= k < |x| ensures x[k] == y[k] {
      assert s[a..b][c + k] == s[a + c + k];
    }
  }

  function Max(a: int, b: int): int {
    if a < b then b else a
  }

  /** What is left after dropping up to `n` bytes from the front. */
  function Skip(s: seq<byte>, n: nat): seq<byte> {
    if n <= |s| then s[n..] else []
  }

  /** The `n` bytes from `from` on, if they are all there. */
  function Sub(s: seq<byte>, from: int, n: nat): seq<byte> {
    if 0 <= from && from + n <= |s| then s[from..from + n] else []
  }

  /** The first `n` bytes, or all of them. */
  function Keep(s: seq<byte>, n: nat): seq<byte> {
    if n <= |s| then s[..n] else s
  }

  function Copies(n: nat, value: byte): seq<byte> {
    seq(n, _ => value)
  }

  lemma SkipNone(d: seq<byte>)
    ensures Skip(d, 0) == d
  {
  }

  lemma SubEnds(d: seq<byte>, n: nat)
    ensures Sub(d, n, if |d| >= n then |d| - n else 0) == Skip(d, n)
    ensures Sub(d, 0, if |d| <= n then |d| else n) == Keep(d, n)
  {
  }

  /** The window moved up by `start` bytes. */
  function Advanced(b: Block, start: nat): (r: Block)
    requires BlockOk(b) && start <= b.capacity
    ensures WriterMay(b, r) && Window(r) == Skip(Window(b), start)
  {
    var len := if b.len > start then b.len - start else 0;
    b.(offset := b.offset + start, len := len, remaining := b.capacity - len - start, capacity := b.capacity - start)
  }

  /** The window with another length, over the same memory. */
  function Resized(b: Block, n: nat): (r: Block)
    requires BlockOk(b) && n <= b.capacity
    ensures WriterMay(b, r) && |Window(r)| == n
    ensures n <= b.len ==> Window(r) == Window(b)[..n]
    ensures n >= b.len ==> Window(b) <= Window(r)
  {
    var r := b.(len := n, remaining := b.capacity - n);
    var lo, hi := if n <= b.len then n else b.len, if n <= b.len then b.len else n;
    SubSlice(b.mem, b.offset, b.offset + hi, 0, lo);
    r
  }

  /** The whole allocation handed to its only owner, with the first `|data|` bytes set. */
  function Reclaimed(b: Block, data: seq<byte>): (r: Block)
    requires BlockOk(b) && b.refs == 1 && METADATA + |data| <= |b.mem|
    ensures WriterMay(b, r) && Window(r) == data && r.offset == METADATA && r.capacity == |b.mem| - METADATA
  {
    var capacity := b.offset + b.capacity - METADATA;
    b.(offset := METADATA, len := |data|, capacity := capacity, remaining := capacity - |data|,
       mem := b.mem[..METADATA] + data + b.mem[METADATA + |data|..])
  }

  /** Bytes written inside the window, possibly growing it into the spare capacity. */
  function Written(b: Block, at: nat, data: seq<byte>): (r: Block)
    requires BlockOk(b) && at <= b.len && at + |data| <= b.capacity
    ensures WriterMay(b, r) && Window(r) == Window(b)[..at] + data + Skip(Window(b), at + |data|)
  {
    var p, n := b.offset + at, Max(b.len, at + |data|);
    var r := b.(mem := b.mem[..p] + data + b.mem[p + |data|..], len := n, remaining := b.capacity - n);
    WrittenWindow(b, at, data, r);
    r
  }

  lemma WrittenWindow(b: Block, at: nat, data: seq<byte>, r: Block)
    requires BlockOk(b) && at <= b.len && at + |data| <= b.capacity
    requires r.mem == b.mem[..b.offset + at] + data + b.mem[b.offset + at + |data|..]
    requires r.offset == b.offset && r.len == Max(b.len, at + |data|)
    ensures |r.mem| == |b.mem| && Window(r) == Window(b)[..at] + data + Skip(Window(b), at + |data|)
    ensures forall m :: 0 <= m < b.offset ==> r.mem[m] == b.mem[m]
  {
    var w := Window(b)[..at] + data + Skip(Window(b), at + |data|);
    assert |Window(r)| == |w|;
    forall m | 0 <= m < |w| ensures Window(r)[m] == w[m] {
      assert Window(r)[m] == r.mem[b.offset + m];
      if m < at {
        assert w[m] == Window(b)[m] == b.mem[b.offset + m];
      } else if m < at + |data| {
        assert w[m] == data[m - at];
      } else {
        assert w[m] == Window(b)[m] == b.mem[b.offset + m];
      }
    }
  }

  lemma UpdateMutView(h: Heap, i: Id, b': Block, j: Id)
    requires Inv(h) && i in h.handles && h.handles[i].Mut? && j in h.handles && j != i
    requires WriterMay(h.blocks[h.handles[i].addr], b')
    ensures var h' := h.(blocks := h.blocks[h.handles[i].addr := b']);
            HandleOk(h'.blocks, h.handles[j]) && View(h'.blocks, h.handles[j]) == View(h.blocks, h.handles[j])
  {
    var a := h.handles[i].addr;
    assert Compatible(h.blocks, h.handles[i], h.handles[j]) && HandleOk(h.blocks, h.handles[j]);
    assert h.blocks[a].refs == 1 ==> !PointsTo(h.handles[j], a) by {
      if h.blocks[a].refs == 1 {
        SoleOwner(h, i, a);
        assert j !in Pointers(h.handles, a);
      }
    }
    hide Inv;
    if PointsTo(h.handles[j], a) {
      BelowKept(h.blocks[a], b', h.handles[j].st.offset, h.handles[j].st.len);
    }
  }

  /** Memory below the window of a shared block is not the writer's to change. */
  lemma BelowKept(b: Block, b': Block, offset: nat, len: nat)
    requires WriterMay(b, b') && b.refs != 1 && b.offset <= |b.mem| && (len > 0 ==> offset + len <= b.offset)
    ensures len > 0 ==> b'.mem[offset..offset + len] == b.mem[offset..offset + len]
  {
  }

  lemma UpdateMutIsolated(h: Heap, i: Id, b': Block, p: Id, q: Id)
    requires Inv(h) && i in h.handles && h.handles[i].Mut?
    requires WriterMay(h.blocks[h.handles[i].addr], b')
    requires p in h.handles && q in h.handles && p != q
    ensures Compatible(h.blocks[h.handles[i].addr := b'], h.handles[p], h.handles[q])
  {
    var a := h.handles[i].addr;
    assert Compatible(h.blocks, h.handles[p], h.handles[q]);
    if p != i { assert Compatible(h.blocks, h.handles[i], h.handles[p]); }
    if h.handles[p].Mut? && h.handles[p].addr == a && PointsTo(h.handles[q], a) {
      if p == i && h.blocks[a].refs == 1 { assert q in Pointers(h.handles, a); SoleOwner(h, i, a); assert false; }
    }
  }

  lemma UpdateMutFrame(h: Heap, i: Id, b': Block)
    requires Inv(h) && i in h.handles && h.handles[i].Mut?
    requires WriterMay(h.blocks[h.handles[i].addr], b')
    ensures var h' := h.(blocks := h.blocks[h.handles[i].addr := b']);
            BlocksOk(h') && HandlesOk(h') && Isolated(h') && Abs(h') == Abs(h)[i := MutV(Window(b'))]
  {
    var h' := h.(blocks := h.blocks[h.handles[i].addr := b']);
    assert BlocksOk(h');
    hide Inv, Compatible;
    forall j | j in h.handles && j != i
      ensures HandleOk(h'.blocks, h.handles[j])
      ensures View(h'.blocks, h.handles[j]) == View(h.blocks, h.handles[j])
    {
      UpdateMutView(h, i, b', j);
    }
    forall p, q | p in h.handles && q in h.handles && p != q
      ensures Compatible(h'.blocks, h.handles[p], h.handles[q])
    {
      UpdateMutIsolated(h, i, b', p, q);
    }
    AbsFrame(h, h', i);
  }

  lemma UpdateMut(h: Heap, i: Id, b': Block)
    requires Inv(h) && i in h.handles && h.handles[i].Mut?
    requires WriterMay(h.blocks[h.handles[i].addr], b')
    ensures var h' := h.(blocks := h.blocks[h.handles[i].addr := b']);
            Inv(h') && Abs(h') == Abs(h)[i := MutV(Window(b'))]
  {
    hide BlocksOk, HandlesOk, Isolated, Counted, CacheOk, Accounted;
    UpdateMutFrame(h, i, b');
    UpdateMutCounted(h, i, b');
  }

  lemma UpdateMutCounted(h: Heap, i: Id, b': Block)
    requires Inv(h) && i in h.handles && h.handles[i].Mut?
    requires WriterMay(h.blocks[h.handles[i].addr], b')
    ensures var h' := h.(blocks := h.blocks[h.handles[i].addr := b']);
            Counted(h') && CacheOk(h') && Accounted(h')
  {
    var a := h.handles[i].addr;
    var h' := h.(blocks := h.blocks[a := b']);
    Owned(h, i, a);
    hide BlocksOk, HandlesOk, Isolated, CacheOk, Counted, Accounted;
    CacheUnchanged(h, h', a);
    AccountedSame(h, h');
    CountedSame(h, h');
  }

  lemma AccountedSame(h: Heap, h': Heap)
    requires Accounted(h) && h'.next == h.next && h'.sizes == h.sizes && h'.freed == h.freed
    requires h'.blocks.Keys == h.blocks.Keys && forall c :: c in h.blocks ==> |h'.blocks[c].mem| == |h.blocks[c].mem|
    ensures Accounted(h')
  {
    forall c | 0 <= c < h.next ensures c in h'.blocks || c in h'.freed { assert c in h.blocks || c in h.freed; }
  }

  lemma CountedSame(h: Heap, h': Heap)
    requires Counted(h) && h'.handles == h.handles && h'.cache == h.cache
    requires h'.blocks.Keys == h.blocks.Keys && forall c :: c in h.blocks ==> h'.blocks[c].refs == h.blocks[c].refs
    ensures Counted(h')
  {
    forall c | c in h'.blocks
      ensures if InCache(h'.cache, c) then Pointers(h'.handles, c) == {}
              else h'.blocks[c].refs == |Pointers(h'.handles, c)| && h'.blocks[c].refs > 0
    {
      assert c in h.blocks;
    }
  }

  /** Changing a block outside the cache keeps the cache well formed. */
  lemma CacheUnchanged(h: Heap, h': Heap, a: Addr)
    requires CacheOk(h) && h'.cache == h.cache && !InCache(h.cache, a)
    requires forall c :: c in h.blocks && c != a ==> c in h'.blocks && h'.blocks[c] == h.blocks[c]
    ensures CacheOk(h')
  {
    forall k | k in h.cache ensures SlotsOk(h'.blocks, k, h.cache[k]) {
      assert SlotsOk(h.blocks, k, h.cache[k]);
      forall p | 0 <= p < |h.cache[k]| ensures h.cache[k][p] != a { assert h.cache[k][p] in h.cache[k]; }
    }
  }

  ghost predicate SameWindow(b: Block, b': Block) {
    b'.offset == b.offset && b'.len == b.len && b'.mem == b.mem
  }

  /** What a step may do to a block other handles still point to: count owners, nothing else. */
  ghost predicate OnlyNear(h: Heap, h': Heap, i: Id, a: Addr) {
    && (forall j :: j in h'.handles && j != i ==> j in h.handles && h'.handles[j] == h.handles[j])
    && (forall c :: c in h.blocks && c != a ==> c in h'.blocks && h'.blocks[c] == h.blocks[c])
    && (forall j :: j in h'.handles && j != i && PointsTo(h'.handles[j], a) ==>
          a in h.blocks && a in h'.blocks && SameWindow(h.blocks[a], h'.blocks[a]))
  }

  lemma FrameView(h: Heap, h': Heap, i: Id, a: Addr, j: Id)
    requires BlocksOk(h) && HandlesOk(h) && BlocksOk(h') && OnlyNear(h, h', i, a)
    requires j in h'.handles && j != i
    ensures HandleOk(h'.blocks, h'.handles[j]) && View(h'.blocks, h'.handles[j]) == View(h.blocks, h.handles[j])
  {
    assert HandleOk(h.blocks, h.handles[j]);
  }

  lemma FrameCompatible(h: Heap, h': Heap, i: Id, a: Addr, p: Id, q: Id)
    requires HandlesOk(h) && Isolated(h) && OnlyNear(h, h', i, a)
    requires p in h'.handles && q in h'.handles && p != q && p != i && q != i
    ensures Compatible(h'.blocks, h'.handles[p], h'.handles[q])
  {
    assert HandleOk(h.blocks, h.handles[p]) && Compatible(h.blocks, h.handles[p], h.handles[q]);
  }

  /** A step that touches one handle and one block, and does not move the block's window under
      any other handle, keeps the other handles well formed, isolated and their bytes in place. */
  lemma Frame(h: Heap, h': Heap, i: Id, a: Addr)
    requires BlocksOk(h) && HandlesOk(h) && Isolated(h) && BlocksOk(h') && OnlyNear(h, h', i, a)
    requires i in h'.handles ==> HandleOk(h'.blocks, h'.handles[i])
    requires i in h'.handles ==> forall j :: j in h'.handles && j != i ==>
               Compatible(h'.blocks, h'.handles[i], h'.handles[j])
                   && Compatible(h'.blocks, h'.handles[j], h'.handles[i])
    ensures HandlesOk(h') && Isolated(h')
    ensures forall j :: j in h'.handles && j != i ==> View(h'.blocks, h'.handles[j]) == View(h.blocks, h.handles[j])
  {
    hide Compatible, HandleOk;
    forall j | j in h'.handles && j != i
      ensures HandleOk(h'.blocks, h'.handles[j])
      ensures View(h'.blocks, h'.handles[j]) == View(h.blocks, h.handles[j])
    {
      FrameView(h, h', i, a, j);
    }
    forall p, q | p in h'.handles && q in h'.handles && p != q
      ensures Compatible(h'.blocks, h'.handles[p], h'.handles[q])
    {
      if p != i && q != i { FrameCompatible(h, h', i, a, p, q); }
    }
  }

  /** Owner counts after a step that adds handle `i` (a stranger so far) and may change block `a`. */
  lemma CountedAdd(h: Heap, h': Heap, i: Id, a: Addr)
    requires Counted(h) && h'.cache == h.cache && i !in h.handles && i in h'.handles
    requires h'.handles == h.handles[i := h'.handles[i]]
    requires forall c :: c in h'.blocks && c != a ==> c in h.blocks && h'.blocks[c].refs == h.blocks[c].refs
    requires forall c :: c in h'.blocks ==> (PointsTo(h'.handles[i], c) <==> c == a)
    requires a in h'.blocks ==> !InCache(h.cache, a) && h'.blocks[a].refs == |Pointers(h.handles, a)| + 1
    ensures Counted(h')
  {
    forall c | c in h'.blocks
      ensures if InCache(h'.cache, c) then Pointers(h'.handles, c) == {}
              else h'.blocks[c].refs == |Pointers(h'.handles, c)| && h'.blocks[c].refs > 0
    {
      PointersAdd(h.handles, i, h'.handles[i], c);
    }
  }

  /** Owner counts after handle `i` goes away and block `a` loses one reference or is gone. */
  lemma CountedRemove(h: Heap, h': Heap, i: Id, a: Addr)
    requires Counted(h) && h'.cache == h.cache && i in h.handles
    requires h'.handles == h.handles - {i}
    requires forall c :: c in h'.blocks && c != a ==> c in h.blocks && h'.blocks[c].refs == h.blocks[c].refs
    requires forall c :: c in h.blocks ==> (PointsTo(h.handles[i], c) <==> c == a)
    requires a in h'.blocks ==> a in h.blocks && 0 < h'.blocks[a].refs == h.blocks[a].refs - 1
    ensures Counted(h')
  {
    forall c | c in h'.blocks
      ensures if InCache(h'.cache, c) then Pointers(h'.handles, c) == {}
              else h'.blocks[c].refs == |Pointers(h'.handles, c)| && h'.blocks[c].refs > 0
    {
      PointersRemove(h.handles, i, c);
    }
  }

  /** A further handle on a live block: a clone or a split-off head. */
  function WithPointer(h: Heap, i: Id, x: Handle, a: Addr): Heap
    requires a in h.blocks
  {
    h.(blocks := h.blocks[a := h.blocks[a].(refs := h.blocks[a].refs + 1)], handles := h.handles[i := x])
  }

  lemma AddPointer(h: Heap, i: Id, x: Handle, a: Addr)
    requires Inv(h) && i !in h.handles && a in h.blocks && !InCache(h.cache, a)
    requires PointsTo(x, a) && !x.Mut? && HandleOk(h.blocks, x)
    requires forall j :: j in h.handles ==> Compatible(h.blocks, h.handles[j], x)
    ensures var h' := WithPointer(h, i, x, a);
            Inv(h') && Abs(h') == Abs(h)[i := ValOf(h.blocks, x)]
  {
    hide BlocksOk, HandlesOk, Isolated, Counted, CacheOk, Accounted, Compatible, HandleOk, ValOf;
    var h' := WithPointer(h, i, x, a);
    CountOf(h, a);
    AddPointerFrame(h, i, x, a);
    CountedAdd(h, h', i, a);
    CacheUnchanged(h, h', a);
    AccountedSame(h, h');
  }

  lemma CountOf(h: Heap, a: Addr)
    requires Counted(h) && a in h.blocks && !InCache(h.cache, a)
    ensures h.blocks[a].refs == |Pointers(h.handles, a)|
  {
  }

  /** Whatever lies below the writer's window may be shared: there is no other writer. */
  lemma BelowWriter(h: Heap, i: Id, x: Handle)
    requires Inv(h) && i in h.handles && h.handles[i].Mut? && x.Frozen? && x.st.Vec? && x.st.addr == h.handles[i].addr
    requires x.st.offset + x.st.len <= h.blocks[x.st.addr].offset
    ensures forall j :: j in h.handles ==> Compatible(h.blocks, h.handles[j], x)
  {
    hide Counted, CacheOk, Accounted;
    forall j | j in h.handles ensures Compatible(h.blocks, h.handles[j], x) {
      if j != i { assert Compatible(h.blocks, h.handles[j], h.handles[i]); }
    }
  }

  lemma AddPointerFrame(h: Heap, i: Id, x: Handle, a: Addr)
    requires Inv(h) && i !in h.handles && a in h.blocks
    requires PointsTo(x, a) && !x.Mut? && HandleOk(h.blocks, x)
    requires forall j :: j in h.handles ==> Compatible(h.blocks, h.handles[j], x)
    ensures var h' := WithPointer(h, i, x, a);
            BlocksOk(h') && HandlesOk(h') && Isolated(h') && Abs(h') == Abs(h)[i := ValOf(h.blocks, x)]
  {
    hide Counted, CacheOk, Accounted;
    var h' := WithPointer(h, i, x, a);
    assert BlocksOk(h') && HandleOk(h'.blocks, x);
    forall j | j in h.handles ensures Compatible(h'.blocks, h.handles[j], x) {
      assert Compatible(h.blocks, h.handles[j], x);
    }
    Frame(h, h', i, a);
    AbsFrame(h, h', i);
    ValSame(h.blocks, a, h'.blocks[a], x);
  }

  lemma ValSame(blocks: map<Addr, Block>, a: Addr, b': Block, x: Handle)
    requires HandleOk(blocks, x) && a in blocks && BlockOk(b') && SameWindow(blocks[a], b')
    requires forall c :: c in blocks ==> BlockOk(blocks[c])
    ensures HandleOk(blocks[a := b'], x) && ValOf(blocks[a := b'], x) == ValOf(blocks, x)
  {
  }

  /** A handle that owns no block: inline, static or external bytes. */
  lemma AddPlain(h: Heap, i: Id, st: Storage)
    requires Inv(h) && i !in h.handles && !st.Vec? && HandleOk(h.blocks, Frozen(st))
    ensures var h' := h.(handles := h.handles[i := Frozen(st)]);
            Inv(h') && Abs(h') == Abs(h)[i := FrozenV(st.bytes)]
  {
    var h' := h.(handles := h.handles[i := Frozen(st)]);
    NextUnused(h);
    AddPlainFrame(h, i, st);
    hide BlocksOk, HandlesOk, Isolated, Counted, CacheOk, Accounted;
    CountedAdd(h, h', i, h.next);
    CacheUnchanged(h, h', h.next);
    AccountedSame(h, h');
  }

  lemma AddPlainFrame(h: Heap, i: Id, st: Storage)
    requires Inv(h) && i !in h.handles && !st.Vec? && HandleOk(h.blocks, Frozen(st))
    ensures var h' := h.(handles := h.handles[i := Frozen(st)]);
            BlocksOk(h') && HandlesOk(h') && Isolated(h') && Abs(h') == Abs(h)[i := FrozenV(st.bytes)]
  {
    hide Counted, CacheOk, Accounted;
    var h' := h.(handles := h.handles[i := Frozen(st)]);
    Frame(h, h', i, h.next);
    AbsFrame(h, h', i);
  }

  function WithBlock(h: Heap, i: Id, x: Handle, b: Block): Heap {
    h.(blocks := h.blocks[h.next := b], handles := h.handles[i := x],
       sizes := h.sizes[h.next := |b.mem|], next := h.next + 1)
  }

  lemma NextUnused(h: Heap)
    requires Inv(h)
    ensures h.next !in h.blocks && h.next !in h.freed && Pointers(h.handles, h.next) == {} && !InCache(h.cache, h.next)
  {
    forall k | k in h.cache ensures h.next !in h.cache[k] { assert SlotsOk(h.blocks, k, h.cache[k]); }
  }

  /** A fresh allocation with its first handle. */
  lemma AddBlock(h: Heap, i: Id, x: Handle, b: Block)
    requires Inv(h) && i !in h.handles && BlockOk(b) && b.refs == 1
    requires PointsTo(x, h.next) && HandleOk(h.blocks[h.next := b], x)
    ensures var h' := WithBlock(h, i, x, b);
            Inv(h') && Abs(h') == Abs(h)[i := ValOf(h'.blocks, x)]
  {
    hide BlocksOk, HandlesOk, Isolated, Counted, CacheOk;
    var h' := WithBlock(h, i, x, b);
    NextUnused(h);
    AddBlockFrame(h, i, x, b);
    CountedAdd(h, h', i, h.next);
    CacheUnchanged(h, h', h.next);
  }

  lemma NextUnpointed(h: Heap)
    requires Inv(h)
    ensures forall j :: j in h.handles ==> !PointsTo(h.handles[j], h.next)
  {
    NextUnused(h);
    forall j | j in h.handles ensures !PointsTo(h.handles[j], h.next) {
      assert j !in Pointers(h.handles, h.next);
    }
  }

  lemma InvFrame(h: Heap)
    requires Inv(h)
    ensures BlocksOk(h) && HandlesOk(h) && Isolated(h)
  {
  }

  lemma AddBlockFrame(h: Heap, i: Id, x: Handle, b: Block)
    requires Inv(h) && i !in h.handles && BlockOk(b)
    requires PointsTo(x, h.next) && HandleOk(h.blocks[h.next := b], x)
    ensures var h' := WithBlock(h, i, x, b);
            BlocksOk(h') && HandlesOk(h') && Isolated(h') && Abs(h') == Abs(h)[i := ValOf(h'.blocks, x)]
  {
    hide Inv, Counted, CacheOk, Accounted;
    var h' := WithBlock(h, i, x, b);
    NextUnpointed(h);
    InvFrame(h);
    Frame(h, h', i, h.next);
    AbsFrame(h, h', i);
  }

  /** Exchanging a handle for another view of the same block. */
  lemma Retarget(h: Heap, i: Id, x: Handle)
    requires Inv(h) && i in h.handles && HandleOk(h.blocks, x)
    requires forall a :: PointsTo(x, a) <==> PointsTo(h.handles[i], a)
    requires forall j :: j in h.handles && j != i ==>
               Compatible(h.blocks, x, h.handles[j]) && Compatible(h.blocks, h.handles[j], x)
    ensures var h' := h.(handles := h.handles[i := x]);
            Inv(h') && Abs(h') == Abs(h)[i := ValOf(h.blocks, x)]
  {
    var h' := h.(handles := h.handles[i := x]);
    RetargetFrame(h, i, x);
    hide BlocksOk, HandlesOk, Isolated, CacheOk;
    forall c | c in h.blocks ensures Pointers(h'.handles, c) == Pointers(h.handles, c) {
      PointersKeep(h.handles, i, x, c);
    }
  }

  lemma RetargetFrame(h: Heap, i: Id, x: Handle)
    requires Inv(h) && i in h.handles && HandleOk(h.blocks, x)
    requires forall j :: j in h.handles && j != i ==>
               Compatible(h.blocks, x, h.handles[j]) && Compatible(h.blocks, h.handles[j], x)
    ensures var h' := h.(handles := h.handles[i := x]);
            HandlesOk(h') && Isolated(h') && Abs(h') == Abs(h)[i := ValOf(h.blocks, x)]
  {
    hide Counted, CacheOk, Accounted;
    var h' := h.(handles := h.handles[i := x]);
    Frame(h, h', i, h.next);
    AbsFrame(h, h', i);
  }

  /** A frozen window narrowed to part of itself, or emptied. */
  lemma NarrowTo(h: Heap, i: Id, x: Handle)
    requires Inv(h) && i in h.handles && h.handles[i].Frozen? && h.handles[i].st.Vec?
    requires x.Frozen? && x.st.Vec? && x.st.addr == h.handles[i].st.addr
    requires x.st.len > 0 ==> h.handles[i].st.offset <= x.st.offset
                              && x.st.offset + x.st.len <= h.handles[i].st.offset + h.handles[i].st.len
    ensures var h' := h.(handles := h.handles[i := x]);
            var s, d := h.handles[i].st, Abs(h)[i].data;
            && Inv(h') && |d| == s.len
            && Abs(h') == Abs(h)[i := FrozenV(Sub(d, x.st.offset - s.offset, x.st.len))]
  {
    hide Inv;
    NarrowCompatible(h, i, x);
    Retarget(h, i, x);
    NarrowVal(h.blocks, h.handles[i].st, x.st);
  }

  lemma NarrowCompatible(h: Heap, i: Id, x: Handle)
    requires Inv(h) && i in h.handles && h.handles[i].Frozen? && h.handles[i].st.Vec?
    requires x.Frozen? && x.st.Vec? && x.st.addr == h.handles[i].st.addr
    requires x.st.len > 0 ==> h.handles[i].st.offset <= x.st.offset
                              && x.st.offset + x.st.len <= h.handles[i].st.offset + h.handles[i].st.len
    ensures BlocksOk(h) && HandlesOk(h) && HandleOk(h.blocks, h.handles[i]) && HandleOk(h.blocks, x)
    ensures forall j :: j in h.handles && j != i ==> Compatible(h.blocks, h.handles[j], x)
  {
    forall j | j in h.handles && j != i ensures Compatible(h.blocks, h.handles[j], x) {
      assert Compatible(h.blocks, h.handles[j], h.handles[i]);
    }
  }

  lemma NarrowVal(blocks: map<Addr, Block>, s: Storage, t: Storage)
    requires s.Vec? && t.Vec? && s.addr == t.addr && HandleOk(blocks, Frozen(s)) && HandleOk(blocks, Frozen(t))
    requires forall c :: c in blocks ==> BlockOk(blocks[c])
    requires t.len > 0 ==> s.offset <= t.offset && t.offset + t.len <= s.offset + s.len
    ensures var d := View(blocks, Frozen(s));
            |d| == s.len && View(blocks, Frozen(t)) == Sub(d, t.offset - s.offset, t.len)
  {
    if t.len > 0 {
      var from := t.offset - s.offset;
      SubSlice(blocks[s.addr].mem, s.offset, s.offset + s.len, from, from + t.len);
    }
  }

  /** One encoding without a block for another. */
  lemma ReplacePlain(h: Heap, i: Id, st: Storage)
    requires Inv(h) && i in h.handles && h.handles[i].Frozen? && !h.handles[i].st.Vec?
    requires !st.Vec? && HandleOk(h.blocks, Frozen(st))
    ensures var h' := h.(handles := h.handles[i := Frozen(st)]);
            Inv(h') && Abs(h') == Abs(h)[i := FrozenV(st.bytes)]
  {
    Retarget(h, i, Frozen(st));
  }

  /** A writer or page holder gives up its role and keeps a read-only view of the same window. */
  lemma Demote(h: Heap, i: Id, x: Handle)
    requires Inv(h) && i in h.handles && (h.handles[i].Mut? || h.handles[i].Page?)
    requires var b := h.blocks[h.handles[i].addr];
             x == Page(h.handles[i].addr) || x == Frozen(Vec(h.handles[i].addr, b.offset, b.len))
    ensures var h' := h.(handles := h.handles[i := x]);
            var data := Abs(h)[i].data;
            Inv(h') && Abs(h') == Abs(h)[i := if x.Page? then PageV(data) else FrozenV(data)]
  {
    var a := h.handles[i].addr;
    assert BlockOk(h.blocks[a]);
    forall j | j in h.handles && j != i
      ensures Compatible(h.blocks, x, h.handles[j]) && Compatible(h.blocks, h.handles[j], x)
    {
      assert Compatible(h.blocks, h.handles[j], h.handles[i]);
    }
    Retarget(h, i, x);
    DemotedVal(h.blocks, h.handles[i], x);
  }

  lemma DemotedVal(blocks: map<Addr, Block>, w: Handle, x: Handle)
    requires (w.Mut? || w.Page?) && w.addr in blocks && forall c :: c in blocks ==> BlockOk(blocks[c])
    requires x == Page(w.addr) || x == Frozen(Vec(w.addr, blocks[w.addr].offset, blocks[w.addr].len))
    ensures HandleOk(blocks, x)
    ensures ValOf(blocks, x) == if x.Page? then PageV(ValOf(blocks, w).data) else FrozenV(ValOf(blocks, w).data)
  {
  }

  /** A page with no other owner becomes writable. */
  lemma Promote(h: Heap, i: Id)
    requires Inv(h) && i in h.handles && h.handles[i].Page? && h.blocks[h.handles[i].addr].refs == 1
    ensures var h' := h.(handles := h.handles[i := Mut(h.handles[i].addr)]);
            Inv(h') && Abs(h') == Abs(h)[i := MutV(Abs(h)[i].data)]
  {
    var a := h.handles[i].addr;
    NoOther(h, i, a);
    Retarget(h, i, Mut(a));
  }

  lemma Owned(h: Heap, i: Id, a: Addr)
    requires Inv(h) && i in h.handles && PointsTo(h.handles[i], a)
    ensures a in h.blocks && a in h.sizes && a !in h.freed && !InCache(h.cache, a)
    ensures h.blocks[a].refs == |Pointers(h.handles, a)| > 0 && BlockOk(h.blocks[a])
    ensures !h.handles[i].Mut? ==> HandleOk(h.blocks, h.handles[i])
                                   && forall j :: j in h.handles ==> Compatible(h.blocks, h.handles[j], h.handles[i])
  {
    assert i in Pointers(h.handles, a);
  }

  /** Moving a value from one variable to another. */
  lemma Rename(h: Heap, t: Id, i: Id)
    requires Inv(h) && t in h.handles && i !in h.handles
    ensures var h' := h.(handles := (h.handles - {t})[i := h.handles[t]]);
            Inv(h') && Abs(h') == (Abs(h) - {t})[i := Abs(h)[t]]
  {
    var h' := h.(handles := (h.handles - {t})[i := h.handles[t]]);
    RenameFrame(h, t, i);
    RenameCounted(h, t, i);
    hide BlocksOk, HandlesOk, Isolated, Counted, InCache;
    AbsMove(h, h', t, i);
  }

  lemma RenameFrame(h: Heap, t: Id, i: Id)
    requires BlocksOk(h) && HandlesOk(h) && Isolated(h) && t in h.handles && i !in h.handles
    ensures var h' := h.(handles := (h.handles - {t})[i := h.handles[t]]);
            BlocksOk(h') && HandlesOk(h') && Isolated(h')
  {
    var h' := h.(handles := (h.handles - {t})[i := h.handles[t]]);
    Frame(h, h', i, h.next);
  }

  lemma RenameCounted(h: Heap, t: Id, i: Id)
    requires Counted(h) && t in h.handles && i !in h.handles
    ensures Counted(h.(handles := (h.handles - {t})[i := h.handles[t]]))
  {
    hide InCache;
    var h' := h.(handles := (h.handles - {t})[i := h.handles[t]]);
    forall c | c in h.blocks ensures |Pointers(h'.handles, c)| == |Pointers(h.handles, c)|
      ensures InCache(h.cache, c) ==> Pointers(h'.handles, c) == {}
    {
      PointersRemove(h.handles, t, c);
      PointersAdd(h.handles - {t}, i, h.handles[t], c);
    }
  }

  // ---------------------------------------------------------------- release

  lemma DropPlain(h: Heap, i: Id)
    requires Inv(h) && i in h.handles && h.handles[i].Frozen? && !h.handles[i].st.Vec?
    ensures var h' := h.(handles := h.handles - {i}); Inv(h') && Abs(h') == Abs(h) - {i}
  {
    var h' := h.(handles := h.handles - {i});
    Frame(h, h', i, h.next);
    NextUnused(h);
    CountedRemove(h, h', i, h.next);
    AbsDrop(h, h', i);
  }

  function WithoutPointer(h: Heap, i: Id, a: Addr): Heap
    requires a in h.blocks && h.blocks[a].refs > 0
  {
    h.(handles := h.handles - {i}, blocks := h.blocks[a := h.blocks[a].(refs := h.blocks[a].refs - 1)])
  }

  /** A handle goes away and others remain. */
  lemma DropShared(h: Heap, i: Id, a: Addr)
    requires Inv(h) && i in h.handles && PointsTo(h.handles[i], a) && h.blocks[a].refs > 1
    ensures Inv(WithoutPointer(h, i, a)) && Abs(WithoutPointer(h, i, a)) == Abs(h) - {i}
  {
    hide BlocksOk, HandlesOk, Isolated, Counted, CacheOk, Accounted;
    Owned(h, i, a);
    DropSharedFrame(h, i, a);
    DropSharedCounted(h, i, a);
    AccountedSame(h, WithoutPointer(h, i, a));
  }

  lemma DropSharedCounted(h: Heap, i: Id, a: Addr)
    requires Inv(h) && i in h.handles && PointsTo(h.handles[i], a) && h.blocks[a].refs > 1
    ensures Counted(WithoutPointer(h, i, a)) && CacheOk(WithoutPointer(h, i, a))
  {
    var h' := WithoutPointer(h, i, a);
    assert i in Pointers(h.handles, a);
    CountedRemove(h, h', i, a);
    CacheUnchanged(h, h', a);
  }

  lemma DropSharedFrame(h: Heap, i: Id, a: Addr)
    requires Inv(h) && i in h.handles && PointsTo(h.handles[i], a) && h.blocks[a].refs > 1
    ensures var h' := WithoutPointer(h, i, a);
            BlocksOk(h') && HandlesOk(h') && Isolated(h') && Abs(h') == Abs(h) - {i}
  {
    hide Counted, CacheOk, Accounted;
    var h' := WithoutPointer(h, i, a);
    Frame(h, h', i, a);
    AbsDrop(h, h', i);
  }

  lemma NoOther(h: Heap, i: Id, a: Addr)
    requires Inv(h) && i in h.handles && PointsTo(h.handles[i], a) && h.blocks[a].refs == 1
    ensures forall j :: j in h.handles && j != i ==> !PointsTo(h.handles[j], a)
    ensures !InCache(h.cache, a)
  {
    SoleOwner(h, i, a);
    forall j | j in h.handles && j != i ensures !PointsTo(h.handles[j], a) {
      assert j !in Pointers(h.handles, a);
    }
  }

  function WithFreed(h: Heap, i: Id, a: Addr, size: nat): Heap {
    h.(handles := h.handles - {i}, blocks := h.blocks - {a}, freed := h.freed[a := size])
  }

  /** The last handle goes away and the block is handed back with the size it was allocated with. */
  lemma DropLast(h: Heap, i: Id, a: Addr)
    requires Inv(h) && i in h.handles && PointsTo(h.handles[i], a) && h.blocks[a].refs == 1
    ensures a !in h.freed && a in h.sizes && h.blocks[a].offset + h.blocks[a].capacity == h.sizes[a]
    ensures var h' := WithFreed(h, i, a, h.sizes[a]);
            Inv(h') && Abs(h') == Abs(h) - {i}
  {
    Owned(h, i, a);
    FreedAccounted(h, i, a);
    hide HandlesOk, Isolated, Counted, CacheOk, Accounted;
    var h' := WithFreed(h, i, a, h.sizes[a]);
    NoOther(h, i, a);
    DropAloneFrame(h, h', i, a);
    CountedRemove(h, h', i, a);
    CacheUnchanged(h, h', a);
  }

  lemma FreedAccounted(h: Heap, i: Id, a: Addr)
    requires BlocksOk(h) && Accounted(h) && a in h.blocks
    ensures a !in h.freed && a in h.sizes && h.blocks[a].offset + h.blocks[a].capacity == h.sizes[a]
    ensures Accounted(WithFreed(h, i, a, h.sizes[a]))
  {
  }

  /** The only owner of a block leaves; whatever happens to the block, nobody else looks at it. */
  lemma DropAloneFrame(h: Heap, h': Heap, i: Id, a: Addr)
    requires BlocksOk(h) && HandlesOk(h) && Isolated(h)
    requires forall j :: j in h.handles && j != i ==> !PointsTo(h.handles[j], a)
    requires h'.handles == h.handles - {i} && forall c :: c in h'.blocks ==> BlockOk(h'.blocks[c])
    requires forall c :: c in h.blocks && c != a ==> c in h'.blocks && h'.blocks[c] == h.blocks[c]
    ensures BlocksOk(h') && HandlesOk(h') && Isolated(h') && Abs(h') == Abs(h) - {i}
  {
    Frame(h, h', i, a);
    AbsDrop(h, h', i);
  }

  /** The block as `release_shared_vec` resets it before putting it into the cache. */
  function Recycled(b: Block): Block
    requires METADATA <= b.offset + b.capacity
  {
    var capacity := b.offset + b.capacity - METADATA;
    Block(METADATA, 0, capacity, capacity, 1, Unset, b.mem)
  }

  function WithCached(h: Heap, i: Id, a: Addr, k: PageSize): Heap
    requires a in h.blocks && METADATA <= h.blocks[a].offset + h.blocks[a].capacity && k in h.cache
  {
    h.(handles := h.handles - {i}, blocks := h.blocks[a := Recycled(h.blocks[a])],
       cache := h.cache[k := h.cache[k] + [a]])
  }

  /** The last handle of a sized page goes away and the page enters its cache class. */
  lemma DropToCache(h: Heap, i: Id, a: Addr, k: PageSize)
    requires Inv(h) && i in h.handles && PointsTo(h.handles[i], a) && h.blocks[a].refs == 1
    requires h.blocks[a].size == k != Unset && k in h.cache
    ensures METADATA <= h.blocks[a].offset + h.blocks[a].capacity
    ensures Inv(WithCached(h, i, a, k)) && Abs(WithCached(h, i, a, k)) == Abs(h) - {i}
  {
    hide HandlesOk, Isolated, Counted, CacheOk;
    Owned(h, i, a);
    var h' := WithCached(h, i, a, k);
    NoOther(h, i, a);
    DropAloneFrame(h, h', i, a);
    CountedToCache(h, i, a, k);
    CachePush(h, h', k, a);
  }

  lemma CountedToCache(h: Heap, i: Id, a: Addr, k: PageSize)
    requires Inv(h) && i in h.handles && PointsTo(h.handles[i], a) && h.blocks[a].refs == 1 && k in h.cache
    requires METADATA <= h.blocks[a].offset + h.blocks[a].capacity
    ensures Counted(WithCached(h, i, a, k))
  {
    var h' := WithCached(h, i, a, k);
    SoleOwner(h, i, a);
    forall c | c in h'.blocks
      ensures if InCache(h'.cache, c) then Pointers(h'.handles, c) == {}
              else h'.blocks[c].refs == |Pointers(h'.handles, c)| && h'.blocks[c].refs > 0
    {
      PointersRemove(h.handles, i, c);
      InCachePush(h.cache, k, a, c);
      if c != a { assert !PointsTo(h.handles[i], c); }
    }
  }

  lemma InCachePush(cache: map<PageSize, seq<Addr>>, k: PageSize, a: Addr, c: Addr)
    requires k in cache
    ensures InCache(cache[k := cache[k] + [a]], c) <==> c == a || InCache(cache, c)
  {
    var cache' := cache[k := cache[k] + [a]];
    if InCache(cache, c) { var n :| n in cache && c in cache[n]; assert n in cache' && c in cache'[n]; }
    if c == a { assert a in cache'[k]; }
  }

  lemma CachePush(h: Heap, h': Heap, k: PageSize, a: Addr)
    requires CacheOk(h) && k in h.cache && a in h'.blocks && !InCache(h.cache, a)
    requires h'.cache == h.cache[k := h.cache[k] + [a]]
    requires forall c :: c in h.blocks && c != a ==> c in h'.blocks && h'.blocks[c] == h.blocks[c]
    requires FreshHeader(h'.blocks[a], k) && h'.blocks[a].size == Unset
    ensures CacheOk(h')
  {
    forall n | n in h.cache ensures SlotsOk(h'.blocks, n, h'.cache[n]) {
      assert SlotsOk(h.blocks, n, h.cache[n]);
      forall p | 0 <= p < |h.cache[n]| ensures h.cache[n][p] != a { assert h.cache[n][p] in h.cache[n]; }
    }
  }

  // ---------------------------------------------------------------- reuse

  ghost predicate HasCached(h: Heap, k: PageSize, a: Addr) {
    k in h.cache && |h.cache[k]| > 0 && h.cache[k][|h.cache[k]| - 1] == a && a in h.blocks
  }

  ghost function WithPopped(h: Heap, i: Id, k: PageSize, a: Addr): Heap
    requires HasCached(h, k, a)
  {
    h.(handles := h.handles[i := Mut(a)], blocks := h.blocks[a := h.blocks[a].(size := k)],
       cache := h.cache[k := h.cache[k][..|h.cache[k]| - 1]])
  }

  /** A cached page comes back with a header no different from a new allocation's. */
  lemma PopCached(h: Heap, i: Id, k: PageSize, a: Addr)
    requires Inv(h) && i !in h.handles && HasCached(h, k, a)
    ensures Inv(WithPopped(h, i, k, a)) && Abs(WithPopped(h, i, k, a)) == Abs(h)[i := MutV([])]
    ensures FreshHeader(h.blocks[a], k)
  {
    hide BlocksOk, HandlesOk, Isolated, Counted;
    var h' := WithPopped(h, i, k, a);
    assert SlotsOk(h.blocks, k, h.cache[k]);
    PopCachedFrame(h, i, k, a);
    CountedPop(h, i, k, a);
    CachePop(h, h', k);
  }

  lemma PopCachedFrame(h: Heap, i: Id, k: PageSize, a: Addr)
    requires Inv(h) && i !in h.handles && HasCached(h, k, a) && FreshHeader(h.blocks[a], k)
    ensures var h' := WithPopped(h, i, k, a);
            BlocksOk(h') && HandlesOk(h') && Isolated(h') && Abs(h') == Abs(h)[i := MutV([])]
  {
    hide Counted, CacheOk, Accounted;
    var h' := WithPopped(h, i, k, a);
    assert BlockOk(h.blocks[a]);
    CachedUnowned(h, k, a);
    Frame(h, h', i, a);
    AbsFrame(h, h', i);
    assert ValOf(h'.blocks, Mut(a)) == MutV([]);
  }

  lemma CachedLive(h: Heap, k: PageSize)
    requires Inv(h) && k in h.cache && |h.cache[k]| > 0
    ensures HasCached(h, k, h.cache[k][|h.cache[k]| - 1])
  {
    assert SlotsOk(h.blocks, k, h.cache[k]);
  }

  lemma CachedUnowned(h: Heap, k: PageSize, a: Addr)
    requires Inv(h) && k in h.cache && a in h.cache[k] && a in h.blocks
    ensures forall j :: j in h.handles ==> !PointsTo(h.handles[j], a)
  {
    assert InCache(h.cache, a);
    forall j | j in h.handles ensures !PointsTo(h.handles[j], a) {
      assert j !in Pointers(h.handles, a);
    }
  }

  lemma CountedPop(h: Heap, i: Id, k: PageSize, a: Addr)
    requires Inv(h) && i !in h.handles && HasCached(h, k, a) && FreshHeader(h.blocks[a], k)
    ensures Counted(WithPopped(h, i, k, a))
  {
    var h' := WithPopped(h, i, k, a);
    assert a in h.cache[k];
    InCachePop(h, k);
    forall c | c in h'.blocks
      ensures if InCache(h'.cache, c) then Pointers(h'.handles, c) == {}
              else h'.blocks[c].refs == |Pointers(h'.handles, c)| && h'.blocks[c].refs > 0
    {
      PointersAdd(h.handles, i, Mut(a), c);
    }
  }

  lemma InCachePop(h: Heap, k: PageSize)
    requires CacheOk(h) && k in h.cache && |h.cache[k]| > 0
    ensures var n := |h.cache[k]| - 1;
            forall c :: InCache(h.cache[k := h.cache[k][..n]], c) <==> c != h.cache[k][n] && InCache(h.cache, c)
  {
    hide InCache, CacheOk;
    var n := |h.cache[k]| - 1;
    var a, cache' := h.cache[k][n], h.cache[k := h.cache[k][..n]];
    forall c | InCache(cache', c) ensures c != a && InCache(h.cache, c) { PoppedOut(h, k, c); }
    forall c | c != a && InCache(h.cache, c) ensures InCache(cache', c) { PoppedKeeps(h.cache, k, c); }
  }

  /** A page waits in one class only, and once. */
  lemma SlotUnique(h: Heap, k: PageSize, p: nat, m: PageSize, q: nat)
    requires CacheOk(h) && k in h.cache && m in h.cache && p < |h.cache[k]| && q < |h.cache[m]|
    requires h.cache[k][p] == h.cache[m][q]
    ensures k == m && p == q
  {
    assert SlotsOk(h.blocks, k, h.cache[k]) && SlotsOk(h.blocks, m, h.cache[m]);
  }

  lemma PoppedOut(h: Heap, k: PageSize, c: Addr)
    requires CacheOk(h) && k in h.cache && |h.cache[k]| > 0
    requires InCache(h.cache[k := h.cache[k][..|h.cache[k]| - 1]], c)
    ensures c != h.cache[k][|h.cache[k]| - 1] && InCache(h.cache, c)
  {
    hide CacheOk;
    var n := |h.cache[k]| - 1;
    var cache' := h.cache[k := h.cache[k][..n]];
    var m :| m in cache' && c in cache'[m];
    var q :| 0 <= q < |cache'[m]| && cache'[m][q] == c;
    assert h.cache[m][q] == c;
    if c == h.cache[k][n] { SlotUnique(h, k, n, m, q); }
  }

  lemma PoppedKeeps(cache: map<PageSize, seq<Addr>>, k: PageSize, c: Addr)
    requires k in cache && |cache[k]| > 0 && c != cache[k][|cache[k]| - 1] && InCache(cache, c)
    ensures InCache(cache[k := cache[k][..|cache[k]| - 1]], c)
  {
    var cache' := cache[k := cache[k][..|cache[k]| - 1]];
    var m :| m in cache && c in cache[m];
    assert m in cache' && c in cache'[m];
  }

  lemma CachePop(h: Heap, h': Heap, k: PageSize)
    requires CacheOk(h) && k in h.cache && |h.cache[k]| > 0
    requires h'.cache == h.cache[k := h.cache[k][..|h.cache[k]| - 1]]
    requires forall c :: c in h.blocks && c != h.cache[k][|h.cache[k]| - 1] ==>
               c in h'.blocks && h'.blocks[c] == h.blocks[c]
    ensures CacheOk(h')
  {
    InCachePop(h, k);
    forall m | m in h'.cache ensures SlotsOk(h'.blocks, m, h'.cache[m]) {
      assert SlotsOk(h.blocks, m, h.cache[m]);
      forall p | 0 <= p < |h'.cache[m]| ensures h'.cache[m][p] != h.cache[k][|h.cache[k]| - 1] {
        assert h'.cache[m][p] in h'.cache[m];
      }
    }
  }
}
