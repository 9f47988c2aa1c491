/** One thread's buffers: the shared-vector storage of `BytesMut` (`StorageVec`), the four-way
    storage of `Bytes` (`Storage`), and the page cache. Handles are variables that own a storage
    value; assigning to one drops what it held. Operations that panic return `false` or `None`
    and change nothing. */
module SharedBuffers {
  import opened Common
  import opened BufferHeap

  lemma SameEntry<V>(m: map<Id, V>, i: Id)
    requires i in m
    ensures m[i := m[i]] == m
  {
  }

  lemma RoundTrip<V>(m: map<Id, V>, i: Id, t: Id, v: V)
    requires i in m && m[i] == v && t !in m
    ensures (m[t := v] - {t})[i := v] == m
  {
  }

  lemma Overwrite<V>(m: map<Id, V>, i: Id, t: Id, v: V)
    requires i in m && t !in m
    ensures (m[t := v] - {t})[i := v] == m[i := v]
  {
  }

  lemma MoveOver<V>(m: map<Id, V>, i: Id, t: Id, v: V)
    ensures (m - {i} - {t})[i := v] == (m - {t})[i := v]
  {
  }

  class Arena {
    var blocks: map<Addr, Block>
    var handles: map<Id, Handle>
    var cache: map<PageSize, seq<Addr>>
    var cacheLimit: nat
    var next: Addr
    var nextId: Id
    ghost var sizes: map<Addr, nat>
    ghost var freed: map<Addr, nat>

    ghost function H(): Heap
      reads this
    {
      Heap(blocks, handles, cache, next, sizes, freed)
    }

    ghost predicate Valid()
      reads this
    {
      && Inv(H())
      && (forall i :: i in handles ==> i < nextId)
      && (forall k: PageSize :: k in cache <==> k != Unset)
    }

    /** Every live handle with the bytes its owner sees. */
    ghost function A(): map<Id, Val>
      reads this
      requires Valid()
    {
      Abs(H())
    }

    predicate IsMut(i: Id)
      reads this
    {
      i in handles && handles[i].Mut?
    }

    predicate IsPage(i: Id)
      reads this
    {
      i in handles && handles[i].Page?
    }

    predicate IsFrozen(i: Id)
      reads this
    {
      i in handles && handles[i].Frozen?
    }

    /** The header a `BytesMut` or a storage page reads. */
    function Hdr(i: Id): Block
      reads this
      requires Valid() && (IsMut(i) || IsPage(i))
      ensures handles[i].addr in blocks && BlockOk(Hdr(i)) && i in A()
      ensures A()[i] == if IsMut(i) then MutV(Window(Hdr(i))) else PageV(Window(Hdr(i)))
    {
      blocks[handles[i].addr]
    }

    lemma FreshId()
      requires Valid()
      ensures nextId !in A() && A().Keys == handles.Keys && forall i :: i in handles ==> i < nextId
      ensures forall i :: i in handles ==>
                (A()[i].MutV? <==> IsMut(i)) && (A()[i].PageV? <==> IsPage(i)) && (A()[i].FrozenV? <==> IsFrozen(i))
    {
    }

    constructor ()
      ensures Valid() && A() == map[] && cacheLimit == 128
    {
      blocks, handles, next, nextId := map[], map[], 0, 0;
      cache := map[Size4 := [], Size8 := [], Size16 := [], Size24 := [], Size32 := [], Size48 := [], Size64 := []];
      cacheLimit := 128;
      sizes, freed := map[], map[];
    }

    method SetPagesCache(size: nat)
      requires Valid()
      modifies this`cacheLimit
      ensures Valid() && A() == old(A()) && cacheLimit == size
    {
      cacheLimit := size;
    }

    // -------------------------------------------------------------- creation

    /** The block `SharedVec::create` writes; bytes past `len` are never shown. */
    static function NewBlock(size: PageSize, cap: nat, src: seq<byte>): (b: Block)
      requires |src| <= cap && Fits(cap) && (size != Unset ==> cap == size.Capacity())
      ensures BlockOk(b) && Window(b) == src && b.refs == 1
    {
      var mem := seq(METADATA, _ => 0 as byte) + src + seq(cap - |src|, _ => 0 as byte);
      assert mem[METADATA..METADATA + |src|] == src;
      Block(METADATA, |src|, cap, cap - |src|, 1, size, mem)
    }

    method Create(size: PageSize, cap: nat, src: seq<byte>) returns (i: Id)
      requires Valid() && |src| <= cap && Fits(cap) && (size != Unset ==> cap == size.Capacity())
      modifies this`blocks, this`handles, this`next, this`nextId, this`sizes
      ensures Valid() && i == old(nextId) && IsMut(i)
      ensures A() == old(A())[i := MutV(src)]
      ensures Hdr(i) == NewBlock(size, cap, src)
      ensures nextId == i + 1 && handles == old(handles)[i := Mut(old(next))]
      ensures blocks == old(blocks)[old(next) := Hdr(i)]
    {
      hide Inv;
      var b := NewBlock(size, cap, src);
      i := nextId;
      ghost var h := H();
      AddBlock(h, i, Mut(next), b);
      blocks := blocks[next := b];
      handles := handles[i := Mut(next)];
      sizes := sizes[next := |b.mem|];
      next, nextId := next + 1, nextId + 1;
      assert H() == WithBlock(h, i, Mut(h.next), b);
    }

    method WithCapacity(capacity: nat) returns (i: Id)
      requires Valid() && Fits(capacity)
      modifies this
      ensures Valid() && i == old(nextId) && IsMut(i) && A() == old(A())[i := MutV([])]
      ensures Hdr(i).capacity == capacity && Hdr(i).refs == 1
    {
      i := Create(Unset, capacity, []);
    }

    /** A page of class `k`, from the cache when one waits there. Either way its header is a new one. */
    method Sized(k: PageSize) returns (i: Id)
      requires Valid() && k != Unset
      modifies this
      ensures Valid() && i == old(nextId) && nextId == i + 1 && IsMut(i) && A() == old(A())[i := MutV([])]
      ensures FreshHeader(Hdr(i), k) && Hdr(i).size == k
    {
      hide Inv, View, ValOf, HandleOk;
      if |cache[k]| > 0 {
        i := FromCache(k);
      } else {
        i := Create(k, k.Capacity(), []);
      }
    }

    /** The last page that waits in class `k`. */
    method FromCache(k: PageSize) returns (i: Id)
      requires Valid() && k != Unset && |cache[k]| > 0
      modifies this
      ensures Valid() && i == old(nextId) && nextId == i + 1 && IsMut(i) && A() == old(A())[i := MutV([])]
      ensures FreshHeader(Hdr(i), k) && Hdr(i).size == k
    {
      hide Inv, View, ValOf, HandleOk;
      var a := cache[k][|cache[k]| - 1];
      ghost var h := H();
      CachedLive(h, k);
      i := nextId;
      PopCached(h, i, k, a);
      cache := cache[k := cache[k][..|cache[k]| - 1]];
      blocks := blocks[a := blocks[a].(size := k)];
      handles := handles[i := Mut(a)];
      nextId := nextId + 1;
      assert H() == WithPopped(h, i, k, a);
    }

    method FromStatic(bytes: seq<byte>) returns (i: Id)
      requires Valid()
      modifies this`handles, this`nextId
      ensures Valid() && i == old(nextId) && IsFrozen(i) && A() == old(A())[i := FrozenV(bytes)]
    {
      i := NewPlain(Static(bytes));
    }

    method FromExt(bytes: seq<byte>, clonable: bool) returns (i: Id)
      requires Valid()
      modifies this`handles, this`nextId
      ensures Valid() && i == old(nextId) && IsFrozen(i) && A() == old(A())[i := FrozenV(bytes)]
    {
      i := NewPlain(Ext(bytes, clonable));
    }

    method NewPlain(st: Storage) returns (i: Id)
      requires Valid() && !st.Vec? && (st.Inline? ==> |st.bytes| <= INLINE_CAP)
      modifies this`handles, this`nextId
      ensures Valid() && i == old(nextId) && nextId == i + 1 && handles == old(handles)[i := Frozen(st)]
      ensures A() == old(A())[i := FrozenV(st.bytes)]
    {
      hide Inv;
      i := nextId;
      AddPlain(H(), i, st);
      handles := handles[i := Frozen(st)];
      nextId := nextId + 1;
    }

    /** `Storage::from_slice`: inline when it fits, otherwise a block of exactly the right size. */
    method FromSlice(src: seq<byte>) returns (i: Id)
      requires Valid() && Fits(|src|)
      modifies this`blocks, this`handles, this`next, this`nextId, this`sizes
      ensures Valid() && i == old(nextId) && nextId == i + 1 && IsFrozen(i) && A() == old(A())[i := FrozenV(src)]
      ensures handles[i].st == if |src| <= INLINE_CAP then Inline(src) else Vec(old(next), METADATA, |src|)
      ensures handles == old(handles)[i := handles[i]]
    {
      if |src| <= INLINE_CAP {
        i := NewPlain(Inline(src));
      } else {
        i := FromSliceWithCapacity(|src|, src);
      }
    }

    method FromSliceWithCapacity(cap: nat, src: seq<byte>) returns (i: Id)
      requires Valid() && Fits(cap) && |src| <= cap
      modifies this`blocks, this`handles, this`next, this`nextId, this`sizes
      ensures Valid() && i == old(nextId) && nextId == i + 1 && IsFrozen(i) && A() == old(A())[i := FrozenV(src)]
      ensures handles == old(handles)[i := Frozen(Vec(old(next), METADATA, |src|))]
    {
      hide Inv;
      var b := NewBlock(Unset, cap, src);
      var x := Frozen(Vec(next, METADATA, |src|));
      i := nextId;
      ghost var h := H();
      AddBlock(h, i, x, b);
      blocks := blocks[next := b];
      handles := handles[i := x];
      sizes := sizes[next := |b.mem|];
      next, nextId := next + 1, nextId + 1;
      assert H() == WithBlock(h, i, x, b);
    }

    // -------------------------------------------------------------- release

    /** Dropping a handle; the last owner of a block frees it, or parks a sized page in the cache. */
    method Drop(i: Id)
      requires Valid() && i in handles
      modifies this`blocks, this`handles, this`cache, this`freed
      ensures Valid() && A() == old(A()) - {i} && handles == old(handles) - {i}
      ensures forall a :: a in old(blocks) && !PointsTo(old(handles[i]), a) ==>
                a in blocks && blocks[a] == old(blocks)[a]
    {
      match handles[i] {
        case Mut(a) => Release(i, a);
        case Page(a) => Release(i, a);
        case Frozen(Vec(a, _, _)) => Release(i, a);
        case Frozen(_) =>
          DropPlain(H(), i);
          handles := handles - {i};
      }
    }

    method Release(i: Id, a: Addr)
      requires Valid() && i in handles && PointsTo(handles[i], a)
      modifies this`blocks, this`handles, this`cache, this`freed
      ensures Valid() && A() == old(A()) - {i} && handles == old(handles) - {i}
      ensures forall a :: a in old(blocks) && !PointsTo(old(handles[i]), a) ==>
                a in blocks && blocks[a] == old(blocks)[a]
      // freed exactly when the last owner leaves an unsized page or a full cache class
      ensures a in freed <==>
                old(blocks[a].refs == 1 && (blocks[a].size == Unset || |cache[blocks[a].size]| >= cacheLimit))
      ensures a in freed ==> freed == old(freed)[a := old(sizes[a])] && a !in blocks
      ensures a !in freed ==> freed == old(freed)
    {
      assert a in blocks && a !in freed && a in sizes;
      if blocks[a].refs != 1 {
        Decrement(i, a);
      } else {
        var size := blocks[a].size;
        if size != Unset && |cache[size]| < cacheLimit {
          Park(i, a, size);
        } else {
          Free(i, a);
        }
      }
    }

    method Decrement(i: Id, a: Addr)
      requires Valid() && i in handles && PointsTo(handles[i], a) && blocks[a].refs > 1
      modifies this`blocks, this`handles
      ensures Valid() && A() == old(A()) - {i} && handles == old(handles) - {i}
      ensures forall a :: a in old(blocks) && !PointsTo(old(handles[i]), a) ==>
                a in blocks && blocks[a] == old(blocks)[a]
    {
      hide Inv, View, ValOf, HandleOk;
      ghost var h := H();
      Owned(h, i, a);
      DropShared(h, i, a);
      blocks := blocks[a := blocks[a].(refs := blocks[a].refs - 1)];
      handles := handles - {i};
      assert H() == WithoutPointer(h, i, a);
    }

    method Park(i: Id, a: Addr, size: PageSize)
      requires Valid() && i in handles && PointsTo(handles[i], a) && blocks[a].refs == 1
      requires size == blocks[a].size != Unset
      modifies this`blocks, this`handles, this`cache
      ensures Valid() && A() == old(A()) - {i} && handles == old(handles) - {i}
      ensures forall a :: a in old(blocks) && !PointsTo(old(handles[i]), a) ==>
                a in blocks && blocks[a] == old(blocks)[a]
      ensures a in blocks && FreshHeader(blocks[a], size) && cache == old(cache)[size := old(cache)[size] + [a]]
    {
      hide Inv, View, ValOf, HandleOk;
      ghost var h := H();
      Owned(h, i, a);
      DropToCache(h, i, a, size);
      blocks := blocks[a := Recycled(blocks[a])];
      cache := cache[size := cache[size] + [a]];
      handles := handles - {i};
      assert H() == WithCached(h, i, a, size);
    }

    method Free(i: Id, a: Addr)
      requires Valid() && i in handles && PointsTo(handles[i], a) && blocks[a].refs == 1
      modifies this`blocks, this`handles, this`freed
      ensures Valid() && A() == old(A()) - {i} && handles == old(handles) - {i}
      ensures forall a :: a in old(blocks) && !PointsTo(old(handles[i]), a) ==>
                a in blocks && blocks[a] == old(blocks)[a]
      ensures a !in blocks && a !in old(freed) && a in sizes && freed == old(freed)[a := sizes[a]]
    {
      hide Inv, View, ValOf, HandleOk;
      ghost var h := H();
      Owned(h, i, a);
      DropLast(h, i, a);
      ghost var cap := blocks[a].offset + blocks[a].capacity;
      assert cap == sizes[a];
      blocks := blocks - {a};
      handles := handles - {i};
      freed := freed[a := cap];
      assert H() == WithFreed(h, i, a, cap);
    }

    /** `*self = value`: the old storage of `i` is dropped and `t` moves into its place. */
    method Assign(i: Id, t: Id)
      requires Valid() && i in handles && t in handles && i != t
      modifies this`blocks, this`handles, this`cache, this`freed
      ensures Valid() && A() == (old(A()) - {t})[i := old(A())[t]]
      ensures handles == (old(handles) - {t})[i := old(handles[t])]
      ensures forall a :: a in old(blocks) && !PointsTo(old(handles[i]), a) ==>
                a in blocks && blocks[a] == old(blocks)[a]
    {
      hide Inv, View, ValOf, HandleOk;
      FreshId();
      MoveOver(handles, i, t, handles[t]);
      MoveOver(A(), i, t, A()[t]);
      Drop(i);
      Rename(H(), t, i);
      handles := (handles - {t})[i := handles[t]];
    }

    // -------------------------------------------------------------- BytesMut: in place

    /** Store back a header and memory the writer of the block is allowed to leave behind. */
    method Rewrite(i: Id, b: Block)
      requires Valid() && IsMut(i) && WriterMay(Hdr(i), b)
      modifies this`blocks
      ensures Valid() && IsMut(i) && Hdr(i) == b && A() == old(A())[i := MutV(Window(b))]
      ensures blocks == old(blocks)[handles[i].addr := b]
    {
      hide Inv, View, ValOf, HandleOk;
      UpdateMut(H(), i, b);
      blocks := blocks[handles[i].addr := b];
    }

    /** `set_start`: drop `start` bytes from the front; panics past the capacity, not past the length. */
    method SetStart(i: Id, start: nat) returns (ok: bool)
      requires Valid() && IsMut(i)
      modifies this`blocks
      ensures Valid() && IsMut(i) && (ok <==> start <= old(Hdr(i).capacity))
      ensures A() == if ok then old(A())[i := MutV(Skip(old(A())[i].data, start))] else old(A())
      ensures ok ==> Hdr(i) == Advanced(old(Hdr(i)), start) && blocks == old(blocks)[handles[i].addr := Hdr(i)]
    {
      hide Inv, View, ValOf, HandleOk;
      var b := Hdr(i);
      if start == 0 {
        assert Skip(A()[i].data, 0) == A()[i].data;
        SameEntry(blocks, handles[i].addr);
        SameEntry(A(), i);
        return true;
      }
      if start > b.capacity { return false; }
      var len := if b.len > start then b.len - start else 0;
      var remaining := b.capacity - len - start;
      var b' := b.(offset := b.offset + start, len := len, remaining := remaining, capacity := remaining + len);
      assert b' == Advanced(b, start);
      Rewrite(i, b');
      ok := true;
    }

    /** `set_len`; the argument is truncated to 32 bits before it is compared with the capacity. */
    method SetLen(i: Id, len: nat) returns (ok: bool)
      requires Valid() && IsMut(i)
      modifies this`blocks
      ensures Valid() && IsMut(i) && (ok <==> len % U32 <= old(Hdr(i).capacity))
      ensures !ok ==> A() == old(A())
      ensures ok ==> |A()[i].data| == len % U32 && A() == old(A())[i := MutV(A()[i].data)]
      ensures ok && len % U32 <= |old(A())[i].data| ==> A()[i].data == old(A())[i].data[..len % U32]
      ensures ok && len % U32 >= |old(A())[i].data| ==> old(A())[i].data <= A()[i].data
      ensures ok ==> Hdr(i) == old(Hdr(i)).(len := len % U32, remaining := old(Hdr(i).capacity) - len % U32)
      ensures ok ==> blocks == old(blocks)[handles[i].addr := Hdr(i)]
    {
      hide Inv, View, ValOf, HandleOk;
      var b := Hdr(i);
      var n := len % U32;
      if n > b.capacity { return false; }
      var b' := b.(len := n, remaining := b.capacity - n);
      assert b' == Resized(b, n);
      Rewrite(i, b');
      ok := true;
    }

    /** A buffer with no other owner is emptied and takes the whole block back. */
    method EmptyOut(i: Id)
      requires Valid() && IsMut(i) && Hdr(i).refs == 1
      modifies this`blocks
      ensures Valid() && IsMut(i) && A() == old(A())[i := MutV([])]
      ensures Hdr(i).offset == METADATA && Hdr(i).capacity == |Hdr(i).mem| - METADATA
      ensures Hdr(i).refs == old(Hdr(i).refs) && Hdr(i).size == old(Hdr(i).size)
    {
      hide Inv, View, ValOf, HandleOk;
      var b := Hdr(i);
      var cap := b.offset + b.capacity;
      var b' := b.(len := 0, offset := METADATA, capacity := cap - METADATA, remaining := cap - METADATA);
      assert Window(b') == [];
      Rewrite(i, b');
    }

    /** `truncate`; an emptied buffer with no other owner takes the whole block back. */
    method Truncate(i: Id, len: nat)
      requires Valid() && IsMut(i)
      modifies this`blocks
      ensures Valid() && IsMut(i)
      ensures A() == old(A())[i := MutV(Keep(old(A())[i].data, len))]
      ensures len == 0 && old(Hdr(i).refs) == 1 ==>
                Hdr(i).offset == METADATA && Hdr(i).capacity == |Hdr(i).mem| - METADATA
      ensures Hdr(i).refs == old(Hdr(i).refs) && Hdr(i).size == old(Hdr(i).size)
    {
      hide Inv, View, ValOf, HandleOk;
      var b := Hdr(i);
      assert |A()[i].data| == b.len;
      if len == 0 && b.refs == 1 && b.offset != METADATA {
        EmptyOut(i);
        return;
      }
      SameEntry(A(), i);
      if len < b.len {
        var ok := SetLen(i, len);
      } else if len == b.len {
        assert A()[i].data[..len] == A()[i].data;
      }
    }

    /** Writes through `as_mut` or into the spare capacity: `data` lands at `at` inside the window. */
    method WriteAt(i: Id, at: nat, data: seq<byte>)
      requires Valid() && IsMut(i) && at <= Hdr(i).len && at + |data| <= Hdr(i).capacity
      modifies this`blocks
      ensures Valid() && IsMut(i)
      ensures var d := old(A())[i].data;
              A() == old(A())[i := MutV(d[..at] + data + Skip(d, at + |data|))]
      ensures var n := Max(old(Hdr(i).len), at + |data|);
              Hdr(i) == old(Hdr(i)).(len := n, remaining := old(Hdr(i).capacity) - n, mem := Hdr(i).mem)
      ensures blocks == old(blocks)[handles[i].addr := Hdr(i)]
    {
      hide Inv, View, ValOf, HandleOk;
      var b := Hdr(i);
      Rewrite(i, Written(b, at, data));
    }

    /** `put_u8` on storage: needs a spare byte. */
    method PutU8Raw(i: Id, n: byte) returns (ok: bool)
      requires Valid() && IsMut(i)
      modifies this`blocks
      ensures Valid() && IsMut(i) && (ok <==> old(Hdr(i).remaining) > 0)
      ensures A() == if ok then old(A())[i := MutV(old(A())[i].data + [n])] else old(A())
      ensures ok ==> Hdr(i).remaining == old(Hdr(i).remaining) - 1
    {
      hide Inv, View, ValOf, HandleOk;
      if Hdr(i).remaining == 0 { return false; }
      ghost var d := A()[i].data;
      assert d[..|d|] + [n] + [] == d + [n];
      WriteAt(i, Hdr(i).len, [n]);
      ok := true;
    }

    /** The page tag is cleared so that the block never enters the cache. */
    method Unsize(i: Id)
      requires Valid() && IsMut(i)
      modifies this`blocks
      ensures Valid() && IsMut(i) && A() == old(A()) && Hdr(i) == old(Hdr(i)).(size := Unset)
    {
      hide Inv, View, ValOf, HandleOk;
      SameEntry(A(), i);
      Rewrite(i, Hdr(i).(size := Unset));
    }

    // -------------------------------------------------------------- BytesMut: growth

    /** `reserve`: room for `additional` more bytes, found in the block, at its front, or in a new block. */
    method Reserve(i: Id, additional: nat)
      requires Valid() && IsMut(i) && Fits(Hdr(i).len + additional)
      modifies this
      ensures Valid() && IsMut(i) && A() == old(A()) && Hdr(i).remaining >= additional
      // no allocation when the block has room, or would have it once its front is reclaimed
      ensures additional <= old(Hdr(i).remaining)
              || (old(Hdr(i).refs) == 1 && |old(Hdr(i).mem)| >= old(Hdr(i).len) + additional + METADATA)
              ==> next == old(next) && handles == old(handles)
      ensures additional <= old(Hdr(i).remaining) ==> Hdr(i) == old(Hdr(i))
      ensures cacheLimit == old(cacheLimit)
    {
      hide Inv, View, ValOf, HandleOk;
      if additional <= Hdr(i).remaining { return; }
      ReserveInner(i, additional);
    }

    method ReserveInner(i: Id, additional: nat)
      requires Valid() && IsMut(i) && Fits(Hdr(i).len + additional)
      modifies this
      ensures Valid() && IsMut(i) && A() == old(A()) && Hdr(i).remaining >= additional
      ensures old(Hdr(i).refs) == 1 && |old(Hdr(i).mem)| >= old(Hdr(i).len) + additional + METADATA
              ==> next == old(next) && handles == old(handles)
      ensures cacheLimit == old(cacheLimit)
    {
      hide Inv, View, ValOf, HandleOk;
      var b := Hdr(i);
      var newCap := b.len + additional;
      if b.refs == 1 {
        var capacity := b.offset + b.capacity;
        if capacity >= newCap + METADATA {
          SameEntry(A(), i);
          Rewrite(i, Reclaimed(b, Window(b)));
          return;
        }
      }
      CopyInto(i, newCap);
    }

    /** `reserve_capacity`: move to a new block of the given capacity; panics if it cannot hold the data. */
    method ReserveCapacity(i: Id, capacity: nat) returns (ok: bool)
      requires Valid() && IsMut(i) && Fits(capacity)
      modifies this
      ensures Valid() && IsMut(i) && A() == old(A()) && (ok <==> |old(A())[i].data| <= capacity)
      ensures ok ==> Hdr(i).capacity == capacity
    {
      hide Inv, View, ValOf, HandleOk;
      var b := Hdr(i);
      if b.len > capacity { return false; }
      CopyInto(i, capacity);
      ok := true;
    }

    /** Move the data to a new block of the given capacity and let go of the old one. */
    method CopyInto(i: Id, capacity: nat)
      requires Valid() && IsMut(i) && Hdr(i).len <= capacity && Fits(capacity)
      modifies this`blocks, this`handles, this`cache, this`freed, this`next, this`nextId, this`sizes
      ensures Valid() && IsMut(i) && A() == old(A()) && Hdr(i).len <= capacity
      ensures Hdr(i) == NewBlock(Unset, capacity, Window(Hdr(i)))
    {
      hide Inv, View, ValOf, HandleOk;
      FreshId();
      NextUnused(H());
      ghost var m := A();
      var t := Create(Unset, capacity, Window(Hdr(i)));
      RoundTrip(m, i, t, m[i]);
      Assign(i, t);
    }

    // -------------------------------------------------------------- BytesMut: sharing

    /** `split_to`: the first `at` bytes become a `Bytes`, inline if short, otherwise sharing the block. */
    method SplitTo(i: Id, at: nat) returns (r: Id)
      requires Valid() && IsMut(i) && at <= Hdr(i).len
      modifies this`blocks, this`handles, this`nextId
      ensures Valid() && IsMut(i) && r == old(nextId) && IsFrozen(r) && nextId == r + 1
      ensures var d := old(A())[i].data;
              A() == old(A())[i := MutV(d[at..])][r := FrozenV(d[..at])]
      ensures Hdr(i).capacity == old(Hdr(i).capacity) - at && Hdr(i).offset == old(Hdr(i).offset) + at
      ensures handles[r].st == if at <= INLINE_CAP then Inline(old(A())[i].data[..at])
                               else Vec(handles[i].addr, old(Hdr(i).offset), at)
    {
      hide Inv, View, ValOf, HandleOk;
      if at <= INLINE_CAP {
        var b := Hdr(i);
        var ok := SetStart(i, at);
        r := NewPlain(Inline(Window(b)[..at]));
      } else {
        r := SplitShared(i, at);
      }
    }

    method SplitShared(i: Id, at: nat) returns (r: Id)
      requires Valid() && IsMut(i) && 0 < at <= Hdr(i).len
      modifies this`blocks, this`handles, this`nextId
      ensures Valid() && IsMut(i) && r == old(nextId) && IsFrozen(r) && nextId == r + 1
      ensures var d := old(A())[i].data;
              A() == old(A())[i := MutV(d[at..])][r := FrozenV(d[..at])]
      ensures Hdr(i).capacity == old(Hdr(i).capacity) - at && Hdr(i).offset == old(Hdr(i).offset) + at
      ensures handles[r].st == Vec(handles[i].addr, old(Hdr(i).offset), at)
    {
      hide Inv, View, ValOf, HandleOk;
      var b := Hdr(i);
      SubSlice(b.mem, b.offset, b.offset + b.len, 0, at);
      var ok := SetStart(i, at);
      r := ShareBelow(i, b.offset, at);
    }

    /** A frozen handle over bytes below the writer's window. */
    method ShareBelow(i: Id, from: nat, n: nat) returns (r: Id)
      requires Valid() && IsMut(i) && METADATA <= from && from + n <= Hdr(i).offset
      modifies this`blocks, this`handles, this`nextId
      ensures Valid() && IsMut(i) && r == old(nextId) && IsFrozen(r) && nextId == r + 1 && i in old(handles)
      ensures A() == old(A())[r := FrozenV(old(Hdr(i)).mem[from..from + n])]
      ensures Hdr(i) == old(Hdr(i)).(refs := old(Hdr(i)).refs + 1) && handles[i] == old(handles)[i]
      ensures handles[r].st == Vec(handles[i].addr, from, n)
    {
      hide Inv;
      var a := handles[i].addr;
      var x := Frozen(Vec(a, from, n));
      r := nextId;
      Owned(H(), i, a);
      FreshId();
      assert n == 0 ==> Hdr(i).mem[from..from + n] == [];
      BelowWriter(H(), i, x);
      AddPointer(H(), r, x, a);
      blocks := blocks[a := blocks[a].(refs := blocks[a].refs + 1)];
      handles := handles[r := x];
      nextId := nextId + 1;
    }

    /** `freeze`: a `Bytes` over the data, inline if short, otherwise the same window of the same block. */
    method Freeze(i: Id)
      requires Valid() && (IsMut(i) || IsPage(i))
      modifies this
      ensures Valid() && IsFrozen(i) && A() == old(A())[i := FrozenV(old(A())[i].data)]
      ensures handles[i].st.Inline? <==> |old(A())[i].data| <= INLINE_CAP
      ensures cacheLimit == old(cacheLimit)
    {
      hide Inv, View, ValOf, HandleOk;
      var b := Hdr(i);
      if b.len <= INLINE_CAP {
        ReplaceInline(i, Window(b));
      } else {
        Reinterpret(i, Frozen(Vec(handles[i].addr, b.offset, b.len)));
      }
    }

    /** `*self = Storage::from_ptr_inline(..)`. */
    method ReplaceInline(i: Id, bytes: seq<byte>)
      requires Valid() && i in handles && |bytes| <= INLINE_CAP
      modifies this`blocks, this`handles, this`cache, this`freed, this`nextId
      ensures Valid() && IsFrozen(i) && A() == old(A())[i := FrozenV(bytes)] && handles[i].st == Inline(bytes)
      ensures handles == old(handles)[i := Frozen(Inline(bytes))]
    {
      hide Inv, View, ValOf, HandleOk;
      FreshId();
      ghost var m, hs := A(), handles;
      var t := NewPlain(Inline(bytes));
      Overwrite(m, i, t, FrozenV(bytes));
      Overwrite(hs, i, t, Frozen(Inline(bytes)));
      Assign(i, t);
    }

    /** Change of role without touching the block: page for writer, `Bytes` for either. */
    method Reinterpret(i: Id, x: Handle)
      requires Valid() && (IsMut(i) || IsPage(i))
      requires x == Page(handles[i].addr) || x == Frozen(Vec(handles[i].addr, Hdr(i).offset, Hdr(i).len))
      modifies this`handles
      ensures Valid() && handles == old(handles)[i := x]
      ensures var d := old(A())[i].data; A() == old(A())[i := if x.Page? then PageV(d) else FrozenV(d)]
    {
      hide Inv, View, ValOf, HandleOk;
      Demote(H(), i, x);
      handles := handles[i := x];
    }

    // -------------------------------------------------------------- BytesMut: public operations

    method SplitToChecked(i: Id, at: nat) returns (r: Option<Id>)
      requires Valid() && IsMut(i)
      modifies this`blocks, this`handles, this`nextId
      ensures Valid() && IsMut(i) && (r.Some? <==> at <= |old(A())[i].data|)
      ensures r.Some? ==> var d := old(A())[i].data;
                          r.value == old(nextId) && A() == old(A())[i := MutV(d[at..])][r.value := FrozenV(d[..at])]
      ensures r.None? ==> A() == old(A())
    {
      hide Inv, View, ValOf, HandleOk;
      if at <= Hdr(i).len {
        var id := SplitTo(i, at);
        r := Some(id);
      } else {
        r := None;
      }
    }

    /** `take`: everything leaves as a `Bytes`; the spare capacity stays. */
    method Take(i: Id) returns (r: Id)
      requires Valid() && IsMut(i)
      modifies this`blocks, this`handles, this`nextId
      ensures Valid() && IsMut(i) && r == old(nextId)
      ensures A() == old(A())[i := MutV([])][r := FrozenV(old(A())[i].data)]
      ensures Hdr(i).capacity == old(Hdr(i).remaining)
    {
      hide Inv, View, ValOf, HandleOk;
      ghost var d := A()[i].data;
      assert d[|d|..] == [] && d[..|d|] == d;
      r := SplitTo(i, Hdr(i).len);
    }

    /** `advance_to`; the count is truncated to 32 bits and only checked against the capacity. */
    method AdvanceTo(i: Id, cnt: nat) returns (ok: bool)
      requires Valid() && IsMut(i)
      modifies this`blocks
      ensures Valid() && IsMut(i) && (ok <==> cnt % U32 <= old(Hdr(i).capacity))
      ensures A() == if ok then old(A())[i := MutV(Skip(old(A())[i].data, cnt % U32))] else old(A())
    {
      ok := SetStart(i, cnt % U32);
    }

    /** `put_slice` / `extend_from_slice`. */
    method PutSlice(i: Id, src: seq<byte>)
      requires Valid() && IsMut(i) && Fits(Hdr(i).len + |src|)
      modifies this
      ensures Valid() && IsMut(i) && A() == old(A())[i := MutV(old(A())[i].data + src)]
      ensures |src| <= old(Hdr(i).remaining) ==> Hdr(i).capacity == old(Hdr(i).capacity)
      ensures cacheLimit == old(cacheLimit)
    {
      hide Inv, View, ValOf, HandleOk;
      Reserve(i, |src|);
      ghost var d := A()[i].data;
      assert d[..|d|] + src + Skip(d, |d| + |src|) == d + src;
      WriteAt(i, Hdr(i).len, src);
    }

    method Resize(i: Id, newLen: nat, value: byte)
      requires Valid() && IsMut(i) && Fits(newLen)
      modifies this
      ensures Valid() && IsMut(i)
      ensures var d := old(A())[i].data;
              A() == old(A())[i := MutV(if newLen <= |d| then d[..newLen] else d + Copies(newLen - |d|, value))]
      ensures cacheLimit == old(cacheLimit)
    {
      hide Inv, View, ValOf, HandleOk;
      var len := Hdr(i).len;
      if newLen > len {
        PutSlice(i, Copies(newLen - len, value));
      } else {
        Truncate(i, newLen);
      }
    }

    // -------------------------------------------------------------- pages

    method IntoPage(i: Id)
      requires Valid() && IsMut(i)
      modifies this`handles
      ensures Valid() && IsPage(i) && A() == old(A())[i := PageV(old(A())[i].data)]
      ensures handles == old(handles)[i := Page(old(handles[i].addr))]
    {
      Reinterpret(i, Page(handles[i].addr));
    }

    /** A second read-only handle on a storage page. */
    method ClonePage(i: Id) returns (r: Id)
      requires Valid() && IsPage(i)
      modifies this`blocks, this`handles, this`nextId
      ensures Valid() && r == old(nextId) && nextId == r + 1 && A() == old(A())[r := old(A())[i]]
      ensures IsPage(r) && handles == old(handles)[r := old(handles[i])] && Hdr(r).refs > 1
    {
      hide Inv, View, ValOf, HandleOk;
      var a := handles[i].addr;
      Owned(H(), i, a);
      r := nextId;
      assert Hdr(i) == blocks[a];
      AddPointer(H(), r, Page(a), a);
      blocks := blocks[a := blocks[a].(refs := blocks[a].refs + 1)];
      handles := handles[r := Page(a)];
      nextId := nextId + 1;
    }

    /** `into_storage`: a page is writable again only when nobody shares it and it has room. */
    method IntoStorage(i: Id) returns (ok: bool)
      requires Valid() && IsPage(i)
      modifies this`handles
      ensures Valid() && (ok <==> old(Hdr(i).remaining > 0 && Hdr(i).refs == 1))
      ensures A() == if ok then old(A())[i := MutV(old(A())[i].data)] else old(A())
      ensures if ok then IsMut(i) && Hdr(i) == old(Hdr(i)) else handles == old(handles)
    {
      hide Inv, View, ValOf, HandleOk;
      if Hdr(i).remaining != 0 && Hdr(i).refs == 1 {
        Promote(H(), i);
        handles := handles[i := Mut(handles[i].addr)];
        return true;
      }
      return false;
    }

    // -------------------------------------------------------------- Bytes: primitive steps

    /** `shallow_clone`: a second handle showing the same bytes. */
    method ShallowClone(i: Id) returns (r: Id)
      requires Valid() && IsFrozen(i) && (handles[i].st.Ext? && !handles[i].st.clonable ==> ExtFits(handles[i].st))
      modifies this`blocks, this`handles, this`next, this`nextId, this`sizes
      ensures Valid() && r == old(nextId) && nextId == r + 1 && IsFrozen(r) && A() == old(A())[r := old(A())[i]]
      ensures handles == old(handles)[r := handles[r]]
      ensures old(handles[i].st).Ext? || handles[r] == old(handles[i])
      ensures handles[r].st.Ext? ==> handles[r] == old(handles[i])
    {
      hide Inv, View, ValOf, HandleOk;
      var st := Storage(i);
      match st {
        case Vec(a, _, _) => r := CloneVec(i, a);
        case Ext(bytes, clonable) =>
          if clonable { r := NewPlain(st); } else { r := FromSlice(bytes); }
        case _ => r := NewPlain(st);
      }
    }

    /** The storage of a `Bytes` and what it says about the bytes shown. */
    function Storage(i: Id): (st: Storage)
      reads this
      requires Valid() && IsFrozen(i)
      ensures st == handles[i].st && HandleOk(blocks, Frozen(st)) && i in A() && A()[i].FrozenV?
      ensures st.Vec? ==> st.addr in blocks && |A()[i].data| == st.len && Fits(st.len)
      ensures st.Vec? && st.len > 0 ==> METADATA <= st.offset && st.offset + st.len <= |blocks[st.addr].mem|
      ensures st.Vec? && st.len > 0 ==> A()[i].data == blocks[st.addr].mem[st.offset..st.offset + st.len]
      ensures st.Inline? ==> |st.bytes| <= INLINE_CAP
      ensures !st.Vec? ==> A()[i].data == st.bytes
    {
      handles[i].st
    }

    method CloneVec(i: Id, a: Addr) returns (r: Id)
      requires Valid() && IsFrozen(i) && handles[i].st.Vec? && handles[i].st.addr == a
      modifies this`blocks, this`handles, this`nextId
      ensures Valid() && r == old(nextId) && nextId == r + 1 && A() == old(A())[r := old(A())[i]]
      ensures handles == old(handles)[r := old(handles[i])]
    {
      hide Inv, View, ValOf, HandleOk;
      Owned(H(), i, a);
      r := nextId;
      ghost var st := Storage(i);
      AddPointer(H(), r, handles[i], a);
      blocks := blocks[a := blocks[a].(refs := blocks[a].refs + 1)];
      handles := handles[r := handles[i]];
      nextId := nextId + 1;
    }

    /** A shared window shrunk to bytes it already covers, or emptied. */
    method Narrow(i: Id, offset: nat, len: nat)
      requires Valid() && IsFrozen(i) && handles[i].st.Vec?
      requires len > 0 ==> handles[i].st.offset <= offset && offset + len <= handles[i].st.offset + handles[i].st.len
      modifies this`handles
      ensures Valid() && IsFrozen(i) && handles == old(handles)[i := Frozen(Vec(old(handles[i].st.addr), offset, len))]
      ensures var s := old(handles[i].st);
              A() == old(A())[i := FrozenV(Sub(old(A())[i].data, offset - s.offset, len))]
    {
      hide Inv, View, ValOf, HandleOk;
      ghost var st := Storage(i);
      var x := Frozen(Vec(handles[i].st.addr, offset, len));
      NarrowTo(H(), i, x);
      handles := handles[i := x];
    }

    /** `Storage::set_start`: the panics differ by encoding. */
    method FrozenSetStart(i: Id, start: nat) returns (ok: bool)
      requires Valid() && IsFrozen(i) && ExtFits(handles[i].st)
      modifies this
      ensures Valid() && IsFrozen(i) && (ok <==> SetStartOk(old(handles[i].st), start))
      ensures A() == if ok then old(A())[i := FrozenV(Skip(old(A())[i].data, start))] else old(A())
      ensures handles.Keys == old(handles.Keys) && forall j :: j in handles && j != i ==> handles[j] == old(handles[j])
      ensures cacheLimit == old(cacheLimit)
    {
      hide Inv, View, ValOf, HandleOk;
      var st := Storage(i);
      if start == 0 {
        SameEntry(A(), i);
        SkipNone(A()[i].data);
        return true;
      }
      if st.Inline? && start > INLINE_CAP { return false; }
      if (st.Ext? || st.Static?) && start > |st.bytes| { return false; }
      match st {
        case Vec(_, offset, len) => AdvanceWindow(i, start);
        case Inline(bytes) => PutPlain(i, Inline(Skip(bytes, start)));
        case Ext(bytes, _) => ReplaceCopy(i, bytes[start..]);
        case Static(bytes) => PutPlain(i, Static(bytes[start..]));
      }
      ok := true;
    }

    /** A shared window moved up, and emptied when it is moved past its end. */
    method AdvanceWindow(i: Id, start: nat)
      requires Valid() && IsFrozen(i) && handles[i].st.Vec?
      modifies this`handles
      ensures Valid() && IsFrozen(i) && A() == old(A())[i := FrozenV(Skip(old(A())[i].data, start))]
      ensures handles == old(handles)[i := handles[i]]
    {
      hide Inv, View, ValOf, HandleOk;
      var st := Storage(i);
      SubEnds(A()[i].data, start);
      hide Sub, Skip;
      var len := if st.len >= start then st.len - start else 0;
      Narrow(i, st.offset + start, len);
    }

    /** A shared window cut at its end. */
    method CutWindow(i: Id, end: nat)
      requires Valid() && IsFrozen(i) && handles[i].st.Vec?
      modifies this`handles
      ensures Valid() && IsFrozen(i) && A() == old(A())[i := FrozenV(Keep(old(A())[i].data, end))]
      ensures handles == old(handles)[i := handles[i]] && handles[i].st.Vec?
    {
      hide Inv, View, ValOf, HandleOk;
      var st := Storage(i);
      var len := if st.len <= end then st.len else end;
      SubEnds(A()[i].data, end);
      hide Sub, Keep, ValOf, View, HandleOk;
      Narrow(i, st.offset, len);
    }

    /** When `set_start` does not panic. */
    static predicate SetStartOk(st: Storage, start: nat) {
      match st
      case Vec(_, _, _) => true
      case Inline(_) => start <= INLINE_CAP
      case Ext(bytes, _) => start <= |bytes|
      case Static(bytes) => start <= |bytes|
    }

    /** `Storage::set_end`; only the inline and static encodings can panic. */
    method FrozenSetEnd(i: Id, end: nat) returns (ok: bool)
      requires Valid() && IsFrozen(i) && ExtFits(handles[i].st)
      modifies this
      ensures Valid() && IsFrozen(i) && (ok <==> SetEndOk(old(handles[i].st), end))
      ensures A() == if ok then old(A())[i := FrozenV(Keep(old(A())[i].data, end))] else old(A())
      ensures handles.Keys == old(handles.Keys) && forall j :: j in handles && j != i ==> handles[j] == old(handles[j])
      ensures cacheLimit == old(cacheLimit) && !handles[i].st.Ext?
    {
      hide Inv, View, ValOf, HandleOk;
      var st := Storage(i);
      if st.Inline? && end > INLINE_CAP { return false; }
      if st.Static? && end > |st.bytes| { return false; }
      match st {
        case Vec(_, _, _) => CutWindow(i, end);
        case Inline(bytes) => PutPlain(i, Inline(Keep(bytes, end)));
        case Ext(bytes, _) => ReplaceCopy(i, Keep(bytes, end));
        case Static(bytes) => PutPlain(i, Static(bytes[..end]));
      }
      ok := true;
    }

    static predicate SetEndOk(st: Storage, end: nat) {
      match st
      case Inline(_) => end <= INLINE_CAP
      case Static(bytes) => end <= |bytes|
      case _ => true
    }

    /** An encoding without a block updated in place. */
    method PutPlain(i: Id, st: Storage)
      requires Valid() && IsFrozen(i) && !handles[i].st.Vec? && !st.Vec? && (st.Inline? ==> |st.bytes| <= INLINE_CAP)
      modifies this`handles
      ensures Valid() && handles == old(handles)[i := Frozen(st)] && A() == old(A())[i := FrozenV(st.bytes)]
    {
      hide Inv, View, ValOf, HandleOk;
      ReplacePlain(H(), i, st);
      handles := handles[i := Frozen(st)];
    }

    /** `*self = Storage::from_slice(..)`. */
    method ReplaceCopy(i: Id, bytes: seq<byte>)
      requires Valid() && IsFrozen(i) && Fits(|bytes|)
      modifies this`blocks, this`handles, this`cache, this`freed, this`next, this`nextId, this`sizes
      ensures Valid() && IsFrozen(i) && A() == old(A())[i := FrozenV(bytes)]
      ensures handles[i].st == if |bytes| <= INLINE_CAP then Inline(bytes) else Vec(old(next), METADATA, |bytes|)
      ensures handles.Keys == old(handles.Keys) && forall j :: j in handles && j != i ==> handles[j] == old(handles[j])
    {
      hide Inv, View, ValOf, HandleOk;
      FreshId();
      ghost var m := A();
      var t := FromSlice(bytes);
      Overwrite(m, i, t, FrozenV(bytes));
      Assign(i, t);
    }

    // -------------------------------------------------------------- Bytes: public operations

    /** `advance_to`. */
    method FrozenAdvanceTo(i: Id, cnt: nat) returns (ok: bool)
      requires Valid() && IsFrozen(i) && ExtFits(handles[i].st)
      modifies this
      ensures Valid() && IsFrozen(i) && (ok <==> SetStartOk(old(handles[i].st), cnt))
      ensures cnt <= |old(A())[i].data| ==> ok && A() == old(A())[i := FrozenV(old(A())[i].data[cnt..])]
      ensures A() == if ok then old(A())[i := FrozenV(Skip(old(A())[i].data, cnt))] else old(A())
      ensures cacheLimit == old(cacheLimit)
    {
      hide Inv, View, ValOf, HandleOk;
      var st := Storage(i);
      ok := FrozenSetStart(i, cnt);
    }

    /** `get_u8`: the first byte, removed. */
    method GetU8(i: Id) returns (r: Option<byte>)
      requires Valid() && IsFrozen(i) && ExtFits(handles[i].st)
      modifies this
      ensures Valid() && IsFrozen(i)
      ensures var d := old(A())[i].data;
              if d == [] then r.None? && A() == old(A())
              else r == Some(d[0]) && A() == old(A())[i := FrozenV(d[1..])]
    {
      hide Inv, View, ValOf, HandleOk;
      var st := Storage(i);
      var b: byte;
      match st {
        case Vec(a, offset, len) =>
          if len < 1 { return None; }
          b := blocks[a].mem[offset];
        case _ =>
          if |st.bytes| < 1 { return None; }
          b := st.bytes[0];
      }
      var ok := FrozenSetStart(i, 1);
      r := Some(b);
    }

    /** `mem::take`: the value moves out and an empty `Bytes` stays behind. */
    method MemTake(i: Id) returns (r: Id)
      requires Valid() && IsFrozen(i)
      modifies this`handles, this`nextId
      ensures Valid() && IsFrozen(i) && r == old(nextId) && IsFrozen(r)
      ensures A() == old(A())[i := FrozenV([])][r := old(A())[i]]
    {
      hide Inv;
      FreshId();
      ghost var m := A();
      r := nextId;
      Rename(H(), i, r);
      handles := (handles - {i})[r := handles[i]];
      AddPlain(H(), i, Inline([]));
      handles := handles[i := Frozen(Inline([]))];
      nextId := nextId + 1;
      MoveOut(m, i, r, FrozenV([]));
    }

    /** `split_off_checked`: `i` keeps the first `at` bytes, the rest is returned. */
    method SplitOffChecked(i: Id, at: nat) returns (r: Option<Id>)
      requires Valid() && IsFrozen(i) && ExtFits(handles[i].st)
      modifies this
      ensures Valid() && IsFrozen(i) && (r.Some? <==> at <= |old(A())[i].data|)
      ensures r.None? ==> A() == old(A())
      ensures r.Some? ==> r.value !in old(A()) && IsFrozen(r.value)
      ensures r.Some? ==> var d := old(A())[i].data;
                          A() == old(A())[i := FrozenV(d[..at])][r.value := FrozenV(d[at..])]
      ensures cacheLimit == old(cacheLimit)
    {
      hide Inv, View, ValOf, HandleOk;
      FreshId();
      var d := Bytes(i);
      SameEntry(A(), i);
      if at > |d| { return None; }
      if at == |d| {
        assert d[..at] == d && d[at..] == [];
        var t := NewPlain(Inline([]));
        return Some(t);
      }
      if at == 0 {
        assert d[0..] == d && d[..0] == [];
        var t := MemTake(i);
        return Some(t);
      }
      var t := SplitOff(i, at);
      r := Some(t);
    }

    /** `Storage::split_off`; either half becomes inline when it is short enough. */
    method SplitOff(i: Id, at: nat) returns (t: Id)
      requires Valid() && IsFrozen(i) && ExtFits(handles[i].st) && at <= |A()[i].data|
      modifies this
      ensures Valid() && IsFrozen(i) && t !in old(A()) && IsFrozen(t)
      ensures var d := old(A())[i].data; A() == old(A())[i := FrozenV(d[..at])][t := FrozenV(d[at..])]
      ensures at <= INLINE_CAP ==> handles[i].st.Inline?
      ensures |old(A())[i].data| - at <= INLINE_CAP ==> handles[t].st.Inline?
      ensures cacheLimit == old(cacheLimit)
    {
      hide Inv, View, ValOf, HandleOk;
      var d := Bytes(i);
      t := Tail(i, at);
      SwapEntries(A(), i, t, FrozenV(d[..at]), FrozenV(d[at..]));
      if at <= INLINE_CAP {
        ReplaceInline(i, d[..at]);
      } else {
        ghost var st := Storage(i);
        var ok := FrozenSetEnd(i, at);
      }
    }

    /** The bytes shown by a `Bytes`. */
    function Bytes(i: Id): (d: seq<byte>)
      reads this
      requires Valid() && IsFrozen(i)
      ensures d == A()[i].data && A()[i] == FrozenV(d)
    {
      View(blocks, handles[i])
    }

    /** The other half of a split: an inline copy if short, otherwise a clone moved forward. */
    method Tail(i: Id, at: nat) returns (t: Id)
      requires Valid() && IsFrozen(i) && ExtFits(handles[i].st) && at <= |A()[i].data|
      modifies this
      ensures Valid() && IsFrozen(i) && IsFrozen(t) && t !in old(A()) && t != i && handles[i] == old(handles[i])
      ensures A() == old(A())[t := FrozenV(old(A())[i].data[at..])]
      ensures |old(A())[i].data| - at <= INLINE_CAP ==> handles[t].st.Inline?
      ensures cacheLimit == old(cacheLimit)
    {
      hide Inv, View, ValOf, HandleOk;
      FreshId();
      var d := Bytes(i);
      if |d| - at <= INLINE_CAP {
        t := NewPlain(Inline(d[at..]));
      } else {
        ghost var st := Storage(i);
        t := ShallowClone(i);
        ghost var st' := Storage(t);
        var ok := FrozenSetStart(t, at);
      }
    }

    /** `split_to_checked`: the first `at` bytes are returned, `i` keeps the rest. */
    method FrozenSplitToChecked(i: Id, at: nat) returns (r: Option<Id>)
      requires Valid() && IsFrozen(i) && ExtFits(handles[i].st)
      modifies this
      ensures Valid() && IsFrozen(i) && (r.Some? <==> at <= |old(A())[i].data|)
      ensures r.None? ==> A() == old(A())
      ensures r.Some? ==> r.value !in old(A()) && IsFrozen(r.value)
      ensures r.Some? ==> var d := old(A())[i].data;
                          A() == old(A())[i := FrozenV(d[at..])][r.value := FrozenV(d[..at])]
      ensures cacheLimit == old(cacheLimit)
    {
      hide Inv, View, ValOf, HandleOk;
      FreshId();
      var d := Bytes(i);
      SameEntry(A(), i);
      if at > |d| { return None; }
      if at == |d| {
        assert d[..at] == d && d[at..] == [];
        var t := MemTake(i);
        return Some(t);
      }
      if at == 0 {
        assert d[0..] == d && d[..0] == [];
        var t := NewPlain(Inline([]));
        return Some(t);
      }
      var t := Slice(i, 0, at);
      assert d[0..at] == d[..at];
      SwapEntries(A(), i, t, FrozenV(d[at..]), FrozenV(d[..at]));
      ghost var st := Storage(i);
      var ok := FrozenSetStart(i, at);
      r := Some(t);
    }

    /** A new handle on part of a buffer: an inline copy if short, otherwise a clone cut at both ends. */
    method Slice(i: Id, begin: nat, end: nat) returns (t: Id)
      requires Valid() && IsFrozen(i) && ExtFits(handles[i].st) && begin <= end <= |A()[i].data|
      modifies this
      ensures Valid() && IsFrozen(i) && IsFrozen(t) && t !in old(A()) && t != i && handles[i] == old(handles[i])
      ensures A() == old(A())[t := FrozenV(old(A())[i].data[begin..end])]
      ensures end - begin <= INLINE_CAP ==> handles[t].st.Inline?
      ensures cacheLimit == old(cacheLimit)
    {
      hide Inv, View, ValOf, HandleOk;
      FreshId();
      var d := Bytes(i);
      if end - begin <= INLINE_CAP {
        t := FromSlice(d[begin..end]);
      } else {
        t := ShallowClone(i);
        Cut(t, begin, end);
      }
    }

    method Cut(t: Id, begin: nat, end: nat)
      requires Valid() && IsFrozen(t) && ExtFits(handles[t].st)
      requires begin <= end <= |A()[t].data| && end - begin > INLINE_CAP
      modifies this
      ensures Valid() && IsFrozen(t) && A() == old(A())[t := FrozenV(old(A())[t].data[begin..end])]
      ensures handles.Keys == old(handles.Keys) && forall j :: j in handles && j != t ==> handles[j] == old(handles[j])
      ensures cacheLimit == old(cacheLimit)
    {
      hide Inv, View, ValOf, HandleOk;
      var d := Bytes(t);
      ghost var st := Storage(t);
      var ok := FrozenSetEnd(t, end);
      assert Skip(d[..end], begin) == d[begin..end];
      st := Storage(t);
      ok := FrozenSetStart(t, begin);
    }

    method SliceChecked(i: Id, begin: nat, end: nat) returns (r: Option<Id>)
      requires Valid() && IsFrozen(i) && ExtFits(handles[i].st)
      modifies this
      ensures Valid() && IsFrozen(i) && (r.Some? <==> begin <= end <= |old(A())[i].data|)
      ensures r.None? ==> A() == old(A())
      ensures r.Some? ==> r.value !in old(A()) && A() == old(A())[r.value := FrozenV(old(A())[i].data[begin..end])]
      ensures cacheLimit == old(cacheLimit)
    {
      hide Inv, View, ValOf, HandleOk;
      if begin <= end && end <= |Bytes(i)| {
        var t := Slice(i, begin, end);
        r := Some(t);
      } else {
        r := None;
      }
    }

    /** When `truncate` does not panic: a long prefix of a shared window is compared with the
        capacity left in the block's header, which the writer has shrunk. */
    predicate TruncateOk(i: Id, len: nat)
      reads this
      requires Valid() && IsFrozen(i)
    {
      var st := Storage(i);
      st.Vec? && INLINE_CAP <= len <= st.len ==> len <= blocks[st.addr].capacity
    }

    /** `Bytes::truncate`. */
    method FrozenTruncate(i: Id, len: nat) returns (ok: bool)
      requires Valid() && IsFrozen(i) && ExtFits(handles[i].st)
      modifies this
      ensures Valid() && IsFrozen(i) && (ok <==> old(TruncateOk(i, len)))
      ensures A() == if ok then old(A())[i := FrozenV(Keep(old(A())[i].data, len))] else old(A())
    {
      hide Inv, View, ValOf, HandleOk;
      var d := Bytes(i);
      var st := Storage(i);
      SameEntry(A(), i);
      assert d[..|d|] == d;
      if len > |d| { return true; }
      if len < INLINE_CAP {
        ReplaceInline(i, d[..len]);
        return true;
      }
      match st {
        case Vec(a, offset, _) =>
          if len > blocks[a].capacity { return false; }
          Narrow(i, offset, len);
        case Ext(bytes, _) =>
          if len != |bytes| { ReplaceCopy(i, bytes[..len]); }
        case Inline(bytes) => PutPlain(i, Inline(bytes[..len]));
        case Static(bytes) => PutPlain(i, Static(bytes[..len]));
      }
      ok := true;
    }

    /** `trimdown`: never changes the bytes, but subtracts the length from the header's capacity. */
    method Trimdown(i: Id) returns (ok: bool)
      requires Valid() && IsFrozen(i)
      modifies this
      ensures Valid() && IsFrozen(i) && A() == old(A())
      ensures ok <==> old(var st := Storage(i); st.Vec? && st.len > INLINE_CAP ==> st.len <= blocks[st.addr].capacity)
      // short bytes become inline; a block is exchanged for one of the right size if that saves 64 bytes
      ensures ok ==>
                var st, d := old(Storage(i)), old(A())[i].data;
                handles[i].st ==
                  if st.Inline? || st.Static? then st
                  else if |d| <= INLINE_CAP then Inline(d)
                  else if st.Vec? && old(blocks)[st.addr].capacity - |d| >= 64 then Vec(old(next), METADATA, |d|)
                  else st
    {
      hide Inv, View, ValOf, HandleOk;
      var d := Bytes(i);
      var st := Storage(i);
      SameEntry(A(), i);
      if st.Inline? || st.Static? { return true; }
      if |d| <= INLINE_CAP {
        ReplaceInline(i, d);
        return true;
      }
      var capacity := if st.Vec? then blocks[st.addr].capacity else |st.bytes|;
      if capacity < |d| { return false; }
      if capacity - |d| >= 64 { ReplaceCopy(i, d); }
      ok := true;
    }

    /** `clear`. */
    method FrozenClear(i: Id)
      requires Valid() && IsFrozen(i)
      modifies this
      ensures Valid() && IsFrozen(i) && A() == old(A())[i := FrozenV([])]
    {
      ReplaceInline(i, []);
    }
  }

  lemma MoveOut<V>(m: map<Id, V>, i: Id, r: Id, v: V)
    requires i in m && r !in m
    ensures (m - {i})[r := m[i]][i := v] == m[i := v][r := m[i]]
  {
  }

  lemma SwapEntries<V>(m: map<Id, V>, i: Id, t: Id, v: V, w: V)
    requires i != t && t in m && m[t] == w
    ensures m[i := v] == m[i := v][t := w]
  {
  }
}
