# geario, modelled and proved in Dafny

geario is a single-threaded asynchronous I/O stack built on reference-counted byte buffers. This
project models its hardest parts and proves what they promise, for every input, every history of
calls and every interleaving.

| file | what it models |
|---|---|
| `Common.dfy` | bytes and options |
| `BufferHeap.dfy` | the heap behind `Bytes`, `BytesMut` and pages: blocks with headers, the handles that point into them, the page cache; its invariant and the elementary steps that keep it |
| `SharedBuffers.dfy` | the class `Arena`: the buffer operations themselves, in place, each proved against plain byte sequences |
| `BufferHistories.dfy` | what holds after every history of buffer operations; where encodings disagree |
| `Packing.dfy` | the packed word of a `Storage` value |
| `PageRope.dfy` | `BytePages`: a deque of pages and the page being filled, refining one byte sequence |
| `Connection.dfy` | the state of one connection (flag word, buffers, wakers, history), its invariant and the elementary state changes |
| `ConnectionRuns.dfy` | the calls of driver, dispatcher and application on it, the deferred-write queue, and any history of both on any number of connections |
| `Timers.dfy` | the one-second timer table |
| `Dispatcher.dfy` | the dispatcher's loop, its in-flight counter and its read-rate timer |
| `Iocp.dfy` | the per-socket AFD protocol of the IOCP back end, as interleaved steps |
| `Notify.dfy` | the notify/wait handshake of the epoll back end, as interleaved steps |
| `PollFds.dfy` | the descriptor table and event collection of the `poll()` back end |

`dafny verify dfyconfig.toml` verifies the whole project.

## The main results

- **Buffers are isolated and refine byte sequences.** `BufferHistories.Run`: any history of creating,
  writing, splitting, freezing, cloning, slicing, advancing, reserving, truncating and dropping does to
  what the handles show exactly what a model on plain byte sequences does (`Effect`), whatever blocks
  were shared, reclaimed to the front, recycled through the cache or freed. So no `Bytes` content ever
  changes (`BytesNeverChange`), through other handles or its own clones and slices. `WriterIsolated`,
  `NoLeakNoDoubleFree` and `CacheInvisible` say what the invariant behind it means.
- **Encodings refine one byte sequence.** Every `Arena` method on a `Bytes` states its effect on the
  bytes alone; the encoding only decides which calls panic.
- **The rope refines one byte sequence**, across page adoption, merging, splitting and moving.
- **No stranded write, no mutual wait, and exactly what a close can lose.** `IoManager.History` keeps
  the invariant for any driver within the rules under "How to read the model": it may take bytes, have
  several operations in flight, report while bytes are in flight, and complete later with any number of
  them put back, also inside a direct write.
  `NoStrandedWrite`: buffered bytes of an open connection always are somebody's to write, the deferred
  queue's, the woken write task's or the driver's that was told to go on. `ShutdownFilters`: when a
  stream stops without an abort the driver has taken every accepted byte. `CloseLosesNothing` and
  `ComesBack`: bytes can come back after that if and only if something was in flight at that moment.
  `NeverBothParked`: reader and dispatcher never wait on each other.
- **Timers fire once**, on tick t+1 or t+2 (`StartFiresOnce`).
- **The dispatcher counts exactly**, hands every decoded frame to the service, tells it of back-pressure
  strictly in turn, and extends a read period a bounded number of times.
- **Pollers**: the IOCP protocol never loses an interest (every socket is polled for what was last asked
  for, or an update is under way, `EverySocketTracked`; and it can always get there, `CanSettle`) and
  never has two operations on a socket; a one-shot socket reports once; a notification is never lost;
  the `poll()` table stays in bijection.

## What the code does that its documentation or its own checks do not say

- `Bytes::advance_to` is documented to panic past the length. A shared buffer is emptied instead, an
  inline one up to 23 (`AdvanceAgrees` gives the exact condition under which encodings agree).
- `BytesMut::advance_to` is documented to panic past the length. It truncates its argument to 32 bits
  and compares with the capacity (`Arena.AdvanceTo`, with an example in `AdvancedPastLength`).
- `Bytes::truncate` to a length the buffer has can panic: for a shared window the check compares with
  the capacity left in the block's header, which the `BytesMut` it was split from has shrunk
  (`FrozenTruncate` gives the exact condition, `TruncateRefused` an example). `trimdown` subtracts
  from the same capacity (`Trimdown`, `TrimdownRefused`).
- `BytePages::put_u8` goes wrong exactly when the current page is full (`PutU8`). `with_bytes_mut`
  leaves a full page current exactly when its closure returns a buffer without room that is shorter
  than a page (`ReturnCurrent`, with an example in `PutU8Refused`).
- A graceful close can lose bytes. The filters stop once the write buffer is empty, but the IOCP driver
  reports an empty buffer while its send is in flight, and closing then cancels that send; io_uring can
  report one send while the next is in flight. What such a send did not send goes back into the write
  buffer of a stopped stream (`LostInFlight`). It happens only to bytes in flight when the filters
  stopped (`CloseLosesNothing`, `ComesBack`).
- A driver is to write and report whenever the write task gets `Ready`. io_uring's `send` reports nothing
  when it finds nothing to take. Then the next bytes are left to nobody if and only if the write task is
  not paused, has no send scheduled and was not woken (`TurnWithoutReport`), and a turn like that exists
  (`IdleTurn`).
- `try_write_vectored` can write ahead of bytes that come back later if and only if some are in flight
  (`BypassInOrder`). io_uring checks only for a running operation: the tail of a short zero-copy send,
  which waits for its notification, can be overtaken.
- The dispatcher subtracts read counters in 32 bits; after an extension the difference can go
  negative (`Wraps`, `ExtendedWithoutData`). The bound on extensions holds all the same.
- A stop the dispatcher has told the service of does not stop the dispatcher if and only if it happens
  under write back-pressure and the flush succeeds in the same turn (`TurnBackpressure`,
  `StopOverruled`).
- IOCP: updates are documented to run immediately while the waiter sits in the port. They do until it
  wakes if and only if no thread was about to push when it went to sleep (`ImmediateUnlessPushing`);
  otherwise an update can stay queued (`QueuedWhileBlocked`).
- `poll()`: `modify` with an edge mode fails after it has changed the key and the polled events
  (`Fds.Modify`); event collection stops early when the list it appends to was not empty but
  shorter than the number of ready descriptors (`Fds.Collect`, `LosesAnEvent`).

## How to read the model

- A buffer variable is an id; assigning to it drops what it held. Block addresses are never reused, so
  "freed once" can be said of addresses. Calls that panic return `false` or `None` and change nothing.
  Block sizes, and external bytes that get copied into a block, fit in 32 bits: the code computes there
  without checking.
- A connection's calls are atomic steps, because everything lives on one thread. Its `Io` side is
  polled by one task, as its single waker slot assumes, and one read is in flight at a time. The state
  records history (accepted, taken, in flight, received, consumed, who is parked, whose turn it is to
  write) that no decision depends on.
- A driver puts back the end of what it has taken (see "Left out" for the one case where io_uring does
  not), completes an operation and reports on it in one step, as all three drivers do, and on an open
  stream does not put back without a report. Told to go on, or answered `Ready`, it writes and reports
  again, except as said of io_uring above.
- What the service, the codec, the connection or the kernel answers is a parameter: results hold for
  every answer.
- Concurrent parts are transition systems. A step is one critical section, one atomic operation or
  one system call, in sequentially consistent order.

## Model

| member | source | states |
|---|---|---|
| `BufferHeap.UpdateMut` | geario/src/bytes/stvec.rs:285-319 | whatever the only writer of a block may do to its header and bytes keeps the whole heap invariant (one writer, windows below it, counts, cache, accounting) and changes what that one handle shows |
| `BufferHeap.AddPointer` | geario/src/bytes/stvec.rs:163-187 | a further handle on a live block, lying below the writer, with the count raised by one, keeps the invariant and shows the bytes of its window |
| `BufferHeap.BelowWriter` | geario/src/bytes/stvec.rs:163-187 | any window that ends where the writer's begins may be shared: no other handle can write there |
| `BufferHeap.AddBlock` | geario/src/bytes/stvec.rs:359-402 | a fresh block with its first handle keeps the invariant; every other handle shows what it showed |
| `BufferHeap.NarrowTo` | geario/src/bytes/storage.rs:417-433 | a shared window narrowed to part of itself, or emptied, shows exactly that part |
| `BufferHeap.Demote` | geario/src/bytes/stvec.rs:144-161 | a writer turned into a `Bytes` or a page over the same window shows the same bytes |
| `BufferHeap.Promote` | geario/src/bytes/pages.rs:611-625 | a page with no other owner becomes a writer again without breaking isolation |
| `BufferHeap.DropShared` | geario/src/bytes/stvec.rs:414-435 | one owner fewer: the count drops and nobody else sees a change |
| `BufferHeap.DropLast` | geario/src/bytes/stvec.rs:414-480 | the last owner frees the block, which was never freed before, with exactly the size it was allocated with |
| `BufferHeap.DropToCache` | geario/src/bytes/stvec.rs:440-473 | a sized page parked in the cache has the header of a new page and no owner |
| `BufferHeap.PopCached` | geario/src/bytes/stvec.rs:44-62 | a page taken from the cache is owned once and shows nothing, like a fresh one |
| `BufferHeap.Advanced` | geario/src/bytes/stvec.rs:293-319 | moving the start of a window skips exactly that many bytes and keeps offset + capacity and len + remaining balanced |
| `BufferHeap.Resized` | geario/src/bytes/stvec.rs:285-291 | a shorter length keeps a prefix, a longer one keeps what was there |
| `BufferHeap.Reclaimed` | geario/src/bytes/stvec.rs:247-282 | moving the data to the front of a block keeps the bytes and recovers the whole capacity of the allocation |
| `BufferHeap.WrittenWindow` | geario/src/bytes/bvec.rs:584-592 | bytes written at a position replace exactly the bytes there |
| `SharedBuffers.Arena.Sized` | geario/src/bytes/stvec.rs:44-59 | a page of a class, cached or allocated, is empty and has the header of a new page of that class |
| `SharedBuffers.Arena.Create` | geario/src/bytes/stvec.rs:359-402 | a new block with exactly the given capacity and bytes; the new handle is its only owner |
| `SharedBuffers.Arena.SetPagesCache` | geario/src/bytes/stvec.rs:336-342 | the cache limit changes and no buffer does |
| `SharedBuffers.Arena.FromSlice` | geario/src/bytes/storage.rs:190-196 | the bytes given, inline exactly when they fit in 23 |
| `SharedBuffers.Arena.FromStatic` | geario/src/bytes/storage.rs:170-178 | a `Bytes` over static memory shows it |
| `SharedBuffers.Arena.FromExt` | geario/src/bytes/storage.rs:181-187 | a `Bytes` over external storage shows it |
| `SharedBuffers.Arena.Drop` | geario/src/bytes/storage.rs:647-657 | dropping a handle removes it and leaves what every other handle shows |
| `SharedBuffers.Arena.Release` | geario/src/bytes/stvec.rs:414-480 | the block is freed exactly when its last owner leaves and it is unsized or its cache class is full; it is freed once, with its own size |
| `SharedBuffers.Arena.Park` | geario/src/bytes/stvec.rs:440-473 | a sized page goes to its own class with a new page's header |
| `SharedBuffers.Arena.SetStart` | geario/src/bytes/stvec.rs:293-319 | panics exactly beyond the capacity; otherwise skips that many bytes |
| `SharedBuffers.Arena.SetLen` | geario/src/bytes/stvec.rs:285-291 | the length is truncated to 32 bits and checked against the capacity; a shorter one keeps a prefix |
| `SharedBuffers.Arena.Truncate` | geario/src/bytes/stvec.rs:189-209 | keeps the prefix; an emptied buffer without other owners has its whole block back |
| `SharedBuffers.Arena.WriteAt` | geario/src/bytes/stvec.rs:84-93 | bytes land at their position and nowhere else |
| `SharedBuffers.Arena.PutU8Raw` | geario/src/bytes/stvec.rs:104-112 | appends one byte exactly when there is a spare one |
| `SharedBuffers.Arena.Unsize` | geario/src/bytes/stvec.rs:68-70 | only the page tag changes |
| `SharedBuffers.Arena.Reserve` | geario/src/bytes/stvec.rs:237-245 | same bytes, enough room; no allocation when the block has room or would have it once reclaimed |
| `SharedBuffers.Arena.ReserveInner` | geario/src/bytes/stvec.rs:247-282 | same bytes and enough room, by moving to the front of an unshared block or into a new one |
| `SharedBuffers.Arena.ReserveCapacity` | geario/src/bytes/stvec.rs:228-234 | panics exactly when the data does not fit; otherwise the same bytes in a block of that capacity |
| `SharedBuffers.Arena.SplitTo` | geario/src/bytes/stvec.rs:163-187 | the head leaves as a `Bytes` with the first `at` bytes, the writer keeps the rest |
| `SharedBuffers.Arena.Freeze` | geario/src/bytes/stvec.rs:144-161 | the same bytes as a `Bytes`, inline exactly when short |
| `SharedBuffers.Arena.SplitToChecked` | geario/src/bytes/bvec.rs:298-306 | succeeds exactly up to the length and then splits there |
| `SharedBuffers.Arena.Take` | geario/src/bytes/bvec.rs:227-231 | all bytes leave; the spare capacity stays with the writer |
| `SharedBuffers.Arena.AdvanceTo` | geario/src/bytes/bvec.rs:287-291 | the count is truncated to 32 bits and checked against the capacity, not the length: past the length the buffer is emptied |
| `SharedBuffers.Arena.PutSlice` | geario/src/bytes/bvec.rs:584-592 | exactly the input is appended |
| `SharedBuffers.Arena.Resize` | geario/src/bytes/stvec.rs:211-224 | a prefix, or the bytes followed by copies of the value |
| `SharedBuffers.Arena.ClonePage` | geario/src/bytes/pages.rs:628-640 | a second read-only handle on the same page, which is then shared |
| `SharedBuffers.Arena.IntoStorage` | geario/src/bytes/pages.rs:611-624 | a page becomes writable exactly when it has room and no other owner |
| `SharedBuffers.Arena.ShallowClone` | geario/src/bytes/storage.rs:501-542 | the clone shows the same bytes in every encoding |
| `SharedBuffers.Arena.FrozenSetStart` | geario/src/bytes/storage.rs:409-466 | skips that many bytes; panics exactly as the encoding's own check says |
| `SharedBuffers.Arena.FrozenSetEnd` | geario/src/bytes/storage.rs:468-488 | keeps a prefix; panics exactly as the encoding's own check says |
| `SharedBuffers.Arena.FrozenAdvanceTo` | geario/src/bytes/bytes.rs:437-441 | up to the length it drops exactly that prefix in every encoding |
| `SharedBuffers.Arena.GetU8` | geario/src/bytes/storage.rs:253-274 | the first byte, removed, in every encoding; nothing on an empty buffer |
| `SharedBuffers.Arena.MemTake` | geario/src/bytes/bytes.rs:401-424 | the value moves out and an empty one stays |
| `SharedBuffers.Arena.SplitOffChecked` | geario/src/bytes/bytes.rs:352-366 | succeeds exactly up to the length; the two parts are the two halves, whatever the encodings before and after |
| `SharedBuffers.Arena.SplitOff` | geario/src/bytes/storage.rs:311-330 | both halves are right even when either changes encoding |
| `SharedBuffers.Arena.FrozenSplitToChecked` | geario/src/bytes/bytes.rs:401-415 | succeeds exactly up to the length; the two parts are the two halves, whatever the encodings before and after |
| `SharedBuffers.Arena.SliceChecked` | geario/src/bytes/bytes.rs:236-269 | succeeds exactly for a valid range and shows exactly that range; the source is unchanged |
| `SharedBuffers.Arena.FrozenTruncate` | geario/src/bytes/storage.rs:349-359 | keeps the prefix, and panics exactly when a long prefix of a shared window exceeds the capacity left in the block's header |
| `SharedBuffers.Arena.Trimdown` | geario/src/bytes/storage.rs:361-373 | never changes the bytes; its subtraction underflows exactly when a shared window is longer than the capacity left in the header; which encoding it ends in, exactly |
| `SharedBuffers.Arena.FrozenClear` | geario/src/bytes/bytes.rs:498-500 | the buffer is empty |
| `BufferHistories.WriterIsolated` | geario/src/bytes/stvec.rs:163-209 | a block has at most one `BytesMut`, and no byte it may write is shown by any live `Bytes` |
| `BufferHistories.NoLeakNoDoubleFree` | geario/src/bytes/stvec.rs:372-480 | a block is live exactly while something owns it, its count is the number of owners, its header spans the allocation, and once freed it was freed with that size |
| `BufferHistories.CacheInvisible` | geario/src/bytes/stvec.rs:440-473 | a cached page has no owner and the header of a new page of its class |
| `BufferHistories.Run` | geario/src/bytes/stvec.rs:163-282 | every history refines one on plain byte sequences: the invariant holds at the end, what the handles show goes step by step as the effects of the operations say, a handle no operation alters (cloning and slicing do not) shows what it showed, and a `Bytes` that is not dropped shows a stretch of what it showed |
| `BufferHistories.ApplyGrow` | geario/src/bytes/bvec.rs:472-535 | writing, reserving and resizing have exactly their effect on what the handles show |
| `BufferHistories.ApplyShrink` | geario/src/bytes/bvec.rs:194-345 | splitting, taking, truncating, advancing and freezing a `BytesMut` have exactly their effect on what the handles show |
| `BufferHistories.ApplyFrozen` | geario/src/bytes/bytes.rs:437-500 | truncating, advancing, reading, trimming and clearing a `Bytes` have exactly their effect on what the handles show |
| `BufferHistories.ApplyShare` | geario/src/bytes/bytes.rs:236-424 | splitting, slicing and cloning a `Bytes` have exactly their effect on what the handles show |
| `BufferHistories.ApplyPage` | geario/src/bytes/pages.rs:601-640 | freezing, cloning and reclaiming a page have exactly their effect on what the handles show |
| `BufferHistories.EffectKeeps` | geario/src/bytes/bytes.rs:236-424 | an operation leaves what a handle shows unless it is on that handle and of a kind that alters it |
| `BufferHistories.ChainKeeps` | geario/src/bytes/stvec.rs:163-282 | the same over every history |
| `BufferHistories.BytesOnlyShrink` | geario/src/bytes/storage.rs:311-488 | an operation leaves a `Bytes` a stretch of what it was, and only dropping takes it away |
| `BufferHistories.BytesNeverChange` | geario/src/bytes/stvec.rs:163-282 | over every history, a `Bytes` that is not dropped shows a stretch of what it showed at first |
| `BufferHistories.AdvanceAgrees` | geario/src/bytes/storage.rs:409-465 | `advance_to(cnt)` gives the same bytes, or the same panic, in all encodings of the same bytes if and only if `cnt` is at most the length |
| `BufferHistories.TruncateRefused` | geario/src/bytes/storage.rs:349-395 | a concrete `Bytes` of 900 bytes, split from a buffer of 1000, that cannot be truncated to 500 |
| `BufferHistories.TrimdownRefused` | geario/src/bytes/storage.rs:361-373 | the same `Bytes` cannot be trimmed down: the subtraction underflows |
| `BufferHistories.AdvancedPastLength` | geario/src/bytes/bvec.rs:287-291 | a concrete `BytesMut` of three bytes that can be advanced by five and is then empty |
| `Packing.PackVec` | geario/src/bytes/storage.rs:575-610 | an offset below 2^62 survives packing and the word reads as shared storage |
| `Packing.AdvanceVec` | geario/src/bytes/storage.rs:417-433 | advancing adds to the packed offset and keeps the kind |
| `Packing.SetInlineLen` | geario/src/bytes/storage.rs:400-407 | the length reads back, and neither the kind nor the inline data in the word changes |
| `Packing.KindsDistinct` | geario/src/bytes/storage.rs:575-610 | external, shared, inline and static words are never confused |
| `PageRope.SplitPage` | geario/src/bytes/pages.rs:548-577 | the head has the first bytes and the page keeps the rest, for both kinds of page |
| `PageRope.FreezePage` | geario/src/bytes/pages.rs:601-609 | a page frozen into a `Bytes` shows the same bytes |
| `PageRope.BytePages.WriteSome` | geario/src/bytes/pages.rs:333-351 | one pass appends what fits; it copies nothing only when the current page was full, and then that page is gone |
| `PageRope.BytePages.PutSlice` | geario/src/bytes/pages.rs:425-441 | terminates from every state and appends exactly its input (the measure is the source left, then whether the current page is full) |
| `PageRope.BytePages.PutU8` | geario/src/bytes/pages.rs:444-446 | appends the byte, or goes wrong exactly when the page being filled is already full |
| `PageRope.BytePages.Append` | geario/src/bytes/pages.rs:100-139 | appends exactly the page's bytes, whether it is adopted, copied or queued; behind a page being filled, what fits is copied and the rest adopted as it is; no handle is left behind |
| `PageRope.BytePages.TryAdopt` | geario/src/bytes/pages.rs:611-624 | a page is adopted as the current one only when unshared and with room; otherwise nothing changes |
| `PageRope.BytePages.Prepend` | geario/src/bytes/pages.rs:86-97 | the page's bytes come first; an empty page is not added |
| `PageRope.BytePages.TakePage` | geario/src/bytes/pages.rs:188-194 | the first page leaves and the rest is what follows it |
| `PageRope.BytePages.Clear` | geario/src/bytes/pages.rs:266-268 | nothing is left |
| `PageRope.BytePages.LendCurrent` | geario/src/bytes/pages.rs:299-314 | the rope without its current page, followed by that page, is the rope as it was |
| `PageRope.BytePages.ReturnCurrent` | geario/src/bytes/pages.rs:314-331 | whatever the caller made of the page, possibly in another block, is appended; it stays current exactly when it is shorter than a page of the rope, and is then full exactly when it came back without room |
| `PageRope.PutU8Refused` | geario/src/bytes/pages.rs:299-331 | a concrete `with_bytes_mut` closure after which `put_u8` goes wrong |
| `PageRope.BytePages.MoveTo` | geario/src/bytes/pages.rs:213-217 | the other rope gains all bytes in order and this one is empty |
| `PageRope.BytePages.CopyTo` | geario/src/bytes/pages.rs:201-209 | the other rope gains all bytes in order and this one keeps them |
| `PageRope.BytePages.SplitInto` | geario/src/bytes/pages.rs:240-262 | the other rope gains exactly the first min(at, len) bytes and this one keeps exactly the rest |
| `PageRope.BytePages.IsEmpty` | geario/src/bytes/pages.rs:168-175 | true exactly when there are no bytes |
| `PageRope.BytePages.Len` | geario/src/bytes/pages.rs:153-157 | the number of bytes |
| `PageRope.BytePages.Freeze` | geario/src/bytes/pages.rs:273-286 | one `Bytes` with all bytes in order; the rope is empty |
| `Connection.Terminated` | geario/src/io/io.rs:92-105 | the connection is closed for good, everybody is woken, and the histories stay |
| `Connection.FiltersStopped` | geario/src/io/io.rs:85-90 | stopping is set and everybody is woken, and what is in flight then is recorded; asked for only after an abort or with an empty write buffer |
| `Connection.ShutdownStarted` | geario/src/io/io.rs:108-115 | filters begin to stop; the read and write tasks are woken |
| `Connection.Taken` | geario/src/io/ctx.rs:163-173 | bytes taken by the driver come off the front, in order, and are in flight; nothing is lost |
| `Connection.Landed` | geario/src/net/iocp/ops.rs:341-361 | bytes found sent leave the flight from the front and can no longer come back |
| `Connection.Returned` | geario/src/net/iocp/ops.rs:364-375 | any number of the bytes in flight, also ones already reported on, come back in front, in order |
| `Connection.Acted` | geario/src/io/ctx.rs:163-230 | whatever a driver does, accepted bytes are those taken followed by those buffered, and the bytes not sent for good never grow |
| `Connection.Announced` | geario/src/io/ctx.rs:179-211 | who a report wakes: the dispatcher on a finished flush or when back-pressure is down to half, both drivers on a write notice, the reader when filters are stopping |
| `Connection.NobodyElseWoken` | geario/src/io/ctx.rs:179-219 | a report wakes nobody without one of those reasons |
| `Connection.Reported` | geario/src/io/ctx.rs:179-230 | after a report the write task is paused exactly when the write buffer is empty, and otherwise the driver is told to go on |
| `Connection.Fetched` | geario/src/io/ctx.rs:68-81 | the driver gets the read buffer itself, or a fresh one while the dispatcher has yet to look; together they are what was buffered |
| `Connection.Stored` | geario/src/io/buf.rs:119-131 | the driver's buffer, fetched or its own, comes back behind what is buffered, so consumed + buffered + held is what was received |
| `Connection.ReadReported` | geario/src/io/ctx.rs:92-143 | new bytes set ready, wake the dispatcher and mark a notice that was asked for; back-pressure and pause are set exactly at the high mark |
| `Connection.ReadFailed` | geario/src/io/ctx.rs:145-148 | the buffer still comes back, and the connection is closed |
| `Connection.ReadWaited` | geario/src/io/filter.rs:75-91 | the read task is parked exactly while the stream is open and reading is paused |
| `Connection.WriteWaited` | geario/src/io/filter.rs:93-107 | the write task registers, and on `Ready` it is its turn to write |
| `Connection.CloseWaited` | geario/src/io/ctx.rs:233-250 | when the wait is over, exactly; a waiting close registers both tasks and, for a flush, asks for a notice |
| `Connection.Destined` | geario/src/io/ioref.rs:345-370 | over the mark back-pressure stays as it is; otherwise reading is resumed and a paused read task woken |
| `Connection.Consumed` | geario/src/io/ioref.rs:141-160 | a decoded prefix moves from the buffer to the consumed bytes |
| `Connection.ReadReadyPolled` | geario/src/io/io.rs:485-516 | asking for data clears pause and back-pressure together; `Pending` leaves the dispatcher registered |
| `Connection.FlushSettled` | geario/src/io/io.rs:613-629 | a full flush parks the dispatcher exactly when bytes are left; a waiting flush marks what it waits for, a finished one clears both marks |
| `Connection.FlushAnswer` | geario/src/io/io.rs:606-633 | pending exactly on an open stream with bytes left (full) or at the high mark (partial); an error exactly on a closed stream with bytes left or no flush under way; done with a full flush only with an empty buffer |
| `Connection.Reopened` | geario/src/io/io.rs:637-656 | shutdown lets reading go on |
| `Connection.StatusTaken` | geario/src/io/io.rs:670-686 | a timeout is reported once, write back-pressure until the buffer is down to half |
| `Connection.TimedOut` | geario/src/io/io.rs:57-62 | the timer wakes a waiting dispatcher |
| `Connection.Bypassed` | geario/src/io/ioref.rs:217-237 | bytes written past the buffer are accepted right after all earlier ones, of which none is in flight |
| `Connection.BypassInOrder` | geario/src/net/uring/stream.rs:851-864 | bypassing bytes stay behind the earlier ones, whatever the driver puts back later, if and only if nothing is in flight |
| `ConnectionRuns.IoRef.Act` | geario/src/net/iocp/ops.rs:233-388 | one driver action (take, bytes sent, put back and report or fail in one step) keeps the invariant whenever it happens, and does to the bytes exactly what `Acted` says |
| `ConnectionRuns.IoRef.Drive` | geario/src/net/iocp/ops.rs:333-333 | outside a direct write, also a late completion that puts bytes back never strands a write |
| `ConnectionRuns.IoRef.DriveStopped` | geario/src/net/iocp/ops.rs:215-388 | on a stopped stream a run of driver actions does to the bytes exactly what `AllActed` says |
| `ConnectionRuns.IoRef.DirectWrite` | geario/src/io/mod.rs:113-115 | after any sequence of driver actions in `Handle::write`, a paused write task means the driver has taken everything |
| `ConnectionRuns.IoRef.CallWrite` | geario/src/io/ioref.rs:441-460 | the write task is to be woken exactly when it did not come back paused |
| `ConnectionRuns.IoRef.SendNow` | geario/src/io/ioref.rs:311-327 | the bytes go through the driver; a send is scheduled exactly when the write task did not come back paused |
| `ConnectionRuns.IoRef.Consolidate` | geario/src/io/ioref.rs:293-343 | bytes are sent in place exactly when the driver can and the caller insists or there are enough; otherwise they are being written, or scheduled and queued; write back-pressure is set exactly at the high mark |
| `ConnectionRuns.IoRef.OpsSend` | geario/src/io/ioref.rs:178-203 | nothing stays scheduled; the bytes of a paused task go through the driver, and then it has taken every byte or the write task has its turn |
| `ConnectionRuns.IoRef.WithWriteBuf` | geario/src/io/ioref.rs:265-282 | all of the input is accepted while the stream is open, none afterwards |
| `ConnectionRuns.IoRef.TryWriteVectored` | geario/src/io/ioref.rs:217-237 | the taken prefix follows all earlier bytes, of which none is in flight |
| `ConnectionRuns.IoRef.ShutdownFilters` | geario/src/io/ctx.rs:252-297 | for any driver, without a timeout or a failed write the stream goes to stopping only when the driver has taken every accepted byte; it does so once nothing is scheduled and the write task is paused, and always once the timeout has run out |
| `ConnectionRuns.IoRef.ReadPoll` | geario/src/io/ctx.rs:46-49 | shutdown first; then pending exactly while the stream is open and reading is paused, terminate exactly when it is closed |
| `ConnectionRuns.IoRef.WritePoll` | geario/src/io/ctx.rs:53-55 | pending exactly while open and paused, terminate exactly when closed; the write task registers, and on `Ready` it is its turn to write |
| `ConnectionRuns.IoRef.GetReadBuf` | geario/src/io/ctx.rs:68-81 | what the driver holds and what is buffered together are what was buffered |
| `ConnectionRuns.IoRef.UpdateReadStatus` | geario/src/io/ctx.rs:92-160 | with a fetched buffer or the driver's own, received grows by exactly the bytes read; data wakes the dispatcher and presses at the mark; the answer is pause exactly while reading is paused; a failure closes |
| `ConnectionRuns.IoRef.DecodeItem` | geario/src/io/ioref.rs:141-159 | exactly the codec's bytes are consumed; back-pressure and pause last exactly while the mark is reached |
| `ConnectionRuns.IoRef.PollReadReady` | geario/src/io/io.rs:485-516 | terminate exactly when closed, ready exactly with the ready mark; reading is left neither paused nor back-pressured |
| `ConnectionRuns.IoRef.PollReadNotify` | geario/src/io/io.rs:520-534 | ready once per noticed read; pending only with the notice asked for and the dispatcher registered |
| `ConnectionRuns.IoRef.PollRecvDecode` | geario/src/io/io.rs:563-599 | an item exactly for a frame, a decoder error exactly for a malformed one; for a partial one gone exactly when closed, then timeout, then write back-pressure by its flag; otherwise the dispatcher is registered and reading is neither paused nor back-pressured nor ready |
| `ConnectionRuns.IoRef.PollFlush` | geario/src/io/io.rs:606-633 | done only when the driver has every accepted byte; pending exactly on an open stream with bytes left, or at the high mark; and then the dispatcher is registered |
| `ConnectionRuns.IoRef.PollShutdown` | geario/src/io/io.rs:637-657 | shutdown is under way and reading goes on |
| `ConnectionRuns.IoRef.PollStatusUpdate` | geario/src/io/io.rs:670-686 | the answer in each case, and which mark it clears |
| `ConnectionRuns.NothingScheduled` | geario/src/io/ioref.rs:178-203 | with nothing scheduled, a paused write task means the driver has taken every byte, though it may have them in flight |
| `ConnectionRuns.BytesAttended` | geario/src/io/ioref.rs:293-343 | on an open connection buffered bytes have a send scheduled or, if the write task is not paused, that task was woken or the driver was told to go on |
| `ConnectionRuns.NeverBothParked` | geario/src/io/io.rs:485-599 | the dispatcher waiting for data and the driver waiting for room never wait on each other; back-pressure implies pause |
| `ConnectionRuns.CloseLosesNothing` | geario/src/io/ctx.rs:252-297 | after a stop without an abort, whatever happens, at most as many accepted bytes are unsent as were in flight when the filters stopped; none if none were |
| `ConnectionRuns.ComesBack` | geario/src/net/iocp/ops.rs:333-388 | once everything is taken, some run of the driver brings bytes back if and only if something is in flight |
| `ConnectionRuns.LostInFlight` | geario/src/net/iocp/ops.rs:215-388 | a run in which a graceful close loses a byte: taken, reported while in flight, closed and stopped, put back |
| `ConnectionRuns.TurnWithoutReport` | geario/src/net/uring/stream.rs:592-636 | a driver that ends its turn without a report leaves later bytes to nobody if and only if the write task is not paused, not woken and has no send scheduled |
| `ConnectionRuns.IdleTurn` | geario/src/net/uring/stream.rs:376-440 | a run after which the driver has such a turn, with nothing to write |
| `ConnectionRuns.IoRef.Do` | geario/src/io/ctx.rs:46-302 | any call by anybody does what it is for (`Happened`), keeps the invariant and takes back no stop flag and no byte of a history |
| `ConnectionRuns.IoManager.NoStrandedWrite` | geario/src/io/ioref.rs:293-343 | on an open connection with bytes to write, the connection is in the deferred queue with a run of it spawned, or its write task is not paused and was woken or told to go on |
| `ConnectionRuns.IoManager.Run` | geario/src/io/ops.rs:255-267 | after a run of the queue nothing is scheduled, and where bytes are left the write task has its turn |
| `ConnectionRuns.IoManager.Do` | geario/src/io/ops.rs:197-215 | a call on one connection does what it is for there, and leaves the others and their queue places alone |
| `ConnectionRuns.IoManager.History` | geario/src/io/ops.rs:244-267 | over every history of calls and queue runs each event happens to the connection it is about and to no other, and all keep the invariant; STOPPED implies STOPPING implies STOPPING_FILTERS and none is ever cleared |
| `Timers.StaleNeverKept` | geario/src/io/ops.rs:28-38 | a fired handle is never taken for a live one |
| `Timers.StartedInv` | geario/src/io/ioref.rs:394-416 | starting a timer keeps the table sound and leaves the connection with a live entry |
| `Timers.StoppedInv` | geario/src/io/ioref.rs:419-426 | stopping a timer keeps the table sound and leaves no entry |
| `Timers.TickedInv` | geario/src/io/ops.rs:109-139 | a tick keeps the table sound |
| `Timers.FiresOnce` | geario/src/io/ops.rs:109-139 | an entry is notified exactly once, on the tick its key says, whatever other connections do |
| `Timers.NeverAgain` | geario/src/io/ops.rs:109-139 | a connection without an entry is not notified |
| `Timers.StartFiresOnce` | geario/src/io/ops.rs:28-146 | `start_timer(t)` without a later start or stop leads to exactly one notification, on tick t+1 or t+2, provided the clock never reads behind the tick counter |
| `Timers.DrainDue` | geario/src/io/ops.rs:113-130 | the loop removes exactly the keys that are due and notifies exactly their connections |
| `Timers.TimerStorage.Register` | geario/src/io/ops.rs:73-97 | the new entry and the stored handle agree, and every other entry and handle stays |
| `Timers.TimerStorage.Unregister` | geario/src/io/ops.rs:67-71 | only the one entry goes, and no key |
| `Timers.TimerStorage.StartTimer` | geario/src/io/ioref.rs:394-416 | the in-place code does what the specification function says; the timer is live and due in t+1 or t+2 ticks |
| `Timers.TimerStorage.StopTimer` | geario/src/io/ioref.rs:419-426 | the in-place code does what the specification function says; no entry is left |
| `Timers.TimerStorage.Tick` | geario/src/io/ops.rs:99-146 | exactly the connections due are notified |
| `Dispatcher.ExtensionBound` | geario/src/dispatcher/mod.rs:524-546 | n extensions leave some of the budget if and only if n is at most ceil(max/timeout) - 1 |
| `Dispatcher.TotalWraps` | geario/src/dispatcher/mod.rs:528-528 | the 32-bit difference is the difference modulo 2^32 |
| `Dispatcher.Wraps` | geario/src/dispatcher/mod.rs:524-546 | over every sequence of partial decodes and timeouts, the 32-bit difference goes negative exactly when a timeout has counted bytes and the last decode since, if any, left less than the last one before it |
| `Dispatcher.ExtendedWithoutData` | geario/src/dispatcher/mod.rs:524-546 | a concrete run in which the difference goes negative and buys a second extension although no byte arrived |
| `Dispatcher.StopOverruled` | geario/src/dispatcher/mod.rs:293-314 | a concrete run in which the service is told to stop and the dispatcher goes on processing |
| `Dispatcher.Dispatcher.HandleResult` | geario/src/dispatcher/mod.rs:176-194 | one call fewer in flight; idle when it was the last; the fault recorded |
| `Dispatcher.Dispatcher.CallService` | geario/src/dispatcher/mod.rs:376-402 | the service is called with exactly that message; the first unfinished call is stored and further ones spawned, so the counter stays exact |
| `Dispatcher.Dispatcher.SpawnedDone` | geario/src/dispatcher/mod.rs:396-400 | a finished spawned call is counted off; the counter cannot underflow |
| `Dispatcher.Dispatcher.PollResponse` | geario/src/dispatcher/mod.rs:231-236 | a finished stored response is counted off, and nothing changes otherwise |
| `Dispatcher.Dispatcher.UpdateTimer` | geario/src/dispatcher/mod.rs:490-522 | in each case what becomes of flags, counters and timer: a frame ends a period, keep-alive starts when nothing is left, an incomplete frame starts a period with a full budget |
| `Dispatcher.Dispatcher.HandleTimeout` | geario/src/dispatcher/mod.rs:524-567 | whether the timer is extended, exactly; with both settings non-zero a period is extended at most ceil(max/timeout) - 1 times |
| `Dispatcher.Dispatcher.CheckError` | geario/src/dispatcher/mod.rs:404-425 | a fault stops the dispatcher; the service is told of one of the encoder, and one of its own becomes the result |
| `Dispatcher.Dispatcher.PollServiceReady` | geario/src/dispatcher/mod.rs:427-488 | in each case what the service is told, where the dispatcher goes, and that a service that is not ready stops all timers |
| `Dispatcher.Dispatcher.Framed` | geario/src/dispatcher/mod.rs:244-252 | after a decode the timers are adjusted, and the service is to be called exactly if there is a frame |
| `Dispatcher.Dispatcher.Received` | geario/src/dispatcher/mod.rs:242-285 | a decoded frame goes to the service, a malformed one or a lost peer stops, write back-pressure is announced, and a timeout stops exactly if it may not be extended |
| `Dispatcher.Dispatcher.TurnReady` | geario/src/dispatcher/mod.rs:242-291 | the same for a whole turn: the messages the service got are exactly those |
| `Dispatcher.Dispatcher.TurnProcessing` | geario/src/dispatcher/mod.rs:240-291 | exactly what the service is called with, and where the dispatcher goes, for every answer of service and connection |
| `Dispatcher.Dispatcher.TurnBackpressure` | geario/src/dispatcher/mod.rs:293-314 | exactly what the service is called with, for every answer; a stop it was told of fails to stop the dispatcher if and only if the flush succeeds in the same turn |
| `Dispatcher.Dispatcher.TurnStopping` | geario/src/dispatcher/mod.rs:316-349 | no call is made; shutdown begins exactly when no call is in flight and the connection is closed; when it waits and when the stream counts as lost, exactly |
| `Dispatcher.Dispatcher.TurnOnce` | geario/src/dispatcher/mod.rs:238-368 | a frame reaches the service exactly in a ready Processing turn that decoded one; the future resolves only when every call made has had its result handled, with an error exactly if the service failed; from the stopping state on no call is made |
| `Dispatcher.Dispatcher.History` | geario/src/dispatcher/mod.rs:226-402 | over every sequence of polls, turns and finishing calls: the counter is exact, IDLE implies zero in flight, resolution means all results were handled, and the service hears of the beginning and the end of back-pressure strictly in turn |
| `Iocp.MaskIsEnough` | geario-polling/src/iocp/mod.rs:1282-1333 | polling for the mask of an interest loses nothing that was asked for |
| `Iocp.EventBits` | geario-polling/src/iocp/mod.rs:1311-1333 | which kernel bits make an event readable, and which writable |
| `Iocp.NothingReported` | geario-polling/src/iocp/mod.rs:985-1068 | a deleted socket, a cancelled operation and one without events report nothing |
| `Iocp.ErrorReported` | geario-polling/src/iocp/mod.rs:985-1068 | a failed operation is reported as whatever was asked for |
| `Iocp.EventsReported` | geario-polling/src/iocp/mod.rs:985-1068 | kernel events are reported as exactly what happened and was asked for |
| `Iocp.UpdatedOk` | geario-polling/src/iocp/mod.rs:895-980 | an update ends in polling for the wanted mask, or cancelled; an idle packet is never locked |
| `Iocp.FedOk` | geario-polling/src/iocp/mod.rs:985-1068 | a completion returns the packet to idle; a spent one-shot reports nothing |
| `Iocp.InterestAfter` | geario-polling/src/iocp/mod.rs:1047-1055 | the interest is removed exactly when a one-shot one was reported, and otherwise stays to be polled for again |
| `Iocp.NextInv` | geario-polling/src/iocp/mod.rs:519-555 | every step of every thread and of the kernel keeps, for every socket: polled mask = wanted mask, or queued, or cancelled and coming back, or owed an update |
| `Iocp.AlwaysTracked` | geario-polling/src/iocp/mod.rs:802-1068 | the same over every run, and at most one kernel operation per socket |
| `Iocp.HoldsLastAsk` | geario-polling/src/iocp/mod.rs:802-818 | after every run the packet holds what the last add or modify asked for, computed from the steps alone, unless that was one-shot and has been reported since; it is deleted exactly if it was deleted |
| `Iocp.EverySocketTracked` | geario-polling/src/iocp/mod.rs:519-555 | for every reachable state: the mask of what was last asked for is polled, or the socket is queued, or cancelled with its one operation still out, or some thread is about to update it; a deleted one is not polled |
| `Iocp.CanSettle` | geario-polling/src/iocp/mod.rs:519-555 | a socket is never stuck: from every state the invariant allows, the poller alone can bring it to be polled for what is wanted |
| `Iocp.EventDelivered` | geario-polling/src/iocp/mod.rs:955-983 | an event of a polled socket comes out of the port and is reported |
| `Iocp.UpdatesConserved` | geario-polling/src/iocp/mod.rs:519-555 | an update that is due is neither lost nor made up on its way between queue and threads |
| `Iocp.QueueBounded` | geario-polling/src/iocp/mod.rs:519-537 | the queue never outgrows its capacity, and a thread that wants to push can, exactly unless it is full |
| `Iocp.PollIsNeverRefused` | geario-polling/src/iocp/afd.rs:442-458 | `Afd::poll` never finds the packet locked, so a packet marked as polling has its operation |
| `Iocp.ReportSpends` | geario-polling/src/iocp/mod.rs:1047-1055 | reporting a one-shot interest removes it |
| `Iocp.SpentStays` | geario-polling/src/iocp/mod.rs:802-818 | only a modify restores it |
| `Iocp.OneshotReportsOnce` | geario-polling/src/iocp/mod.rs:985-1068 | after a one-shot socket has reported, no run without a modify of it reports anything more |
| `Iocp.ImmediateUnlessPushing` | geario-polling/src/iocp/mod.rs:519-537 | in a reachable state with the waiter asleep and the queue empty, no run leaves anything queued before it wakes (updates run at once) if and only if no thread was about to push |
| `Iocp.StaysEmpty` | geario-polling/src/iocp/mod.rs:519-537 | while the waiter sleeps nobody new comes to push |
| `Iocp.AlwaysFlagged` | geario-polling/src/iocp/mod.rs:448-474 | the polling flag is set exactly while the waiter is inside its loop |
| `Iocp.QueuedWhileBlocked` | geario-polling/src/iocp/mod.rs:519-537 | what a late push leaves behind: the update queued, the socket unpolled, and nobody owing it anything |
| `Iocp.PusherReachable` | geario-polling/src/iocp/mod.rs:519-537 | the thread this takes exists as soon as a socket is added while nobody polls |
| `Notify.NoLostNotification` | geario-polling/src/lib.rs:745-813 | under every interleaving, with the flag set and the waiter blocked or outside, the eventfd is readable or a notifier has yet to write it |
| `Notify.WrittenStaysReadable` | geario-polling/src/epoll.rs:262-275 | once written, the eventfd stays readable until the waiter has come out, however often it is interrupted |
| `Notify.FlagHeld` | geario-polling/src/lib.rs:745-813 | until the waiter comes out a set flag stays set and somebody answers for it |
| `Notify.NotifyWakes` | geario-polling/src/lib.rs:799-813 | a notify before or during a wait leaves that wait unable to block once no writer is outstanding |
| `Notify.WriteLands` | geario-polling/src/epoll.rs:278-290 | a notifier writes once, and leaves the eventfd readable within its range |
| `Notify.CounterBounded` | geario-polling/src/epoll.rs:278-290 | the eventfd counter stays in its range |
| `Notify.WaitConsumes` | geario-polling/src/lib.rs:745-770 | a whole wait clears the flag, and empties the eventfd exactly if its list held the notification |
| `Notify.WaitFails` | geario-polling/src/lib.rs:750-759 | a wait that fails leaves everything as it was |
| `PollFds.Added` | geario-polling/src/poll.rs:118-140 | a new slot and map entry keep the bijection |
| `PollFds.Changed` | geario-polling/src/poll.rs:159-178 | a changed registration keeps the bijection |
| `PollFds.Removed` | geario-polling/src/poll.rs:194-208 | after swap-removal the moved descriptor is in the map, and fixing its index restores the bijection |
| `PollFds.LosesAnEvent` | geario-polling/src/poll.rs:261-289 | a concrete list of one event and two ready descriptors that ends up with two events |
| `PollFds.PollsWhatWasAsked` | geario-polling/src/poll.rs:340-350 | what is polled for and what is reported agree: readable exactly if asked for and data is there, writable exactly if asked for and there is room |
| `PollFds.FailureIsBoth` | geario-polling/src/poll.rs:353-360 | a hang-up or an error makes an event both readable and writable |
| `PollFds.Fds.Add` | geario-polling/src/poll.rs:103-141 | the error in each case; on success exactly one registration more, otherwise none changed |
| `PollFds.Fds.Modify` | geario-polling/src/poll.rs:144-177 | the error in each case; an unsupported mode fails after the key and the polled events have changed |
| `PollFds.Fds.Delete` | geario-polling/src/poll.rs:181-183 | the error in each case; on success exactly that registration is gone |
| `PollFds.Fds.Collect` | geario-polling/src/poll.rs:261-289 | each ready descriptor is reported at most once, with its own key and flags; all are, if and only if the list was empty or already as long as the number of ready ones; reported one-shot descriptors are disarmed and nothing else changes |

## Left out

- Filters other than `Base`, `add_filter`, `map_filter`, callbacks and `with_write_dst_buf`: they depend on foreign filters, and the last one skips write-state consolidation.
- `BytePage` to `BytesMut` conversion and `advance_to` on a cloned storage page: they bypass the uniqueness check that isolation rests on.
- SplitPage: the page's bytes fit in a 32-bit block, for every encoding; the source needs this only of external bytes, which it copies. A page value does not show its encoding.
- FreezePage: the same bound on the page as `SplitPage`.
- Append: the same bound on the adopted page as `SplitPage`.
- Prepend: the same bound on the adopted page as `SplitPage`.
- `try_get_current_from`: it takes the other rope's tail ahead of its deque pages, so it does not preserve the sequence.
- Buffers: reference-count overflow, teardown of the cache at thread exit, big-endian layout and raw address provenance; a new block's memory is modelled as zero. `set_len` of a `BytesMut` grows the window over whatever is there, as in the source.
- Connection: inside one call the state changes as a record, so the order in which a single call touches its own flags is not represented; `on_disconnect`, error values and dropping an `Io` (a termination followed by deregistration) are not modelled.
- TryWriteVectored: requires that nothing is in flight when the driver takes bytes past the buffer, because otherwise the order is lost (`BypassInOrder` shows that the requirement is exact).
- Bypassed: the same requirement as `TryWriteVectored`.
- IoRef.Do: skips a bypassing write while bytes are in flight, and a second fetch of the read buffer while one is held.
- Connection: a driver that has two sends in flight and puts back the tail of the older one, as io_uring can when the write task asks again after a short zero-copy send; the order of bytes is then lost as in `BypassInOrder`.
- Connection: re-entrant calls from inside a driver's `Handle::write` into the same connection's application side.
- Timers: the recycling of empty sets, 32-bit overflow of the tick counter, and clearing of the table when its task is cancelled.
- Dispatcher: the values of frames, responses and errors, `call_nowait` against `call_static`, and 32-bit overflow of the in-flight counter.
- IOCP: waitable handles, the LOCAL_CLOSE branch, failing system calls, and sharing of AFD handles between sockets.
- Notify: the pipe form of the notifier and the timer descriptor, except that it may share the notification key.
- poll(): the condition variable and the pipe that let `add`, `modify` and `delete` interrupt a wait.
- kqueue and event ports, socket helpers, TLS, signals, arbiters, thread pool, server and workers: system-call or thread plumbing, or only easy members.
- Formatting, comparison, conversion and serialisation of buffers: only easy members.
