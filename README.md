# eoos-library core, modelled in Dafny

This project models the sequential core of the EOOS library (the header-only
`eoos::lib` of an embedded operating system) and proves properties of it:

- **Heap** (`lib::Heap` with its nested `HeapBlock`), the main part. It is
  a first-fit allocator over one fixed memory region. The region is a
  doubly linked list of blocks, each a header followed by its payload.
  `heap_layout.dfy` states the block list as values:
  - `Carve` is `HeapBlock::alloc`'s split.
  - `Release` is `HeapBlock::free`'s coalescing.
  - `WellFormed` is the region invariant: the blocks' bytes add up to the
    usable size, every payload is a multiple of 8, and no two neighbours
    are both free.

  `heap.dfy` is the `Heap` class, whose methods change its block list in
  place. It also covers the memory test, placement, and the interrupt
  toggle bracketing of `allocate` and `free`.
- **SharedPtr** with its `ControlBlock` (`shared_ptr.dfy`). These are
  reference-counted handles sharing a control block. The block holds the
  pointer and the counter, and hands the pointer to the deleter when the
  counter drops to 0.
- **MutexGuard** (`mutex_guard.dfy`): it locks a mutex for its lifetime and
  unlocks it in its destructor.
- **AbstractString** (`abstract_string.dfy`):
  - the static variant, with a buffer of L characters inside the object;
  - the dynamic variant, with a heap buffer sized by `calculateSize` and
    `calculateLength`.

  Both have their `Context` (buffer, length, capacity) and the `copy`,
  `concatenate` and `compare` operations.
- **Align** (`align.dfy`): an unsigned value of S bytes stored in a byte
  array, least significant byte first.

Conventions:

- Addresses are naturals, with 0 for null.
- A C string is `Option<seq<char>>` (None is null), holding the characters
  before the terminator.
- `sizeof(HeapBlock)`, `sizeof(Heap)`, `sizeof(T)`, L and S are parameters.
- A call into an interface the library only declares is a class with a
  ghost log of calls. These are `api::Toggle`, `api::Mutex`, the deleter
  `D` and the allocator `A`. Where such a call can fail, its outcome is a
  parameter.
- The `Object<A>` base of SharedPtr, ControlBlock, MutexGuard and
  AbstractString is reduced to its constructed flag. Its constructor's
  verdict is a parameter. `setConstructed` can only clear the flag, as
  `Heap::setConstructed` does (lib.Heap.hpp:173-179). Copying or moving an
  Object copies the flag and leaves the source as it is.
- `AbstractBaseString`'s helpers are sequence operations:
  - `getLength(str)` is the length;
  - `copy(dst, src)` makes the buffer hold `src`, and does nothing when
    `dst` is null;
  - `concatenate(dst, src)` appends.

Where the code and its description differ, the model follows the code:

- A default `SharedPtr()` allocates a control block around a null pointer,
  so its `getCount()` is 1 (`Shared.DefaultHandle`).
- The move constructor leaves the source's control block in place.
- `alloc` splits a block when the payload is at least request + header
  (`>=`), so a remainder block with an empty payload can appear.
- Construction demands `sizeof(HeapBlock) + 16` bytes of usable size.

## Model

| member | source | states |
|---|---|---|
| HeapLayout.RoundUp | include/public/lib.Heap.hpp:504-508 | the request alloc works with is the least multiple of 8 not below the size |
| HeapLayout.FirstFitFrom | include/public/lib.Heap.hpp:509-527 | the scan yields a free block large enough with no such block before it, and None exactly when no block from there on fits |
| HeapLayout.Carve | include/public/lib.Heap.hpp:528-546 | the split of alloc on block i: the blocks before i are untouched, block i ends up used, and the list grows by at most one block (the split-off remainder) |
| HeapLayout.Release | include/public/lib.Heap.hpp:552-600 | the merge of free on block i: the list shrinks by at most two blocks, the free neighbours absorbed |
| HeapLayout.Chosen | include/public/lib.Heap.hpp:500-527 | a request of 0 yields no block; otherwise the chosen block is free and holds the rounded request |
| HeapLayout.CarveLayout | include/public/lib.Heap.hpp:528-546 | alloc splits iff the payload is at least request + header; the new free block sits right after the chosen one with payload old − request − header; the chosen block becomes used; every other block and every address is unchanged |
| HeapLayout.CarveFootprint | include/public/lib.Heap.hpp:528-545 | alloc conserves the bytes of the region (headers plus payloads) |
| HeapLayout.CarveWellFormed | include/public/lib.Heap.hpp:498-547 | alloc keeps the region well formed: bytes conserved, payloads multiples of 8, no two free neighbours |
| HeapLayout.OffsetAligned | include/public/lib.Heap.hpp:609-630 | with 8-byte headers and payloads every block address is a multiple of 8, so placing a split block never fails |
| HeapLayout.ReleaseSplice | include/public/lib.Heap.hpp:552-599 | free replaces the block and its free neighbours (left, right, both or none) by one free block spanning exactly their bytes, and a free block just outside that run can only sit next to a free block already |
| HeapLayout.ReleaseFootprint | include/public/lib.Heap.hpp:567-599 | free conserves the bytes of the region |
| HeapLayout.ReleaseWellFormed | include/public/lib.Heap.hpp:552-600 | free keeps the region well formed; in particular no two free neighbours remain |
| HeapLayout.ReleaseFreeBlock | include/public/lib.Heap.hpp:558-599 | freeing a block that is already free leaves a well-formed list unchanged |
| HeapLayout.AllocReleaseRoundTrip | include/public/lib.Heap.hpp:498-600 | freeing the block alloc has just taken gives back the block list as it was |
| HeapLayout.BlockAtOffset | include/public/lib.Heap.hpp:263-267 | stepping back a header from a block's payload address finds that block |
| HeapLayout.BlockWithinFootprint | include/public/lib.Heap.hpp:466-473 | every block's header and payload lie inside the region: block i ends (its offset plus header plus payload) no later than the region's footprint |
| HeapLayout.OversizeRequestRefused | include/public/lib.Heap.hpp:509-527 | no block serves a request larger than the usable size |
| HeapLayout.ServedBlock | include/public/lib.Heap.hpp:86-100 | allocate returns null iff no block fits; a non-null result is the payload of the chosen block, which is now used and holds the request |
| HeapLayout.AllocFreeRoundTrip | include/public/lib.Heap.hpp:105-118 | freeing the pointer allocate returned recovers its block and restores the heap |
| HeapLayout.RoundUpAsWritten | include/public/lib.Heap.hpp:504-508 | the rounding in a size_t agrees with RoundUp whenever it does not wrap |
| HeapLayout.RoundUpAsWrittenWraps | include/public/lib.Heap.hpp:505-508 | a request in the last 7 values of size_t rounds to 0 |
| HeapLayout.HugeRequestServedAsWritten | include/public/lib.Heap.hpp:498-547 | such a request finds a block, smaller than requested, whenever any block is free |
| HeapMemory.UsableSize | include/public/lib.Heap.hpp:774-779 | the usable size plus the Heap object fit the total size, and it is a multiple of 8 when sizeof(Heap) is |
| HeapMemory.UsableSizeAsWritten | include/public/lib.Heap.hpp:774-779 | in a size_t the usable size is exact when non-negative and wraps round otherwise |
| HeapMemory.SmallRegionPassesCheckAsWritten | include/public/lib.Heap.hpp:186-192 | a total size below sizeof(Heap) passes the size check as written, though the region cannot hold a block |
| HeapMemory.ConstructibleFitsRegion | include/public/lib.Heap.hpp:186-211 | a heap that constructs holds the object, a header and at least 16 payload bytes |
| HeapMemory.PlaceBlock | include/public/lib.Heap.hpp:609-630 | placing a HeapBlock yields the address iff sizeof(HeapBlock) and the address are multiples of 8, else null |
| HeapMemory.NewBlock | include/public/lib.Heap.hpp:466-473 | a new block given `size` bytes is free and spans exactly those bytes, header included |
| HeapMemory.HoldsPattern | include/public/lib.Heap.hpp:287-293 | the read-back loop succeeds iff every cell holds the pattern |
| HeapMemory.IsMemoryAvailable | include/public/lib.Heap.hpp:278-331 | on ideal memory the test passes, zeroes the tested cells and touches no other |
| HeapMemory.WritePattern | include/public/lib.Heap.hpp:283-286 | each write loop of the memory test stores the pattern in every tested cell and changes no other cell |
| HeapMemory.CreateAsWritten | include/public/lib.Heap.hpp:343-366 | the memory is accepted iff sizeof(Heap) and the address are multiples of 8; with sizeof(Heap) a multiple of 8 the object's cells are left zeroed, otherwise the cells at address 0 are zeroed and the object's are untouched |
| HeapMemory.Create | include/public/lib.Heap.hpp:343-366 | corrected create: accepted iff sizeof(Heap) and the address are multiples of 8; the object's cells are left zeroed when tested, and untouched when sizeof(Heap) refuses them |
| HeapMemory.UnalignedHeapTestsNullAsWritten | include/public/lib.Heap.hpp:345-359 | with a 12-byte Heap, create as written refuses, overwrites the memory at address 0 and leaves the object's cells as they were |
| HeapMemory.UnalignedHeapRefusedUntouched | include/public/lib.Heap.hpp:345-349 | with a 12-byte Heap, the corrected create refuses and the object's cells keep their contents |
| HeapMemory.PlacementNew | include/public/lib.Heap.hpp:147-162 | a null address gives null without touching memory; otherwise, with the corrected create, the result is the address iff sizeof(Heap) and the address are multiples of 8, and the object's cells end zeroed when tested and untouched when not |
| HeapMemory.Heap.IsConstructed | include/public/lib.Heap.hpp:70-81 | a constructed heap (key set, first block present) finds its first block at the start of its region |
| HeapMemory.Heap.Data | include/public/lib.Heap.hpp:667-671 | the payload address of block i, just past its header; stepping back over the header (heapBlock) finds block i again |
| HeapMemory.Heap.BlockOf | include/public/lib.Heap.hpp:263-267 | a block found for a payload address is a block of the list whose payload starts exactly there |
| HeapMemory.Heap.CanDelete | include/public/lib.Heap.hpp:639-650 | only a block of a constructed heap may be freed, and its payload address leads back to it |
| HeapMemory.Heap.constructor | include/public/lib.Heap.hpp:33-57 | the heap is constructed iff the sizes, alignment and address allow it, and then holds one free block spanning the usable size |
| HeapMemory.Heap.SetConstructed | include/public/lib.Heap.hpp:173-179 | the key is cleared by a false flag and never set again |
| HeapMemory.Heap.Construct | include/public/lib.Heap.hpp:186-212 | succeeds iff header + 16 fits the usable size, both sizes are multiples of 8 and the first block is aligned; then one free block spans the region |
| HeapMemory.Heap.Destroy | include/public/lib.Heap.hpp:62-65 | the key is cleared, so the heap is no longer constructed |
| HeapMemory.Heap.SetToggle | include/public/lib.Heap.hpp:123-126 | the heap refers to the given toggle variable |
| HeapMemory.Heap.ResetToggle | include/public/lib.Heap.hpp:131-134 | the heap no longer refers to a toggle |
| HeapMemory.Heap.Disable | include/public/lib.Heap.hpp:219-227 | without a toggle it returns false; with one it switches it off and returns its prior state |
| HeapMemory.Heap.Enable | include/public/lib.Heap.hpp:234-245 | hands the status to the toggle when there is one |
| HeapMemory.Heap.Allocate | include/public/lib.Heap.hpp:86-100 | null on an unconstructed heap, a non-null `ptr` returned unchanged, otherwise first-fit service with exactly one disable followed by one enable receiving its result |
| HeapMemory.Heap.Free | include/public/lib.Heap.hpp:105-118 | a null pointer or an unconstructed heap is ignored; otherwise the block behind the pointer is released, bracketed by disable and enable |
| HeapMemory.Heap.FreeBlock | include/public/lib.Heap.hpp:552-600 | a block that may be deleted is released and the region stays well formed; otherwise nothing changes |
| HeapMemory.Heap.Alloc | include/public/lib.Heap.hpp:498-547 | the loop finds the first-fit block and the result and new list are what Served prescribes |
| HeapMemory.Heap.Occupy | include/public/lib.Heap.hpp:528-545 | the split and used mark leave exactly Carve's list, still well formed |
| Guard.MutexGuard.constructor | include/public/lib.MutexGuard.hpp:30-34 | the guard is constructed iff its base and the mutex are and the system granted the lock on a free mutex; lock is called only on a constructed mutex |
| Guard.MutexGuard.Construct | include/public/lib.MutexGuard.hpp:64-80 | lock is called once exactly when guard and mutex are constructed, and the result is its outcome: the system granted it and the mutex was free |
| Guard.MutexGuard.Destroy | include/public/lib.MutexGuard.hpp:39-45 | unlock is called once iff the guard is constructed |
| Guard.GuardedScope | include/public/lib.MutexGuard.hpp:30-45 | whatever the system answers to the lock, over a guard's life unlocks equal successful locks (0 or 1) and the mutex ends as it began |
| Shared.ControlBlock.constructor | include/public/lib.SharedPtr.hpp:324-330 | a new block holds the pointer with counter 1 and is constructed iff its base and mutex are |
| Shared.ControlBlock.Construct | include/public/lib.SharedPtr.hpp:385-401 | true iff the block and its mutex are constructed |
| Shared.ControlBlock.Destroy | include/public/lib.SharedPtr.hpp:335-338 | the deleter receives the owned pointer once |
| Shared.ControlBlock.Increase | include/public/lib.SharedPtr.hpp:343-347 | the counter grows by exactly 1 and the mutex is left unlocked as found |
| Shared.ControlBlock.Decrease | include/public/lib.SharedPtr.hpp:354-358 | the counter drops by exactly 1 and the new value is returned |
| Shared.ControlBlock.GetCounter | include/public/lib.SharedPtr.hpp:365-368 | the counter |
| Shared.ControlBlock.GetPointer | include/public/lib.SharedPtr.hpp:375-378 | the owned pointer |
| Shared.SharedPtr.constructor | include/public/lib.SharedPtr.hpp:85-101 | on success a fresh block holds the pointer with count 1; on any failure the deleter receives the pointer once and the handle is unconstructed |
| Shared.SharedPtr.Construct | include/public/lib.SharedPtr.hpp:241-266 | the four failure paths free the pointer once and leave no block; success leaves a fresh block with count 1 |
| Shared.SharedPtr.Copy | include/public/lib.SharedPtr.hpp:117-120 | the copy shares the block and the counter grows by 1; without a block the copy is unconstructed |
| Shared.SharedPtr.Move | include/public/lib.SharedPtr.hpp:142-144 | the new handle takes the block without changing any counter |
| Shared.SharedPtr.Destroy | include/public/lib.SharedPtr.hpp:106-112 | a constructed handle releases its block |
| Shared.SharedPtr.Release | include/public/lib.SharedPtr.hpp:271-282 | the counter drops by 1, and at 0 the block is deleted, its pointer freed once and the handle's block nulled |
| Shared.SharedPtr.Acquire | include/public/lib.SharedPtr.hpp:287-297 | with a block the counter grows by 1; without one the handle becomes unconstructed |
| Shared.SharedPtr.CopyAssign | include/public/lib.SharedPtr.hpp:125-135 | no-op on self-assignment or an unconstructed target; otherwise the old block is released (freed at 0) and the source's block shared with one more count; both handles stay live |
| Shared.SharedPtr.MoveAssign | include/public/lib.SharedPtr.hpp:149-157 | the handle takes the source's block without touching any counter, the old block included |
| Shared.SharedPtr.MoveAssignReleasing | include/public/lib.SharedPtr.hpp:149-157 | as MoveAssign, but the old block is released first; the target stays live when the source was |
| Shared.SharedPtr.Get | include/public/lib.SharedPtr.hpp:208-216 | the owned pointer, or null when unconstructed |
| Shared.SharedPtr.GetCount | include/public/lib.SharedPtr.hpp:223-231 | the counter (at least 1 for a live handle), or 0 when unconstructed |
| Shared.SharedPtr.IsSet | include/public/lib.SharedPtr.hpp:166-169 | operator bool is true iff the handle is constructed and owns a non-null pointer |
| Shared.Lifetime | include/public/lib.SharedPtr.hpp:106-120 | an owner, n copies, then every handle destroyed: the pointer is freed exactly once |
| Shared.MoveAssignLeaks | include/public/lib.SharedPtr.hpp:149-157 | after `first = move(second)` the first block keeps count 1, is never deleted and its pointer is never freed |
| Shared.MoveAssignReleasingFrees | include/public/lib.SharedPtr.hpp:149-157 | with the release, the same move frees the first pointer at once |
| Shared.DefaultHandle | include/public/lib.SharedPtr.hpp:85-89 | a default handle counts 1 and its `operator bool` is false |
| Strings.CompareChars | include/public/lib.AbstractString.hpp:175-187 | the character loop yields the difference at the first differing position, and 0 iff the strings are equal |
| Strings.DifferenceZero | include/public/lib.AbstractString.hpp:177-186 | strings of one length compare as 0 exactly when they are equal |
| Strings.StaticContext.Allocate | include/public/lib.AbstractString.hpp:278-294 | fails, changing nothing, iff already allocated or `length` > L; else holds `length` with capacity L |
| Strings.StaticContext.Free | include/public/lib.AbstractString.hpp:299-304 | no buffer, length 0, capacity 0 |
| Strings.StaticContext.Mirror | include/public/lib.AbstractString.hpp:262-270 | takes the other context's state, pointing at its own buffer |
| Strings.StaticContext.IsAllocated | include/public/lib.AbstractString.hpp:311-322 | a context is allocated iff it points at its buffer |
| Strings.StaticContext.IsFit | include/public/lib.AbstractString.hpp:331-342 | a length fits iff it does not exceed the capacity |
| Strings.StaticString.Content | include/public/lib.AbstractString.hpp:62-65 | getChar: the characters held, or null without a buffer; never more than L of them |
| Strings.StaticString.GetLength | include/public/lib.AbstractString.hpp:54-57 | getLength: between 0 and L, the number of characters held, and 0 without a buffer |
| Strings.StaticString.constructor | include/public/lib.AbstractString.hpp:39-41 | a new string has no buffer and length 0 |
| Strings.StaticString.Destroy | include/public/lib.AbstractString.hpp:46-49 | the context is freed |
| Strings.StaticString.Copy | include/public/lib.AbstractString.hpp:72-110 | fails without change when unconstructed, given null or given more than L characters; otherwise the string holds the source (an empty source into a never-allocated string leaves it without a buffer) |
| Strings.StaticString.Concatenate | include/public/lib.AbstractString.hpp:115-163 | a string without a buffer copies (success iff src fits L, then the length and characters of src, an empty src leaving no buffer, and no change on failure); otherwise appends, or fails without change when the total exceeds L |
| Strings.StaticString.Compare | include/public/lib.AbstractString.hpp:168-194 | the INT32_MIN sentinel on error, the length difference, or the first character difference; 0 iff equal |
| Strings.StaticString.CopyAllocating | include/public/lib.AbstractString.hpp:72-110 | every successful copy leaves the string holding the source in its buffer |
| Strings.EmptyCopyThenCompare | include/public/lib.AbstractString.hpp:77-103 | copying "" into a new string succeeds, yet comparing it with "" gives the sentinel |
| Strings.EmptyCopyAllocatingThenCompare | include/public/lib.AbstractString.hpp:77-103 | with the allocating copy the same comparison gives 0 |
| Strings.CalculateSize | include/public/lib.AbstractString.hpp:739-751 | a multiple of 8, at least (n+1)·sizeof(T) and less than 8 above it |
| Strings.CalculateLength | include/public/lib.AbstractString.hpp:759-764 | the largest character count that leaves room for the terminator in `size` bytes, 0 when none fits |
| Strings.CapacityCovers | include/public/lib.AbstractString.hpp:739-764 | a buffer sized for n characters holds at least n |
| Strings.DynamicContext.Mirror | include/public/lib.AbstractString.hpp:632-641 | takes over the other context's buffer, length and capacity |
| Strings.DynamicContext.IsAllocated | include/public/lib.AbstractString.hpp:697-708 | a context is allocated iff its buffer pointer is non-null |
| Strings.DynamicContext.IsFit | include/public/lib.AbstractString.hpp:717-728 | a length fits iff it does not exceed the capacity |
| Strings.DynamicContext.Allocate | include/public/lib.AbstractString.hpp:649-676 | only a context without a buffer asks for CalculateSize(length) bytes; it succeeds iff the allocator answers non-null, with capacity covering `length` |
| Strings.DynamicContext.Free | include/public/lib.AbstractString.hpp:681-690 | a buffer goes back to the allocator exactly when there is one, and the context is reset |
| Strings.DynamicString.Content | include/public/lib.AbstractString.hpp:432-435 | getChar: the characters held, or null without a buffer; never more than the capacity |
| Strings.DynamicString.GetLength | include/public/lib.AbstractString.hpp:420-423 | getLength: 0 for an unconstructed string, otherwise the number of characters held, 0 without a buffer |
| Strings.DynamicString.constructor | include/public/lib.AbstractString.hpp:405-407 | a new string has no buffer and length 0 |
| Strings.DynamicString.Destroy | include/public/lib.AbstractString.hpp:412-415 | the buffer, if any, goes back to the allocator |
| Strings.DynamicString.Copy | include/public/lib.AbstractString.hpp:442-480 | a source that fits the capacity is copied in place; a longer one moves to a new buffer and frees the old, or fails without change when allocation fails |
| Strings.DynamicString.Concatenate | include/public/lib.AbstractString.hpp:485-533 | a string without a buffer copies (success iff src is empty or the allocator answers, then the length and characters of src in the new buffer, nothing freed, no change on failure); otherwise appends in place or in a larger buffer holding the old characters then the new, freeing the old; fails without change when allocation fails |
| Strings.DynamicString.Compare | include/public/lib.AbstractString.hpp:538-564 | as the static compare |
| Alignment.DecodeEncode | include/public/lib.Align.hpp:189-225 | typecast after assignment gives the value back |
| Alignment.EncodeDecode | include/public/lib.Align.hpp:189-225 | assignment of the typecast value gives the cells back |
| Alignment.DecodeInjective | include/public/lib.Align.hpp:170-182 | equal cells and equal values coincide |
| Alignment.PredSucc | include/public/lib.Align.hpp:96-114 | ++ and -- on T undo each other, wrapping at both ends |
| Alignment.Align.Default | include/public/lib.Align.hpp:36-38 | Align(): S fresh cells, whose contents C++ leaves unspecified |
| Alignment.Align.Value | include/public/lib.Align.hpp:145-148 | operator T: the value the cells hold, always a value of an S-byte T |
| Alignment.Align.constructor | include/public/lib.Align.hpp:48-51 | the cells hold the value's bytes, least significant first |
| Alignment.Align.Copy | include/public/lib.Align.hpp:58-61 | the copy holds the same cells and value |
| Alignment.Align.Assignment | include/public/lib.Align.hpp:189-196 | cell i is bits 8i..8i+7 of the value, which typecast gives back |
| Alignment.Align.CopyFrom | include/public/lib.Align.hpp:203-209 | the cells become the source's cells |
| Alignment.Align.Typecast | include/public/lib.Align.hpp:216-225 | the loop rebuilds the value the cells encode |
| Alignment.Align.PreIncrement | include/public/lib.Align.hpp:96-101 | the value becomes its successor, wrapping to 0 |
| Alignment.Align.PreDecrement | include/public/lib.Align.hpp:109-114 | the value becomes its predecessor, wrapping from 0 |
| Alignment.Align.PostIncrement | include/public/lib.Align.hpp:121-126 | the cells stay as they were, and the result is a copy of them |
| Alignment.Align.PostDecrement | include/public/lib.Align.hpp:133-138 | the cells stay as they were, and the result is a copy of them |
| Alignment.Align.PostIncrementStoring | include/public/lib.Align.hpp:121-126 | stores the successor and returns the value before it |
| Alignment.Align.PostDecrementStoring | include/public/lib.Align.hpp:133-138 | stores the predecessor and returns the value before it |
| Alignment.Align.Equal | include/public/lib.Align.hpp:170-182 | true iff all S cells match, which is iff the values are equal |
| Alignment.Align.EqualValue | include/public/lib.Align.hpp:158-162 | true iff the cells are those of the value, which is iff the value is equal |
| Alignment.Equals | include/public/lib.Align.hpp:241-246 | true iff the two values are equal |
| Alignment.NotEquals | include/public/lib.Align.hpp:255-260 | exactly the negation of == |
| Alignment.PostIncrementKeepsValue | include/public/lib.Align.hpp:121-126 | `x++` on 5 leaves 5 |
| Alignment.PostIncrementStoringAdvances | include/public/lib.Align.hpp:121-126 | with the storing postfix, `x++` on 5 yields 5 and leaves 6 |

## Left out

- Concurrency: the toggle and the mutex are sequential objects with call logs. Real interrupt masking and mutual exclusion are not modelled.
- Machine layout: `Aligner`, `VirtualTable`, `SIZEOF_HEAP`, and raw `reinterpret_cast` addressing. The sizeof checks are modelled through the parameters `header` and `objectSize`; block addresses are offsets over the symbolic header size.
- Memory faults behind `isMemoryAvailable`: memory is ideal, so the test always passes.
- HeapMemory.Heap.Free: a pointer that is not a payload of the heap, and double free. The code does not check for them; the model demands a valid block address instead.
- HeapMemory.Heap.Alloc: the round-up is unbounded here. The wrap in size_t is the finding below (`RoundUpAsWritten`).
- HeapMemory.UsableSize: the heap uses the unbounded usable size. The wrap in size_t is the finding below (`UsableSizeAsWritten`).
- HeapBlock's `key_` and `heap_` fields are not modelled separately: every block in the list is constructed and belongs to its heap, so `canDelete` reduces to the heap being constructed.
- SharedPtr, ControlBlock and MutexGuard: 32-bit counter overflow is not modelled. Counters are unbounded integers.
- `operator*`, `operator->` and `operator[]` of SharedPtr only dereference `get()`, and are not modelled.
- The array deleter is not modelled separately: the deleter is one object that logs freed pointers.
- Strings.StaticString.Compare: characters are taken as non-negative code points, and the int32 cast of their difference as the plain difference. A signed character type T is not modelled: `lib::String` is `BaseString<char,0>` (lib.String.hpp:22), and with a signed `char` the cast to `uintptr_t` sign-extends bytes of 0x80 and above, so the difference cut to int32 can have the opposite sign (`"\xE9"` against `"a"` gives -120 there, +136 here).
- Strings.DynamicString.Compare: the same as the static compare; signed character types are not modelled.
- Strings.CompareChars: the character difference is the difference of non-negative code points; the sign extension of a signed character type is not modelled.
- Shared.SharedPtr.CopyAssign: the handles are promised to stay live except when two distinct handles share a block whose counter is 1. Such a counter does not count both handles; the move constructor and move assignment produce it, since they take a block without counting. Releasing first then deletes the shared block, and the target is left holding it.
- Shared.SharedPtr.MoveAssignReleasing: the same exception as CopyAssign, and the source must be live for the target to be.
- Lengths in AbstractString are unbounded. The int32 sum in concatenate and the int32 cast in calculateSize overflow only for strings of about 2^31 bytes, and are not modelled.
- `getChar` is `Content()`, a view of the buffer. The unseen `AbstractBaseString` helpers are sequence operations, and a copy into a null buffer does nothing.
- Align covers unsigned T with S = sizeof(T), the default. Signed T and S ≠ sizeof(T) are not modelled; the class notes signed types must not be used.
- Align(): the default constructor's cells are unspecified in C++. The model promises nothing about them.
- lib.Thread.hpp and lib.String.hpp: they only forward to the system or hold a typedef, so they are not part of this model.

## Findings

| source | as written | input that shows it | evidently intended | confidence | as-written member | corrected member |
|---|---|---|---|---|---|---|
| include/public/lib.Heap.hpp:505-508 | the request is rounded up with `(size & ~0x7) + 0x8` in size_t | `alloc(SIZE_MAX - 3)` rounds to 0, so the first free block "fits" and a non-null pointer to a block far smaller than requested is returned | a request larger than the heap gives null | high; not executed | HeapLayout.HugeRequestServedAsWritten | HeapLayout.OversizeRequestRefused |
| include/public/lib.Heap.hpp:774-779 | the usable size is `(isize & ~0x7) - sizeof(Heap)` in size_t | `Heap(8)` with sizeof(Heap) = 64 wraps to a huge size, which passes the `sizeof(HeapBlock) + 16` check, so memory past the region is tested and formatted | construction fails when the region cannot hold the Heap object | high; not executed | HeapMemory.SmallRegionPassesCheckAsWritten | HeapMemory.ConstructibleFitsRegion |
| include/public/lib.SharedPtr.hpp:149-157 | move assignment overwrites `cb_` without `release()` | `a = move(b)` where a and b each solely own a pointer: a's block keeps count 1 and its pointer is never freed | the old block is released first, as copy assignment does | high; not executed | Shared.MoveAssignLeaks | Shared.MoveAssignReleasingFrees |
| include/public/lib.AbstractString.hpp:77-103 | a length of 0 fits the capacity 0 of a never-allocated context, so no buffer is set | a new string `s`: `s.copy("")` returns true, then `s.compare("")` returns the INT32_MIN error sentinel | a successful copy leaves a string equal to its source, so compare gives 0 | medium; not executed | Strings.EmptyCopyThenCompare | Strings.EmptyCopyAllocatingThenCompare |
| include/public/lib.Heap.hpp:345-359 | when sizeof(Heap) is not a multiple of 8, `create` sets the address to null and then runs `isMemoryAvailable` on it | sizeof(Heap) = 12: the test writes its four patterns to addresses 0 to 11, and the object's own memory is never tested | a refused size returns null without writing to memory | high; not executed | HeapMemory.UnalignedHeapTestsNullAsWritten | HeapMemory.UnalignedHeapRefusedUntouched |
| include/public/lib.Align.hpp:121-138 | postfix `++`/`--` pass `val++`/`val--` (the old value) to `assignment` | `x = 5; x++;` leaves x equal to 5 | x becomes 6 and the result holds 5 | high; not executed | Alignment.PostIncrementKeepsValue | Alignment.PostIncrementStoringAdvances |
