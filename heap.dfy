/**
 * lib::Heap: a heap over one fixed memory region.
 *
 * The Heap object sits at `address`, occupies `objectSize` bytes
 * (sizeof(Heap)), and its region of HeapBlocks starts right after it. Each
 * HeapBlock is a `header`-byte record (sizeof(HeapBlock)) followed by its
 * payload; the doubly linked list of blocks is the sequence `blocks`, in
 * address order, so a block's `prev_` and `next_` are its neighbours in the
 * sequence and its address is the region start plus the bytes before it.
 */
module HeapMemory {
  import opened Wrappers
  import opened Types
  import opened HeapLayout

  /** Value of the heap's key while it is constructed (HEAP_KEY). */
  const HEAP_KEY: int := 0x19811019

  /** Sibling bits HeapBlock::free computes for its neighbours. */
  const NEXT_FREE: bv8 := 1
  const PREV_FREE: bv8 := 2

  /** A call made on an api::Toggle, in the order the calls happen. */
  datatype ToggleCall = DisableCall(returned: bool) | EnableCall(status: bool)

  /**
   * The global interrupt toggle the heap switches off around its critical
   * sections: `disable` switches it off and reports whether it was on,
   * `enable(status)` puts back the state `disable` reported.
   */
  class Toggle {
    var enabled: bool
    ghost var calls: seq<ToggleCall>

    constructor (enabled: bool)
      ensures this.enabled == enabled && calls == []
    {
      this.enabled := enabled;
      calls := [];
    }

    method Disable() returns (was: bool)
      modifies this
      ensures was == old(enabled) && !enabled
      ensures calls == old(calls) + [DisableCall(was)]
    {
      was := enabled;
      enabled := false;
      calls := calls + [DisableCall(was)];
    }

    method Enable(status: bool)
      modifies this
      ensures enabled == status
      ensures calls == old(calls) + [EnableCall(status)]
    {
      enabled := status;
      calls := calls + [EnableCall(status)];
    }
  }

  /**
   * A variable of type `api::Toggle*` owned by the application. The heap
   * keeps a reference to the variable (`api::Toggle*&`), so a toggle the
   * application installs or removes later is seen by the heap.
   */
  class ToggleSlot {
    var toggle: Toggle?

    constructor (toggle: Toggle?)
      ensures this.toggle == toggle
    {
      this.toggle := toggle;
    }
  }

  /**
   * The heap's usable size: the total size cropped to a multiple of 8, less
   * the Heap object itself. Unbounded here; see `UsableSizeAsWritten`.
   */
  function UsableSize(isize: nat, objectSize: nat): (r: int)
    ensures r + objectSize <= isize
    ensures objectSize % 8 == 0 ==> r % 8 == 0
  {
    (isize - isize % 8) - objectSize
  }

  /** The usable size as written, in a `size_t` of `modulus` values. */
  function UsableSizeAsWritten(isize: nat, objectSize: nat, modulus: nat): (r: nat)
    requires isize < modulus && objectSize < modulus
    ensures r < modulus
    ensures UsableSize(isize, objectSize) >= 0 ==> r == UsableSize(isize, objectSize)
    ensures UsableSize(isize, objectSize) < 0 ==> r == UsableSize(isize, objectSize) + modulus
  {
    Wrap((isize - isize % 8) - objectSize, modulus)
  }

  /**
   * As written, a total size below sizeof(Heap) wraps the usable size round
   * to a huge value, so the size check of Heap::construct lets it through
   * and the heap goes on to test and format memory it does not have.
   */
  lemma SmallRegionPassesCheckAsWritten(isize: nat, header: nat, objectSize: nat, modulus: nat)
    requires isize < modulus && objectSize < modulus && objectSize % 8 == 0
    requires isize - isize % 8 < objectSize
    requires header + 16 + objectSize <= modulus
    ensures header + 16 <= UsableSizeAsWritten(isize, objectSize, modulus)
    ensures UsableSize(isize, objectSize) < header + 16
  {
  }

  /** Whether Heap::construct succeeds for these sizes and this placement. */
  predicate Constructible(isize: nat, header: nat, objectSize: nat, address: nat)
  {
    && header + 16 <= UsableSize(isize, objectSize)
    && objectSize % 8 == 0
    && header % 8 == 0
    && (address + objectSize) % 8 == 0
  }

  /**
   * A heap that constructs fits in its region: the object, one header and
   * at least 16 payload bytes.
   */
  lemma ConstructibleFitsRegion(isize: nat, header: nat, objectSize: nat, address: nat)
    requires Constructible(isize, header, objectSize, address)
    ensures objectSize + header + 16 <= isize
  {
  }

  /**
   * HeapBlock's placement operator new: the address is refused (null) when
   * the block size or the address is not a multiple of 8.
   */
  function PlaceBlock(header: nat, ptr: nat): (r: Option<nat>)
    ensures r.Some? <==> header % 8 == 0 && ptr % 8 == 0
    ensures r.Some? ==> r.value == ptr
  {
    if header % 8 != 0 then None
    else if ptr % 8 != 0 then None
    else Some(ptr)
  }

  /**
   * The HeapBlock constructor: a free block given `size` bytes keeps a
   * header of them and offers the rest as payload.
   */
  function NewBlock(size: nat, header: nat): (r: Block)
    requires header <= size
    ensures Footprint([r], header) == size && !r.used
  {
    FootprintSingle(Block(size - header, false), header);
    Block(size - header, false)
  }

  /** Writes `pattern(k)` to each of the first `size` cells. */
  method WritePattern(cells: array<byte>, size: nat, pattern: nat -> byte)
    requires size <= cells.Length
    modifies cells
    ensures forall k :: 0 <= k < size ==> cells[k] == pattern(k)
    ensures forall k :: size <= k < cells.Length ==> cells[k] == old(cells[k])
  {
    var i := 0;
    while i < size
      invariant i <= size
      invariant forall k :: 0 <= k < i ==> cells[k] == pattern(k)
      invariant forall k :: i <= k < cells.Length ==> cells[k] == old(cells[k])
    {
      cells[i] := pattern(i);
      i := i + 1;
    }
  }

  /** Reads back the first `size` cells: true iff each holds `pattern(k)`. */
  method HoldsPattern(cells: array<byte>, size: nat, pattern: nat -> byte) returns (ok: bool)
    requires size <= cells.Length
    ensures ok <==> forall k :: 0 <= k < size ==> cells[k] == pattern(k)
  {
    var i := 0;
    while i < size
      invariant i <= size
      invariant forall k :: 0 <= k < i ==> cells[k] == pattern(k)
    {
      if cells[i] != pattern(i) {
        return false;
      }
      i := i + 1;
    }
    return true;
  }

  /**
   * Heap::isMemoryAvailable: writes and reads back the cell index, 0x55,
   * 0xAA and 0 over `size` cells. Memory here is ideal, so the test always
   * passes and leaves the cells zeroed.
   */
  method IsMemoryAvailable(cells: array<byte>, size: nat) returns (ok: bool)
    requires size <= cells.Length
    modifies cells
    ensures ok
    ensures forall k :: 0 <= k < size ==> cells[k] == 0
    ensures forall k :: size <= k < cells.Length ==> cells[k] == old(cells[k])
  {
    // The value test stores the index cut to a cell (i & mask).
    WritePattern(cells, size, k => (k % 256) as byte);
    ok := HoldsPattern(cells, size, k => (k % 256) as byte);
    if !ok {
      return false;
    }
    WritePattern(cells, size, _ => 0x55);
    ok := HoldsPattern(cells, size, _ => 0x55);
    if !ok {
      return false;
    }
    WritePattern(cells, size, _ => 0xAA);
    ok := HoldsPattern(cells, size, _ => 0xAA);
    if !ok {
      return false;
    }
    WritePattern(cells, size, _ => 0);
    ok := HoldsPattern(cells, size, _ => 0);
    if !ok {
      return false;
    }
    return true;
  }

  /**
   * Heap::create as written: when sizeof(Heap) is not a multiple of 8 the
   * address is first replaced by null, and the memory test then runs on the
   * `objectSize` cells at address 0 (`nullCells`) instead of the object's
   * own cells. The object is not at address 0.
   */
  method CreateAsWritten(ptr: nat, objectSize: nat, cells: array<byte>, nullCells: array<byte>) returns (r: nat)
    requires cells.Length == objectSize && nullCells.Length == objectSize
    requires cells != nullCells
    modifies cells, nullCells
    ensures r == (if objectSize % 8 == 0 && ptr % 8 == 0 then ptr else 0)
    ensures objectSize % 8 == 0 ==>
      (forall k :: 0 <= k < objectSize ==> cells[k] == 0) && nullCells[..] == old(nullCells[..])
    ensures objectSize % 8 != 0 ==>
      (forall k :: 0 <= k < objectSize ==> nullCells[k] == 0) && cells[..] == old(cells[..])
  {
    var address: int := ptr;
    var target := cells;
    if objectSize % 8 != 0 {
      address := 0;
      target := nullCells;
    }
    var tested := IsMemoryAvailable(target, objectSize);
    if !tested {
      address := 0;
    }
    if address % 8 != 0 {
      address := 0;
    }
    r := address;
  }

  /**
   * Heap::create, corrected: a sizeof(Heap) that is not a multiple of 8
   * refuses the memory without testing anything; otherwise the object's
   * cells are tested, which leaves them zeroed, and the address is accepted
   * when it is a multiple of 8.
   */
  method Create(ptr: nat, objectSize: nat, cells: array<byte>) returns (r: nat)
    requires cells.Length == objectSize
    modifies cells
    ensures r == (if objectSize % 8 == 0 && ptr % 8 == 0 then ptr else 0)
    ensures objectSize % 8 == 0 ==> forall k :: 0 <= k < objectSize ==> cells[k] == 0
    ensures objectSize % 8 != 0 ==> cells[..] == old(cells[..])
  {
    if objectSize % 8 != 0 {
      return 0;
    }
    var tested := IsMemoryAvailable(cells, objectSize);
    r := if tested && ptr % 8 == 0 then ptr else 0;
  }

  /**
   * With a 12-byte Heap object, create as written overwrites the memory at
   * address 0 and refuses the object's memory without testing it.
   */
  method UnalignedHeapTestsNullAsWritten() returns (r: nat, atNull: byte, own: byte)
    ensures r == 0 && atNull == 0 && own == 7
  {
    var cells := new byte[12](_ => 7);
    var nullCells := new byte[12](_ => 7);
    r := CreateAsWritten(0x1000, 12, cells, nullCells);
    atNull := nullCells[0];
    own := cells[0];
  }

  /** With a 12-byte Heap object, the corrected create refuses and writes nothing. */
  method UnalignedHeapRefusedUntouched() returns (r: nat, own: byte)
    ensures r == 0 && own == 7
  {
    var cells := new byte[12](_ => 7);
    r := Create(0x1000, 12, cells);
    own := cells[0];
  }

  /** Heap's placement operator new: a null address builds nothing; otherwise Create decides. */
  method PlacementNew(ptr: nat, objectSize: nat, cells: array<byte>) returns (r: nat)
    requires cells.Length == objectSize
    modifies cells
    ensures r == (if objectSize % 8 == 0 && ptr % 8 == 0 then ptr else 0)
    ensures ptr != 0 && objectSize % 8 == 0 ==> forall k :: 0 <= k < objectSize ==> cells[k] == 0
    ensures ptr == 0 || objectSize % 8 != 0 ==> cells[..] == old(cells[..])
  {
    if ptr == 0 {
      r := ptr;
    } else {
      r := Create(ptr, objectSize, cells);
    }
  }

  class Heap {
    /** sizeof(HeapBlock), sizeof(Heap) and the address of this object. */
    const header: nat
    const objectSize: nat
    const address: nat

    /** data_.key, data_.size and data_.toggle. */
    var key: int
    var size: int
    var slot: ToggleSlot?

    /** The HeapBlocks of the region, in address order. */
    var blocks: seq<Block>

    ghost predicate Valid()
      reads this
    {
      && header > 0
      && (blocks != [] ==>
            && WellFormed(blocks, header, size)
            && header % 8 == 0
            && FirstBlock() % 8 == 0)
    }

    /** Heap::isConstructed: the key is set and the first block exists. */
    function IsConstructed(): (r: bool)
      reads this
      ensures r ==> BlockOf(FirstBlock() + header) == Some(0)
    {
      key == HEAP_KEY && blocks != []
    }

    /** Heap::getFirstBlock: the region starts right after the Heap object. */
    function FirstBlock(): nat
      reads this
    {
      address + objectSize
    }

    /** Address of block `i` (or of the region end when `i == |blocks|`). */
    function BlockAddress(i: nat): nat
      requires i <= |blocks|
      reads this
    {
      FirstBlock() + Offset(blocks, header, i)
    }

    /** HeapBlock::data: the payload of block `i` starts after its header. */
    function Data(i: nat): (r: nat)
      requires i < |blocks|
      reads this
      ensures header > 0 ==> BlockOf(r) == Some(i)
    {
      if header > 0 then
        BlockAtOffset(blocks, header, i);
        BlockAddress(i) + header
      else
        BlockAddress(i) + header
    }

    /**
     * Heap::heapBlock: the block whose payload starts at `ptr`, found by
     * stepping back over a header; None when no block starts there.
     */
    function BlockOf(ptr: int): (r: Option<nat>)
      reads this
      ensures r.Some? ==> r.value < |blocks| && BlockAddress(r.value) + header == ptr
    {
      BlockAt(blocks, header, ptr - header - FirstBlock())
    }

    /** The toggle behind the heap's toggle reference, if both are set. */
    function ToggleOf(): Toggle?
      reads this, slot
    {
      if slot == null then null else slot.toggle
    }

    /** HeapBlock::canDelete: block `i` is a constructed block of a constructed heap. */
    function CanDelete(i: nat): (r: bool)
      reads this
      ensures r ==> i < |blocks| && key == HEAP_KEY
      ensures r && header > 0 ==> BlockOf(Data(i)) == Some(i)
    {
      i < |blocks| && IsConstructed()
    }

    /**
     * Heap(size) and Heap(size, toggle): `region` is the memory after the
     * object, which the memory test overwrites.
     */
    constructor (isize: nat, header: nat, objectSize: nat, address: nat, slot: ToggleSlot?, region: array<byte>)
      requires header > 0
      requires UsableSize(isize, objectSize) <= region.Length
      modifies region
      ensures this.header == header && this.objectSize == objectSize && this.address == address
      ensures this.slot == slot && size == UsableSize(isize, objectSize)
      ensures Valid()
      ensures IsConstructed() <==> Constructible(isize, header, objectSize, address)
      ensures IsConstructed() ==> blocks == [NewBlock(size, header)]
      ensures !IsConstructed() ==> blocks == []
    {
      this.header := header;
      this.objectSize := objectSize;
      this.address := address;
      this.slot := slot;
      size := UsableSize(isize, objectSize);
      key := HEAP_KEY;
      blocks := [];
      new;
      var isConstructed := Construct(region);
      SetConstructed(isConstructed);
    }

    /** Heap::setConstructed: the key can only be cleared. */
    method SetConstructed(flag: bool)
      modifies this`key
      ensures key == (if old(key) == HEAP_KEY && !flag then 0 else old(key))
    {
      if key == HEAP_KEY {
        key := if flag then HEAP_KEY else 0;
      }
    }

    /**
     * Heap::construct: checks the sizes, tests the region and places the
     * first block, which spans the whole usable size.
     */
    method Construct(region: array<byte>) returns (ok: bool)
      requires blocks == [] && header > 0
      requires size <= region.Length
      requires objectSize % 8 == 0 ==> size % 8 == 0
      modifies this`blocks, region
      ensures ok <==> header + 16 <= size && objectSize % 8 == 0 && header % 8 == 0 && FirstBlock() % 8 == 0
      ensures ok ==> blocks == [NewBlock(size, header)] && WellFormed(blocks, header, size)
      ensures !ok ==> blocks == []
      ensures header + 16 <= size && objectSize % 8 == 0 && header % 8 == 0 ==>
        forall k :: 0 <= k < size ==> region[k] == 0
    {
      if header + 16 > size {
        return false;
      }
      if objectSize % 8 != 0 {
        return false;
      }
      if header % 8 != 0 {
        return false;
      }
      var tested := IsMemoryAvailable(region, size);
      if !tested {
        return false;
      }
      var first := PlaceBlock(header, FirstBlock());
      if first.None? {
        return false;
      }
      blocks := [NewBlock(size, header)];
      ok := true;
    }

    /** ~Heap: clears the key. */
    method Destroy()
      modifies this`key
      ensures key == 0 && !IsConstructed()
    {
      key := 0;
    }

    /** Heap::setToggle: refer to the application's toggle variable `toggle`. */
    method SetToggle(toggle: ToggleSlot)
      modifies this`slot
      ensures slot == toggle
    {
      slot := toggle;
    }

    /** Heap::resetToggle: stop switching interrupts. */
    method ResetToggle()
      modifies this`slot
      ensures slot == null
    {
      slot := null;
    }

    /** Heap::disable: without a toggle it reports false and does nothing. */
    method Disable() returns (wasEnabled: bool)
      modifies ToggleOf()
      ensures ToggleOf() == null ==> !wasEnabled
      ensures ToggleOf() != null ==>
        && wasEnabled == old(ToggleOf().enabled) && !ToggleOf().enabled
        && ToggleOf().calls == old(ToggleOf().calls) + [DisableCall(wasEnabled)]
    {
      if slot == null {
        return false;
      }
      var toggle := slot.toggle;
      if toggle != null {
        wasEnabled := toggle.Disable();
      } else {
        wasEnabled := false;
      }
    }

    /** Heap::enable: hands `status` back to the toggle, if there is one. */
    method Enable(status: bool)
      modifies ToggleOf()
      ensures ToggleOf() != null ==>
        && ToggleOf().enabled == status
        && ToggleOf().calls == old(ToggleOf().calls) + [EnableCall(status)]
    {
      if slot == null {
        return;
      }
      var toggle := slot.toggle;
      if toggle != null {
        toggle.Enable(status);
      }
    }

    /**
     * Heap::allocate. An unconstructed heap gives null, a non-null `ptr` is
     * returned as it is, and otherwise the first block serves the request
     * with interrupts switched off and then restored.
     */
    method Allocate(size: nat, ptr: nat) returns (r: nat)
      requires Valid()
      modifies this`blocks, ToggleOf()
      ensures Valid()
      ensures !old(IsConstructed()) || ptr != 0 ==>
        && r == (if old(IsConstructed()) then ptr else 0)
        && blocks == old(blocks)
        && (ToggleOf() != null ==> unchanged(ToggleOf()))
      ensures old(IsConstructed()) && ptr == 0 ==>
        && Served(old(blocks), header, FirstBlock(), size, r, blocks)
        && (ToggleOf() != null ==> Bracketed(old(ToggleOf().enabled), old(ToggleOf().calls), ToggleOf()))
    {
      if !IsConstructed() {
        return 0;
      }
      if ptr != 0 {
        return ptr;
      }
      var wasEnabled := Disable();
      r := Alloc(size);
      Enable(wasEnabled);
    }

    /**
     * Heap::free. A null pointer or an unconstructed heap is ignored;
     * otherwise the block found by stepping back over a header is freed
     * with interrupts switched off and then restored. The pointer must be
     * the payload of one of the heap's blocks (the heap cannot tell).
     */
    method Free(ptr: nat)
      requires Valid()
      requires ptr != 0 && IsConstructed() ==> BlockOf(ptr).Some?
      modifies this`blocks, ToggleOf()
      ensures Valid()
      ensures ptr == 0 || !old(IsConstructed()) ==>
        && blocks == old(blocks)
        && (ToggleOf() != null ==> unchanged(ToggleOf()))
      ensures ptr != 0 && old(IsConstructed()) ==>
        && blocks == Release(old(blocks), header, old(BlockOf(ptr)).value)
        && (ToggleOf() != null ==> Bracketed(old(ToggleOf().enabled), old(ToggleOf().calls), ToggleOf()))
    {
      if ptr == 0 {
        return;
      }
      if !IsConstructed() {
        return;
      }
      var wasEnabled := Disable();
      var block := BlockOf(ptr).value;
      FreeBlock(block);
      Enable(wasEnabled);
    }

    /**
     * HeapBlock::free of block `i`: unless it may not be deleted, it merges
     * with a free left neighbour, a free right neighbour, both or neither,
     * and the surviving block is free.
     */
    method FreeBlock(i: nat)
      requires Valid() && i < |blocks|
      modifies this`blocks
      ensures Valid()
      ensures blocks == if old(CanDelete(i)) then Release(old(blocks), header, i) else old(blocks)
    {
      if !CanDelete(i) {
        return;
      }
      var sibling: bv8 := 0;
      if i > 0 && !blocks[i - 1].used {
        sibling := sibling | PREV_FREE;
      }
      if i + 1 < |blocks| && !blocks[i + 1].used {
        sibling := sibling | NEXT_FREE;
      }
      ghost var before := blocks;
      if sibling == PREV_FREE | NEXT_FREE {
        var merged := blocks[i - 1].(size := blocks[i - 1].size + 2 * header + blocks[i].size + blocks[i + 1].size);
        blocks := blocks[..i - 1] + [merged] + blocks[i + 2..];
      } else if sibling == PREV_FREE {
        var merged := blocks[i - 1].(size := blocks[i - 1].size + header + blocks[i].size);
        blocks := blocks[..i - 1] + [merged] + blocks[i + 1..];
      } else if sibling == NEXT_FREE {
        var merged := blocks[i].(size := blocks[i].size + header + blocks[i + 1].size, used := false);
        blocks := blocks[..i] + [merged] + blocks[i + 2..];
      } else {
        blocks := blocks[i := blocks[i].(used := false)];
      }
      ReleaseWellFormed(before, header, size, i);
    }

    /**
     * The toggle was switched off and back on exactly once, the enable
     * receiving what the disable returned, so its state is as before.
     */
    ghost predicate Bracketed(wasEnabled: bool, calls: seq<ToggleCall>, toggle: Toggle)
      reads toggle
    {
      && toggle.enabled == wasEnabled
      && toggle.calls == calls + [DisableCall(wasEnabled), EnableCall(wasEnabled)]
    }

    /**
     * HeapBlock::alloc called on the first block: round the request up to a
     * multiple of 8, find the first free block large enough, split off the
     * rest when it can hold a header, and mark the block used.
     */
    method Alloc(size: nat) returns (r: nat)
      requires Valid() && blocks != []
      modifies this`blocks
      ensures Valid() && blocks != []
      ensures Served(old(blocks), header, FirstBlock(), size, r, blocks)
    {
      r := 0;
      if size == 0 {
        return;
      }
      var request := size;
      if request % 8 != 0 {
        request := request - request % 8 + 8;
      }
      assert request == RoundUp(size);
      var curr := 0;
      while curr < |blocks|
        invariant curr <= |blocks|
        invariant FirstFitFrom(blocks, request, curr) == FirstFit(blocks, request)
        decreases |blocks| - curr
      {
        if blocks[curr].used {
          curr := curr + 1;
          continue;
        }
        if blocks[curr].size < request {
          curr := curr + 1;
          continue;
        }
        break;
      }
      if curr == |blocks| {
        return;
      }
      ghost var before := blocks;
      Occupy(curr, request);
      CarveServes(before, header, FirstBlock(), size, curr);
      r := Data(curr);
    }

    /**
     * The tail of HeapBlock::alloc on the chosen block `curr`: a new free
     * block is placed after the first `request` payload bytes when the rest
     * can hold a header, and `curr` is marked used.
     */
    method Occupy(curr: nat, request: nat)
      requires Valid() && curr < |blocks| && Fits(blocks[curr], request) && request % 8 == 0
      modifies this`blocks
      ensures Valid()
      ensures blocks == Carve(old(blocks), header, curr, request)
    {
      ghost var before := blocks;
      if blocks[curr].size >= request + header {
        OffsetAligned(blocks, header, curr);
        var next := PlaceBlock(header, BlockAddress(curr) + header + request);
        if next.None? {
          return;
        }
        var rest := NewBlock(blocks[curr].size - request, header);
        blocks := blocks[..curr] + [blocks[curr].(size := request), rest] + blocks[curr + 1..];
      }
      blocks := blocks[curr := blocks[curr].(used := true)];
      assert blocks == Carve(before, header, curr, request);
      CarveWellFormed(before, header, size, curr, request);
    }
  }

}
