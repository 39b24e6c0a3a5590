/**
 * The block list of a heap region, as values.
 *
 * A heap region is a run of HeapBlock headers, each followed by its payload.
 * Here a block is its payload size and its used attribute; the header size is
 * a parameter (`header`, the size of a HeapBlock), and where a block sits is
 * the sum of the headers and payloads before it. HeapBlock::alloc and
 * HeapBlock::free change the list as `Carve` and `Release` say.
 */
module HeapLayout {
  import opened Wrappers
  import opened Types

  /** One HeapBlock: the payload size in bytes and whether ATTR_USED is set. */
  datatype Block = Block(size: nat, used: bool)

  /** Bytes spanned by a run of blocks: a header plus a payload for each. */
  function Footprint(bs: seq<Block>, header: nat): nat
  {
    if bs == [] then 0 else header + bs[0].size + Footprint(bs[1..], header)
  }

  /** Distance of block `i` from the first block: the footprint of the blocks before it. */
  function Offset(bs: seq<Block>, header: nat, i: nat): nat
    requires i <= |bs|
  {
    Footprint(bs[..i], header)
  }

  /** A block can serve a request of `size` bytes: it is free and large enough. */
  predicate Fits(b: Block, size: nat)
  {
    !b.used && size <= b.size
  }

  /** Every payload is a whole number of 8-byte units. */
  ghost predicate Aligned(bs: seq<Block>)
  {
    forall i :: 0 <= i < |bs| ==> bs[i].size % 8 == 0
  }

  /** Coalescing invariant: of two neighbouring blocks at least one is used. */
  ghost predicate NoAdjacentFree(bs: seq<Block>)
  {
    forall i, j :: 0 <= i < j < |bs| && j == i + 1 ==> bs[i].used || bs[j].used
  }

  /** The invariants of a constructed heap whose usable size is `total`. */
  ghost predicate WellFormed(bs: seq<Block>, header: nat, total: int)
  {
    && |bs| > 0
    && Footprint(bs, header) == total
    && Aligned(bs)
    && NoAdjacentFree(bs)
  }

  /** The request size HeapBlock::alloc works with: the least multiple of 8 not below `size`. */
  function RoundUp(size: nat): (r: nat)
    ensures r % 8 == 0
    ensures size <= r < size + 8
  {
    if size % 8 != 0 then size - size % 8 + 8 else size
  }

  /** The first-fit scan started at block `k`. */
  function FirstFitFrom(bs: seq<Block>, size: nat, k: nat): (r: Option<nat>)
    requires k <= |bs|
    ensures r.Some? ==> k <= r.value < |bs| && Fits(bs[r.value], size)
    ensures r.Some? ==> forall j :: k <= j < r.value ==> !Fits(bs[j], size)
    ensures r.None? ==> forall j :: k <= j < |bs| ==> !Fits(bs[j], size)
    decreases |bs| - k
  {
    if k == |bs| then None
    else if Fits(bs[k], size) then Some(k)
    else FirstFitFrom(bs, size, k + 1)
  }

  /** The block HeapBlock::alloc chooses: the first free block, in list order, that is large enough. */
  function FirstFit(bs: seq<Block>, size: nat): Option<nat>
  {
    FirstFitFrom(bs, size, 0)
  }

  /**
   * What HeapBlock::alloc does to the chosen block `i` for a rounded request
   * `size`: when the payload can also hold a header (note `>=`, so the new
   * block may have an empty payload), the tail becomes a new free block right
   * after it; either way the block is marked used.
   */
  function Carve(bs: seq<Block>, header: nat, i: nat, size: nat): (r: seq<Block>)
    requires i < |bs|
    ensures |bs| <= |r| <= |bs| + 1 && r[..i] == bs[..i] && r[i].used
  {
    if bs[i].size >= size + header then
      bs[..i] + [Block(size, true), Block(bs[i].size - size - header, false)] + bs[i + 1..]
    else
      bs[i := bs[i].(used := true)]
  }

  /**
   * What HeapBlock::free does to block `i`: merge it into a free left
   * neighbour, absorb a free right neighbour, both, or neither, and leave the
   * surviving block free.
   */
  function Release(bs: seq<Block>, header: nat, i: nat): (r: seq<Block>)
    requires i < |bs|
    ensures |r| <= |bs| <= |r| + 2
  {
    var prevFree := i > 0 && !bs[i - 1].used;
    var nextFree := i + 1 < |bs| && !bs[i + 1].used;
    if prevFree && nextFree then
      bs[..i - 1] + [bs[i - 1].(size := bs[i - 1].size + 2 * header + bs[i].size + bs[i + 1].size)] + bs[i + 2..]
    else if prevFree then
      bs[..i - 1] + [bs[i - 1].(size := bs[i - 1].size + header + bs[i].size)] + bs[i + 1..]
    else if nextFree then
      bs[..i] + [Block(bs[i].size + header + bs[i + 1].size, false)] + bs[i + 2..]
    else
      bs[i := bs[i].(used := false)]
  }

  /** Index of the block that starts `off` bytes after the first block, if any. */
  function BlockAt(bs: seq<Block>, header: nat, off: int): (r: Option<nat>)
    ensures r.Some? ==> r.value < |bs| && Offset(bs, header, r.value) == off
  {
    if bs == [] || off < 0 then None
    else if off == 0 then Some(0)
    else match BlockAt(bs[1..], header, off - header - bs[0].size)
      case None => None
      case Some(k) =>
        OffsetStep(bs, header, k);
        Some(k + 1)
  }

  // ---------------------------------------------------------------------
  // Footprint and offset arithmetic

  lemma {:induction false} FootprintAppend(a: seq<Block>, b: seq<Block>, header: nat)
    ensures Footprint(a + b, header) == Footprint(a, header) + Footprint(b, header)
  {
    if a == [] {
      assert a + b == b;
    } else {
      assert (a + b)[1..] == a[1..] + b;
      FootprintAppend(a[1..], b, header);
    }
  }

  lemma FootprintSingle(b: Block, header: nat)
    ensures Footprint([b], header) == header + b.size
  {
    assert [b][1..] == [];
  }

  /** The offset of block k + 1 is the first block's span plus the offset of block k in the rest. */
  lemma OffsetStep(bs: seq<Block>, header: nat, k: nat)
    requires k + 1 <= |bs|
    ensures Offset(bs, header, k + 1) == header + bs[0].size + Offset(bs[1..], header, k)
  {
    assert bs[..k + 1][1..] == bs[1..][..k];
  }

  /** Offsets grow by each block's span. */
  lemma OffsetNext(bs: seq<Block>, header: nat, i: nat)
    requires i < |bs|
    ensures Offset(bs, header, i + 1) == Offset(bs, header, i) + header + bs[i].size
  {
    assert bs[..i + 1] == bs[..i] + [bs[i]];
    FootprintAppend(bs[..i], [bs[i]], header);
    FootprintSingle(bs[i], header);
  }

  /** The span of the whole list is the offset just past its last block. */
  lemma OffsetEnd(bs: seq<Block>, header: nat)
    ensures Offset(bs, header, |bs|) == Footprint(bs, header)
  {
    assert bs[..|bs|] == bs;
  }

  /** With 8-aligned headers and payloads, every block starts 8-aligned from the first. */
  lemma {:induction false} OffsetAligned(bs: seq<Block>, header: nat, i: nat)
    requires header % 8 == 0 && Aligned(bs) && i <= |bs|
    ensures Offset(bs, header, i) % 8 == 0
  {
    if i > 0 {
      OffsetAligned(bs, header, i - 1);
      OffsetNext(bs, header, i - 1);
    }
  }

  /** With a non-empty header, offsets strictly increase along the list. */
  lemma {:induction false} OffsetMonotone(bs: seq<Block>, header: nat, i: nat, j: nat)
    requires header > 0 && i < j <= |bs|
    ensures Offset(bs, header, i) < Offset(bs, header, j)
  {
    OffsetNext(bs, header, j - 1);
    if i < j - 1 {
      OffsetMonotone(bs, header, i, j - 1);
    }
  }

  /**
   * Round trip of HeapBlock::data and Heap::heapBlock: the address of block i
   * resolves back to block i.
   */
  lemma {:induction false} BlockAtOffset(bs: seq<Block>, header: nat, i: nat)
    requires header > 0 && i < |bs|
    ensures BlockAt(bs, header, Offset(bs, header, i)) == Some(i)
  {
    if i > 0 {
      OffsetStep(bs, header, i - 1);
      BlockAtOffset(bs[1..], header, i - 1);
    }
  }

  /** The first fit is Some(i) exactly when block i fits and no block before it does. */
  lemma {:induction false} FirstFitFromIs(bs: seq<Block>, size: nat, k: nat, i: nat)
    requires k <= i < |bs| && Fits(bs[i], size)
    requires forall j :: k <= j < i ==> !Fits(bs[j], size)
    ensures FirstFitFrom(bs, size, k) == Some(i)
    decreases i - k
  {
    if k < i {
      FirstFitFromIs(bs, size, k + 1, i);
    }
  }

  lemma FirstFitIs(bs: seq<Block>, size: nat, i: nat)
    requires i < |bs| && Fits(bs[i], size)
    requires forall j :: 0 <= j < i ==> !Fits(bs[j], size)
    ensures FirstFit(bs, size) == Some(i)
  {
    FirstFitFromIs(bs, size, 0, i);
  }

  /** Offsets stay in step over a stretch of equal blocks that starts at equal offsets. */
  lemma {:induction false} OffsetShift(r: seq<Block>, bs: seq<Block>, header: nat, p: nat, q: nat, t: nat)
    requires p + t <= |r| && q + t <= |bs|
    requires Offset(r, header, p) == Offset(bs, header, q)
    requires forall k :: p <= k < p + t ==> r[k] == bs[k - p + q]
    ensures Offset(r, header, p + t) == Offset(bs, header, q + t)
  {
    if t > 0 {
      OffsetShift(r, bs, header, p, q, t - 1);
      OffsetNext(r, header, p + t - 1);
      OffsetNext(bs, header, q + t - 1);
    }
  }

  /** Equal prefixes have equal offsets. */
  lemma OffsetPrefix(r: seq<Block>, bs: seq<Block>, header: nat, i: nat)
    requires i <= |r| && i <= |bs| && r[..i] == bs[..i]
    ensures Offset(r, header, i) == Offset(bs, header, i)
  {
  }

  // ---------------------------------------------------------------------
  // HeapBlock::alloc

  /**
   * Where the blocks are after a carve: the blocks before `i` and the chosen
   * block keep their addresses; after a split the new free block starts
   * right after the shrunk payload, with payload old - size - header, and
   * every later block keeps its address.
   */
  lemma CarveLayout(bs: seq<Block>, header: nat, i: nat, size: nat)
    requires i < |bs|
    ensures var r := Carve(bs, header, i, size);
      && (forall j :: 0 <= j < i ==> r[j] == bs[j])
      && Offset(r, header, i) == Offset(bs, header, i)
      && (bs[i].size >= size + header ==>
            && |r| == |bs| + 1
            && r[i] == Block(size, true)
            && r[i + 1] == Block(bs[i].size - size - header, false)
            && Offset(r, header, i + 1) == Offset(bs, header, i) + header + size
            && (forall j :: i < j < |bs| ==> r[j + 1] == bs[j])
            && (forall j :: i < j <= |bs| ==> Offset(r, header, j + 1) == Offset(bs, header, j)))
      && (bs[i].size < size + header ==>
            && |r| == |bs|
            && r[i] == Block(bs[i].size, true)
            && (forall j :: i < j < |bs| ==> r[j] == bs[j])
            && (forall j :: i < j <= |bs| ==> Offset(r, header, j) == Offset(bs, header, j)))
  {
    var r := Carve(bs, header, i, size);
    assert r[..i] == bs[..i];
    OffsetPrefix(r, bs, header, i);
    OffsetNext(r, header, i);
    OffsetNext(bs, header, i);
    if bs[i].size >= size + header {
      OffsetNext(r, header, i + 1);
      forall j | i < j <= |bs|
        ensures Offset(r, header, j + 1) == Offset(bs, header, j)
      {
        OffsetShift(r, bs, header, i + 2, i + 1, j - i - 1);
      }
    } else {
      forall j | i < j <= |bs|
        ensures Offset(r, header, j) == Offset(bs, header, j)
      {
        OffsetShift(r, bs, header, i + 1, i + 1, j - i - 1);
      }
    }
  }

  /** HeapBlock::alloc conserves the bytes of the region. */
  lemma CarveFootprint(bs: seq<Block>, header: nat, i: nat, size: nat)
    requires i < |bs|
    ensures Footprint(Carve(bs, header, i, size), header) == Footprint(bs, header)
  {
    var r := Carve(bs, header, i, size);
    CarveLayout(bs, header, i, size);
    OffsetEnd(r, header);
    OffsetEnd(bs, header);
  }

  /**
   * HeapBlock::alloc on a fitting free block keeps the heap invariants: the
   * footprint, 8-byte payloads and no two free neighbours.
   */
  lemma CarveWellFormed(bs: seq<Block>, header: nat, total: int, i: nat, size: nat)
    requires WellFormed(bs, header, total)
    requires header % 8 == 0 && size % 8 == 0
    requires i < |bs| && Fits(bs[i], size)
    ensures WellFormed(Carve(bs, header, i, size), header, total)
  {
    var r := Carve(bs, header, i, size);
    CarveLayout(bs, header, i, size);
    CarveFootprint(bs, header, i, size);
    if bs[i].size >= size + header {
      assert i + 1 < |bs| ==> bs[i + 1].used;
      forall p, q | 0 <= p < q < |r| && q == p + 1
        ensures r[p].used || r[q].used
      {
        if q < i {
          assert r[p] == bs[p] && r[q] == bs[q];
        } else if q == i + 2 {
          assert r[q] == bs[i + 1];
        } else if q > i + 2 {
          assert r[p] == bs[p - 1] && r[q] == bs[q - 1];
        }
      }
      forall p | 0 <= p < |r|
        ensures r[p].size % 8 == 0
      {
        if p > i + 1 {
          assert r[p] == bs[p - 1];
        }
      }
    } else {
      forall p, q | 0 <= p < q < |r| && q == p + 1
        ensures r[p].used || r[q].used
      {
        assert r[p].used == (bs[p].used || p == i);
        assert r[q].used == (bs[q].used || q == i);
      }
    }
  }

  /**
   * Allocating and then freeing the same block restores the list exactly:
   * the remainder of a split is absorbed again and the used flag cleared.
   */
  lemma AllocReleaseRoundTrip(bs: seq<Block>, header: nat, total: int, size: nat, i: nat)
    requires WellFormed(bs, header, total)
    requires FirstFit(bs, size) == Some(i)
    ensures Release(Carve(bs, header, i, size), header, i) == bs
  {
    assert i > 0 ==> bs[i - 1].used;
    assert i + 1 < |bs| ==> bs[i + 1].used;
    if bs[i].size >= size + header {
      ReleaseUndoesSplit(bs, header, i, size);
    } else {
      ReleaseUndoesMark(bs, header, i, size);
    }
  }

  /** Freeing a block just split off from a free block absorbs the remainder again. */
  lemma ReleaseUndoesSplit(bs: seq<Block>, header: nat, i: nat, size: nat)
    requires i < |bs| && !bs[i].used && bs[i].size >= size + header
    requires i > 0 ==> bs[i - 1].used
    ensures Release(Carve(bs, header, i, size), header, i) == bs
  {
    var r := Carve(bs, header, i, size);
    assert r == bs[..i] + [Block(size, true), Block(bs[i].size - size - header, false)] + bs[i + 1..];
    assert i > 0 ==> r[i - 1] == bs[i - 1];
    assert r[i + 1] == Block(bs[i].size - size - header, false);
    assert Release(r, header, i) == r[..i] + [Block(bs[i].size, false)] + r[i + 2..];
    assert r[..i] == bs[..i] && r[i + 2..] == bs[i + 1..];
  }

  /** Freeing a block just marked used, between used neighbours, clears the mark again. */
  lemma ReleaseUndoesMark(bs: seq<Block>, header: nat, i: nat, size: nat)
    requires i < |bs| && !bs[i].used && bs[i].size < size + header
    requires i > 0 ==> bs[i - 1].used
    requires i + 1 < |bs| ==> bs[i + 1].used
    ensures Release(Carve(bs, header, i, size), header, i) == bs
  {
    var r := Carve(bs, header, i, size);
    assert r == bs[i := bs[i].(used := true)];
    assert Release(r, header, i) == r[i := r[i].(used := false)];
  }

  // ---------------------------------------------------------------------
  // HeapBlock::free

  /**
   * HeapBlock::free of block `i` replaced blocks j .. j + m (the block and the
   * free neighbours it merged with) by the one free block `s` spanning their
   * bytes; a free block just outside the merged run would sit next to a free
   * block already.
   */
  ghost predicate Merges(bs: seq<Block>, header: nat, i: nat, j: nat, m: nat, s: Block)
    requires i < |bs|
  {
    && j <= i <= j + m < |bs| && m <= 2
    && !s.used
    && Release(bs, header, i) == bs[..j] + [s] + bs[j + m + 1..]
    && Offset(bs, header, j) + header + s.size == Offset(bs, header, j + m + 1)
    && (j > 0 && !bs[j - 1].used ==> !bs[j].used)
    && (j + m + 1 < |bs| && !bs[j + m + 1].used ==> !bs[j + m].used)
  }

  /** HeapBlock::free replaces the block and its free neighbours (left, right, both or none) by one free block spanning their bytes. */
  lemma ReleaseSplice(bs: seq<Block>, header: nat, i: nat) returns (j: nat, m: nat, s: Block)
    requires i < |bs|
    ensures Merges(bs, header, i, j, m, s)
  {
    var prevFree := i > 0 && !bs[i - 1].used;
    var nextFree := i + 1 < |bs| && !bs[i + 1].used;
    if prevFree && nextFree {
      j, m, s := ReleaseBetweenFree(bs, header, i);
    } else if prevFree {
      j, m, s := ReleaseAfterFree(bs, header, i);
    } else if nextFree {
      j, m, s := ReleaseBeforeFree(bs, header, i);
    } else {
      j, m, s := ReleaseAlone(bs, header, i);
    }
  }

  /** Free neighbours on both sides: the left one absorbs the block and the right one. */
  lemma ReleaseBetweenFree(bs: seq<Block>, header: nat, i: nat) returns (j: nat, m: nat, s: Block)
    requires 0 < i && i + 1 < |bs| && !bs[i - 1].used && !bs[i + 1].used
    ensures j == i - 1 && m == 2 && Merges(bs, header, i, j, m, s)
  {
    OffsetNext(bs, header, i - 1);
    OffsetNext(bs, header, i);
    OffsetNext(bs, header, i + 1);
    j, m := i - 1, 2;
    s := bs[i - 1].(size := bs[i - 1].size + 2 * header + bs[i].size + bs[i + 1].size);
  }

  /** Only the left neighbour free: it absorbs the block. */
  lemma ReleaseAfterFree(bs: seq<Block>, header: nat, i: nat) returns (j: nat, m: nat, s: Block)
    requires 0 < i < |bs| && !bs[i - 1].used && !(i + 1 < |bs| && !bs[i + 1].used)
    ensures j == i - 1 && m == 1 && Merges(bs, header, i, j, m, s)
  {
    OffsetNext(bs, header, i - 1);
    OffsetNext(bs, header, i);
    j, m := i - 1, 1;
    s := bs[i - 1].(size := bs[i - 1].size + header + bs[i].size);
  }

  /** Only the right neighbour free: the block absorbs it and becomes free. */
  lemma ReleaseBeforeFree(bs: seq<Block>, header: nat, i: nat) returns (j: nat, m: nat, s: Block)
    requires i + 1 < |bs| && !bs[i + 1].used && !(i > 0 && !bs[i - 1].used)
    ensures j == i && m == 1 && Merges(bs, header, i, j, m, s)
  {
    OffsetNext(bs, header, i);
    OffsetNext(bs, header, i + 1);
    j, m := i, 1;
    s := Block(bs[i].size + header + bs[i + 1].size, false);
  }

  /** No free neighbour: the block only becomes free. */
  lemma ReleaseAlone(bs: seq<Block>, header: nat, i: nat) returns (j: nat, m: nat, s: Block)
    requires i < |bs| && !(i > 0 && !bs[i - 1].used) && !(i + 1 < |bs| && !bs[i + 1].used)
    ensures j == i && m == 0 && Merges(bs, header, i, j, m, s)
  {
    OffsetNext(bs, header, i);
    j, m := i, 0;
    s := bs[i].(used := false);
    assert bs[i := s] == bs[..i] + [s] + bs[i + 1..];
  }

  /**
   * Replacing blocks j .. j + m by one block `s` that spans the same bytes
   * leaves every other block, and its address, in place.
   */
  lemma SpliceLayout(bs: seq<Block>, header: nat, j: nat, m: nat, s: Block)
    requires j + m < |bs|
    requires Offset(bs, header, j) + header + s.size == Offset(bs, header, j + m + 1)
    ensures var r := bs[..j] + [s] + bs[j + m + 1..];
      && |r| == |bs| - m
      && r[j] == s
      && (forall k :: 0 <= k < j ==> r[k] == bs[k])
      && Offset(r, header, j) == Offset(bs, header, j)
      && Offset(r, header, j + 1) == Offset(bs, header, j + m + 1)
      && (forall k :: j < k < |r| ==> r[k] == bs[k + m])
      && (forall k :: j < k <= |r| ==> Offset(r, header, k) == Offset(bs, header, k + m))
  {
    var r := bs[..j] + [s] + bs[j + m + 1..];
    assert r[..j] == bs[..j];
    OffsetPrefix(r, bs, header, j);
    OffsetNext(r, header, j);
    forall k | j < k <= |r|
      ensures Offset(r, header, k) == Offset(bs, header, k + m)
    {
      OffsetShift(r, bs, header, j + 1, j + m + 1, k - j - 1);
    }
  }

  /** HeapBlock::free conserves the bytes of the region. */
  lemma ReleaseFootprint(bs: seq<Block>, header: nat, i: nat)
    requires i < |bs|
    ensures Footprint(Release(bs, header, i), header) == Footprint(bs, header)
  {
    var r := Release(bs, header, i);
    var j, m, s := ReleaseSplice(bs, header, i);
    SpliceLayout(bs, header, j, m, s);
    OffsetEnd(r, header);
    OffsetEnd(bs, header);
  }

  /**
   * HeapBlock::free keeps the heap invariants: if no two neighbours were
   * free before, none are after, and payloads stay multiples of 8.
   */
  lemma ReleaseWellFormed(bs: seq<Block>, header: nat, total: int, i: nat)
    requires WellFormed(bs, header, total)
    requires header % 8 == 0
    requires i < |bs|
    ensures WellFormed(Release(bs, header, i), header, total)
  {
    var j, m, s := ReleaseSplice(bs, header, i);
    // The survivor's outer neighbours are used: a free one would sit next to a free block.
    assert j > 0 ==> bs[j - 1].used;
    assert j + m + 1 < |bs| ==> bs[j + m + 1].used;
    SpliceAligned(bs, header, total, j, m, s);
  }

  /** The merged block's payload is a multiple of 8 because both of its ends are aligned offsets. */
  lemma SpliceAligned(bs: seq<Block>, header: nat, total: int, j: nat, m: nat, s: Block)
    requires WellFormed(bs, header, total)
    requires header % 8 == 0
    requires j + m < |bs|
    requires Offset(bs, header, j) + header + s.size == Offset(bs, header, j + m + 1)
    requires !s.used
    requires j > 0 ==> bs[j - 1].used
    requires j + m + 1 < |bs| ==> bs[j + m + 1].used
    ensures WellFormed(bs[..j] + [s] + bs[j + m + 1..], header, total)
  {
    OffsetAligned(bs, header, j);
    OffsetAligned(bs, header, j + m + 1);
    SpliceWellFormed(bs, header, total, j, m, s);
  }

  /**
   * Replacing blocks j .. j + m by one free block that spans the same
   * bytes, between used neighbours, keeps the heap invariants.
   */
  lemma SpliceWellFormed(bs: seq<Block>, header: nat, total: int, j: nat, m: nat, s: Block)
    requires WellFormed(bs, header, total)
    requires j + m < |bs|
    requires Offset(bs, header, j) + header + s.size == Offset(bs, header, j + m + 1)
    requires !s.used && s.size % 8 == 0
    requires j > 0 ==> bs[j - 1].used
    requires j + m + 1 < |bs| ==> bs[j + m + 1].used
    ensures WellFormed(bs[..j] + [s] + bs[j + m + 1..], header, total)
  {
    var r := bs[..j] + [s] + bs[j + m + 1..];
    SpliceLayout(bs, header, j, m, s);
    OffsetEnd(r, header);
    OffsetEnd(bs, header);
    forall p, q | 0 <= p < q < |r| && q == p + 1
      ensures r[p].used || r[q].used
    {
      if q < j {
        assert r[p] == bs[p] && r[q] == bs[q];
      } else if q == j {
        assert r[p] == bs[j - 1];
      } else if p == j {
        assert r[q] == bs[j + m + 1];
      } else {
        assert r[p] == bs[p + m] && r[q] == bs[q + m];
      }
    }
    forall p | 0 <= p < |r|
      ensures r[p].size % 8 == 0
    {
      if p > j {
        assert r[p] == bs[p + m];
      }
    }
  }

  /** Freeing a block that is already free changes nothing (the neighbours of a free block are used). */
  lemma ReleaseFreeBlock(bs: seq<Block>, header: nat, total: int, i: nat)
    requires WellFormed(bs, header, total)
    requires i < |bs| && !bs[i].used
    ensures Release(bs, header, i) == bs
  {
    assert i > 0 ==> bs[i - 1].used;
    assert i + 1 < |bs| ==> bs[i + 1].used;
  }

  // ---------------------------------------------------------------------
  // Request rounding in a size_t

  /**
   * The rounding as HeapBlock::alloc writes it on a `size_t` of `modulus`
   * values: `(size & ~7) + 8` is taken modulo the word size.
   */
  function RoundUpAsWritten(size: nat, modulus: nat): (r: nat)
    requires size < modulus && modulus % 8 == 0
    ensures r < modulus && r % 8 == 0
    ensures size + 8 <= modulus ==> r == RoundUp(size)
  {
    if size % 8 != 0 then
      RoundedWithinWord(size, modulus);
      Wrap(size - size % 8 + 8, modulus)
    else size
  }

  /** Below a word size that is a multiple of 8, rounding up reaches at most the word size. */
  lemma RoundedWithinWord(size: nat, modulus: nat)
    requires size < modulus && modulus % 8 == 0
    ensures size - size % 8 + 8 <= modulus
  {
    var q, m := size / 8, modulus / 8;
    assert size - size % 8 == 8 * q && modulus == 8 * m;
    assert q < m;
  }

  /** A request in the last 7 values of `size_t` rounds to 0 as written. */
  lemma RoundUpAsWrittenWraps(size: nat, modulus: nat)
    requires modulus % 8 == 0 && modulus - 8 < size < modulus
    ensures RoundUpAsWritten(size, modulus) == 0
  {
    assert size - size % 8 + 8 == modulus;
  }

  /**
   * As written, such a request is served by any free block of a heap
   * smaller than the request: alloc returns a non-null pointer to a block
   * far smaller than asked.
   */
  lemma HugeRequestServedAsWritten(bs: seq<Block>, header: nat, total: int, size: nat, modulus: nat, i: nat)
    requires WellFormed(bs, header, total) && header > 0 && total < size
    requires modulus % 8 == 0 && modulus - 8 < size < modulus
    requires i < |bs| && !bs[i].used
    ensures FirstFit(bs, RoundUpAsWritten(size, modulus)).Some?
    ensures bs[FirstFit(bs, RoundUpAsWritten(size, modulus)).value].size < size
  {
    RoundUpAsWrittenWraps(size, modulus);
    assert Fits(bs[i], 0);
    var r := FirstFit(bs, 0);
    assert r.Some?;
    BlockWithinFootprint(bs, header, r.value);
  }

  /** Every block, header and payload, lies inside the region: it ends no later than the region does. */
  lemma BlockWithinFootprint(bs: seq<Block>, header: nat, i: nat)
    requires header > 0 && i < |bs|
    ensures Offset(bs, header, i) + header + bs[i].size <= Footprint(bs, header)
    ensures header + bs[i].size <= Footprint(bs, header)
  {
    OffsetNext(bs, header, i);
    if i + 1 < |bs| {
      OffsetMonotone(bs, header, i + 1, |bs|);
    }
    OffsetEnd(bs, header);
  }

  /**
   * With unbounded rounding, a request larger than the region is refused:
   * no block fits it.
   */
  lemma OversizeRequestRefused(bs: seq<Block>, header: nat, total: int, size: nat)
    requires WellFormed(bs, header, total) && header > 0
    requires size > total
    ensures FirstFit(bs, RoundUp(size)).None?
  {
    forall k | 0 <= k < |bs|
      ensures !Fits(bs[k], RoundUp(size))
    {
      BlockWithinFootprint(bs, header, k);
    }
  }

  // ---------------------------------------------------------------------
  // What HeapBlock::alloc returns

  /** The block HeapBlock::alloc serves a request of `size` bytes from; none for a 0-byte request. */
  function Chosen(bs: seq<Block>, size: nat): (r: Option<nat>)
    ensures r.Some? ==> r.value < |bs| && Fits(bs[r.value], RoundUp(size))
  {
    if size == 0 then None else FirstFit(bs, RoundUp(size))
  }

  /**
   * The outcome of HeapBlock::alloc on `bs` for `size` bytes, when the
   * first block is at address `first`: null and no change when no block is
   * chosen, otherwise the payload address of the chosen block, carved.
   */
  ghost predicate Served(bs: seq<Block>, header: nat, first: nat, size: nat, r: nat, after: seq<Block>)
  {
    match Chosen(bs, size)
    case None => r == 0 && after == bs
    case Some(i) =>
      && r == first + Offset(bs, header, i) + header
      && after == Carve(bs, header, i, RoundUp(size))
  }

  /**
   * Carving the block the first-fit scan chose, and answering with its
   * payload address in the carved list, is what HeapBlock::alloc promises.
   */
  lemma CarveServes(bs: seq<Block>, header: nat, first: nat, size: nat, i: nat)
    requires size > 0 && i < |bs| && FirstFit(bs, RoundUp(size)) == Some(i)
    ensures var after := Carve(bs, header, i, RoundUp(size));
      && i < |after|
      && Served(bs, header, first, size, first + Offset(after, header, i) + header, after)
  {
    CarveLayout(bs, header, i, RoundUp(size));
  }

  /**
   * A non-null result of HeapBlock::alloc is the payload of a used block of
   * the new list, at least as large as asked; stepping back over its header
   * (Heap::heapBlock) finds that block again. A null result means no free
   * block was large enough.
   */
  lemma ServedBlock(bs: seq<Block>, header: nat, total: int, first: nat, size: nat, r: nat, after: seq<Block>)
    requires WellFormed(bs, header, total) && header > 0
    requires Served(bs, header, first, size, r, after)
    ensures r == 0 <==> Chosen(bs, size).None?
    ensures r != 0 ==>
      && BlockAt(after, header, r - header - first) == Chosen(bs, size)
      && after[Chosen(bs, size).value].used
      && size <= after[Chosen(bs, size).value].size
  {
    match Chosen(bs, size)
    case None =>
    case Some(i) =>
      CarveLayout(bs, header, i, RoundUp(size));
      BlockAtOffset(after, header, i);
  }

  /**
   * Freeing what HeapBlock::alloc returned restores the block list: the
   * pointer leads back to the carved block, and releasing it merges the
   * split-off tail again.
   */
  lemma AllocFreeRoundTrip(bs: seq<Block>, header: nat, total: int, first: nat, size: nat, r: nat, after: seq<Block>)
    requires WellFormed(bs, header, total) && header > 0
    requires Served(bs, header, first, size, r, after)
    requires r != 0
    ensures BlockAt(after, header, r - header - first).Some?
    ensures Release(after, header, BlockAt(after, header, r - header - first).value) == bs
  {
    ServedBlock(bs, header, total, first, size, r, after);
    AllocReleaseRoundTrip(bs, header, total, RoundUp(size), Chosen(bs, size).value);
  }
}
