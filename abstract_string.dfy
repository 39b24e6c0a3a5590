/**
 * lib::AbstractString: a string of characters over a context that holds
 * the buffer, the length and the capacity.
 *
 * A string given by pointer is `Option<seq<char>>`, None being null; the
 * characters of a buffer are those before its terminator. The helpers of
 * AbstractBaseString become sequence operations: getLength(str) is the
 * length, copy(dst, src) makes the buffer hold `src` (nothing when `dst` is
 * null), concatenate(dst, src) appends `src`.
 */
module Strings {
  import opened Wrappers
  import HeapLayout

  /** The sentinel compare returns on error (MINIMUM_POSSIBLE_VALUE_OF_INT32). */
  const MinInt32: int := -0x8000_0000

  // ---------------------------------------------------------------------
  // Character comparison

  /** Index of the first position where `a` and `b` differ, or their length. */
  function FirstDifference(a: seq<char>, b: seq<char>): (i: nat)
    requires |a| == |b|
    ensures i <= |a| && a[..i] == b[..i]
    ensures i < |a| ==> a[i] != b[i]
  {
    if a == [] then 0
    else if a[0] != b[0] then 0
    else
      var k := FirstDifference(a[1..], b[1..]);
      assert a[..k + 1] == [a[0]] + a[1..][..k];
      assert b[..k + 1] == [b[0]] + b[1..][..k];
      k + 1
  }

  /** What compare reports for two strings of one length: the difference of the first differing characters, or 0. */
  function Difference(a: seq<char>, b: seq<char>): int
    requires |a| == |b|
  {
    var i := FirstDifference(a, b);
    if i < |a| then a[i] as int - b[i] as int else 0
  }

  /** Two strings of one length compare as 0 exactly when they are equal. */
  lemma DifferenceZero(a: seq<char>, b: seq<char>)
    requires |a| == |b|
    ensures Difference(a, b) == 0 <==> a == b
  {
    var i := FirstDifference(a, b);
    if i == |a| {
      assert a == a[..i] && b == b[..i];
    }
  }

  /** The character loop of compare: stop at the first non-zero difference. */
  method CompareChars(a: seq<char>, b: seq<char>) returns (res: int)
    requires |a| == |b|
    ensures res == Difference(a, b)
    ensures res == 0 <==> a == b
  {
    DifferenceZero(a, b);
    res := 0;
    var i := 0;
    while i < |a|
      invariant i <= |a| && a[..i] == b[..i] && res == 0
    {
      res := a[i] as int - b[i] as int;
      if res != 0 {
        FirstDifferenceAt(a, b, i);
        return;
      }
      assert a[..i + 1] == a[..i] + [a[i]] && b[..i + 1] == b[..i] + [b[i]];
      i := i + 1;
    }
    assert a == a[..i] && b == b[..i];
  }

  /** A first mismatch at `i` is the one FirstDifference finds. */
  lemma {:induction false} FirstDifferenceAt(a: seq<char>, b: seq<char>, i: nat)
    requires |a| == |b| && i < |a| && a[..i] == b[..i] && a[i] != b[i]
    ensures FirstDifference(a, b) == i
  {
    if i > 0 {
      assert a[0] == a[..i][0] && b[0] == b[..i][0];
      assert a[1..][..i - 1] == a[..i][1..] && b[1..][..i - 1] == b[..i][1..];
      FirstDifferenceAt(a[1..], b[1..], i - 1);
    }
  }

  // ---------------------------------------------------------------------
  // Static variant: AbstractString<T,L,A> with L > 0

  /** The Context of a static string: `buf_` holds up to L characters. */
  class StaticContext {
    const L: nat
    /** Whether `str` points at `buf_` (otherwise it is null). */
    var hasBuffer: bool
    var len: int
    var max: int
    /** The characters in `buf_`. */
    var buf: seq<char>

    constructor (L: nat)
      ensures this.L == L && !hasBuffer && len == 0 && max == 0 && buf == []
    {
      this.L := L;
      hasBuffer := false;
      len := 0;
      max := 0;
      buf := [];
    }

    /** Context::mirror: point at the own buffer if `obj` is allocated; the buffer is not copied. */
    method Mirror(obj: StaticContext)
      modifies this`hasBuffer, this`len, this`max
      ensures hasBuffer == old(obj.hasBuffer) && len == old(obj.len) && max == old(obj.max)
    {
      hasBuffer := obj.hasBuffer;
      len := obj.len;
      max := obj.max;
    }

    /** Context::allocate: fails when allocated already or `length` exceeds L. */
    method Allocate(length: int) returns (res: bool)
      modifies this`hasBuffer, this`len, this`max
      ensures res <==> !old(hasBuffer) && length <= L
      ensures res ==> hasBuffer && len == length && max == L
      ensures !res ==> hasBuffer == old(hasBuffer) && len == old(len) && max == old(max)
    {
      if hasBuffer || length > L {
        res := false;
      } else {
        hasBuffer := true;
        len := length;
        max := L;
        res := true;
      }
    }

    /** Context::free: null buffer, length and capacity 0. */
    method Free()
      modifies this`hasBuffer, this`len, this`max
      ensures !hasBuffer && len == 0 && max == 0
    {
      hasBuffer := false;
      len := 0;
      max := 0;
    }

    predicate IsAllocated()
      reads this
    {
      hasBuffer
    }

    /** Context::isFit: a length fits when it does not exceed the capacity. */
    predicate IsFit(n: int)
      reads this
    {
      n <= max
    }
  }

  class StaticString {
    const L: nat
    var constructed: bool
    const context: StaticContext

    /**
     * An allocated context holds exactly `len` characters and has capacity
     * L; an unallocated one has length and capacity 0.
     */
    ghost predicate Valid()
      reads this, context
    {
      && L > 0 && context.L == L
      && (context.hasBuffer ==> context.max == L && |context.buf| == context.len <= L)
      && (!context.hasBuffer ==> context.max == 0 && context.len == 0)
    }

    /** getChar: the characters, or None for a null buffer. */
    function Content(): (r: Option<seq<char>>)
      reads this, context
      ensures Valid() && r.Some? ==> |r.value| <= L
    {
      if context.hasBuffer then Some(context.buf) else None
    }

    /** getLength: the number of characters held, 0 without a buffer. */
    function GetLength(): (r: int)
      reads this, context
      ensures Valid() ==> 0 <= r <= L
      ensures Valid() ==> (Content().Some? ==> r == |Content().value|) && (Content().None? ==> r == 0)
    {
      context.len
    }

    constructor (L: nat, baseOk: bool)
      requires L > 0
      ensures Valid() && fresh(context) && this.L == L
      ensures constructed == baseOk && Content() == None && GetLength() == 0
    {
      this.L := L;
      constructed := baseOk;
      context := new StaticContext(L);
    }

    /** ~AbstractString: free the context. */
    method Destroy()
      requires Valid()
      modifies context
      ensures Valid() && Content() == None && GetLength() == 0
    {
      context.Free();
    }

    /**
     * AbstractString::copy. Fails, changing nothing, when unconstructed,
     * given null, or given more than L characters. On success the string
     * holds `src` — except that an empty `src` fits a never-allocated
     * string, which then stays without a buffer.
     */
    method Copy(src: Option<seq<char>>) returns (res: bool)
      requires Valid()
      modifies context
      ensures Valid()
      ensures res <==> constructed && src.Some? && |src.value| <= L
      ensures res ==> GetLength() == |src.value|
      ensures res && (old(context.hasBuffer) || src.value != []) ==> Content() == Some(src.value)
      ensures res && !old(context.hasBuffer) && src.value == [] ==> Content() == None
      ensures !res ==> Content() == old(Content()) && GetLength() == old(GetLength())
    {
      if constructed && src.Some? {
        var len := |src.value|;
        res := true;
        if !context.IsFit(len) {
          var temp := new StaticContext(L);
          var ok := temp.Allocate(len);
          if ok {
            context.Free();
            context.Mirror(temp);
          } else {
            res := false;
          }
        } else {
          context.len := len;
        }
        if res {
          if context.hasBuffer {
            context.buf := src.value;
          }
        }
      } else {
        res := false;
      }
    }

    /**
     * AbstractString::concatenate. An unallocated string copies `src`;
     * otherwise it appends, failing without change when the total length
     * exceeds L.
     */
    method Concatenate(src: Option<seq<char>>) returns (res: bool)
      requires Valid()
      modifies context
      ensures Valid()
      ensures !constructed || src.None? ==> !res && Content() == old(Content()) && GetLength() == old(GetLength())
      ensures constructed && src.Some? && old(context.hasBuffer) ==>
        && (res <==> old(GetLength()) + |src.value| <= L)
        && (res ==> Content() == Some(old(context.buf) + src.value) && GetLength() == old(GetLength()) + |src.value|)
        && (!res ==> Content() == old(Content()) && GetLength() == old(GetLength()))
      ensures constructed && src.Some? && !old(context.hasBuffer) ==>
        && (res <==> |src.value| <= L)
        && (res ==> GetLength() == |src.value|)
        && (res && src.value != [] ==> Content() == Some(src.value))
        && (res && src.value == [] ==> Content() == None)
        && (!res ==> Content() == old(Content()) && GetLength() == old(GetLength()))
    {
      if constructed && src.Some? {
        if !context.IsAllocated() {
          res := Copy(src);
        } else {
          res := true;
          var len := |src.value| + context.len;
          if !context.IsFit(len) {
            // The capacity of an allocated static context is already L,
            // so a context for the longer string cannot be allocated.
            var temp := new StaticContext(L);
            var grown := temp.Allocate(len);
            assert !grown;
            res := false;
          } else {
            context.len := len;
          }
          if res {
            context.buf := context.buf + src.value;
          }
        }
      } else {
        res := false;
      }
    }

    /**
     * AbstractString::compare: the sentinel when unconstructed, without a
     * buffer, or given null; the length difference when lengths differ;
     * otherwise the difference at the first differing character, 0 when
     * the strings are equal.
     */
    method Compare(src: Option<seq<char>>) returns (res: int)
      requires Valid()
      ensures !constructed || !context.hasBuffer || src.None? ==> res == MinInt32
      ensures constructed && context.hasBuffer && src.Some? ==>
        && (|context.buf| != |src.value| ==> res == GetLength() - |src.value|)
        && (|context.buf| == |src.value| ==> res == Difference(context.buf, src.value))
        && (res == 0 <==> context.buf == src.value)
    {
      if constructed && context.hasBuffer && src.Some? {
        res := context.len - |src.value|;
        if res == 0 {
          res := CompareChars(context.buf, src.value);
        }
      } else {
        res := MinInt32;
      }
    }

    /**
     * Copy treating an unallocated string as one that does not fit, so
     * that every successful copy leaves the string with its buffer.
     */
    method CopyAllocating(src: Option<seq<char>>) returns (res: bool)
      requires Valid()
      modifies context
      ensures Valid()
      ensures res <==> constructed && src.Some? && |src.value| <= L
      ensures res ==> Content() == Some(src.value) && GetLength() == |src.value|
      ensures !res ==> Content() == old(Content()) && GetLength() == old(GetLength())
    {
      if constructed && src.Some? {
        var len := |src.value|;
        res := true;
        if !context.IsAllocated() || !context.IsFit(len) {
          var temp := new StaticContext(L);
          var ok := temp.Allocate(len);
          if ok {
            context.Free();
            context.Mirror(temp);
          } else {
            res := false;
          }
        } else {
          context.len := len;
        }
        if res {
          context.buf := src.value;
        }
      } else {
        res := false;
      }
    }
  }

  /**
   * As written, copying the empty string into a new string succeeds, yet
   * comparing the string with the empty string then reports the error
   * sentinel instead of 0.
   */
  method EmptyCopyThenCompare(L: nat) returns (copied: bool, order: int)
    requires L > 0
    ensures copied && order == MinInt32
  {
    var s := new StaticString(L, true);
    copied := s.Copy(Some([]));
    order := s.Compare(Some([]));
  }

  /** With the allocating copy, the same steps compare as equal. */
  method EmptyCopyAllocatingThenCompare(L: nat) returns (copied: bool, order: int)
    requires L > 0
    ensures copied && order == 0
  {
    var s := new StaticString(L, true);
    copied := s.CopyAllocating(Some([]));
    order := s.Compare(Some([]));
  }

  // ---------------------------------------------------------------------
  // Dynamic variant: AbstractString<T,0,A>

  /**
   * Context::calculateSize: bytes for `n` characters of `B` bytes each
   * and the terminator, rounded up to a multiple of 8.
   */
  function CalculateSize(n: nat, B: nat): (r: nat)
    requires B > 0
    ensures r % 8 == 0
    ensures (n + 1) * B <= r < (n + 1) * B + 8
  {
    HeapLayout.RoundUp(n * B + B)
  }

  /**
   * Context::calculateLength: the characters a buffer of `size` bytes
   * holds besides the terminator; the largest such number.
   */
  function CalculateLength(size: nat, B: nat): (r: nat)
    requires B > 0
    ensures r == 0 || (r + 1) * B <= size
    ensures size < (r + 2) * B
  {
    var len := size / B;
    assert len * B <= size < len * B + B;
    if len > 1 then len - 1 else 0
  }

  /** A buffer sized for `n` characters has room for at least `n`. */
  lemma CapacityCovers(n: nat, B: nat)
    requires B > 0
    ensures CalculateLength(CalculateSize(n, B), B) >= n
  {
    var size := CalculateSize(n, B);
    DivAtLeast(size, B, n + 1);
  }

  /** A quotient is at least any `k` whose multiple of `B` fits the dividend. */
  lemma DivAtLeast(x: nat, B: nat, k: nat)
    requires B > 0 && k * B <= x
    ensures x / B >= k
  {
    var q := x / B;
    assert x < (q + 1) * B;
    assert k * B < (q + 1) * B;
  }

  /** The allocator A: what allocate answers is a parameter, 0 for null. */
  class Allocator {
    /** Sizes asked of allocate, in order. */
    ghost var requests: seq<nat>
    /** Addresses given to free, in order. */
    ghost var freed: seq<nat>

    constructor ()
      ensures requests == [] && freed == []
    {
      requests := [];
      freed := [];
    }

    method Allocate(size: nat, outcome: nat) returns (p: nat)
      modifies this`requests
      ensures p == outcome && requests == old(requests) + [size]
    {
      requests := requests + [size];
      p := outcome;
    }

    method Free(p: nat)
      modifies this`freed
      ensures freed == old(freed) + [p]
    {
      freed := freed + [p];
    }
  }

  /** The Context of a dynamic string: a heap buffer of `max` characters at `str`. */
  class DynamicContext {
    /** sizeof(T). */
    const B: nat
    const allocator: Allocator
    /** Address of the buffer, 0 for null. */
    var str: nat
    var len: int
    var max: int
    /** The characters in the buffer at `str`. */
    var text: seq<char>

    constructor (B: nat, allocator: Allocator)
      ensures this.B == B && this.allocator == allocator
      ensures str == 0 && len == 0 && max == 0 && text == []
    {
      this.B := B;
      this.allocator := allocator;
      str := 0;
      len := 0;
      max := 0;
      text := [];
    }

    /** Context::mirror: take over the buffer of `obj`. */
    method Mirror(obj: DynamicContext)
      modifies this`str, this`len, this`max, this`text
      ensures str == old(obj.str) && len == old(obj.len) && max == old(obj.max) && text == old(obj.text)
    {
      str := obj.str;
      len := obj.len;
      max := obj.max;
      text := obj.text;
    }

    /**
     * Context::allocate: only a null context asks the allocator, for
     * CalculateSize(length) bytes; it fails when the allocator answers null.
     */
    method Allocate(length: nat, outcome: nat) returns (res: bool)
      requires B > 0
      modifies this`str, this`len, this`max, allocator`requests
      ensures res <==> old(str) == 0 && outcome != 0
      ensures allocator.requests ==
        if old(str) == 0 then old(allocator.requests) + [CalculateSize(length, B)] else old(allocator.requests)
      ensures res ==> str == outcome && len == length && length <= max
      ensures res ==> max == CalculateLength(CalculateSize(length, B), B)
      ensures !res ==> str == old(str) && len == old(len) && max == old(max)
    {
      if str == 0 {
        var size := CalculateSize(length, B);
        var buffer := allocator.Allocate(size, outcome);
        if buffer == 0 {
          res := false;
        } else {
          CapacityCovers(length, B);
          str := buffer;
          len := length;
          max := CalculateLength(size, B);
          res := true;
        }
      } else {
        res := false;
      }
    }

    /** Context::free: give a non-null buffer back to the allocator. */
    method Free()
      modifies this`str, this`len, this`max, allocator`freed
      ensures old(str) != 0 ==> str == 0 && len == 0 && max == 0
      ensures old(str) == 0 ==> len == old(len) && max == old(max)
      ensures str == 0
      ensures allocator.freed == if old(str) != 0 then old(allocator.freed) + [old(str)] else old(allocator.freed)
    {
      if str != 0 {
        allocator.Free(str);
        str := 0;
        len := 0;
        max := 0;
      }
    }

    predicate IsAllocated()
      reads this
    {
      str != 0
    }

    predicate IsFit(n: int)
      reads this
    {
      n <= max
    }
  }

  class DynamicString {
    var constructed: bool
    const context: DynamicContext
    const allocator: Allocator

    /**
     * A non-null context holds `len` characters within its capacity; a
     * null one has length and capacity 0.
     */
    ghost predicate Valid()
      reads this, context
    {
      && context.B > 0 && context.allocator == allocator
      && (context.str != 0 ==> |context.text| == context.len <= context.max)
      && (context.str == 0 ==> context.max == 0 && context.len == 0)
    }

    /** getChar: the characters, or None for a null buffer. */
    function Content(): (r: Option<seq<char>>)
      reads this, context
      ensures Valid() && r.Some? ==> |r.value| <= context.max
    {
      if context.str != 0 then Some(context.text) else None
    }

    /** getLength: the number of characters held, 0 without a buffer or for an unconstructed string. */
    function GetLength(): (r: int)
      reads this, context
      ensures Valid() ==> 0 <= r
      ensures Valid() && constructed ==> (Content().Some? ==> r == |Content().value|) && (Content().None? ==> r == 0)
      ensures !constructed ==> r == 0
    {
      if constructed then context.len else 0
    }

    constructor (B: nat, allocator: Allocator, baseOk: bool)
      requires B > 0
      ensures Valid() && fresh(context) && this.allocator == allocator
      ensures constructed == baseOk && Content() == None && GetLength() == 0
    {
      constructed := baseOk;
      this.allocator := allocator;
      context := new DynamicContext(B, allocator);
    }

    /** ~AbstractString: free the context, returning its buffer. */
    method Destroy()
      requires Valid()
      modifies context, allocator
      ensures Valid() && Content() == None && GetLength() == 0
      ensures allocator.freed ==
        if old(context.str) != 0 then old(allocator.freed) + [old(context.str)] else old(allocator.freed)
    {
      context.Free();
    }

    /**
     * AbstractString::copy. A string that does not fit the capacity takes
     * a new buffer (asking the allocator, whose answer is `outcome`) and
     * returns the old one; the copy fails, changing nothing, when that
     * allocation fails. As in the static variant, an empty `src` fits a
     * string without a buffer, which then stays without one.
     */
    method Copy(src: Option<seq<char>>, outcome: nat) returns (res: bool)
      requires Valid()
      modifies context, allocator
      ensures Valid()
      ensures res <==> constructed && src.Some? && (|src.value| <= old(context.max) || outcome != 0)
      ensures res ==> GetLength() == |src.value|
      ensures res && (old(context.str) != 0 || src.value != []) ==> Content() == Some(src.value)
      ensures res && old(context.str) == 0 && src.value == [] ==> Content() == None
      ensures !res ==> Content() == old(Content()) && GetLength() == old(GetLength())
      ensures !res || |src.value| <= old(context.max) ==>
        context.str == old(context.str) && allocator.freed == old(allocator.freed)
      ensures res && |src.value| > old(context.max) ==>
        && context.str == outcome
        && allocator.freed ==
          if old(context.str) != 0 then old(allocator.freed) + [old(context.str)] else old(allocator.freed)
    {
      if constructed && src.Some? {
        var len := |src.value|;
        res := true;
        if !context.IsFit(len) {
          var temp := new DynamicContext(context.B, allocator);
          var ok := temp.Allocate(len, outcome);
          if ok {
            context.Free();
            context.Mirror(temp);
          } else {
            res := false;
          }
        } else {
          context.len := len;
        }
        if res {
          if context.str != 0 {
            context.text := src.value;
          }
        }
      } else {
        res := false;
      }
    }

    /**
     * AbstractString::concatenate. A string without a buffer copies
     * `src`; otherwise the characters are appended, moving to a new buffer
     * when the total does not fit, and nothing changes when that
     * allocation fails.
     */
    method Concatenate(src: Option<seq<char>>, outcome: nat) returns (res: bool)
      requires Valid()
      modifies context, allocator
      ensures Valid()
      ensures !constructed || src.None? ==>
        && !res && Content() == old(Content()) && GetLength() == old(GetLength())
        && allocator.freed == old(allocator.freed)
      ensures constructed && src.Some? && old(context.str) == 0 ==>
        && (res <==> src.value == [] || outcome != 0)
        && (res ==> GetLength() == |src.value|)
        && (res && src.value != [] ==> Content() == Some(src.value) && context.str == outcome)
        && (res && src.value == [] ==> Content() == None)
        && (!res ==> Content() == old(Content()) && GetLength() == old(GetLength()))
        && allocator.freed == old(allocator.freed)
      ensures constructed && src.Some? && old(context.str) != 0 ==>
        var total := old(context.len) + |src.value|;
        && (res <==> total <= old(context.max) || outcome != 0)
        && (res ==> Content() == Some(old(context.text) + src.value) && GetLength() == total)
        && (!res ==> Content() == old(Content()) && GetLength() == old(GetLength()))
        && (res && total > old(context.max) ==>
              context.str == outcome && allocator.freed == old(allocator.freed) + [old(context.str)])
        && (!res || total <= old(context.max) ==> allocator.freed == old(allocator.freed))
    {
      if constructed && src.Some? {
        if !context.IsAllocated() {
          res := Copy(src, outcome);
        } else {
          res := true;
          var len := |src.value| + context.len;
          if !context.IsFit(len) {
            var temp := new DynamicContext(context.B, allocator);
            var ok := temp.Allocate(len, outcome);
            if ok {
              temp.text := context.text;
              context.Free();
              context.Mirror(temp);
            } else {
              res := false;
            }
          } else {
            context.len := len;
          }
          if res {
            context.text := context.text + src.value;
          }
        }
      } else {
        res := false;
      }
    }

    /** AbstractString::compare, as in the static variant. */
    method Compare(src: Option<seq<char>>) returns (res: int)
      requires Valid()
      ensures !constructed || context.str == 0 || src.None? ==> res == MinInt32
      ensures constructed && context.str != 0 && src.Some? ==>
        && (|context.text| != |src.value| ==> res == GetLength() - |src.value|)
        && (|context.text| == |src.value| ==> res == Difference(context.text, src.value))
        && (res == 0 <==> context.text == src.value)
    {
      if constructed && context.str != 0 && src.Some? {
        res := context.len - |src.value|;
        if res == 0 {
          res := CompareChars(context.text, src.value);
        }
      } else {
        res := MinInt32;
      }
    }
  }
}
