/**
 * lib::SharedPtr: a reference-counted owner of a pointer.
 *
 * Handles of one managed object share a ControlBlock holding the pointer
 * and the counter; the block is deleted, and the pointer handed to the
 * deleter, when the counter drops to 0. Pointers are addresses, 0 being
 * null. Each Object base is reduced to its constructed flag: the base
 * constructor sets it (a parameter), copying or moving an Object copies it,
 * and setConstructed can only clear it.
 */
module Shared {
  import opened Guard

  /** The deleter D: every D::free call, with the pointer it was given. */
  class Deleter {
    ghost var freed: seq<nat>

    constructor ()
      ensures freed == []
    {
      freed := [];
    }

    method Free(ptr: nat)
      modifies this
      ensures freed == old(freed) + [ptr]
    {
      freed := freed + [ptr];
    }
  }

  class ControlBlock {
    const pointer: nat
    var counter: int
    const mutex: Mutex
    const deleter: Deleter
    var constructed: bool
    /** Whether `delete` has run on this block. */
    ghost var deleted: bool

    /**
     * ControlBlock(pointer): owns `pointer` with a counter of 1; it is
     * constructed iff its base and its own mutex are.
     */
    constructor (pointer: nat, baseOk: bool, mutexOk: bool, deleter: Deleter)
      ensures this.pointer == pointer && counter == 1 && this.deleter == deleter
      ensures fresh(mutex) && mutex.constructed == mutexOk && !mutex.locked
      ensures constructed == (baseOk && mutexOk) && !deleted
    {
      this.pointer := pointer;
      counter := 1;
      mutex := new Mutex(mutexOk);
      this.deleter := deleter;
      constructed := baseOk;
      deleted := false;
      new;
      var isConstructed := Construct();
      SetConstructed(isConstructed);
    }

    method Construct() returns (res: bool)
      ensures res == (constructed && mutex.constructed)
    {
      res := false;
      if !constructed {
        return;
      }
      if !mutex.constructed {
        return;
      }
      res := true;
    }

    method SetConstructed(flag: bool)
      modifies this`constructed
      ensures constructed == (old(constructed) && flag)
    {
      if constructed {
        constructed := flag;
      }
    }

    /** ~ControlBlock: hands the owned pointer to the deleter. */
    method Destroy()
      modifies this`deleted, deleter
      ensures deleted
      ensures deleter.freed == old(deleter.freed) + [pointer]
    {
      deleter.Free(pointer);
      deleted := true;
    }

    /** ControlBlock::increase, under a guard of the block's mutex. */
    method Increase()
      modifies this`counter, mutex
      ensures counter == old(counter) + 1
      ensures mutex.locked == old(mutex.locked)
    {
      // The count changes whatever the system answers to the lock.
      var granted: bool :| true;
      var guard := new MutexGuard(mutex, true, granted);
      counter := counter + 1;
      guard.Destroy();
    }

    /** ControlBlock::decrease, under a guard of the block's mutex: the new counter. */
    method Decrease() returns (c: int)
      modifies this`counter, mutex
      ensures counter == old(counter) - 1 && c == counter
      ensures mutex.locked == old(mutex.locked)
    {
      // The count changes whatever the system answers to the lock.
      var granted: bool :| true;
      var guard := new MutexGuard(mutex, true, granted);
      counter := counter - 1;
      c := counter;
      guard.Destroy();
    }

    function GetCounter(): int
      reads this
    {
      counter
    }

    function GetPointer(): nat
    {
      pointer
    }
  }

  class SharedPtr {
    var constructed: bool
    var cb: ControlBlock?
    const deleter: Deleter

    /**
     * A live handle: constructed exactly when it has a control block,
     * which is alive, uses the same deleter and is not locked.
     */
    ghost predicate Valid()
      reads this, Parts()
    {
      && (constructed <==> cb != null)
      && (cb != null ==> !cb.deleted && cb.deleter == deleter && !cb.mutex.locked && cb.counter >= 1)
    }

    /** The control block and its mutex, which reference counting changes. */
    function Parts(): set<object>
      reads this
    {
      if cb == null then {} else {cb, cb.mutex}
    }

    /**
     * SharedPtr(pointer), and SharedPtr() when `pointer` is 0. Allocating
     * the control block may fail (`allocOk`) and the block may come out
     * unconstructed; in every failure the pointer goes to the deleter once
     * and the handle is unconstructed.
     */
    constructor (pointer: nat, baseOk: bool, allocOk: bool, cbBaseOk: bool, mutexOk: bool, deleter: Deleter)
      modifies deleter
      ensures this.deleter == deleter && Valid()
      ensures constructed <==> baseOk && allocOk && cbBaseOk && mutexOk
      ensures constructed ==> fresh(cb) && fresh(cb.mutex) && cb.pointer == pointer && cb.counter == 1
      ensures constructed ==> deleter.freed == old(deleter.freed)
      ensures !constructed ==> deleter.freed == old(deleter.freed) + [pointer]
    {
      constructed := baseOk;
      cb := null;
      this.deleter := deleter;
      new;
      var isConstructed := Construct(pointer, allocOk, cbBaseOk, mutexOk);
      SetConstructed(isConstructed);
    }

    /** Copy constructor: share the block of `obj` and count one more handle. */
    constructor Copy(obj: SharedPtr)
      requires obj.Valid()
      modifies obj.Parts()
      ensures constructed == old(obj.constructed) && cb == obj.cb && deleter == obj.deleter && Valid()
      ensures cb != null ==> cb.counter == old(obj.cb.counter) + 1
    {
      constructed := obj.constructed;
      cb := obj.cb;
      deleter := obj.deleter;
      new;
      Acquire();
    }

    /** Move constructor: take the block of `obj` without counting; `obj` keeps it too. */
    constructor Move(obj: SharedPtr)
      ensures constructed == obj.constructed && cb == obj.cb && deleter == obj.deleter
    {
      constructed := obj.constructed;
      cb := obj.cb;
      deleter := obj.deleter;
    }

    /** ~SharedPtr: a constructed handle releases its block. */
    method Destroy()
      requires Valid()
      modifies this`cb, Parts(), deleter
      ensures old(cb) == null ==> cb == null && deleter.freed == old(deleter.freed)
      ensures old(cb) != null ==> Released(old(cb), old(cb.counter), old(deleter.freed))
      ensures old(cb) != null ==> old(cb).mutex.locked == old(cb.mutex.locked)
      ensures old(cb) != null && old(cb.counter) != 1 ==> old(cb).deleted == old(cb.deleted)
    {
      if constructed {
        Release();
      }
    }

    /**
     * The handle has let go of `block`, whose counter was `before`: the
     * counter is one less, and at 0 the block is deleted, the pointer
     * freed and the handle's block nulled.
     */
    ghost predicate Released(block: ControlBlock, before: int, freedBefore: seq<nat>)
      reads this, block, deleter
    {
      && block.counter == before - 1
      && (block.counter == 0 ==> block.deleted && cb == null && deleter.freed == freedBefore + [block.pointer])
      && (block.counter != 0 ==> cb == block && deleter.freed == freedBefore)
    }

    /** SharedPtr::construct. */
    method Construct(pointer: nat, allocOk: bool, cbBaseOk: bool, mutexOk: bool) returns (res: bool)
      requires cb == null
      modifies this`cb, deleter
      ensures res <==> constructed && allocOk && cbBaseOk && mutexOk
      ensures res ==> fresh(cb) && fresh(cb.mutex) && cb.pointer == pointer && cb.counter == 1
      ensures res ==> !cb.deleted && cb.deleter == deleter && !cb.mutex.locked
      ensures !res ==> cb == null
      ensures res ==> deleter.freed == old(deleter.freed)
      ensures !res ==> deleter.freed == old(deleter.freed) + [pointer]
    {
      res := false;
      if !constructed {
        deleter.Free(pointer);
        return;
      }
      // A failed allocation of the block leaves `cb` null.
      if allocOk {
        cb := new ControlBlock(pointer, cbBaseOk, mutexOk, deleter);
      }
      if cb == null {
        deleter.Free(pointer);
        return;
      }
      if !cb.constructed {
        cb.Destroy();
        cb := null;
        return;
      }
      res := true;
    }

    method SetConstructed(flag: bool)
      modifies this`constructed
      ensures constructed == (old(constructed) && flag)
    {
      if constructed {
        constructed := flag;
      }
    }

    /** SharedPtr::release. */
    method Release()
      requires cb != null ==> cb.deleter == deleter
      modifies this`cb, Parts(), deleter
      ensures old(cb) == null ==> cb == null && deleter.freed == old(deleter.freed)
      ensures old(cb) != null ==> Released(old(cb), old(cb.counter), old(deleter.freed))
      ensures old(cb) != null ==> old(cb).mutex.locked == old(cb.mutex.locked)
      ensures old(cb) != null && old(cb.counter) != 1 ==> old(cb).deleted == old(cb.deleted)
    {
      if cb != null {
        var counter := cb.Decrease();
        if counter == 0 {
          cb.Destroy();
          cb := null;
        }
      }
    }

    /** SharedPtr::acquire: count one more handle, or mark a handle without a block unconstructed. */
    method Acquire()
      modifies this`constructed, Parts()
      ensures cb != null ==> cb.counter == old(cb.counter) + 1 && cb.mutex.locked == old(cb.mutex.locked)
      ensures cb != null ==> cb.deleted == old(cb.deleted)
      ensures constructed == (old(constructed) && cb != null)
    {
      if cb != null {
        cb.Increase();
      } else {
        SetConstructed(false);
      }
    }

    /**
     * Copy assignment: unless it is self-assignment or this handle is
     * unconstructed, release the old block, then share the block of `obj`.
     */
    method CopyAssign(obj: SharedPtr)
      requires Valid() && obj.Valid() && deleter == obj.deleter
      modifies this, Parts(), obj.Parts(), deleter
      ensures this == obj || !old(constructed) ==>
        && constructed == old(constructed) && cb == old(cb)
        && (cb != null ==> cb.counter == old(cb.counter))
        && deleter.freed == old(deleter.freed)
      ensures this != obj && old(constructed) ==>
        && cb == old(obj.cb)
        && constructed == old(obj.constructed)
        && (old(cb) != old(obj.cb) ==> old(cb).counter == old(cb.counter) - 1)
        && (old(cb) != old(obj.cb) && old(obj.cb) != null ==> cb.counter == old(obj.cb.counter) + 1)
        && (old(cb) != old(obj.cb) ==>
              (old(cb.counter) == 1 <==> old(cb).deleted)
              && deleter.freed == old(deleter.freed) + (if old(cb.counter) == 1 then [old(cb).pointer] else []))
        && (old(cb) == old(obj.cb) && old(cb.counter) > 1 ==> cb.counter == old(cb.counter))
      ensures this == obj || old(cb) != old(obj.cb) || old(cb) == null || old(cb.counter) > 1 ==>
        Valid() && obj.Valid()
    {
      if this != obj && constructed {
        Release();
        constructed := obj.constructed;
        cb := obj.cb;
        Acquire();
      }
    }

    /**
     * Move assignment as written: unless it is self-assignment or this
     * handle is unconstructed, take the block of `obj` without releasing
     * the old one.
     */
    method MoveAssign(obj: SharedPtr)
      modifies this
      ensures this == obj || !old(constructed) ==> constructed == old(constructed) && cb == old(cb)
      ensures this != obj && old(constructed) ==> constructed == old(obj.constructed) && cb == old(obj.cb)
    {
      if this != obj && constructed {
        constructed := obj.constructed;
        cb := obj.cb;
      }
    }

    /** Move assignment releasing the old block before taking the block of `obj`. */
    method MoveAssignReleasing(obj: SharedPtr)
      requires Valid()
      modifies this, Parts(), deleter
      ensures this == obj || !old(constructed) ==>
        constructed == old(constructed) && cb == old(cb) && deleter.freed == old(deleter.freed)
      ensures this != obj && old(constructed) ==>
        && constructed == old(obj.constructed) && cb == old(obj.cb)
        && old(cb).counter == old(cb.counter) - 1
        && (old(cb.counter) == 1 ==> old(cb).deleted && deleter.freed == old(deleter.freed) + [old(cb).pointer])
      ensures old(obj.Valid()) && obj.deleter == deleter ==>
        (this == obj || old(cb) != old(obj.cb) || old(cb) == null || old(cb.counter) > 1) ==> Valid()
    {
      if this != obj && constructed {
        Release();
        constructed := obj.constructed;
        cb := obj.cb;
      }
    }

    /** SharedPtr::get: the owned pointer, or null when unconstructed. */
    function Get(): (r: nat)
      requires Valid()
      reads this, Parts()
      ensures !constructed ==> r == 0
      ensures constructed ==> r == cb.pointer
    {
      if constructed then cb.GetPointer() else 0
    }

    /** SharedPtr::getCount: the counter, or 0 when unconstructed. */
    function GetCount(): (r: int)
      requires Valid()
      reads this, Parts()
      ensures !constructed ==> r == 0
      ensures constructed ==> r == cb.counter && r >= 1
    {
      if constructed then cb.GetCounter() else 0
    }

    /** operator bool: whether the stored pointer is non-null. */
    function IsSet(): (r: bool)
      requires Valid()
      reads this, Parts()
      ensures r <==> constructed && cb.pointer != 0
    {
      Get() != 0
    }
  }

  /**
   * A managed object's life: one owner, `n` copies of it, then every
   * handle destroyed, copies first. The counter tracks the live handles,
   * and the pointer goes to the deleter exactly once, at the end.
   */
  method Lifetime(pointer: nat, n: nat, deleter: Deleter)
    modifies deleter
    ensures deleter.freed == old(deleter.freed) + [pointer]
  {
    var owner := new SharedPtr(pointer, true, true, true, true, deleter);
    var block := owner.cb;
    var copies: seq<SharedPtr> := [];
    while |copies| < n
      invariant owner.Valid() && owner.deleter == deleter && owner.cb == block && block != null
      invariant block.counter == 1 + |copies| && block.pointer == pointer
      invariant forall c :: c in copies ==> c.constructed && c.cb == block && c.deleter == deleter
      invariant deleter.freed == old(deleter.freed)
      decreases n - |copies|
    {
      var c := new SharedPtr.Copy(owner);
      copies := copies + [c];
    }
    var i := 0;
    while i < |copies|
      invariant i <= |copies|
      invariant owner.Valid() && owner.deleter == deleter && owner.cb == block && block != null
      invariant block.counter == 1 + |copies| - i && block.pointer == pointer
      invariant forall k :: i <= k < |copies| ==> copies[k].constructed && copies[k].cb == block && copies[k].deleter == deleter
      invariant deleter.freed == old(deleter.freed)
    {
      copies[i].Destroy();
      i := i + 1;
    }
    owner.Destroy();
  }

  /**
   * Move assignment as written leaks: after `first = move(second)`, the
   * block that owned `a` still counts one handle, but no handle refers to
   * it any more, so `a` is never freed.
   */
  method MoveAssignLeaks(a: nat, b: nat, deleter: Deleter) returns (orphan: ControlBlock)
    modifies deleter
    ensures orphan.pointer == a && orphan.counter == 1 && !orphan.deleted
    ensures deleter.freed == old(deleter.freed)
  {
    var first := new SharedPtr(a, true, true, true, true, deleter);
    var second := new SharedPtr(b, true, true, true, true, deleter);
    orphan := first.cb;
    first.MoveAssign(second);
    assert first.cb != orphan && second.cb != orphan;
  }

  /** With the release added, the same move frees `a` at once. */
  method MoveAssignReleasingFrees(a: nat, b: nat, deleter: Deleter)
    modifies deleter
    ensures deleter.freed == old(deleter.freed) + [a]
  {
    var first := new SharedPtr(a, true, true, true, true, deleter);
    var second := new SharedPtr(b, true, true, true, true, deleter);
    first.MoveAssignReleasing(second);
  }

  /** SharedPtr() when nothing fails: the empty handle already counts 1, and holds null. */
  method DefaultHandle(deleter: Deleter) returns (count: int, isSet: bool)
    modifies deleter
    ensures count == 1 && !isSet
  {
    var empty := new SharedPtr(0, true, true, true, true, deleter);
    count := empty.GetCount();
    isSet := empty.IsSet();
  }
}
