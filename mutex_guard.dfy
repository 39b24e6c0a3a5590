/**
 * lib::MutexGuard: locks a mutex for the lifetime of the guard.
 *
 * The guard's Object base is reduced to its constructed flag, which the
 * base constructor sets (`baseOk`) and which can afterwards only be
 * cleared. The mutex is a sequential model of api::Mutex.
 */
module Guard {

  /**
   * api::Mutex, sequentially: `lock` takes a free mutex when the system
   * grants it (`granted`, the system's answer) and reports success, and
   * fails on a mutex that is already held; `unlock` releases it. The ghost
   * counters record every call.
   */
  class Mutex {
    const constructed: bool
    var locked: bool
    ghost var lockCalls: nat
    ghost var acquired: nat
    ghost var unlockCalls: nat

    constructor (constructed: bool)
      ensures this.constructed == constructed && !locked
      ensures lockCalls == 0 && acquired == 0 && unlockCalls == 0
    {
      this.constructed := constructed;
      locked := false;
      lockCalls, acquired, unlockCalls := 0, 0, 0;
    }

    method Lock(granted: bool) returns (ok: bool)
      modifies this
      ensures ok == (granted && !old(locked))
      ensures locked == (old(locked) || ok)
      ensures lockCalls == old(lockCalls) + 1
      ensures acquired == old(acquired) + (if ok then 1 else 0)
      ensures unlockCalls == old(unlockCalls)
    {
      lockCalls := lockCalls + 1;
      ok := granted && !locked;
      if ok {
        locked := true;
        acquired := acquired + 1;
      }
    }

    method Unlock()
      modifies this
      ensures !locked
      ensures unlockCalls == old(unlockCalls) + 1
      ensures lockCalls == old(lockCalls) && acquired == old(acquired)
    {
      locked := false;
      unlockCalls := unlockCalls + 1;
    }
  }

  class MutexGuard {
    const mutex: Mutex
    var constructed: bool

    /**
     * MutexGuard(mutex): constructed iff the base is, the mutex is, and
     * the lock succeeded (`granted` is the system's answer to it); `lock`
     * is called only on a constructed mutex of a constructed guard.
     */
    constructor (mutex: Mutex, baseOk: bool, granted: bool)
      modifies mutex
      ensures this.mutex == mutex
      ensures constructed <==> baseOk && mutex.constructed && granted && !old(mutex.locked)
      ensures mutex.lockCalls == old(mutex.lockCalls) + (if baseOk && mutex.constructed then 1 else 0)
      ensures mutex.acquired == old(mutex.acquired) + (if constructed then 1 else 0)
      ensures mutex.unlockCalls == old(mutex.unlockCalls)
      ensures mutex.locked == (old(mutex.locked) || constructed)
    {
      this.mutex := mutex;
      constructed := baseOk;
      new;
      var isConstructed := Construct(granted);
      SetConstructed(isConstructed);
    }

    /** MutexGuard::isConstructed, which is the base's flag. */
    predicate IsConstructed()
      reads this
    {
      constructed
    }

    /** Object::setConstructed: the flag can only be cleared. */
    method SetConstructed(flag: bool)
      modifies this`constructed
      ensures constructed == (old(constructed) && flag)
    {
      if constructed {
        constructed := flag;
      }
    }

    /** MutexGuard::construct: lock the mutex if the guard and the mutex are constructed. */
    method Construct(granted: bool) returns (res: bool)
      modifies mutex
      ensures res <==> constructed && mutex.constructed && granted && !old(mutex.locked)
      ensures mutex.lockCalls == old(mutex.lockCalls) + (if constructed && mutex.constructed then 1 else 0)
      ensures mutex.acquired == old(mutex.acquired) + (if res then 1 else 0)
      ensures mutex.unlockCalls == old(mutex.unlockCalls)
      ensures mutex.locked == (old(mutex.locked) || res)
    {
      res := false;
      if !IsConstructed() {
        return;
      }
      if !mutex.constructed {
        return;
      }
      res := mutex.Lock(granted);
    }

    /** ~MutexGuard: unlock exactly when the guard is constructed. */
    method Destroy()
      modifies mutex
      ensures mutex.unlockCalls == old(mutex.unlockCalls) + (if constructed then 1 else 0)
      ensures mutex.lockCalls == old(mutex.lockCalls) && mutex.acquired == old(mutex.acquired)
      ensures mutex.locked == (old(mutex.locked) && !constructed)
    {
      if IsConstructed() {
        mutex.Unlock();
      }
    }
  }

  /**
   * A guarded scope: a guard is made on `mutex` and destroyed at the end.
   * Every successful lock is matched by exactly one unlock (at most one of
   * each), and the mutex is left as the scope found it, whatever the
   * system answers to the lock.
   */
  method GuardedScope(mutex: Mutex, baseOk: bool, granted: bool) returns (entered: bool)
    modifies mutex
    ensures entered <==> baseOk && mutex.constructed && granted && !old(mutex.locked)
    ensures mutex.unlockCalls - old(mutex.unlockCalls) == mutex.acquired - old(mutex.acquired)
    ensures mutex.acquired == old(mutex.acquired) + (if entered then 1 else 0)
    ensures mutex.locked == old(mutex.locked)
    ensures !mutex.constructed ==> mutex.lockCalls == old(mutex.lockCalls)
  {
    var guard := new MutexGuard(mutex, baseOk, granted);
    entered := guard.IsConstructed();
    guard.Destroy();
  }
}
