/** fsal_reopen_obj: the shared file descriptor of an object, its read/write lock
    and the global count of open descriptors, with other threads running whenever
    the lock is not held. */
module Reopen {
  import opened Share

  datatype Lock = Unlocked | ReadHeld | WriteHeld

  datatype Status = Ok | ShareDenied | CloseError | Delay | OpenError

  const CLOSED: Open := {}
  const ANY: Open := {AnyMode}

  predicate NotOpenUsable(fd: Open, want: Open) {
    (want != ANY || fd == CLOSED) && fd * want != want
  }

  // A descriptor serves a request if it is open in every requested mode, or in
  // any mode at all when that is what was asked for.
  lemma UsableMeans(fd: Open, want: Open)
    requires fd != ANY
    ensures !NotOpenUsable(fd, want) <==> if want == ANY then fd != CLOSED else want <= fd
  {
    assert fd * want == want <==> want <= fd;
    assert AnyMode in want && want <= fd ==> AnyMode in fd;
  }

  class Obj {
    const share: FileShare
    // The lock as this thread holds it.
    var lock: Lock
    // Mode of the global descriptor.
    var fd: Open
    // open_fd_count, and the other descriptors it counts.
    var count: int
    ghost var others: int
    // How often this thread's close of the global descriptor was answered with an error.
    ghost var failedCloses: nat

    constructor (share: FileShare)
      ensures this.share == share && lock == Unlocked && Drift() == 0 && failedCloses == 0
    {
      this.share, lock, fd, count, others, failedCloses := share, Unlocked, CLOSED, 0, 0, 0;
    }

    // How far the count is from the descriptors that are open.
    ghost function Drift(): int
      reads this
    {
      count - others - One(fd != CLOSED)
    }

    // Other threads keep the count in step with the descriptors.
    method Interfere()
      requires lock == Unlocked && share.Valid()
      modifies this`fd, this`count, this`others, share
      ensures share.Valid() && Drift() == old(Drift())
    {
      share.Interfere();
    }

    // open_func and close_func of the file system below; a failing close may or
    // may not forget the descriptor.
    method OpenGlobal(mode: Open) returns (ok: bool)
      requires lock == WriteHeld && fd == CLOSED && mode != CLOSED
      modifies this`fd
      ensures fd == if ok then mode else CLOSED
    {
      ok := *;
      if ok {
        fd := mode;
      }
    }

    method CloseGlobal(clears: bool) returns (ok: bool)
      requires lock == WriteHeld && fd != CLOSED
      modifies this`fd, this`failedCloses
      ensures fd == if ok || clears then CLOSED else old(fd)
      ensures failedCloses == old(failedCloses) + if ok then 0 else 1
    {
      ok := *;
      if !ok {
        failedCloses := failedCloses + 1;
      }
      if ok || clears {
        fd := CLOSED;
      }
    }

    // The part run under the write lock: bring the global descriptor into a mode
    // that includes the wanted one.
    method Widen(want: Open, clears: bool) returns (st: Status, ghost tried: nat)
      requires lock == WriteHeld && want != ANY
      modifies this`fd, this`count, this`failedCloses
      ensures tried <= 1 && (st == Ok || st == CloseError || st == Delay || st == OpenError)
      ensures st == Ok ==> !NotOpenUsable(fd, want)
      ensures failedCloses == old(failedCloses) + if st == CloseError then 1 else 0
      ensures Drift() == old(Drift()) + if clears then failedCloses - old(failedCloses) else 0
    {
      tried := 0;
      if !NotOpenUsable(fd, want) {
        return Ok, 0;
      }
      var try := want;
      if fd != CLOSED {
        try := want + fd;
        var closed := CloseGlobal(clears);
        if !closed {
          return CloseError, 0;
        }
        count := count - 1;
      }
      var available: bool := *;
      if !available {
        return Delay, 0;
      }
      tried := 1;
      var isOpen := OpenGlobal(try);
      if !isOpen {
        return OpenError, 1;
      }
      count := count + 1;
      return Ok, 1;
    }

    // Take the read lock and check the reservation; on a conflict drop it again.
    method LockAndCheck(checkShare: bool, bypass: bool, want: Open) returns (fine: bool)
      requires lock == Unlocked && share.Valid()
      modifies this`lock, this`fd, this`count, this`others, share
      ensures share.Valid() && Drift() == old(Drift())
      ensures lock == if fine then ReadHeld else Unlocked
      ensures fine <==> !checkShare || CompatibleWithAll(share.opens, want, bypass)
    {
      Interfere();
      lock := ReadHeld;
      fine := true;
      if checkShare {
        fine := share.CheckConflict(want, bypass);
        if !fine {
          lock := Unlocked;
        }
      }
    }

    // Hand out a temporary descriptor, holding the lock only if shares matter.
    method Temporary(checkShare: bool, bypass: bool, want: Open) returns (st: Status, hasLock: bool, temp: Open)
      requires lock == Unlocked && share.Valid()
      modifies this`lock, this`fd, this`count, this`others, share
      ensures share.Valid() && Drift() == old(Drift())
      ensures hasLock <==> lock == ReadHeld
      ensures lock == if st == Ok && checkShare then ReadHeld else Unlocked
      ensures st == Ok ==> temp == want && (checkShare ==> CompatibleWithAll(share.opens, want, bypass))
      ensures st == ShareDenied ==> checkShare && !CompatibleWithAll(share.opens, want, bypass)
      ensures st == Ok || st == ShareDenied || st == OpenError
    {
      temp := CLOSED;
      if checkShare {
        var fine := LockAndCheck(true, bypass, want);
        if !fine {
          return ShareDenied, false, temp;
        }
      }
      var isOpen: bool := *;
      if !isOpen {
        lock := Unlocked;
        return OpenError, false, temp;
      }
      temp := want;
      return Ok, checkShare, temp;
    }

    // The stretch under the write lock, once it was got without blocking.
    method UnderWriteLock(checkShare: bool, bypass: bool, want: Open, clears: bool)
      returns (st: Status, ghost tried: nat)
      requires lock == Unlocked && share.Valid() && want != ANY
      modifies this`lock, this`fd, this`count, this`failedCloses
      ensures lock == Unlocked && tried <= 1
      ensures st == ShareDenied ==> checkShare && !CompatibleWithAll(share.opens, want, bypass)
      ensures failedCloses == old(failedCloses) + if st == CloseError then 1 else 0
      ensures Drift() == old(Drift()) + if clears then failedCloses - old(failedCloses) else 0
    {
      lock := WriteHeld;
      if checkShare {
        var fine := share.CheckConflict(want, bypass);
        if !fine {
          lock := Unlocked;
          return ShareDenied, 0;
        }
      }
      st, tried := Widen(want, clears);
      lock := Unlocked;
    }

    /** The lock and descriptor contract. `wantFd` is false when the caller only
        asks for the share check; `clears` says whether a failing close still
        forgets the descriptor; `tries` counts opens of the global descriptor. */
    method ReopenObj(checkShare: bool, bypass: bool, want: Open, wantFd: bool, clears: bool)
      returns (st: Status, hasLock: bool, closeFd: bool, temp: Open, ghost tries: nat)
      requires lock == Unlocked && share.Valid()
      modifies this, share
      ensures share.Valid()
      // has_lock is exactly "read lock held"; an error never leaves a lock behind.
      ensures (hasLock <==> lock == ReadHeld) && lock != WriteHeld && (st != Ok ==> lock == Unlocked)
      // A passed share check still holds, under the lock, when the call returns.
      ensures st == Ok && checkShare ==> lock == ReadHeld && CompatibleWithAll(share.opens, want, bypass)
      ensures st == ShareDenied ==> checkShare && !CompatibleWithAll(share.opens, want, bypass)
      // The descriptor handed back is usable.
      ensures st == Ok && wantFd && !closeFd ==> lock == ReadHeld && !NotOpenUsable(fd, want)
      ensures closeFd ==> st == Ok && wantFd && temp == want && (hasLock <==> checkShare)
      ensures st == Ok && !wantFd ==> hasLock && !closeFd
      ensures tries <= 1 && (want == ANY ==> tries == 0)
      // At most one close fails, and the call then says so.
      ensures failedCloses == old(failedCloses) + if st == CloseError then 1 else 0
      // The count moves exactly with the descriptor, but for a failed close that
      // forgets it.
      ensures Drift() == old(Drift()) + if clears then failedCloses - old(failedCloses) else 0
    {
      closeFd, temp, tries := false, CLOSED, 0;
      var fine := LockAndCheck(checkShare, bypass, want);
      if !fine {
        return ShareDenied, false, false, temp, 0;
      }
      if !wantFd {
        return Ok, true, false, temp, 0;
      }
      var retried := false;
      while NotOpenUsable(fd, want)
        invariant lock == ReadHeld && share.Valid() && Drift() == old(Drift()) && failedCloses == old(failedCloses)
        invariant checkShare ==> CompatibleWithAll(share.opens, want, bypass)
        invariant tries <= (if retried then 1 else 0) && (want == ANY ==> tries == 0)
        decreases !retried
      {
        lock := Unlocked;
        Interfere();
        var busy := true;
        if want != ANY && !retried {
          busy := *;
        }
        if busy {
          st, hasLock, temp := Temporary(checkShare, bypass, want);
          closeFd := st == Ok;
          return;
        }
        st, tries := UnderWriteLock(checkShare, bypass, want, clears);
        if st != Ok {
          return st, false, false, temp, tries;
        }
        retried := true;
        fine := LockAndCheck(checkShare, bypass, want);
        if !fine {
          return ShareDenied, false, false, temp, tries;
        }
      }
      return Ok, true, false, temp, tries;
    }
  }
}
