/**
 class FileLock of storage/file_lock.py: the code of acquire and release, run
 against a kernel in which the other processes move between any two of its
 system calls.
 */
module FileLocks {
  import opened Wrappers
  import opened LockProtocol

  /** The shared world, with the run that led to it. */
  class Kernel {
    var world: World
    ghost const start: World
    ghost var run: seq<Event>

    ghost predicate Valid()
      reads this
    {
      && Initial(start)
      && Run(UnlockFirst, start, run)
      && world == After(UnlockFirst, start, run)
    }

    constructor (start: World)
      requires Initial(start)
      ensures Valid() && world == start && this.start == start && run == []
    {
      this.start := start;
      world, run := start, [];
    }

    /** One system call. */
    method Do(e: Event)
      requires Valid() && Enabled(UnlockFirst, world, e)
      modifies this
      ensures Valid() && run == old(run) + [e] && world == Apply(UnlockFirst, old(world), e)
    {
      RunSnoc(UnlockFirst, start, run, e);
      run := run + [e];
      world := Apply(UnlockFirst, world, e);
    }

    /** The other processes take whichever of these steps they can. */
    method Others(me: Pid, es: seq<Event>)
      requires Valid() && me in world.procs
      modifies this
      ensures Valid() && me in world.procs && world.procs[me] == old(world.procs[me])
      ensures es == [] ==> world == old(world)
      ensures world.procs.Keys == old(world.procs.Keys)
      ensures old(run) <= run && NoneBy(me, run[|old(run)|..])
    {
      for n := 0 to |es|
        invariant Valid() && me in world.procs && world.procs[me] == old(world.procs[me])
        invariant n == 0 ==> world == old(world)
        invariant world.procs.Keys == old(world.procs.Keys)
        invariant old(run) <= run && NoneBy(me, run[|old(run)|..])
      {
        if es[n].p != me && Enabled(UnlockFirst, world, es[n]) {
          ghost var so := run[|old(run)|..];
          Do(es[n]);
          assert run[|old(run)|..] == so + [es[n]];
        }
      }
    }
  }

  predicate NoneBy(me: Pid, es: seq<Event>) { forall k | 0 <= k < |es| :: es[k].p != me }

  /** What the surroundings do during one turn of the retry loop. */
  datatype Tick = Tick(
    beforeFlock: seq<Event>, deadlinePassed: bool,
    beforeStat: seq<Event>, beforeClose: seq<Event>, beforeOpen: seq<Event>, created: Inode, openFails: bool)

  datatype Outcome =
    | Acquired
    | AlreadyAcquired   // RuntimeError, line 58
    | TimedOut          // FileLockTimeoutError, line 95
    | OpenRefused       // RuntimeError at line 71, OSError at lines 114 and 120
    | StillTrying       // the ticks ended first

  /** Nobody else has a conflicting flock on the lock file, if there is one; else `created` is a new inode. */
  predicate Free(w: World, p: Pid, created: Inode) {
    && p in w.procs
    && match w.path
       case Some(i) => FlockCompatible(w, p, i)
       case None => Unused(w, created)
  }

  /** The first turn of the loop is not interleaved with anybody else. */
  predicate Undisturbed(ticks: seq<Tick>) {
    ticks != [] && ticks[0].beforeFlock == ticks[0].beforeStat == []
  }

  class FileLock {
    const pid: Pid
    const kernel: Kernel
    var fd: Option<Inode>   // the descriptor, as the inode it has open

    constructor (pid: Pid, kernel: Kernel)
      ensures this.pid == pid && this.kernel == kernel && fd == None
    {
      this.pid := pid;
      this.kernel := kernel;
      fd := None;
    }

    ghost predicate Valid()
      reads this, kernel
    {
      kernel.Valid() && pid in kernel.world.procs
    }

    function Phase(): Phase
      requires Valid()
      reads this, kernel
    {
      PhaseOf(kernel.world, pid)
    }

    /** `os.open(..., O_RDWR | O_CREAT)`: may be refused, otherwise opens or creates. */
    method OpenLockFile(created: Inode, refused: bool) returns (ok: bool)
      requires Valid() && fd.None? && (Phase().Idle? || Phase().Reopening?)
      modifies this`fd, kernel
      ensures Valid() && old(kernel.run) <= kernel.run
      ensures ok == (!refused && old(Enabled(UnlockFirst, kernel.world, Open(pid, created))))
      ensures ok ==> fd.Some? && Phase() == Opened(fd.value) && kernel.world.path == fd
      ensures !ok ==> fd.None? && Phase().Idle? && kernel.run == old(kernel.run) + [OpenFails(pid)]
      ensures ok && old(Free(kernel.world, pid, created)) ==> FlockCompatible(kernel.world, pid, fd.value)
    {
      ok := !refused && Enabled(UnlockFirst, kernel.world, Open(pid, created));
      if ok {
        kernel.Do(Open(pid, created));
        fd := Some(PhaseOf(kernel.world, pid).inode);
      } else {
        kernel.Do(OpenFails(pid));
      }
    }

    /** What lines 108-121 do once flock is granted: compare, and on a mismatch re-open. */
    method CompareOrReopen(t: Tick) returns (held: bool, ok: bool)
      requires Valid() && fd.Some? && Phase() == Locked(fd.value)
      modifies this`fd, kernel
      ensures Valid() && old(kernel.run) <= kernel.run
      ensures held ==> fd == old(fd) && Phase() == Held(fd.value) && kernel.world.path == fd
                       && Ended(Compare(pid))
      ensures !held && ok ==> fd.Some? && Phase() == Opened(fd.value)
      ensures !held && !ok ==> fd.None? && Phase().Idle? && Ended(OpenFails(pid))
      ensures t.beforeStat == [] ==> held == (old(kernel.world.path) == old(fd))
    {
      kernel.Others(pid, t.beforeStat);
      kernel.Do(Compare(pid));
      held := Phase().Held?;
      ok := true;
      if !held {
        ok := Reopen(t);
      }
    }

    /** Lines 113-114 and 119-120: close the stale descriptor, open again. */
    method Reopen(t: Tick) returns (ok: bool)
      requires Valid() && fd.Some? && Phase() == Stale(fd.value)
      modifies this`fd, kernel
      ensures Valid() && old(kernel.run) <= kernel.run
      ensures ok ==> fd.Some? && Phase() == Opened(fd.value)
      ensures !ok ==> fd.None? && Phase().Idle? && Ended(OpenFails(pid))
    {
      kernel.Others(pid, t.beforeClose);
      kernel.Do(CloseStale(pid));
      fd := None;
      kernel.Others(pid, t.beforeOpen);
      ok := OpenLockFile(t.created, t.openFails);
    }

    /** What a result of the loop says about this process (StillTrying: go round again). */
    ghost predicate Settled(r: Outcome)
      requires Valid()
      reads this, kernel
    {
      match r
      case Acquired => fd.Some? && Phase() == Held(fd.value) && kernel.world.path == fd && Ended(Compare(pid))
      case TimedOut => fd.None? && Phase().Idle? && Ended(FlockTimesOut(pid))
      case OpenRefused => fd.None? && Phase().Idle? && Ended(OpenFails(pid))
      case StillTrying => fd.Some? && Phase() == Opened(fd.value)
      case AlreadyAcquired => false
    }

    /** The last system call of the run. */
    ghost predicate Ended(e: Event)
      reads kernel
    {
      kernel.run != [] && kernel.run[|kernel.run| - 1] == e
    }

    /** One turn of the retry loop (lines 89-123). */
    method Turn(t: Tick) returns (r: Outcome)
      requires Valid() && fd.Some? && Phase() == Opened(fd.value)
      modifies this`fd, kernel
      ensures Valid() && old(kernel.run) <= kernel.run && Settled(r)
      ensures t.beforeFlock == t.beforeStat == [] && old(kernel.world.path == fd && FlockCompatible(kernel.world, pid, fd.value)) ==>
                r.Acquired?
    {
      kernel.Others(pid, t.beforeFlock);
      if !FlockCompatible(kernel.world, pid, fd.value) {
        if !t.deadlinePassed {
          return StillTrying;
        }
        kernel.Do(FlockTimesOut(pid));
        fd := None;
        return TimedOut;
      }
      kernel.Do(FlockGranted(pid));
      var held, ok := CompareOrReopen(t);
      r := if held then Acquired else if ok then StillTrying else OpenRefused;
    }

    /** `acquire` and `_acquire_posix` (lines 55-123). */
    method Acquire(created: Inode, openFails: bool, ticks: seq<Tick>) returns (r: Outcome)
      requires Valid()
      requires fd.None? ==> Phase().Idle?
      modifies this`fd, kernel
      ensures Valid() && old(kernel.run) <= kernel.run
      ensures if old(fd).Some? then r.AlreadyAcquired? && fd == old(fd) && kernel.run == old(kernel.run) else Settled(r)
      // an uncontended acquire succeeds on the first turn
      ensures old(fd).None? && !openFails && old(Free(kernel.world, pid, created)) && Undisturbed(ticks) ==>
                r.Acquired?
    {
      if fd.Some? {
        return AlreadyAcquired;
      }
      var ok := OpenLockFile(created, openFails);
      if !ok {
        return OpenRefused;
      }
      for n := 0 to |ticks|
        invariant Valid() && old(kernel.run) <= kernel.run
        invariant fd.Some? && Phase() == Opened(fd.value)
        invariant n == 0 && old(Free(kernel.world, pid, created)) ==>
                    kernel.world.path == fd && FlockCompatible(kernel.world, pid, fd.value)
        invariant n > 0 && old(Free(kernel.world, pid, created)) ==> !Undisturbed(ticks)
      {
        r := Turn(ticks[n]);
        if !r.StillTrying? {
          return;
        }
      }
      r := StillTrying;
    }

    /** `release` (lines 147-168): LOCK_UN, close, unlink, with both failures suppressed. */
    method Release(unlockOk: bool, unlinkOk: bool, beforeClose: seq<Event>, beforeUnlink: seq<Event>)
      returns (ghost others: seq<Event>, ghost more: seq<Event>)
      requires Valid()
      requires fd.Some? ==> Phase() == Held(fd.value)
      modifies this`fd, kernel
      ensures Valid() && old(kernel.run) <= kernel.run && fd.None?
      ensures old(fd).None? ==> kernel.run == old(kernel.run)
      ensures old(fd).Some? ==> Phase().Idle? && (unlinkOk ==> kernel.world.path.None?)
      // the three calls, in this order, with only others' steps in between
      ensures old(fd).Some? ==>
                && NoneBy(pid, others) && NoneBy(pid, more)
                && kernel.run == old(kernel.run) + [Unlock(pid, unlockOk)] + others + [Close(pid)] + more + [Unlink(pid, unlinkOk)]
    {
      others, more := [], [];
      if fd.None? {
        return;
      }
      kernel.Do(Unlock(pid, unlockOk));
      ghost var unlocked := kernel.run;
      kernel.Others(pid, beforeClose);
      others := kernel.run[|unlocked|..];
      kernel.Do(Close(pid));
      fd := None;
      ghost var closed := kernel.run;
      kernel.Others(pid, beforeUnlink);
      more := kernel.run[|closed|..];
      kernel.Do(Unlink(pid, unlinkOk));
    }

    /**
     The guarantee for a caller: while no release so far has orphaned a holder,
     a process that is inside an exclusive lock is alone.
     */
    lemma HolderIsAlone(q: Pid)
      requires Valid() && NeverOrphans(UnlockFirst, kernel.start, kernel.run)
      requires fd.Some? && Phase() == Held(fd.value) && kernel.world.procs[pid].exclusive
      requires q in kernel.world.procs && q != pid
      ensures !PhaseOf(kernel.world, q).Held?
    {
      ExclusionWithoutOrphans(kernel.start, kernel.run);
    }
  }
}
