/**
 The runs of module AuditRuns, in which an emit is one step, are runs of module
 AuditInterleaving: each emit acquires the lock, scans, appends, writes the tip
 and releases, with nobody in between.
 */
module AuditAtomic {
  import opened Wrappers
  import opened Bytes
  import opened AuditChain
  import opened AuditInterleaving
  import Locks = LockProtocol
  import Runs = AuditRuns

  // ---------------------------------------------------------------- the lock, by a process on its own

  function Acquiring(p: Pid, created: Locks.Inode): seq<Locks.Event> {
    [Locks.Open(p, created), Locks.FlockGranted(p), Locks.Compare(p)]
  }

  function Releasing(p: Pid): seq<Locks.Event> { [Locks.Unlock(p, true), Locks.Close(p), Locks.Unlink(p, true)] }

  /** Nobody has the lock file open, and there is none. */
  predicate AllIdle(w: Locks.World) { w.path.None? && forall p | p in w.procs :: Locks.PhaseOf(w, p) == Locks.Idle }

  /** The world with this one process in this phase. */
  function With(w: Locks.World, path: Option<Locks.Inode>, p: Pid, ph: Locks.Phase): Locks.World
    requires p in w.procs
  {
    Locks.World(path, w.procs[p := w.procs[p].(phase := ph)])
  }

  lemma Acquire(w: Locks.World, p: Pid, i: Locks.Inode)
    requires AllIdle(w) && p in w.procs
    ensures Locks.Run(Locks.UnlockFirst, w, Acquiring(p, i))
    ensures Locks.After(Locks.UnlockFirst, w, Acquiring(p, i)) == With(w, Some(i), p, Locks.Held(i))
  {
    var w1, w2, held := With(w, Some(i), p, Locks.Opened(i)), With(w, Some(i), p, Locks.Locked(i)), With(w, Some(i), p, Locks.Held(i));
    assert Locks.Apply(Locks.UnlockFirst, w, Locks.Open(p, i)) == w1;
    assert Locks.Apply(Locks.UnlockFirst, w1, Locks.FlockGranted(p)) == w2;
    assert Locks.Apply(Locks.UnlockFirst, w2, Locks.Compare(p)) == held;
    Locks.ThreeCalls(w, Locks.Open(p, i), w1, Locks.FlockGranted(p), w2, Locks.Compare(p), held);
  }

  lemma Release(w: Locks.World, p: Pid, i: Locks.Inode)
    requires AllIdle(w) && p in w.procs
    ensures var held := With(w, Some(i), p, Locks.Held(i));
            Locks.Run(Locks.UnlockFirst, held, Releasing(p)) && Locks.After(Locks.UnlockFirst, held, Releasing(p)) == w
  {
    var held, w4, w5 := With(w, Some(i), p, Locks.Held(i)), With(w, Some(i), p, Locks.Unlocking(i, false)), With(w, Some(i), p, Locks.Closed);
    assert Locks.Apply(Locks.UnlockFirst, held, Locks.Unlock(p, true)) == w4;
    assert Locks.Apply(Locks.UnlockFirst, w4, Locks.Close(p)) == w5;
    assert Locks.Apply(Locks.UnlockFirst, w5, Locks.Unlink(p, true)) == w;
    Locks.ThreeCalls(held, Locks.Unlock(p, true), w4, Locks.Close(p), w5, Locks.Unlink(p, true), w);
  }

  /** Nobody holds while this process removes the file. */
  lemma NothingOrphaned(w: Locks.World, p: Pid, i: Locks.Inode)
    requires AllIdle(w) && p in w.procs
    requires var held := With(w, Some(i), p, Locks.Held(i));
             Locks.Run(Locks.UnlockFirst, w, Acquiring(p, i)) && Locks.Run(Locks.UnlockFirst, held, Releasing(p))
    ensures Locks.NeverOrphans(Locks.UnlockFirst, w, Acquiring(p, i))
    ensures Locks.NeverOrphans(Locks.UnlockFirst, With(w, Some(i), p, Locks.Held(i)), Releasing(p))
  {
    OnlyUnlinkOrphans(w, Acquiring(p, i));
    var held, w4, w5 := With(w, Some(i), p, Locks.Held(i)), With(w, Some(i), p, Locks.Unlocking(i, false)), With(w, Some(i), p, Locks.Closed);
    var es := Releasing(p);
    assert Locks.Apply(Locks.UnlockFirst, held, es[0]) == w4;
    assert es[1..] == [Locks.Close(p), Locks.Unlink(p, true)];
    assert Locks.Apply(Locks.UnlockFirst, w4, es[1]) == w5;
    assert es[1..][1..] == [Locks.Unlink(p, true)];
    assert es[1..][1..][1..] == [];
    assert !Locks.Orphans(w5, es[2]);
    assert Locks.NeverOrphans(Locks.UnlockFirst, w5, es[1..][1..]);
    assert Locks.NeverOrphans(Locks.UnlockFirst, w4, es[1..]);
  }

  lemma {:induction false} OnlyUnlinkOrphans(w: Locks.World, es: seq<Locks.Event>)
    requires Locks.Run(Locks.UnlockFirst, w, es) && forall i | 0 <= i < |es| :: !es[i].Unlink?
    ensures Locks.NeverOrphans(Locks.UnlockFirst, w, es)
    decreases |es|
  {
    if es != [] {
      OnlyUnlinkOrphans(Locks.Apply(Locks.UnlockFirst, w, es[0]), es[1..]);
    }
  }

  // ---------------------------------------------------------------- one emit

  predicate AllResting(j: Joint) { forall p | p in j.turns :: j.turns[p].Resting? }

  /** The files and counters, as the runs of whole emits see them. */
  function View(j: Joint): Runs.World { Runs.World(j.log, j.tip, j.dropped) }

  lemma {:induction false} LockCalls(c: Codec, j: Joint, es: seq<Locks.Event>)
    requires AllResting(j) && Locks.Run(Locks.UnlockFirst, j.locks, es) && forall i | 0 <= i < |es| :: !es[i].Crash?
    requires Locks.NeverOrphans(Locks.UnlockFirst, j.locks, es)
    ensures Leads(c, j, OnlyLocks(es), j.(locks := Locks.After(Locks.UnlockFirst, j.locks, es)))
    decreases |es|
  {
    if es != [] {
      var ss := OnlyLocks(es);
      assert ss[0] == Lock(es[0]) && ss[1..] == OnlyLocks(es[1..]);
      LockCalls(c, Next(c, j, ss[0]), es[1..]);
    }
  }

  /** These steps lead from one state to the other without orphaning a holder. */
  ghost predicate Leads(c: Codec, j: Joint, ss: seq<Step>, k: Joint) {
    Run(c, j, ss) && After(c, j, ss) == k && NeverOrphans(c, j, ss)
  }

  lemma LeadsCons(c: Codec, j: Joint, ss: seq<Step>, k: Joint)
    requires ss != [] && Enabled(j, ss[0]) && !(ss[0].Lock? && Locks.Orphans(j.locks, ss[0].e))
    ensures Leads(c, j, ss, k) <==> Leads(c, Next(c, j, ss[0]), ss[1..], k)
  {
  }

  lemma LeadsFirst(c: Codec, j: Joint, ss: seq<Step>, k: Joint)
    requires ss != [] && Leads(c, j, ss, k)
    ensures Enabled(j, ss[0]) && !(ss[0].Lock? && Locks.Orphans(j.locks, ss[0].e))
  {
  }

  /** Two runs, one after the other. */
  lemma {:induction false} Both(c: Codec, j: Joint, ss: seq<Step>, k: Joint, ts: seq<Step>, l: Joint)
    requires Leads(c, j, ss, k) && Leads(c, k, ts, l)
    ensures Leads(c, j, ss + ts, l)
    decreases |ss|
  {
    if ss == [] {
      assert ss + ts == ts;
    } else {
      var all := ss + ts;
      assert all[0] == ss[0] && all[1..] == ss[1..] + ts;
      LeadsFirst(c, j, ss, k);
      LeadsCons(c, j, ss, k);
      Both(c, Next(c, j, ss[0]), ss[1..], k, ts, l);
      LeadsCons(c, j, all, l);
    }
  }

  lemma OneStep(c: Codec, j: Joint, s: Step)
    requires Enabled(j, s) && !s.Lock?
    ensures Leads(c, j, [s], Next(c, j, s))
  {
    var ss := [s];
    assert ss[1..] == [];
  }

  /** Scan, append and tip write: one emit under the lock. */
  function EmitOf(s: Runs.Step): seq<Step>
    requires s.Emit?
  {
    [Scan(s.p)] + [Write(s.p, s.body, s.fault)] + if s.fault.Written? then [Tip(s.p, s.tipWritten)] else []
  }

  lemma EmitSteps(c: Codec, j: Joint, s: Runs.Step) returns (k: Joint)
    requires s.Emit? && s.lockGranted && s.p in j.locks.procs && Locks.PhaseOf(j.locks, s.p).Held? && AllResting(j)
    ensures Leads(c, j, EmitOf(s), k)
    ensures k.locks == j.locks && AllResting(k) && View(k) == Runs.Next(c, View(j), s)
  {
    var scan, write, tip := Scan(s.p), Write(s.p, s.body, s.fault), Tip(s.p, s.tipWritten);
    var j2 := ScanAndWrite(c, j, s);
    k := j2;
    if s.fault.Written? {
      k := Next(c, j2, tip);
      OneStep(c, j2, tip);
      Both(c, j, [scan] + [write], j2, [tip], k);
    } else {
      assert [scan] + [write] + [] == [scan] + [write];
    }
  }

  lemma ScanAndWrite(c: Codec, j: Joint, s: Runs.Step) returns (k: Joint)
    requires s.Emit? && s.lockGranted && s.p in j.locks.procs && Locks.PhaseOf(j.locks, s.p).Held? && AllResting(j)
    ensures Leads(c, j, [Scan(s.p)] + [Write(s.p, s.body, s.fault)], k)
    ensures var (prev, number) := Runs.ScanState(c, j.log);
            var e := Entry(s.body, OrEmpty(prev), number, Runs.Dropped(j.dropped, s.p));
            && k.locks == j.locks && k.tip == j.tip
            && k.log == (if s.fault.NothingLands? then j.log else j.log + c.show(e) + [NEWLINE])
            && k.dropped == j.dropped[s.p := if s.fault.Written? then 0 else Runs.Dropped(j.dropped, s.p) + 1]
            && TurnOf(k, s.p) == (if s.fault.Written? then Landed(c.hash(c.show(e)), number) else Resting)
            && forall q | q in k.turns && q != s.p :: k.turns[q].Resting?
  {
    var scan, write := Scan(s.p), Write(s.p, s.body, s.fault);
    var (prev, number) := Runs.ScanState(c, j.log);
    var j1 := j.(turns := j.turns[s.p := Scanned(prev, number)]);
    k := Next(c, j1, write);
    OneStep(c, j, scan);
    OneStep(c, j1, write);
    Both(c, j, [scan], j1, [write], k);
    Appended(c, j1, write, Entry(s.body, OrEmpty(prev), number, Runs.Dropped(j.dropped, s.p)));
  }

  /** What an append makes of the joint state, part by part. */
  lemma Appended(c: Codec, j: Joint, s: Step, e: Entry)
    requires Enabled(j, s) && s.Write? && e == EntryOf(j, s.p, s.body)
    ensures var (k, d) := (Next(c, j, s), Runs.Dropped(j.dropped, s.p));
            && k.locks == j.locks && k.tip == j.tip
            && k.log == (if s.fault.NothingLands? then j.log else j.log + c.show(e) + [NEWLINE])
            && k.dropped == j.dropped[s.p := if s.fault.Written? then 0 else d + 1]
            && k.turns == j.turns[s.p := if s.fault.Written? then Landed(c.hash(c.show(e)), e.number) else Resting]
  {
  }

  /** One step of the coarse runs, as steps of the fine ones; afterwards the lock is free again. */
  lemma StepSteps(c: Codec, j: Joint, s: Runs.Step) returns (ss: seq<Step>, k: Joint)
    requires AllIdle(j.locks) && AllResting(j) && s.p in j.locks.procs
    ensures Leads(c, j, ss, k)
    ensures k.locks == j.locks && AllResting(k) && View(k) == Runs.Next(c, View(j), s)
  {
    if s.Start? {
      ss, k := CrashStep(c, j, s.p);
    } else if !s.lockGranted {
      ss, k := [], j;
    } else {
      var i := Locks.Inode(0, 0);
      Acquire(j.locks, s.p, i);
      Release(j.locks, s.p, i);
      NothingOrphaned(j.locks, s.p, i);
      var j1 := j.(locks := With(j.locks, Some(i), s.p, Locks.Held(i)));
      LockCalls(c, j, Acquiring(s.p, i));
      var emit := EmitOf(s);
      var j2 := EmitSteps(c, j1, s);
      LockCalls(c, j2, Releasing(s.p));
      k := j2.(locks := j.locks);
      Both(c, j, OnlyLocks(Acquiring(s.p, i)), j1, emit, j2);
      ss := OnlyLocks(Acquiring(s.p, i)) + emit;
      Both(c, j, ss, j2, OnlyLocks(Releasing(s.p)), k);
      ss := ss + OnlyLocks(Releasing(s.p));
    }
  }

  /** A new object in place of an old one. */
  lemma CrashStep(c: Codec, j: Joint, p: Pid) returns (ss: seq<Step>, k: Joint)
    requires AllIdle(j.locks) && AllResting(j) && p in j.locks.procs
    ensures Leads(c, j, ss, k)
    ensures k.locks == j.locks && AllResting(k) && View(k) == Runs.Next(c, View(j), Runs.Start(p))
  {
    var crash := Lock(Locks.Crash(p));
    assert j.locks.procs[p].(phase := Locks.Idle) == j.locks.procs[p];
    assert Locks.Apply(Locks.UnlockFirst, j.locks, crash.e) == j.locks;
    ss, k := [crash], Next(c, j, crash);
    assert ss[1..] == [];
  }

  /**
   Every run of whole emits is an interleaved run, without an orphaning unlink,
   with the same log, tip and counters.
   */
  lemma {:induction false} AtomicIsInterleaved(c: Codec, locks: Locks.World, steps: seq<Runs.Step>) returns (ss: seq<Step>)
    requires AllIdle(locks) && forall i | 0 <= i < |steps| :: steps[i].p in locks.procs
    ensures Run(c, Start(locks), ss) && NeverOrphans(c, Start(locks), ss)
    ensures var k := After(c, Start(locks), ss); k.locks == locks && AllResting(k) && View(k) == Runs.After(c, steps)
    decreases |steps|
  {
    if steps == [] {
      ss := [];
    } else {
      var n := |steps| - 1;
      var before := AtomicIsInterleaved(c, locks, steps[..n]);
      var j := After(c, Start(locks), before);
      var more, k := StepSteps(c, j, steps[n]);
      Both(c, Start(locks), before, j, more, k);
      ss := before + more;
    }
  }

  // ---------------------------------------------------------------- after an orphaning unlink

  lemma {:induction false} AccountConcat(a: Account, ss: seq<Step>, ts: seq<Step>)
    ensures AccountOf(a, ss + ts) == AccountOf(AccountOf(a, ss), ts)
    decreases |ss|
  {
    if ss == [] {
      assert ss + ts == ts;
    } else {
      assert (ss + ts)[0] == ss[0] && (ss + ts)[1..] == ss[1..] + ts;
      AccountConcat(NextAccount(a, ss[0]), ss[1..], ts);
    }
  }

  /** The lock's calls do not count, and are all there is to a run of only them. */
  lemma {:induction false} LocksAccount(a: Account, es: seq<Locks.Event>)
    ensures AccountOf(a, OnlyLocks(es)).current == a.current && AccountOf(a, OnlyLocks(es)).landed == a.landed
    ensures LockEvents(OnlyLocks(es)) == es
    decreases |es|
  {
    if es != [] {
      var ss := OnlyLocks(es);
      assert ss[0] == Lock(es[0]) && ss[1..] == OnlyLocks(es[1..]);
      LocksAccount(NextAccount(a, ss[0]), es[1..]);
    }
  }

  lemma OneAccount(a: Account, s: Step)
    ensures AccountOf(a, [s]) == NextAccount(a, s) && LockEvents([s]) == if s.Lock? then [s.e] else []
  {
    var ss := [s];
    assert ss[1..] == [];
  }

  /** An emit with nobody in between is current. */
  lemma EmitAccount(a: Account, s: Runs.Step)
    requires s.Emit? && s.fault.Written?
    ensures var b := AccountOf(a, EmitOf(s)); b.current == a.current && |b.landed| == |a.landed| + 1
    ensures LockEvents(EmitOf(s)) == []
  {
    var scan, write, tip := Scan(s.p), Write(s.p, s.body, s.fault), Tip(s.p, s.tipWritten);
    OneAccount(a, scan);
    OneAccount(NextAccount(a, scan), write);
    OneAccount(NextAccount(NextAccount(a, scan), write), tip);
    AccountConcat(a, [scan], [write]);
    AccountConcat(a, [scan] + [write], [tip]);
    EventsConcat([scan], [write]);
    EventsConcat([scan] + [write], [tip]);
  }

  /**
   An orphaning unlink need not break the log: after the same one as in
   OrphanBreaksTheLog the two holders may also emit one after the other.
   */
  lemma OrphanNeedNotBreak(c: Codec, a: bytes, b: bytes) returns (locks: Locks.World, ss: seq<Step>)
    requires Faithful(c)
    ensures Locks.Initial(locks) && forall p | p in locks.procs :: locks.procs[p].exclusive
    ensures Run(c, Start(locks), ss) && !NeverOrphans(c, Start(locks), ss) && |AccountOf(NOTHING, ss).landed| == 2
    ensures Runs.Fits(LinesOf(c, Start(locks), ss)) ==> Approved(Verify(c, After(c, Start(locks), ss).log, NoTip))
  {
    var es;
    locks, es := Locks.TwoHoldersReachable();
    LocksRun(c, Start(locks), es);
    var j := After(c, Start(locks), OnlyLocks(es));
    var p, q :| p in j.locks.procs && q in j.locks.procs && p != q
                && Locks.PhaseOf(j.locks, p).Held? && Locks.PhaseOf(j.locks, q).Held?;
    var e, f := Runs.Emit(p, a, true, Runs.Written, true), Runs.Emit(q, b, true, Runs.Written, true);
    var k := EmitSteps(c, j, e);
    var l := EmitSteps(c, k, f);
    ThreeParts(c, Start(locks), OnlyLocks(es), j, EmitOf(e), k, EmitOf(f), l);
    ss := OnlyLocks(es) + EmitOf(e) + EmitOf(f);
    TwoEmits(es, e, f);
    ProjectsToLocks(c, Start(locks), ss);
    if Runs.Fits(LinesOf(c, Start(locks), ss)) {
      ApprovedIffCurrent(c, locks, ss);
    }
  }

  lemma TwoEmits(es: seq<Locks.Event>, e: Runs.Step, f: Runs.Step)
    requires e.Emit? && f.Emit? && e.fault.Written? && f.fault.Written?
    ensures var ss := OnlyLocks(es) + EmitOf(e) + EmitOf(f);
            && LockEvents(ss) == es && AccountOf(NOTHING, ss).current && |AccountOf(NOTHING, ss).landed| == 2
  {
    var locked, first := OnlyLocks(es), AccountOf(NOTHING, OnlyLocks(es));
    LocksAccount(NOTHING, es);
    AccountConcat(NOTHING, locked + EmitOf(e), EmitOf(f));
    AccountConcat(NOTHING, locked, EmitOf(e));
    EmitAccount(first, e);
    EmitAccount(AccountOf(first, EmitOf(e)), f);
    EventsConcat(locked + EmitOf(e), EmitOf(f));
    EventsConcat(locked, EmitOf(e));
    assert es + [] + [] == es;
  }
}
