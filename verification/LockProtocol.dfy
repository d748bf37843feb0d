/**
 The lock-file protocol of storage/file_lock.py as a transition system.

 Any number of processes run open / flock / fstat-stat compare / close / re-open
 on acquire, and LOCK_UN / close / unlink on release, interleaved one system
 call at a time.  The only shared state is the directory entry of the lock file
 (which inode it names, if any); flock locks belong to a process's open
 descriptor and end with it.  Inode numbers may be reused once nothing names
 them.
 */
module LockProtocol {
  import opened Wrappers

  /** `st_dev` and `st_ino`: the two fields the comparison at line 117 looks at. */
  datatype Inode = Inode(dev: nat, ino: nat)

  type Pid = nat

  datatype Phase =
    | Idle                                    // no descriptor
    | Opened(inode: Inode)                    // descriptor open, flock not granted yet
    | Locked(inode: Inode)                    // flock granted, descriptor and path not compared yet
    | Stale(inode: Inode)                     // compared unequal; the descriptor is about to be closed
    | Reopening                               // stale descriptor closed, about to open again
    | Held(inode: Inode)                      // acquire returned
    | Unlinked(inode: Inode)                  // only under UnlinkFirst: path removed, lock still held
    | Unlocking(inode: Inode, flocked: bool)  // LOCK_UN issued; flocked when the call failed
    | Closed                                  // descriptor closed, unlink still to come

  datatype Process = Process(exclusive: bool, phase: Phase)

  datatype World = World(path: Option<Inode>, procs: map<Pid, Process>)

  /** Release as written (LOCK_UN, close, unlink), or with the unlink first. */
  datatype Order = UnlockFirst | UnlinkFirst

  datatype Event =
    | Open(p: Pid, created: Inode)     // created: the inode the kernel allocates if O_CREAT has to create
    | OpenFails(p: Pid)
    | FlockGranted(p: Pid)
    | FlockTimesOut(p: Pid)          // EWOULDBLOCK past the deadline: close and raise
    | Compare(p: Pid)
    | CloseStale(p: Pid)
    | Unlock(p: Pid, ok: bool)
    | Close(p: Pid)
    | Unlink(p: Pid, ok: bool)
    | Crash(p: Pid)                  // the kernel closes the descriptor; nothing is unlinked

  // ---------------------------------------------------------------- state views

  /** The inode on which this process currently owns an flock. */
  function FlockOf(ph: Phase): Option<Inode> {
    match ph
    case Locked(i) => Some(i)
    case Stale(i) => Some(i)
    case Held(i) => Some(i)
    case Unlinked(i) => Some(i)
    case Unlocking(i, flocked) => if flocked then Some(i) else None
    case _ => None
  }

  /** The inode this process has open. */
  function DescriptorOf(ph: Phase): Option<Inode> {
    match ph
    case Opened(i) => Some(i)
    case Unlocking(i, _) => Some(i)
    case _ => FlockOf(ph)
  }

  function PhaseOf(w: World, p: Pid): Phase
    requires p in w.procs
  {
    w.procs[p].phase
  }

  predicate Unused(w: World, i: Inode) {
    && w.path != Some(i)
    && forall q | q in w.procs :: DescriptorOf(PhaseOf(w, q)) != Some(i)
  }

  /** What the kernel checks for LOCK_EX / LOCK_SH with LOCK_NB. */
  predicate FlockCompatible(w: World, p: Pid, i: Inode)
    requires p in w.procs
  {
    forall q | q in w.procs && q != p && FlockOf(PhaseOf(w, q)) == Some(i) ::
      !w.procs[p].exclusive && !w.procs[q].exclusive
  }

  // ---------------------------------------------------------------- transitions

  predicate Enabled(o: Order, w: World, e: Event) {
    && e.p in w.procs
    && var ph := PhaseOf(w, e.p);
       match e
       case Open(_, created) => (ph.Idle? || ph.Reopening?) && (w.path.None? ==> Unused(w, created))
       case OpenFails(_) => ph.Idle? || ph.Reopening?
       case FlockGranted(p) => ph.Opened? && FlockCompatible(w, p, ph.inode)
       case FlockTimesOut(p) => ph.Opened? && !FlockCompatible(w, p, ph.inode)
       case Compare(_) => ph.Locked?
       case CloseStale(_) => ph.Stale?
       case Unlock(_, _) => if o.UnlockFirst? then ph.Held? else ph.Unlinked?
       case Close(_) => ph.Unlocking?
       case Unlink(_, _) => if o.UnlockFirst? then ph.Closed? else ph.Held?
       case Crash(_) => true
  }

  function NextPhase(o: Order, w: World, e: Event): Phase
    requires Enabled(o, w, e)
  {
    var ph := PhaseOf(w, e.p);
    match e
    case Open(_, created) => Opened(if w.path.Some? then w.path.value else created)
    case OpenFails(_) => Idle
    case FlockGranted(_) => Locked(ph.inode)
    case FlockTimesOut(_) => Idle
    case Compare(_) => if w.path == Some(ph.inode) then Held(ph.inode) else Stale(ph.inode)
    case CloseStale(_) => Reopening
    case Unlock(_, ok) => Unlocking(ph.inode, !ok)
    case Close(_) => if o.UnlockFirst? then Closed else Idle
    case Unlink(_, _) => if o.UnlockFirst? then Idle else Unlinked(ph.inode)
    case Crash(_) => Idle
  }

  function NextPath(w: World, e: Event): Option<Inode> {
    match e
    case Open(_, created) => if w.path.Some? then w.path else Some(created)
    case Unlink(_, ok) => if ok then None else w.path
    case _ => w.path
  }

  function Apply(o: Order, w: World, e: Event): World
    requires Enabled(o, w, e)
  {
    World(NextPath(w, e), w.procs[e.p := w.procs[e.p].(phase := NextPhase(o, w, e))])
  }

  predicate Run(o: Order, w: World, es: seq<Event>)
    decreases |es|
  {
    es == [] || (Enabled(o, w, es[0]) && Run(o, Apply(o, w, es[0]), es[1..]))
  }

  function After(o: Order, w: World, es: seq<Event>): World
    requires Run(o, w, es)
    decreases |es|
  {
    if es == [] then w else After(o, Apply(o, w, es[0]), es[1..])
  }

  lemma {:induction false} RunSnoc(o: Order, w: World, es: seq<Event>, e: Event)
    requires Run(o, w, es) && Enabled(o, After(o, w, es), e)
    ensures Run(o, w, es + [e]) && After(o, w, es + [e]) == Apply(o, After(o, w, es), e)
    decreases |es|
  {
    if es == [] {
      assert ([] + [e])[1..] == [];
    } else {
      assert (es + [e])[1..] == es[1..] + [e];
      RunSnoc(o, Apply(o, w, es[0]), es[1..], e);
    }
  }

  /** A start: the lock file may or may not be left over, nobody has it open. */
  predicate Initial(w: World) {
    forall p | p in w.procs :: PhaseOf(w, p) == Idle
  }

  // ---------------------------------------------------------------- safety

  /** An exclusive flock on an inode excludes every other flock on that inode. */
  ghost predicate FlocksExclude(w: World) {
    forall p, q | p in w.procs && q in w.procs && p != q
                  && FlockOf(PhaseOf(w, p)).Some? && FlockOf(PhaseOf(w, p)) == FlockOf(PhaseOf(w, q)) ::
      !w.procs[p].exclusive && !w.procs[q].exclusive
  }

  /** Every holder's inode is the one the path names. */
  ghost predicate HoldersLinked(w: World) {
    forall p | p in w.procs && PhaseOf(w, p).Held? :: w.path == Some(PhaseOf(w, p).inode)
  }

  /** What FileLock is for: an exclusive holder is the only holder. */
  ghost predicate MutualExclusion(w: World) {
    forall p, q | p in w.procs && q in w.procs && p != q
                  && PhaseOf(w, p).Held? && PhaseOf(w, q).Held? ::
      !w.procs[p].exclusive && !w.procs[q].exclusive
  }

  /** A release's unlink about to remove the path while somebody still holds that very inode. */
  ghost predicate Orphans(w: World, e: Event) {
    && e.Unlink? && e.ok && w.path.Some?
    && exists q :: q in w.procs && PhaseOf(w, q) == Held(w.path.value)
  }

  ghost predicate NeverOrphans(o: Order, w: World, es: seq<Event>)
    requires Run(o, w, es)
    decreases |es|
  {
    es == [] || (!Orphans(w, es[0]) && NeverOrphans(o, Apply(o, w, es[0]), es[1..]))
  }

  ghost predicate AlwaysLinked(o: Order, w: World, es: seq<Event>)
    requires Run(o, w, es)
    decreases |es|
  {
    HoldersLinked(w) && (es == [] || AlwaysLinked(o, Apply(o, w, es[0]), es[1..]))
  }

  lemma FlocksExcludeStep(o: Order, w: World, e: Event)
    requires FlocksExclude(w) && Enabled(o, w, e)
    ensures FlocksExclude(Apply(o, w, e))
  {
    var w' := Apply(o, w, e);
    forall p, q | p in w'.procs && q in w'.procs && p != q
                  && FlockOf(PhaseOf(w', p)).Some? && FlockOf(PhaseOf(w', p)) == FlockOf(PhaseOf(w', q))
      ensures !w'.procs[p].exclusive && !w'.procs[q].exclusive
    {
      assert p != e.p ==> w'.procs[p] == w.procs[p];
      assert q != e.p ==> w'.procs[q] == w.procs[q];
    }
  }

  /** One step keeps every holder linked exactly when it does not orphan one. */
  lemma LinkedStep(w: World, e: Event)
    requires HoldersLinked(w) && Enabled(UnlockFirst, w, e)
    ensures HoldersLinked(Apply(UnlockFirst, w, e)) <==> !Orphans(w, e)
  {
    var w' := Apply(UnlockFirst, w, e);
    if Orphans(w, e) {
      var q :| q in w.procs && PhaseOf(w, q) == Held(w.path.value);
      assert PhaseOf(w', q) == Held(w.path.value);
    } else {
      forall p | p in w'.procs && PhaseOf(w', p).Held?
        ensures w'.path == Some(PhaseOf(w', p).inode)
      {
        if p != e.p {
          assert w'.procs[p] == w.procs[p];
        }
      }
    }
  }

  lemma LinkedImpliesExclusion(w: World)
    requires FlocksExclude(w) && HoldersLinked(w)
    ensures MutualExclusion(w)
  {
    forall p, q | p in w.procs && q in w.procs && p != q
                  && PhaseOf(w, p).Held? && PhaseOf(w, q).Held?
      ensures !w.procs[p].exclusive && !w.procs[q].exclusive
    {
      assert FlockOf(PhaseOf(w, p)) == w.path == FlockOf(PhaseOf(w, q));
    }
  }

  /** In every interleaving, under either release order, exclusive flocks exclude. */
  lemma {:induction false} FlocksExcludeAlways(o: Order, w: World, es: seq<Event>)
    requires FlocksExclude(w) && Run(o, w, es)
    ensures FlocksExclude(After(o, w, es))
    decreases |es|
  {
    if es != [] {
      FlocksExcludeStep(o, w, es[0]);
      FlocksExcludeAlways(o, Apply(o, w, es[0]), es[1..]);
    }
  }

  /** Along a run every holder stays linked exactly when no unlink orphans one. */
  lemma {:induction false} LinkedIffNeverOrphans(w: World, es: seq<Event>)
    requires HoldersLinked(w) && Run(UnlockFirst, w, es)
    ensures AlwaysLinked(UnlockFirst, w, es) <==> NeverOrphans(UnlockFirst, w, es)
    decreases |es|
  {
    if es != [] {
      LinkedStep(w, es[0]);
      if !Orphans(w, es[0]) {
        LinkedIffNeverOrphans(Apply(UnlockFirst, w, es[0]), es[1..]);
      }
    }
  }

  lemma {:induction false} LinkedAtEnd(w: World, es: seq<Event>)
    requires Run(UnlockFirst, w, es) && AlwaysLinked(UnlockFirst, w, es)
    ensures HoldersLinked(After(UnlockFirst, w, es))
    decreases |es|
  {
    if es != [] {
      LinkedAtEnd(Apply(UnlockFirst, w, es[0]), es[1..]);
    }
  }

  /** The release order as written: exclusion holds in every run without an orphaning unlink. */
  lemma ExclusionWithoutOrphans(w: World, es: seq<Event>)
    requires Initial(w) && Run(UnlockFirst, w, es) && NeverOrphans(UnlockFirst, w, es)
    ensures MutualExclusion(After(UnlockFirst, w, es))
  {
    FlocksExcludeAlways(UnlockFirst, w, es);
    LinkedIffNeverOrphans(w, es);
    LinkedAtEnd(w, es);
    LinkedImpliesExclusion(After(UnlockFirst, w, es));
  }

  /**
   The condition is exact: right after any orphaning unlink, any idle process can
   finish a whole acquire while the orphaned holder still holds.
   */
  lemma OrphanBreaksExclusion(w: World, e: Event, r: Pid, created: Inode) returns (q: Pid, after: World)
    requires Enabled(UnlockFirst, w, e) && Orphans(w, e)
    requires r in w.procs && r != e.p && PhaseOf(w, r) == Idle && w.procs[r].exclusive
    requires Unused(w, created)
    ensures var es := [e] + [Open(r, created), FlockGranted(r), Compare(r)];
            Run(UnlockFirst, w, es) && after == After(UnlockFirst, w, es)
    ensures q != r && q in after.procs && r in after.procs
    ensures PhaseOf(after, q).Held? && PhaseOf(after, r) == Held(created)
    ensures !MutualExclusion(after)
  {
    q :| q in w.procs && PhaseOf(w, q) == Held(w.path.value);
    var w1 := Apply(UnlockFirst, w, e);
    assert forall x | x in w1.procs && x != e.p :: w1.procs[x] == w.procs[x];
    after := AcquireAlone(w1, r, created);
    ConsRun(w, e, [Open(r, created), FlockGranted(r), Compare(r)]);
  }

  lemma ConsRun(w: World, e: Event, es: seq<Event>)
    requires Enabled(UnlockFirst, w, e) && Run(UnlockFirst, Apply(UnlockFirst, w, e), es)
    ensures Run(UnlockFirst, w, [e] + es) && After(UnlockFirst, w, [e] + es) == After(UnlockFirst, Apply(UnlockFirst, w, e), es)
  {
    assert ([e] + es)[0] == e && ([e] + es)[1..] == es;
  }

  /** Three calls in a row that are each possible make a run. */
  lemma ThreeCalls(w: World, a: Event, w1: World, b: Event, w2: World, c: Event, w3: World)
    requires Enabled(UnlockFirst, w, a) && w1 == Apply(UnlockFirst, w, a)
    requires Enabled(UnlockFirst, w1, b) && w2 == Apply(UnlockFirst, w1, b)
    requires Enabled(UnlockFirst, w2, c) && w3 == Apply(UnlockFirst, w2, c)
    ensures Run(UnlockFirst, w, [a, b, c]) && After(UnlockFirst, w, [a, b, c]) == w3
  {
    ConsRun(w2, c, []);
    ConsRun(w1, b, [c]);
    assert [b] + [c] == [b, c];
    ConsRun(w, a, [b, c]);
    assert [a] + [b, c] == [a, b, c];
  }

  /** With no lock file there, an idle process acquires in three calls; everybody else stays as they are. */
  lemma AcquireAlone(w: World, r: Pid, created: Inode) returns (after: World)
    requires w.path.None? && Unused(w, created) && r in w.procs && PhaseOf(w, r) == Idle
    ensures var es := [Open(r, created), FlockGranted(r), Compare(r)]; Run(UnlockFirst, w, es) && after == After(UnlockFirst, w, es)
    ensures after.procs == w.procs[r := w.procs[r].(phase := Held(created))]
  {
    var w1 := Apply(UnlockFirst, w, Open(r, created));
    assert forall x | x in w1.procs && x != r :: w1.procs[x] == w.procs[x];
    var w2 := Apply(UnlockFirst, w1, FlockGranted(r));
    after := Apply(UnlockFirst, w2, Compare(r));
    ThreeCalls(w, Open(r, created), w1, FlockGranted(r), w2, Compare(r), after);
  }

  /** Three exclusive processes and the path. */
  function Trio(path: Option<Inode>, a: Phase, b: Phase, c: Phase): World {
    World(path, map[0 := Process(true, a), 1 := Process(true, b), 2 := Process(true, c)])
  }

  /** Appends one event to a run of three processes. */
  lemma TrioStep(w: World, es: seq<Event>, cur: World, e: Event, next: World) returns (more: seq<Event>)
    requires Run(UnlockFirst, w, es) && After(UnlockFirst, w, es) == cur
    requires Enabled(UnlockFirst, cur, e)
    requires next.path == NextPath(cur, e) && next.procs.Keys == cur.procs.Keys
    requires forall p | p in cur.procs ::
      next.procs[p] == if p == e.p then Process(cur.procs[p].exclusive, NextPhase(UnlockFirst, cur, e)) else cur.procs[p]
    ensures more == es + [e] && Run(UnlockFirst, w, more) && After(UnlockFirst, w, more) == next
  {
    more := es + [e];
    RunSnoc(UnlockFirst, w, es, e);
    assert Apply(UnlockFirst, cur, e).procs == next.procs;
  }

  /** Process 0 acquires. */
  lemma FirstHolder(i: Inode) returns (es: seq<Event>)
    ensures Run(UnlockFirst, Trio(None, Idle, Idle, Idle), es)
    ensures After(UnlockFirst, Trio(None, Idle, Idle, Idle), es) == Trio(Some(i), Held(i), Idle, Idle)
  {
    var w, at := Trio(None, Idle, Idle, Idle), Some(i);
    es := TrioStep(w, [], w, Open(0, i), Trio(at, Opened(i), Idle, Idle));
    es := TrioStep(w, es, Trio(at, Opened(i), Idle, Idle), FlockGranted(0), Trio(at, Locked(i), Idle, Idle));
    es := TrioStep(w, es, Trio(at, Locked(i), Idle, Idle), Compare(0), Trio(at, Held(i), Idle, Idle));
  }

  /** Process 1 opens while 0 holds; 0 unlocks. */
  lemma HandOver(i: Inode) returns (es: seq<Event>)
    ensures Run(UnlockFirst, Trio(None, Idle, Idle, Idle), es)
    ensures After(UnlockFirst, Trio(None, Idle, Idle, Idle), es)
         == Trio(Some(i), Unlocking(i, false), Opened(i), Idle)
  {
    var w, at := Trio(None, Idle, Idle, Idle), Some(i);
    es := FirstHolder(i);
    es := TrioStep(w, es, Trio(at, Held(i), Idle, Idle), Open(1, i), Trio(at, Held(i), Opened(i), Idle));
    es := TrioStep(w, es, Trio(at, Held(i), Opened(i), Idle), Unlock(0, true),
                   Trio(at, Unlocking(i, false), Opened(i), Idle));
  }

  /** 1 gets the flock, compares equal and holds; 0 closes, its unlink still to come. */
  lemma LateUnlinkPending(i: Inode) returns (es: seq<Event>)
    ensures Run(UnlockFirst, Trio(None, Idle, Idle, Idle), es)
    ensures After(UnlockFirst, Trio(None, Idle, Idle, Idle), es) == Trio(Some(i), Closed, Held(i), Idle)
  {
    var w, at := Trio(None, Idle, Idle, Idle), Some(i);
    es := HandOver(i);
    es := TrioStep(w, es, Trio(at, Unlocking(i, false), Opened(i), Idle), FlockGranted(1),
                   Trio(at, Unlocking(i, false), Locked(i), Idle));
    es := TrioStep(w, es, Trio(at, Unlocking(i, false), Locked(i), Idle), Compare(1),
                   Trio(at, Unlocking(i, false), Held(i), Idle));
    es := TrioStep(w, es, Trio(at, Unlocking(i, false), Held(i), Idle), Close(0), Trio(at, Closed, Held(i), Idle));
  }

  /** 0's unlink then removes the file 1 holds, and 2 creates and locks a new one. */
  lemma SecondHolder(i: Inode, j: Inode, w: World) returns (es: seq<Event>)
    requires i != j && w == Trio(Some(i), Closed, Held(i), Idle)
    ensures Run(UnlockFirst, w, es) && !MutualExclusion(After(UnlockFirst, w, es))
  {
    assert PhaseOf(w, 1) == Held(i);
    var q, after := OrphanBreaksExclusion(w, Unlink(0, true), 2, j);
    es := [Unlink(0, true)] + [Open(2, j), FlockGranted(2), Compare(2)];
  }

  /** The condition is not idle: three exclusive processes do reach two holders. */
  lemma TwoHoldersReachable() returns (w: World, es: seq<Event>)
    ensures Initial(w) && (forall p | p in w.procs :: w.procs[p].exclusive)
    ensures Run(UnlockFirst, w, es) && !MutualExclusion(After(UnlockFirst, w, es))
    ensures !NeverOrphans(UnlockFirst, w, es)
  {
    var i, j := Inode(0, 1), Inode(0, 2);
    w := Trio(None, Idle, Idle, Idle);
    var es0 := LateUnlinkPending(i);
    var es1 := SecondHolder(i, j, After(UnlockFirst, w, es0));
    RunConcat(w, es0, es1);
    es := es0 + es1;
    if NeverOrphans(UnlockFirst, w, es) {
      ExclusionWithoutOrphans(w, es);
      assert false;
    }
  }

  /** Runs compose. */
  lemma {:induction false} RunConcat(w: World, es: seq<Event>, fs: seq<Event>)
    requires Run(UnlockFirst, w, es) && Run(UnlockFirst, After(UnlockFirst, w, es), fs)
    ensures Run(UnlockFirst, w, es + fs)
    ensures After(UnlockFirst, w, es + fs) == After(UnlockFirst, After(UnlockFirst, w, es), fs)
    decreases |es|
  {
    if es == [] {
      assert es + fs == fs;
    } else {
      assert (es + fs)[1..] == es[1..] + fs;
      RunConcat(Apply(UnlockFirst, w, es[0]), es[1..], fs);
    }
  }

  /** A compare that succeeds does so on the inode the path names at that moment. */
  lemma SuccessfulCompare(o: Order, w: World, e: Event)
    requires Enabled(o, w, e) && !PhaseOf(w, e.p).Held? && NextPhase(o, w, e).Held?
    ensures e.Compare?
    ensures Apply(o, w, e).path == w.path == Some(NextPhase(o, w, e).inode) == DescriptorOf(PhaseOf(w, e.p))
  {
  }

  // ---------------------------------------------------------------- unlink before unlock

  /** With every lock exclusive and the unlink moved before LOCK_UN, a step keeps holders linked. */
  lemma UnlinkFirstStep(w: World, e: Event)
    requires Enabled(UnlinkFirst, w, e) && FlocksExclude(w) && HoldersLinked(w)
    requires forall p | p in w.procs :: w.procs[p].exclusive
    ensures HoldersLinked(Apply(UnlinkFirst, w, e))
  {
    var w' := Apply(UnlinkFirst, w, e);
    forall p | p in w'.procs && PhaseOf(w', p).Held?
      ensures w'.path == Some(PhaseOf(w', p).inode)
    {
      if p != e.p {
        assert w'.procs[p] == w.procs[p];
        if e.Unlink? {
          assert false;
        }
      }
    }
  }

  /** With the order reversed and only exclusive locks, exclusion needs no assumption about the run. */
  lemma {:induction false} UnlinkFirstExcludes(w: World, es: seq<Event>)
    requires FlocksExclude(w) && HoldersLinked(w) && Run(UnlinkFirst, w, es)
    requires forall p | p in w.procs :: w.procs[p].exclusive
    ensures MutualExclusion(After(UnlinkFirst, w, es))
    decreases |es|
  {
    if es == [] {
      LinkedImpliesExclusion(w);
    } else {
      FlocksExcludeStep(UnlinkFirst, w, es[0]);
      UnlinkFirstStep(w, es[0]);
      UnlinkFirstExcludes(Apply(UnlinkFirst, w, es[0]), es[1..]);
    }
  }
}
