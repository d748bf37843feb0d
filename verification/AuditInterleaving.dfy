/**
 Emits of many AuditLog objects interleaved with the lock protocol they run
 under: the scan, the append and the tip write of one emit are separate steps,
 and so is every system call on the lock file.

 AuditRuns takes it that emits do not overlap.  Here that is proved of every run
 in which no release orphans a holder, and shown to fail of one in which a
 release does.
 */
module AuditInterleaving {
  import opened Wrappers
  import opened Bytes
  import opened AuditChain
  import Text
  import Locks = LockProtocol
  import Runs = AuditRuns

  type Pid = nat

  /** How far an object is in the emit it makes under the lock. */
  datatype Turn = Resting | Scanned(prev: Option<string>, number: nat) | Landed(hash: string, number: nat)

  datatype Joint = Joint(locks: Locks.World, log: bytes, tip: TipFile, dropped: map<Pid, nat>, turns: map<Pid, Turn>)

  datatype Step =
    | Lock(e: Locks.Event)
    | Scan(p: Pid)
    | Write(p: Pid, body: bytes, fault: Runs.Fault)
    | Tip(p: Pid, ok: bool)

  function TurnOf(j: Joint, p: Pid): Turn { if p in j.turns then j.turns[p] else Resting }

  /** In the middle of an emit only a crash touches the object's lock. */
  predicate Enabled(j: Joint, s: Step) {
    match s
    case Lock(e) => Locks.Enabled(Locks.UnlockFirst, j.locks, e) && (TurnOf(j, e.p).Resting? || e.Crash?)
    case Scan(p) => p in j.locks.procs && Locks.PhaseOf(j.locks, p).Held? && TurnOf(j, p).Resting?
    case Write(p, _, _) => TurnOf(j, p).Scanned?
    case Tip(p, _) => TurnOf(j, p).Landed?
  }

  /** The record the append writes: what the scan found goes into it. */
  function EntryOf(j: Joint, p: Pid, body: bytes): Entry
    requires TurnOf(j, p).Scanned?
  {
    Entry(body, OrEmpty(TurnOf(j, p).prev), TurnOf(j, p).number, Runs.Dropped(j.dropped, p))
  }

  function Next(c: Codec, j: Joint, s: Step): Joint
    requires Enabled(j, s)
  {
    match s
    case Lock(e) =>
      var locked := j.(locks := Locks.Apply(Locks.UnlockFirst, j.locks, e));
      if e.Crash? then locked.(turns := j.turns[e.p := Resting], dropped := j.dropped[e.p := 0]) else locked
    case Scan(p) =>
      var (prev, number) := Runs.ScanState(c, j.log);
      j.(turns := j.turns[p := Scanned(prev, number)])
    case Write(p, body, fault) =>
      var line := c.show(EntryOf(j, p, body));
      var log := if fault.NothingLands? then j.log else j.log + line + [NEWLINE];
      if fault.Written? then
        j.(log := log, dropped := j.dropped[p := 0], turns := j.turns[p := Landed(c.hash(line), TurnOf(j, p).number)])
      else
        j.(log := log, dropped := j.dropped[p := Runs.Dropped(j.dropped, p) + 1], turns := j.turns[p := Resting])
    case Tip(p, ok) =>
      j.(tip := if ok then TipData(Runs.TipLine(TurnOf(j, p).hash, TurnOf(j, p).number)) else j.tip,
         turns := j.turns[p := Resting])
  }

  predicate Run(c: Codec, j: Joint, ss: seq<Step>)
    decreases |ss|
  {
    ss == [] || (Enabled(j, ss[0]) && Run(c, Next(c, j, ss[0]), ss[1..]))
  }

  function After(c: Codec, j: Joint, ss: seq<Step>): Joint
    requires Run(c, j, ss)
    decreases |ss|
  {
    if ss == [] then j else After(c, Next(c, j, ss[0]), ss[1..])
  }

  /** No release removes the lock file under a holder. */
  ghost predicate NeverOrphans(c: Codec, j: Joint, ss: seq<Step>)
    requires Run(c, j, ss)
    decreases |ss|
  {
    ss == [] || (!(ss[0].Lock? && Locks.Orphans(j.locks, ss[0].e)) && NeverOrphans(c, Next(c, j, ss[0]), ss[1..]))
  }

  /** The calls on the lock file alone. */
  function LockEvents(ss: seq<Step>): seq<Locks.Event> {
    if ss == [] then [] else (if ss[0].Lock? then [ss[0].e] else []) + LockEvents(ss[1..])
  }

  /** They are a run of the lock protocol, and orphan holders exactly if it does. */
  lemma {:induction false} ProjectsToLocks(c: Codec, j: Joint, ss: seq<Step>)
    requires Run(c, j, ss)
    ensures Locks.Run(Locks.UnlockFirst, j.locks, LockEvents(ss))
    ensures Locks.After(Locks.UnlockFirst, j.locks, LockEvents(ss)) == After(c, j, ss).locks
    ensures NeverOrphans(c, j, ss) <==> Locks.NeverOrphans(Locks.UnlockFirst, j.locks, LockEvents(ss))
    decreases |ss|
  {
    if ss != [] {
      var es, rest := LockEvents(ss), LockEvents(ss[1..]);
      ProjectsToLocks(c, Next(c, j, ss[0]), ss[1..]);
      if ss[0].Lock? {
        assert es[0] == ss[0].e && es[1..] == rest;
      } else {
        assert es == rest;
      }
    }
  }

  // ---------------------------------------------------------------- the account of a schedule

  /**
   What a schedule amounts to, without hashes, bytes or locks: the records that
   landed; how many there were when an object last scanned; which one it wrote;
   which one the tip file was last written for; and whether every landing write
   found as many records as its object's own scan.
   */
  datatype Account = Account(landed: seq<Runs.Landing>, dropped: map<Pid, nat>, seen: map<Pid, nat>, wrote: map<Pid, nat>,
                             tipAt: Option<nat>, current: bool)

  const NOTHING := Account([], map[], map[], map[], None, true)

  predicate Current(a: Account, p: Pid) { p in a.seen && a.seen[p] == |a.landed| }

  function NextAccount(a: Account, s: Step): Account {
    match s
    case Lock(e) => if e.Crash? then a.(dropped := a.dropped[e.p := 0]) else a
    case Scan(p) => a.(seen := a.seen[p := |a.landed|])
    case Write(p, body, fault) =>
      var counted := a.(dropped := a.dropped[p := if fault.Written? then 0 else Runs.Dropped(a.dropped, p) + 1]);
      if fault.NothingLands? then counted
      else counted.(landed := a.landed + [Runs.Landing(body, Runs.Dropped(a.dropped, p))],
                    wrote := a.wrote[p := |a.landed|],
                    current := a.current && Current(a, p))
    case Tip(p, ok) => if ok && p in a.wrote then a.(tipAt := Some(a.wrote[p])) else a
  }

  function AccountOf(a: Account, ss: seq<Step>): Account
    decreases |ss|
  {
    if ss == [] then a else AccountOf(NextAccount(a, ss[0]), ss[1..])
  }

  /** The lines a run adds to the log. */
  function LinesOf(c: Codec, j: Joint, ss: seq<Step>): seq<bytes>
    requires Run(c, j, ss)
    decreases |ss|
  {
    if ss == [] then [] else Added(c, j, ss[0]) + LinesOf(c, Next(c, j, ss[0]), ss[1..])
  }

  function Added(c: Codec, j: Joint, s: Step): seq<bytes>
    requires Enabled(j, s)
  {
    if s.Write? && !s.fault.NothingLands? then [c.show(EntryOf(j, s.p, s.body))] else []
  }

  // ---------------------------------------------------------------- in every run

  /** The hash of the last of these lines, if any. */
  function HeadOf(c: Codec, lines: seq<bytes>): Option<string> {
    if lines == [] then None else Some(HeadHash(c, lines))
  }

  /** What an object found or wrote is what the account says it did. */
  ghost predicate Recorded(c: Codec, a: Account, p: Pid, t: Turn, lines: seq<bytes>) {
    match t
    case Resting => true
    case Scanned(prev, number) =>
      p in a.seen && a.seen[p] == number <= |lines| && prev == HeadOf(c, lines[..number])
    case Landed(hash, number) =>
      p in a.wrote && a.wrote[p] == number < |lines| && hash == c.hash(lines[number])
  }

  /** The log while every landing write was current: the chain. */
  ghost predicate Chained(c: Codec, j: Joint, a: Account, lines: seq<bytes>) {
    && lines == Runs.Chain(c, a.landed) && Runs.TipNames(c, j.tip, a.tipAt, lines)
    && forall p | p in j.turns :: Recorded(c, a, p, j.turns[p], lines)
  }

  ghost predicate Shown(lines: seq<bytes>) { forall i | 0 <= i < |lines| :: NEWLINE !in lines[i] }

  /** While every landing write was current the log is the chain; after one that was not, no walk gets through it. */
  ghost predicate InSync(c: Codec, j: Joint, a: Account, lines: seq<bytes>) {
    && j.log == Runs.Render(lines) && Shown(lines) && |lines| == |a.landed| && j.dropped == a.dropped
    && if a.current then Chained(c, j, a, lines) else !Walk(c, WALK_START, lines).Walked?
  }

  /** A walk over more lines goes on from where the walk over the first ones ended. */
  lemma {:induction false} WalkConcat(c: Codec, s: WalkState, xs: seq<bytes>, ys: seq<bytes>)
    ensures Walk(c, s, xs + ys) == Walk(c, Walk(c, s, xs), ys)
    decreases |xs|
  {
    if xs == [] {
      assert xs + ys == ys;
    } else if s.Walked? {
      assert (xs + ys)[0] == xs[0] && (xs + ys)[1..] == xs[1..] + ys;
      WalkConcat(c, WalkLine(c, s, xs[0]), xs[1..], ys);
    }
  }

  /** A record whose number is behind breaks any walk that has come so far. */
  lemma StaleBreaks(c: Codec, lines: seq<bytes>, prev: Option<string>, e: Entry)
    requires Faithful(c) && Walk(c, WALK_START, lines) == Walked(prev, |lines|, |lines|) && e.number < |lines|
    ensures !Walk(c, WALK_START, lines + [c.show(e)]).Walked?
  {
    WalkConcat(c, WALK_START, lines, [c.show(e)]);
    var x: seq<bytes> := [c.show(e)];
    assert x[1..] == [];
    assert WalkLine(c, Walked(prev, |lines|, |lines|), c.show(e)).Broken?;
  }

  /** One more line renders as one more line. */
  lemma RenderSnoc(lines: seq<bytes>, line: bytes)
    requires Shown(lines) && NEWLINE !in line
    ensures Shown(lines + [line]) && Runs.Render(lines + [line]) == Runs.Render(lines) + line + [NEWLINE]
  {
    assert (lines + [line])[..|lines|] == lines;
  }

  lemma LockStep(c: Codec, j: Joint, a: Account, s: Step, lines: seq<bytes>)
    requires InSync(c, j, a, lines) && Enabled(j, s) && s.Lock?
    ensures InSync(c, Next(c, j, s), NextAccount(a, s), lines)
  {
  }

  lemma ScanSynced(c: Codec, j: Joint, a: Account, p: Pid, lines: seq<bytes>)
    requires InSync(c, j, a, lines) && a.current
    ensures InSync(c, j.(turns := j.turns[p := Scanned(HeadOf(c, lines), |lines|)]), a.(seen := a.seen[p := |a.landed|]), lines)
  {
    assert lines[..|lines|] == lines;
    ScanRecorded(c, a, p, j.turns, lines);
  }

  /** A scan records what it found and disturbs no other object's record. */
  lemma ScanRecorded(c: Codec, a: Account, p: Pid, turns: map<Pid, Turn>, lines: seq<bytes>)
    requires (forall q | q in turns :: Recorded(c, a, q, turns[q], lines)) && |lines| == |a.landed| && lines[..|lines|] == lines
    ensures var (b, after) := (a.(seen := a.seen[p := |a.landed|]), turns[p := Scanned(HeadOf(c, lines), |lines|)]);
            forall q | q in after :: Recorded(c, b, q, after[q], lines)
  {
  }

  lemma TipStep(c: Codec, j: Joint, a: Account, s: Step, lines: seq<bytes>)
    requires InSync(c, j, a, lines) && Enabled(j, s) && s.Tip?
    ensures InSync(c, Next(c, j, s), NextAccount(a, s), lines)
  {
    if a.current {
      assert Recorded(c, a, s.p, j.turns[s.p], lines);
    }
  }

  lemma MissedWrite(c: Codec, j: Joint, a: Account, s: Step, lines: seq<bytes>)
    requires InSync(c, j, a, lines) && Enabled(j, s) && s.Write? && s.fault.NothingLands?
    ensures InSync(c, Next(c, j, s), NextAccount(a, s), lines)
  {
  }

  /** What the append makes of the joint state, part by part, when the line lands. */
  lemma WriteParts(c: Codec, j: Joint, a: Account, s: Step, line: bytes)
    requires Enabled(j, s) && s.Write? && !s.fault.NothingLands? && line == c.show(EntryOf(j, s.p, s.body)) && j.dropped == a.dropped
    ensures var (next, b, d) := (Next(c, j, s), NextAccount(a, s), Runs.Dropped(j.dropped, s.p));
            && next.log == j.log + line + [NEWLINE] && next.tip == j.tip
            && next.dropped == b.dropped && b.landed == a.landed + [Runs.Landing(s.body, d)]
            && b.seen == a.seen && b.wrote == a.wrote[s.p := |a.landed|] && b.tipAt == a.tipAt
            && (b.current <==> a.current && Current(a, s.p))
            && next.turns == j.turns[s.p := if s.fault.Written? then Landed(c.hash(line), TurnOf(j, s.p).number) else Resting]
  {
  }

  /** What was recorded stays so when a line is added. */
  lemma StillRecorded(c: Codec, a: Account, b: Account, p: Pid, t: Turn, lines: seq<bytes>, line: bytes)
    requires Recorded(c, a, p, t, lines) && (t.Scanned? ==> b.seen == a.seen)
    requires t.Landed? ==> p in b.wrote && p in a.wrote && b.wrote[p] == a.wrote[p]
    ensures Recorded(c, b, p, t, lines + [line])
  {
    if t.Scanned? {
      assert (lines + [line])[..t.number] == lines[..t.number];
    }
  }

  /** A current write makes the chain one record longer. */
  lemma CurrentWrite(c: Codec, j: Joint, a: Account, s: Step, lines: seq<bytes>, e: Entry)
    requires Enabled(j, s) && s.Write? && !s.fault.NothingLands? && e == EntryOf(j, s.p, s.body)
    requires InSync(c, j, a, lines) && a.current && Current(a, s.p)
    ensures Chained(c, Next(c, j, s), NextAccount(a, s), lines + [c.show(e)])
  {
    var line, x := c.show(e), Runs.Landing(s.body, Runs.Dropped(j.dropped, s.p));
    assert Recorded(c, a, s.p, j.turns[s.p], lines);
    assert lines[..|lines|] == lines;
    assert e == Entry(x.body, HeadHash(c, lines), |a.landed|, x.dropped);
    Runs.ChainGrows(c, a.landed, x, e);
    WriteParts(c, j, a, s, line);
    GrownRecords(c, j, a, Next(c, j, s), NextAccount(a, s), s.p, lines, line);
  }

  lemma GrownRecords(c: Codec, j: Joint, a: Account, next: Joint, b: Account, p: Pid, lines: seq<bytes>, line: bytes)
    requires forall q | q in j.turns :: Recorded(c, a, q, j.turns[q], lines)
    requires p in next.turns && next.turns == j.turns[p := next.turns[p]] && b.seen == a.seen && b.wrote == a.wrote[p := |lines|]
    requires next.turns[p].Resting? || next.turns[p] == Landed(c.hash(line), |lines|)
    ensures forall q | q in next.turns :: Recorded(c, b, q, next.turns[q], lines + [line])
  {
    forall q | q in next.turns
      ensures Recorded(c, b, q, next.turns[q], lines + [line])
    {
      if q != p {
        StillRecorded(c, a, b, q, j.turns[q], lines, line);
      }
    }
  }

  /** A write that is not current, or comes after one, leaves no walk that gets through. */
  lemma StaleWrite(c: Codec, j: Joint, a: Account, s: Step, lines: seq<bytes>, e: Entry)
    requires Enabled(j, s) && s.Write? && !s.fault.NothingLands? && e == EntryOf(j, s.p, s.body)
    requires Faithful(c) && InSync(c, j, a, lines) && !(a.current && Current(a, s.p))
    ensures !Walk(c, WALK_START, lines + [c.show(e)]).Walked?
  {
    if a.current {
      assert Recorded(c, a, s.p, j.turns[s.p], lines);
      Runs.WalkOfWholeChain(c, a.landed, lines);
      StaleBreaks(c, lines, HeadOf(c, lines), e);
    } else {
      WalkConcat(c, WALK_START, lines, [c.show(e)]);
    }
  }

  lemma LandingWrite(c: Codec, j: Joint, a: Account, s: Step, lines: seq<bytes>, line: bytes)
    requires Faithful(c) && InSync(c, j, a, lines) && Enabled(j, s) && s.Write? && !s.fault.NothingLands?
    requires line == c.show(EntryOf(j, s.p, s.body))
    ensures InSync(c, Next(c, j, s), NextAccount(a, s), lines + [line])
  {
    var e := EntryOf(j, s.p, s.body);
    RenderSnoc(lines, line);
    WriteParts(c, j, a, s, line);
    if a.current && Current(a, s.p) {
      CurrentWrite(c, j, a, s, lines, e);
    } else {
      StaleWrite(c, j, a, s, lines, e);
    }
  }

  lemma AnyStep(c: Codec, j: Joint, a: Account, s: Step, lines: seq<bytes>)
    requires Faithful(c) && InSync(c, j, a, lines) && Enabled(j, s) && Runs.Fits(lines)
    ensures InSync(c, Next(c, j, s), NextAccount(a, s), lines + Added(c, j, s))
  {
    assert lines + [] == lines;
    match s
    case Lock(_) => LockStep(c, j, a, s, lines);
    case Scan(p) =>
      if a.current {
        Runs.ScanOfChain(c, a.landed, lines, j.log);
        ScanSynced(c, j, a, p, lines);
      }
    case Tip(_, _) => TipStep(c, j, a, s, lines);
    case Write(_, _, fault) =>
      if fault.NothingLands? {
        MissedWrite(c, j, a, s, lines);
      } else {
        LandingWrite(c, j, a, s, lines, c.show(EntryOf(j, s.p, s.body)));
      }
  }

  /**
   Every run, of any number of objects, emitting in any order, with any of their
   steps interleaved, with failing writes, failing tip updates, crashes, and
   locks held by several at once.
   */
  lemma {:induction false} AnyRun(c: Codec, j: Joint, a: Account, ss: seq<Step>, lines: seq<bytes>, all: seq<bytes>)
    requires Faithful(c) && InSync(c, j, a, lines) && Run(c, j, ss) && all == lines + LinesOf(c, j, ss) && Runs.Fits(all)
    ensures InSync(c, After(c, j, ss), AccountOf(a, ss), all)
    decreases |ss|
  {
    if ss == [] {
      assert all == lines;
    } else {
      var added, rest := Added(c, j, ss[0]), LinesOf(c, Next(c, j, ss[0]), ss[1..]);
      Regroup(lines, added, rest, all);
      FitsFront(lines, added + rest);
      AnyStep(c, j, a, ss[0], lines);
      AnyRun(c, Next(c, j, ss[0]), NextAccount(a, ss[0]), ss[1..], lines + added, all);
    }
  }

  lemma Regroup(xs: seq<bytes>, ys: seq<bytes>, zs: seq<bytes>, all: seq<bytes>)
    requires all == xs + (ys + zs)
    ensures all == (xs + ys) + zs
  {
  }

  lemma FitsFront(xs: seq<bytes>, ys: seq<bytes>)
    requires Runs.Fits(xs + ys)
    ensures Runs.Fits(xs)
  {
    assert forall i | 0 <= i < |xs| :: (xs + ys)[i] == xs[i];
  }

  // ---------------------------------------------------------------- the verdict

  /** Nobody has the lock file open and the log is empty. */
  function Start(locks: Locks.World): Joint { Joint(locks, [], NoTip, map[], map[]) }

  /** The log of a run from an empty one: its lines, and the chain of the landed records if all were current. */
  lemma LogOfRun(c: Codec, locks: Locks.World, ss: seq<Step>)
    requires Faithful(c) && Run(c, Start(locks), ss) && Runs.Fits(LinesOf(c, Start(locks), ss))
    ensures var (j, a, lines) := (After(c, Start(locks), ss), AccountOf(NOTHING, ss), LinesOf(c, Start(locks), ss));
            InSync(c, j, a, lines) && Lines(j.log) == lines
  {
    var lines := LinesOf(c, Start(locks), ss);
    assert [] + lines == lines;
    AnyRun(c, Start(locks), NOTHING, ss, [], lines);
    Runs.RenderComplete(lines);
  }

  /**
   Exactly when the log is a chain: in every run from an empty log, without
   looking at the tip, `verify_chain` approves it if and only if every landing
   write found as many records as its object's own scan.
   */
  lemma ApprovedIffCurrent(c: Codec, locks: Locks.World, ss: seq<Step>)
    requires Faithful(c) && Run(c, Start(locks), ss) && Runs.Fits(LinesOf(c, Start(locks), ss))
    ensures Approved(Verify(c, After(c, Start(locks), ss).log, NoTip)) <==> AccountOf(NOTHING, ss).current
  {
    var a, lines := AccountOf(NOTHING, ss), LinesOf(c, Start(locks), ss);
    LogOfRun(c, locks, ss);
    if a.current {
      ChainApproved(c, a.landed, lines);
    } else {
      BrokenRefused(c, After(c, Start(locks), ss).log, NoTip, lines);
    }
  }

  lemma ChainApproved(c: Codec, landed: seq<Runs.Landing>, lines: seq<bytes>)
    requires Faithful(c) && lines == Runs.Chain(c, landed)
    ensures Approved(Verify(c, Runs.Render(lines), NoTip))
  {
    Runs.WalkOfWholeChain(c, landed, lines);
  }

  lemma BrokenRefused(c: Codec, log: bytes, tip: TipFile, lines: seq<bytes>)
    requires Lines(log) == lines && !Walk(c, WALK_START, lines).Walked?
    ensures !Approved(Verify(c, log, tip))
  {
    EmptyFile();
    assert Split([]) == [[]];
  }

  /** With the tip file as the run left it: and moreover the tip, if there is one, is that of the last record. */
  lemma VerdictOfAnyRun(c: Codec, locks: Locks.World, ss: seq<Step>)
    requires Faithful(c) && Run(c, Start(locks), ss) && Runs.Fits(LinesOf(c, Start(locks), ss))
    requires CollisionFree(c.hash, Elements(LinesOf(c, Start(locks), ss)))
    requires |Text.Decimal(|AccountOf(NOTHING, ss).landed|)| <= 190
    ensures var (j, a) := (After(c, Start(locks), ss), AccountOf(NOTHING, ss));
            var n := |a.landed|;
            && (Approved(Verify(c, j.log, j.tip)) <==> a.current && (n == 0 || a.tipAt == None || a.tipAt == Some(n - 1)))
            && (a.current ==> j.log == Runs.Render(Runs.Chain(c, a.landed)))
            && (a.current ==> Verify(c, j.log, j.tip) == Verdict(n == 0 || a.tipAt == None || a.tipAt == Some(n - 1), n))
  {
    var j, a := After(c, Start(locks), ss), AccountOf(NOTHING, ss);
    LogOfRun(c, locks, ss);
    if a.current {
      Runs.VerdictOfChain(c, a.landed, j.tip, a.tipAt, j.log);
    } else {
      BrokenRefused(c, j.log, j.tip, LinesOf(c, Start(locks), ss));
    }
  }

  // ---------------------------------------------------------------- under the lock

  /** Whoever is in the middle of an emit holds the lock. */
  ghost predicate Guarded(j: Joint) {
    && Locks.FlocksExclude(j.locks) && Locks.HoldersLinked(j.locks)
    && (forall p | p in j.locks.procs :: j.locks.procs[p].exclusive)
    && (forall p | p in j.turns && !j.turns[p].Resting? :: p in j.locks.procs && Locks.PhaseOf(j.locks, p).Held?)
  }

  lemma OneAtATime(j: Joint, p: Pid, q: Pid)
    requires Guarded(j) && !TurnOf(j, p).Resting? && !TurnOf(j, q).Resting?
    ensures p == q
  {
    Locks.LinkedImpliesExclusion(j.locks);
  }

  lemma GuardedStep(c: Codec, j: Joint, s: Step)
    requires Guarded(j) && Enabled(j, s) && !(s.Lock? && Locks.Orphans(j.locks, s.e))
    ensures Guarded(Next(c, j, s))
  {
    if s.Lock? {
      Locks.FlocksExcludeStep(Locks.UnlockFirst, j.locks, s.e);
      Locks.LinkedStep(j.locks, s.e);
    }
  }

  /** Every landing write so far was current, and so will be those of whoever has scanned. */
  ghost predicate UpToDate(j: Joint, a: Account) {
    a.current && forall p | p in j.turns && j.turns[p].Scanned? :: Current(a, p)
  }

  lemma UpToDateStep(c: Codec, j: Joint, a: Account, s: Step)
    requires Guarded(j) && UpToDate(j, a) && Enabled(j, s)
    ensures UpToDate(Next(c, j, s), NextAccount(a, s))
  {
    if s.Write? {
      forall q | q in j.turns && q != s.p
        ensures j.turns[q].Resting?
      {
        if !TurnOf(j, q).Resting? {
          OneAtATime(j, q, s.p);
        }
      }
    }
  }

  /** As long as no release orphans a holder, every landing write is current. */
  lemma {:induction false} NeverOrphansIsCurrent(c: Codec, j: Joint, a: Account, ss: seq<Step>)
    requires Guarded(j) && UpToDate(j, a) && Run(c, j, ss) && NeverOrphans(c, j, ss)
    ensures UpToDate(After(c, j, ss), AccountOf(a, ss))
    decreases |ss|
  {
    if ss != [] {
      GuardedStep(c, j, ss[0]);
      UpToDateStep(c, j, a, ss[0]);
      NeverOrphansIsCurrent(c, Next(c, j, ss[0]), NextAccount(a, ss[0]), ss[1..]);
    }
  }

  /** With exclusive locks and without an orphaning unlink, the log is the chain of the landed records. */
  lemma InterleavedKeepsChain(c: Codec, locks: Locks.World, ss: seq<Step>)
    requires Faithful(c) && Locks.Initial(locks) && forall p | p in locks.procs :: locks.procs[p].exclusive
    requires Run(c, Start(locks), ss) && NeverOrphans(c, Start(locks), ss) && Runs.Fits(LinesOf(c, Start(locks), ss))
    ensures var (j, a) := (After(c, Start(locks), ss), AccountOf(NOTHING, ss));
            && a.current && j.log == Runs.Render(Runs.Chain(c, a.landed)) && j.dropped == a.dropped
            && Runs.TipNames(c, j.tip, a.tipAt, Runs.Chain(c, a.landed))
            && Approved(Verify(c, j.log, NoTip))
  {
    NeverOrphansIsCurrent(c, Start(locks), NOTHING, ss);
    LogOfRun(c, locks, ss);
    ApprovedIffCurrent(c, locks, ss);
  }

  // ---------------------------------------------------------------- with an orphaning unlink

  /** Steps of the lock protocol only. */
  function OnlyLocks(es: seq<Locks.Event>): seq<Step> {
    if es == [] then [] else [Lock(es[0])] + OnlyLocks(es[1..])
  }

  /** Nobody is in an emit and nothing was dropped. */
  ghost predicate Quiet(j: Joint) {
    && (forall p | p in j.turns :: j.turns[p].Resting?)
    && (forall p | p in j.dropped :: j.dropped[p] == 0)
  }

  lemma {:induction false} LocksRun(c: Codec, j: Joint, es: seq<Locks.Event>)
    requires Quiet(j) && Locks.Run(Locks.UnlockFirst, j.locks, es)
    ensures Run(c, j, OnlyLocks(es)) && LockEvents(OnlyLocks(es)) == es
    ensures var k := After(c, j, OnlyLocks(es));
            Quiet(k) && k.locks == Locks.After(Locks.UnlockFirst, j.locks, es) && k.log == j.log && k.tip == j.tip
    decreases |es|
  {
    if es != [] {
      var ss := OnlyLocks(es);
      assert ss[0] == Lock(es[0]) && ss[1..] == OnlyLocks(es[1..]);
      LocksRun(c, Next(c, j, ss[0]), es[1..]);
    }
  }

  lemma {:induction false} RunConcat(c: Codec, j: Joint, ss: seq<Step>, ts: seq<Step>)
    requires Run(c, j, ss) && Run(c, After(c, j, ss), ts)
    ensures Run(c, j, ss + ts) && After(c, j, ss + ts) == After(c, After(c, j, ss), ts)
    decreases |ss|
  {
    if ss == [] {
      assert ss + ts == ts;
    } else {
      assert (ss + ts)[0] == ss[0] && (ss + ts)[1..] == ss[1..] + ts;
      RunConcat(c, Next(c, j, ss[0]), ss[1..], ts);
    }
  }

  lemma {:induction false} EventsConcat(ss: seq<Step>, ts: seq<Step>)
    ensures LockEvents(ss + ts) == LockEvents(ss) + LockEvents(ts)
  {
    if ss == [] {
      assert ss + ts == ts;
    } else {
      assert (ss + ts)[0] == ss[0] && (ss + ts)[1..] == ss[1..] + ts;
      EventsConcat(ss[1..], ts);
    }
  }

  /** Two holders scan the empty log, then both append what they found. */
  lemma BothScan(c: Codec, j: Joint, p: Pid, q: Pid, k: Joint)
    requires Quiet(j) && j.log == [] && p != q && p in j.locks.procs && q in j.locks.procs
    requires Locks.PhaseOf(j.locks, p).Held? && Locks.PhaseOf(j.locks, q).Held?
    requires k == j.(turns := j.turns[p := Scanned(None, 0)][q := Scanned(None, 0)])
    ensures Run(c, j, [Scan(p), Scan(q)]) && After(c, j, [Scan(p), Scan(q)]) == k
  {
    Runs.ScanOfEmpty(c);
    var j1 := Next(c, j, Scan(p));
    assert [Scan(p), Scan(q)][1..] == [Scan(q)] && [Scan(q)][1..] == [];
    assert Next(c, j1, Scan(q)) == k;
    assert Run(c, j1, [Scan(q)]) && After(c, j1, [Scan(q)]) == k;
  }

  /** One object's append and tip, both without fault. */
  lemma WriteAndTip(c: Codec, j: Joint, p: Pid, body: bytes, line: bytes, k: Joint)
    requires TurnOf(j, p) == Scanned(None, 0) && Runs.Dropped(j.dropped, p) == 0
    requires line == c.show(Entry(body, "", 0, 0))
    requires k == Joint(j.locks, j.log + line + [NEWLINE], TipData(Runs.TipLine(c.hash(line), 0)),
                        j.dropped[p := 0], j.turns[p := Resting])
    ensures var ss := [Write(p, body, Runs.Written), Tip(p, true)]; Run(c, j, ss) && After(c, j, ss) == k
  {
    var s1, s2 := Write(p, body, Runs.Written), Tip(p, true);
    var j1 := Next(c, j, s1);
    assert [s1, s2][1..] == [s2] && [s2][1..] == [];
    assert j1.turns[p := Resting] == j.turns[p := Resting];
    assert Next(c, j1, s2) == k;
    assert Run(c, j1, [s2]) && After(c, j1, [s2]) == k;
  }

  /** Two records with the same number and no predecessor do not make a chain. */
  lemma TwoFirstRecords(c: Codec, a: Entry, b: Entry, file: bytes, tip: TipFile)
    requires Faithful(c) && a.prev == b.prev == "" && a.number == b.number == 0
    requires file == [] + c.show(a) + [NEWLINE] + c.show(b) + [NEWLINE]
    ensures Verify(c, file, tip) == Verdict(false, 2)
  {
    var x, y := c.show(a), c.show(b);
    TwoLines(x, y, file);
    var s1 := Walked(Some(c.hash(x)), 1, 1);
    assert WalkLine(c, WALK_START, x) == s1;
    assert WalkLine(c, s1, y) == Broken(2);
    var both: seq<bytes>, last: seq<bytes> := [x, y], [y];
    assert both[1..] == last && last[1..] == [];
    assert Walk(c, s1, last) == Broken(2);
  }

  lemma TwoLines(x: bytes, y: bytes, file: bytes)
    requires NEWLINE !in x && NEWLINE !in y && file == [] + x + [NEWLINE] + y + [NEWLINE]
    ensures Lines(file) == [x, y] && file != []
  {
    var first := [] + x + [NEWLINE];
    assert Split([]) == [[]];
    LinesAppend([], x);
    LinesAppend(first, y);
  }

  /** The first holder's append and tip leave the second one's turn alone. */
  lemma FirstEmit(c: Codec, j: Joint, p: Pid, q: Pid, body: bytes, line: bytes) returns (ss: seq<Step>, k: Joint)
    requires p != q && TurnOf(j, p) == TurnOf(j, q) == Scanned(None, 0)
    requires Runs.Dropped(j.dropped, p) == Runs.Dropped(j.dropped, q) == 0
    requires line == c.show(Entry(body, "", 0, 0))
    ensures Run(c, j, ss) && After(c, j, ss) == k
    ensures Flawless(ss) && k.log == j.log + line + [NEWLINE] && TurnOf(k, q) == Scanned(None, 0) && Runs.Dropped(k.dropped, q) == 0
  {
    k := Joint(j.locks, j.log + line + [NEWLINE], TipData(Runs.TipLine(c.hash(line), 0)), j.dropped[p := 0], j.turns[p := Resting]);
    ss := [Write(p, body, Runs.Written), Tip(p, true)];
    WriteAndTip(c, j, p, body, line, k);
  }

  lemma SecondEmit(c: Codec, j: Joint, q: Pid, body: bytes, line: bytes) returns (ss: seq<Step>, k: Joint)
    requires TurnOf(j, q) == Scanned(None, 0) && Runs.Dropped(j.dropped, q) == 0
    requires line == c.show(Entry(body, "", 0, 0))
    ensures Run(c, j, ss) && After(c, j, ss) == k
    ensures Flawless(ss) && k.log == j.log + line + [NEWLINE]
  {
    k := Joint(j.locks, j.log + line + [NEWLINE], TipData(Runs.TipLine(c.hash(line), 0)), j.dropped[q := 0], j.turns[q := Resting]);
    ss := [Write(q, body, Runs.Written), Tip(q, true)];
    WriteAndTip(c, j, q, body, line, k);
  }

  /** Every step is part of an emit, and none of them fails. */
  predicate Flawless(ts: seq<Step>) {
    forall i | 0 <= i < |ts| :: !ts[i].Lock? && (ts[i].Write? ==> ts[i].fault.Written?) && (ts[i].Tip? ==> ts[i].ok)
  }

  lemma FlawlessConcat(ss: seq<Step>, ts: seq<Step>)
    requires Flawless(ss) && Flawless(ts)
    ensures Flawless(ss + ts)
  {
  }

  /** The two holders' emits, one after the other. */
  lemma EmitBoth(c: Codec, j: Joint, p: Pid, q: Pid, a: bytes, b: bytes, x: bytes, y: bytes) returns (ts: seq<Step>, k: Joint)
    requires Quiet(j) && j.log == [] && p != q && p in j.locks.procs && q in j.locks.procs
    requires Locks.PhaseOf(j.locks, p).Held? && Locks.PhaseOf(j.locks, q).Held?
    requires x == c.show(Entry(a, "", 0, 0)) && y == c.show(Entry(b, "", 0, 0))
    ensures Run(c, j, ts) && After(c, j, ts) == k && Flawless(ts)
    ensures k.log == [] + x + [NEWLINE] + y + [NEWLINE]
  {
    var j1 := j.(turns := j.turns[p := Scanned(None, 0)][q := Scanned(None, 0)]);
    BothScan(c, j, p, q, j1);
    var first, j2 := FirstEmit(c, j1, p, q, a, x);
    var second, j3 := SecondEmit(c, j2, q, b, y);
    var scans := [Scan(p), Scan(q)];
    ThreeParts(c, j, scans, j1, first, j2, second, j3);
    FlawlessConcat(scans, first);
    FlawlessConcat(scans + first, second);
    ts, k := scans + first + second, j3;
  }

  lemma ThreeParts(c: Codec, j: Joint, ss: seq<Step>, j1: Joint, ts: seq<Step>, j2: Joint, us: seq<Step>, j3: Joint)
    requires Run(c, j, ss) && After(c, j, ss) == j1
    requires Run(c, j1, ts) && After(c, j1, ts) == j2
    requires Run(c, j2, us) && After(c, j2, us) == j3
    ensures Run(c, j, ss + ts + us) && After(c, j, ss + ts + us) == j3
  {
    RunConcat(c, j, ss, ts);
    RunConcat(c, j, ss + ts, us);
  }

  lemma {:induction false} NoLocks(ts: seq<Step>)
    requires Flawless(ts)
    ensures LockEvents(ts) == []
  {
    if ts != [] {
      NoLocks(ts[1..]);
    }
  }

  /**
   The condition is needed: from an empty log, with exclusive locks only and
   without a single failing write, a run in which a release orphans a holder ends
   in a log that `verify_chain` rejects.
   */
  lemma OrphanBreaksTheLog(c: Codec, a: bytes, b: bytes) returns (locks: Locks.World, ss: seq<Step>)
    requires Faithful(c)
    ensures Locks.Initial(locks) && forall p | p in locks.procs :: locks.procs[p].exclusive
    ensures Run(c, Start(locks), ss) && !NeverOrphans(c, Start(locks), ss)
    ensures forall s | s in ss :: (s.Write? ==> s.fault.Written?) && (s.Tip? ==> s.ok)
    ensures var j := After(c, Start(locks), ss); Verify(c, j.log, j.tip) == Verdict(false, 2)
  {
    var es;
    locks, es := Locks.TwoHoldersReachable();
    LocksRun(c, Start(locks), es);
    var j := After(c, Start(locks), OnlyLocks(es));
    var p, q :| p in j.locks.procs && q in j.locks.procs && p != q
                && Locks.PhaseOf(j.locks, p).Held? && Locks.PhaseOf(j.locks, q).Held?;
    var e, f := Entry(a, "", 0, 0), Entry(b, "", 0, 0);
    var ts, k := EmitBoth(c, j, p, q, a, b, c.show(e), c.show(f));
    TwoFirstRecords(c, e, f, k.log, k.tip);
    RunConcat(c, Start(locks), OnlyLocks(es), ts);
    ss := OnlyLocks(es) + ts;
    EventsConcat(OnlyLocks(es), ts);
    NoLocks(ts);
    assert es + [] == es;
    ProjectsToLocks(c, Start(locks), ss);
    LocksOnly(es);
  }

  lemma {:induction false} LocksOnly(es: seq<Locks.Event>)
    ensures forall s | s in OnlyLocks(es) :: s.Lock?
  {
    if es != [] {
      LocksOnly(es[1..]);
    }
  }
}
