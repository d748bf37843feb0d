/**
 class AuditLog of storage/audit_log.py, in hash-chain mode: its counters, and
 the file and tip it shares with the AuditLog objects of other processes.
 */
module AuditLogs {
  import opened Wrappers
  import opened Bytes
  import opened AuditTail
  import opened AuditChain
  import opened AuditRuns

  /** The log file and its tip, with the run that produced them. */
  class Disk {
    const codec: Codec
    var log: bytes
    var tip: TipFile
    ghost var run: seq<Step>

    ghost predicate Valid()
      reads this
    {
      var w := After(codec, run);
      log == w.log && tip == w.tip
    }

    constructor (codec: Codec)
      ensures Valid() && log == [] && tip == NoTip && run == [] && this.codec == codec
    {
      this.codec := codec;
      log, tip, run := [], NoTip, [];
    }

    /** Adds one step to the recorded run. */
    ghost method Note(s: Step)
      modifies this`run
      ensures run == old(run) + [s] && After(codec, run) == Next(codec, After(codec, old(run)), s)
    {
      AfterSnoc(codec, run, s);
      run := run + [s];
    }

    /** Whatever the faults were: once records fit the scanned chunk, the file is a well-formed chain. */
    lemma HoldsChain()
      requires Valid() && Faithful(codec) && Fits(Chain(codec, Reference(run).landed))
      ensures Lines(log) == Chain(codec, Reference(run).landed)
    {
      RunKeepsChain(codec, run);
      ChainLines(codec, Reference(run).landed);
      RenderComplete(Chain(codec, Reference(run).landed));
    }
  }

  class AuditLog {
    const pid: Pid
    const disk: Disk
    var prevHash: Option<string>
    var nextSeq: nat
    var dropped: nat

    ghost predicate Valid()
      reads this, disk
    {
      disk.Valid() && dropped == AuditRuns.Dropped(After(disk.codec, disk.run).dropped, pid)
    }

    /** `__init__` up to its first emit: a new object, with the state it scanned. */
    constructor (pid: Pid, disk: Disk)
      requires disk.Valid()
      modifies disk
      ensures this.pid == pid && this.disk == disk && Valid()
      ensures disk.run == old(disk.run) + [Start(pid)] && disk.log == old(disk.log) && disk.tip == old(disk.tip)
      ensures (prevHash, nextSeq) == ScanState(disk.codec, disk.log)
    {
      this.pid := pid;
      this.disk := disk;
      prevHash, nextSeq, dropped := None, 0, 0;
      new;
      disk.Note(Start(pid));
      ScanTailState();
    }

    /** `_scan_tail_state`, stored into the two fields. */
    method ScanTailState()
      modifies this`prevHash, this`nextSeq
      ensures (prevHash, nextSeq) == ScanState(disk.codec, disk.log)
    {
      var last := ScanLastRecord(disk.log, TAIL_CHUNK);
      match last {
        case None => prevHash, nextSeq := None, 0;
        case Some(raw) => prevHash, nextSeq := Some(disk.codec.hash(raw)), SeqAfter(disk.codec.parse(raw));
      }
    }

    /** `emit`: false when the lock timed out, which raises; a failed write does not. */
    method EmitRecord(body: bytes, lockGranted: bool, fault: Fault, tipWritten: bool) returns (ok: bool)
      requires Valid()
      modifies this, disk
      ensures Valid() && ok == lockGranted
      ensures disk.run == old(disk.run) + [Emit(pid, body, lockGranted, fault, tipWritten)]
      ensures ok && fault.Written? ==> dropped == 0 && nextSeq > 0
      ensures ok && !fault.Written? ==> dropped == old(dropped) + 1
    {
      ghost var s := Emit(pid, body, lockGranted, fault, tipWritten);
      disk.Note(s);
      if lockGranted {
        ScanTailState();
        WriteRecord(body, fault, tipWritten, s);
      }
      ok := lockGranted;
    }

    /** `_write_record`. */
    method WriteRecord(body: bytes, fault: Fault, tipWritten: bool, ghost s: Step)
      requires s == Emit(pid, body, true, fault, tipWritten)
      modifies this, disk`log, disk`tip
      ensures var e := Entry(body, OrEmpty(old(prevHash)), old(nextSeq), old(dropped));
              var w' := AuditRuns.WriteRecord(disk.codec, World(old(disk.log), old(disk.tip), map[pid := old(dropped)]), s, e);
              && disk.log == w'.log && disk.tip == w'.tip && dropped == w'.dropped[pid]
              && (fault.Written? ==> prevHash == Some(disk.codec.hash(disk.codec.show(e))) && nextSeq == old(nextSeq) + 1)
    {
      var line := disk.codec.show(Entry(body, OrEmpty(prevHash), nextSeq, dropped));
      if !fault.NothingLands? {
        disk.log := disk.log + line + [NEWLINE];
      }
      if !fault.Written? {
        dropped := dropped + 1;
        return;
      }
      dropped := 0;
      nextSeq := nextSeq + 1;
      prevHash := Some(disk.codec.hash(line));
      if tipWritten {
        disk.tip := TipData(TipLine(disk.codec.hash(line), nextSeq - 1));
      }
    }
  }

  /** `__init__`: scan, then announce with a first record.  If the lock is refused it raises, and there is no object. */
  method OpenAuditLog(pid: Pid, disk: Disk, announcement: bytes, lockGranted: bool, fault: Fault, tipWritten: bool) returns (r: Option<AuditLog>)
    requires disk.Valid()
    modifies disk
    ensures disk.Valid() && (r.Some? <==> lockGranted)
    ensures r.Some? ==> fresh(r.value) && r.value.pid == pid && r.value.disk == disk && r.value.Valid()
    ensures disk.run == old(disk.run) + [Start(pid)] + [Emit(pid, announcement, lockGranted, fault, tipWritten)]
  {
    var log := new AuditLog(pid, disk);
    var ok := log.EmitRecord(announcement, lockGranted, fault, tipWritten);
    r := if ok then Some(log) else None;
  }
}
