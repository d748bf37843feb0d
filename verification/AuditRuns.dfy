/**
 Runs of many processes emitting into one chained log, with failed writes and
 failed tip updates.  An emit holds the exclusive file lock from its scan to its
 tip write; here it is one step, so emits do not overlap.  Module
 AuditInterleaving takes it apart and proves when that is so.
 */
module AuditRuns {
  import opened Wrappers
  import opened Bytes
  import Text
  import opened AuditTail
  import opened AuditChain

  type Pid = nat

  /** How write, flush and fsync end; bytes are never left behind in the writer's buffer. */
  datatype Fault = Written | NothingLands | FsyncFails

  datatype Step =
    | Start(p: Pid)    // a new AuditLog object: nothing dropped yet
    | Emit(p: Pid, body: bytes, lockGranted: bool, fault: Fault, tipWritten: bool)

  /** The shared files, and each process's count of dropped records. */
  datatype World = World(log: bytes, tip: TipFile, dropped: map<Pid, nat>)

  const EMPTY := World([], NoTip, map[])

  function Dropped(d: map<Pid, nat>, p: Pid): nat { if p in d then d[p] else 0 }

  /** `_scan_tail_state`. */
  function ScanState(c: Codec, file: bytes): (Option<string>, nat) {
    match TailScan(file, TAIL_CHUNK)
    case None => (None, 0)
    case Some(raw) => (Some(c.hash(raw)), SeqAfter(c.parse(raw)))
  }

  /** The record `_write_record` builds from the state it just scanned. */
  function NewEntry(c: Codec, log: bytes, body: bytes, dropped: nat): Entry {
    var (prev, number) := ScanState(c, log);
    Entry(body, OrEmpty(prev), number, dropped)
  }

  /** The tip file's line: hash, blank, number, newline. */
  function TipLine(hash: string, number: nat): bytes {
    EncodeAscii(hash + " " + Text.Decimal(number) + "\n")
  }

  function Next(c: Codec, w: World, s: Step): World {
    match s
    case Start(p) => w.(dropped := w.dropped[p := 0])
    case Emit(p, body, lockGranted, fault, tipWritten) =>
      if !lockGranted then w    // FileLockTimeoutError
      else WriteRecord(c, w, s, NewEntry(c, w.log, body, Dropped(w.dropped, p)))
  }

  /** `_write_record` once the record is built. */
  function WriteRecord(c: Codec, w: World, s: Step, e: Entry): World
    requires s.Emit?
  {
    var line := c.show(e);
    var log := if s.fault.NothingLands? then w.log else w.log + line + [NEWLINE];
    if !s.fault.Written? then
      World(log, w.tip, w.dropped[s.p := Dropped(w.dropped, s.p) + 1])
    else
      World(log, if s.tipWritten then TipData(TipLine(c.hash(line), e.number)) else w.tip, w.dropped[s.p := 0])
  }

  function After(c: Codec, steps: seq<Step>): World {
    if steps == [] then EMPTY else Next(c, After(c, steps[..|steps| - 1]), steps[|steps| - 1])
  }

  lemma AfterSnoc(c: Codec, steps: seq<Step>, s: Step)
    ensures After(c, steps + [s]) == Next(c, After(c, steps), s)
  {
    assert (steps + [s])[..|steps|] == steps;
  }

  // ---------------------------------------------------------------- the reference: what should be in the log

  /** A record that reached the file: the caller's fields and the drops it reports. */
  datatype Landing = Landing(body: bytes, dropped: nat)

  /** What the run amounts to, without hashes, numbers or scans. */
  datatype Outcome = Outcome(landed: seq<Landing>, dropped: map<Pid, nat>, tipAt: Option<nat>)

  predicate Lands(s: Step) { s.Emit? && s.lockGranted && !s.fault.NothingLands? }

  /** Lands with its tip: the only emits after which the tip file is current. */
  predicate Tips(s: Step) { s.Emit? && s.lockGranted && s.fault.Written? && s.tipWritten }

  function NextOutcome(o: Outcome, s: Step): Outcome {
    match s
    case Start(p) => o.(dropped := o.dropped[p := 0])
    case Emit(p, body, lockGranted, fault, _) =>
      if !lockGranted then o
      else Outcome(
        if Lands(s) then o.landed + [Landing(body, Dropped(o.dropped, p))] else o.landed,
        o.dropped[p := if fault.Written? then 0 else Dropped(o.dropped, p) + 1],
        if Tips(s) then Some(|o.landed|) else o.tipAt)
  }

  function Reference(steps: seq<Step>): Outcome {
    if steps == [] then Outcome([], map[], None)
    else NextOutcome(Reference(steps[..|steps| - 1]), steps[|steps| - 1])
  }

  /** The records a chain over these landings consists of: numbered from 0, each naming the one before. */
  function Chain(c: Codec, landed: seq<Landing>): (lines: seq<bytes>)
    ensures |lines| == |landed|
  {
    if landed == [] then []
    else
      var n := |landed| - 1;
      var before := Chain(c, landed[..n]);
      before + [c.show(Entry(landed[n].body, HeadHash(c, before), n, landed[n].dropped))]
  }

  function Render(lines: seq<bytes>): bytes {
    if lines == [] then []
    else Render(lines[..|lines| - 1]) + lines[|lines| - 1] + [NEWLINE]
  }

  /** Every record, newline included, fits in the chunk the scan reads. */
  ghost predicate Fits(lines: seq<bytes>) {
    forall i | 0 <= i < |lines| :: |lines[i]| + 1 <= TAIL_CHUNK
  }

  // ---------------------------------------------------------------- the log is the chain

  lemma {:induction false} RenderComplete(lines: seq<bytes>)
    requires forall i | 0 <= i < |lines| :: NEWLINE !in lines[i]
    ensures Complete(Render(lines)) && Lines(Render(lines)) == lines
    decreases |lines|
  {
    if lines == [] {
      EmptyFile();
      assert Split([]) == [[]];
    } else {
      var n := |lines| - 1;
      RenderComplete(lines[..n]);
      LinesAppend(Render(lines[..n]), lines[n]);
      assert lines == lines[..n] + [lines[n]];
    }
  }

  lemma {:induction false} ChainLines(c: Codec, landed: seq<Landing>)
    requires Faithful(c)
    ensures forall i | 0 <= i < |landed| :: Trimmed(Chain(c, landed)[i]) && NEWLINE !in Chain(c, landed)[i]
  {
    if landed != [] {
      ChainLines(c, landed[..|landed| - 1]);
    }
  }

  /** The scan finds a record that ends the file: its hash, and the number after its own. */
  lemma ScanOfLine(c: Codec, before: bytes, e: Entry, line: bytes, file: bytes)
    requires Faithful(c) && Complete(before) && line == c.show(e) && |line| + 1 <= TAIL_CHUNK
    requires file == before + line + [NEWLINE]
    ensures ScanState(c, file) == (Some(c.hash(line)), e.number + 1)
  {
    TerminatedLineSuffices(before, line, TAIL_CHUNK);
  }

  /** The scan of a rendered chain finds its last record's hash and the next number. */
  lemma ScanOfChain(c: Codec, landed: seq<Landing>, lines: seq<bytes>, file: bytes)
    requires Faithful(c) && lines == Chain(c, landed) && Fits(lines) && file == Render(lines)
    ensures ScanState(c, file) == (if lines == [] then None else Some(HeadHash(c, lines)), |lines|)
  {
    if lines == [] {
      ScanOfEmpty(c);
    } else {
      var before, e := LastOfChain(c, landed, lines);
      ScanOfLine(c, Render(before), e, c.show(e), file);
    }
  }

  /** A non-empty chain is a complete file followed by its last record. */
  lemma LastOfChain(c: Codec, landed: seq<Landing>, lines: seq<bytes>) returns (before: seq<bytes>, e: Entry)
    requires Faithful(c) && lines == Chain(c, landed) && lines != []
    ensures c.show(e) == lines[|lines| - 1] && e.number == |lines| - 1
    ensures Complete(Render(before)) && Render(lines) == Render(before) + c.show(e) + [NEWLINE]
  {
    var n := |lines| - 1;
    before := Chain(c, landed[..n]);
    e := Entry(landed[n].body, HeadHash(c, before), n, landed[n].dropped);
    ChainLines(c, landed[..n]);
    assert lines[..n] == before;
    RenderComplete(before);
  }

  lemma ScanOfEmpty(c: Codec)
    ensures ScanState(c, []) == (None, 0)
  {
    assert Tail([], TAIL_CHUNK) == [];
    assert Split([]) == [[]];
    StripBlank([]);
    EmptyFile();
    var pieces: seq<bytes> := [[]];
    assert pieces[..0] == [];
    assert LastNonBlank(pieces) == None;
    assert Lines([]) == [];
  }

  /** The tip file names record `at` of the chain. */
  ghost predicate TipNames(c: Codec, tip: TipFile, at: Option<nat>, lines: seq<bytes>) {
    match at
    case None => tip == NoTip
    case Some(k) => k < |lines| && tip == TipData(TipLine(c.hash(lines[k]), k))
  }

  /** The files and counters are what the reference says they should be. */
  ghost predicate InSync(c: Codec, w: World, o: Outcome) {
    && w.log == Render(Chain(c, o.landed))
    && w.dropped == o.dropped
    && TipNames(c, w.tip, o.tipAt, Chain(c, o.landed))
  }

  /** One emit, by any process, whatever its outcome: the re-scan is what brings its state up to date. */
  lemma EmitKeepsChain(c: Codec, w: World, o: Outcome, s: Step)
    requires Faithful(c) && InSync(c, w, o) && Fits(Chain(c, o.landed)) && s.Emit? && s.lockGranted
    ensures InSync(c, Next(c, w, s), NextOutcome(o, s))
  {
    var lines := Chain(c, o.landed);
    ScanOfChain(c, o.landed, lines, w.log);
    WriteKeepsChain(c, w, o, s, Entry(s.body, HeadHash(c, lines), |lines|, Dropped(o.dropped, s.p)));
  }

  lemma WriteKeepsChain(c: Codec, w: World, o: Outcome, s: Step, e: Entry)
    requires InSync(c, w, o) && s.Emit? && s.lockGranted
    requires e == Entry(s.body, HeadHash(c, Chain(c, o.landed)), |o.landed|, Dropped(o.dropped, s.p))
    ensures InSync(c, WriteRecord(c, w, s, e), NextOutcome(o, s))
  {
    if s.fault.NothingLands? {
      assert NextOutcome(o, s).landed == o.landed && WriteRecord(c, w, s, e).log == w.log;
    } else {
      LandedKeepsChain(c, w, o, s, e, Landing(s.body, Dropped(o.dropped, s.p)), c.show(e));
    }
  }

  lemma LandedKeepsChain(c: Codec, w: World, o: Outcome, s: Step, e: Entry, x: Landing, line: bytes)
    requires InSync(c, w, o) && s.Emit? && s.lockGranted && !s.fault.NothingLands?
    requires x == Landing(s.body, Dropped(o.dropped, s.p)) && line == c.show(e)
    requires e == Entry(x.body, HeadHash(c, Chain(c, o.landed)), |o.landed|, x.dropped)
    ensures InSync(c, WriteRecord(c, w, s, e), NextOutcome(o, s))
  {
    ChainGrows(c, o.landed, x, e);
    var lines, grown := Chain(c, o.landed), Chain(c, o.landed + [x]);
    assert NextOutcome(o, s).landed == o.landed + [x];
    assert WriteRecord(c, w, s, e).log == Render(grown);
    assert grown[|lines|] == line;
    assert TipNames(c, w.tip, o.tipAt, grown);
  }

  lemma ChainGrows(c: Codec, landed: seq<Landing>, x: Landing, e: Entry)
    requires e == Entry(x.body, HeadHash(c, Chain(c, landed)), |landed|, x.dropped)
    ensures Chain(c, landed + [x]) == Chain(c, landed) + [c.show(e)]
    ensures Render(Chain(c, landed + [x])) == Render(Chain(c, landed)) + c.show(e) + [NEWLINE]
  {
    assert (landed + [x])[..|landed|] == landed;
    var lines := Chain(c, landed) + [c.show(e)];
    assert lines[..|landed|] == Chain(c, landed);
  }

  lemma FitsBefore(c: Codec, o: Outcome, s: Step)
    requires Fits(Chain(c, NextOutcome(o, s).landed))
    ensures Fits(Chain(c, o.landed))
  {
    if Lands(s) {
      var x := Landing(s.body, Dropped(o.dropped, s.p));
      var before := Chain(c, o.landed);
      ChainGrows(c, o.landed, x, Entry(x.body, HeadHash(c, before), |o.landed|, x.dropped));
      var lines := Chain(c, o.landed + [x]);
      assert forall i | 0 <= i < |before| :: before[i] == lines[i];
    }
  }

  /**
   In every run from an empty log the file is exactly the chain over the records
   that landed, whoever emitted them, whatever failed in between: records are
   numbered 0..n-1 and each names its predecessor's hash.
   */
  lemma {:induction false} RunKeepsChain(c: Codec, steps: seq<Step>)
    requires Faithful(c) && Fits(Chain(c, Reference(steps).landed))
    ensures InSync(c, After(c, steps), Reference(steps))
    decreases |steps|
  {
    if steps != [] {
      var n := |steps| - 1;
      FitsBefore(c, Reference(steps[..n]), steps[n]);
      RunKeepsChain(c, steps[..n]);
      if steps[n].Emit? && steps[n].lockGranted {
        EmitKeepsChain(c, After(c, steps[..n]), Reference(steps[..n]), steps[n]);
      }
    }
  }

  // ---------------------------------------------------------------- the verdict

  lemma {:induction false} ChainPrefix(c: Codec, landed: seq<Landing>, k: nat)
    requires k < |landed|
    ensures Chain(c, landed)[k] == c.show(Entry(landed[k].body, HeadHash(c, Chain(c, landed)[..k]), k, landed[k].dropped))
    decreases |landed|
  {
    var n := |landed| - 1;
    var before := Chain(c, landed[..n]);
    if k < n {
      ChainPrefix(c, landed[..n], k);
      assert before[..k] == Chain(c, landed)[..k];
    } else {
      assert before == Chain(c, landed)[..k];
    }
  }

  /** The walk's state after the first k of these lines, when they are a chain. */
  function WalkedTo(c: Codec, lines: seq<bytes>, k: nat): WalkState
    requires k <= |lines|
  {
    Walked(if k == 0 then None else Some(HeadHash(c, lines[..k])), k, k)
  }

  /** Walking the rest of a chain from record k succeeds. */
  lemma {:induction false} WalkOfChain(c: Codec, landed: seq<Landing>, k: nat)
    requires Faithful(c) && k <= |landed|
    ensures var lines := Chain(c, landed);
            Walk(c, WalkedTo(c, lines, k), lines[k..]) == WalkedTo(c, lines, |lines|)
    decreases |landed| - k
  {
    var lines := Chain(c, landed);
    if k < |landed| {
      ChainPrefix(c, landed, k);
      ChainLines(c, landed);
      assert lines[k..][1..] == lines[k + 1..];
      assert lines[..k + 1][k] == lines[k];
      WalkOfChain(c, landed, k + 1);
    } else {
      assert lines[..k] == lines;
    }
  }

  /** Different positions of a chain hold different records. */
  lemma ChainDistinct(c: Codec, landed: seq<Landing>, i: nat, j: nat)
    requires Faithful(c) && i < j < |landed|
    ensures Chain(c, landed)[i] != Chain(c, landed)[j]
  {
    ChainPrefix(c, landed, i);
    ChainPrefix(c, landed, j);
    var a := Entry(landed[i].body, HeadHash(c, Chain(c, landed)[..i]), i, landed[i].dropped);
    var b := Entry(landed[j].body, HeadHash(c, Chain(c, landed)[..j]), j, landed[j].dropped);
    assert c.parse(c.show(a)).number == SeqInt(i) && c.parse(c.show(b)).number == SeqInt(j);
  }

  lemma DigestIsWord(h: string)
    requires IsDigest(h)
    ensures Text.IsWord(h)
  {
    forall ch | ch in h
      ensures !Text.IsSpace(ch)
    {
      var i :| 0 <= i < |h| && h[i] == ch;
    }
  }

  lemma StripNewline(word: string)
    requires word != [] && !Text.IsSpace(word[0]) && !Text.IsSpace(word[|word| - 1])
    ensures Text.Strip(word + "\n") == word
  {
    var s := word + "\n";
    assert s[0] == word[0] && s[..|s| - 1] == word;
    assert Text.LStrip(s) == s;
    assert Text.RStrip(word) == word;
  }

  lemma TwoFields(a: string, b: string)
    requires Text.IsWord(a) && Text.IsWord(b)
    ensures Text.Fields(a + " " + b) == [a, b]
  {
    var rest := " " + b;
    assert a + " " + b == a + rest;
    Text.FieldsOfWord(a, rest);
    assert rest[1..] == b;
    Text.FieldsOfWord(b, "");
    assert b + "" == b;
  }

  /** A tip line of at most 256 bytes reads back as its hash and its number. */
  lemma TipLineReads(h: string, number: nat, d: string)
    requires IsDigest(h) && d == Text.Decimal(number) && |d| <= 190
    ensures TipFields(TipLine(h, number)) == [h, d]
  {
    var word := h + " " + d;
    DecodeEncode(word + "\n");
    DigestIsWord(h);
    assert Text.IsWord(d);
    assert word[0] == h[0] && word[|word| - 1] == d[|d| - 1];
    StripNewline(word);
    TwoFields(h, d);
    assert |TipLine(h, number)| <= 256;
  }

  /**
   `verify_chain` after any run: it counts every landed record, and approves
   exactly when nothing landed, no tip was ever written, or the last landed
   record's tip write succeeded.
   */
  lemma VerdictOfRun(c: Codec, steps: seq<Step>)
    requires Faithful(c) && Fits(Chain(c, Reference(steps).landed))
    requires CollisionFree(c.hash, Elements(Chain(c, Reference(steps).landed)))
    requires |Text.Decimal(|Reference(steps).landed|)| <= 190
    ensures var w, o := After(c, steps), Reference(steps);
            var n := |o.landed|;
            Verify(c, w.log, w.tip) == Verdict(n == 0 || o.tipAt == None || o.tipAt == Some(n - 1), n)
  {
    var w, o := After(c, steps), Reference(steps);
    RunKeepsChain(c, steps);
    VerdictOfChain(c, o.landed, w.tip, o.tipAt, w.log);
  }

  lemma VerdictOfChain(c: Codec, landed: seq<Landing>, tip: TipFile, at: Option<nat>, file: bytes)
    requires Faithful(c) && TipNames(c, tip, at, Chain(c, landed)) && file == Render(Chain(c, landed))
    requires CollisionFree(c.hash, Elements(Chain(c, landed)))
    requires |Text.Decimal(|landed|)| <= 190
    ensures var n := |landed|;
            Verify(c, file, tip) == Verdict(n == 0 || at == None || at == Some(n - 1), n)
  {
    var lines := Chain(c, landed);
    WalkOfWholeChain(c, landed, lines);
    if landed != [] && at.Some? {
      VerdictOfTip(c, landed, at.value);
    }
    VerdictOfWalk(c, file, tip, lines, if lines == [] then None else Some(HeadHash(c, lines)));
  }

  /** What a walk without a break concludes with. */
  lemma VerdictOfWalk(c: Codec, file: bytes, tip: TipFile, lines: seq<bytes>, prev: Option<string>)
    requires Lines(file) == lines && (file == [] <==> lines == []) && (prev.None? <==> lines == [])
    requires Walk(c, WALK_START, lines) == Walked(prev, |lines|, |lines|)
    ensures Verify(c, file, tip) == Verdict(lines == [] || VerifyTip(tip, prev.value, |lines|), |lines|)
  {
  }

  lemma WalkOfWholeChain(c: Codec, landed: seq<Landing>, lines: seq<bytes>)
    requires Faithful(c) && lines == Chain(c, landed)
    ensures Lines(Render(lines)) == lines && (Render(lines) == [] <==> lines == [])
    ensures Walk(c, WALK_START, lines) == Walked(if lines == [] then None else Some(HeadHash(c, lines)), |lines|, |lines|)
  {
    ChainLines(c, landed);
    RenderComplete(lines);
    WalkOfChain(c, landed, 0);
    assert lines[0..] == lines && lines[..|lines|] == lines;
  }

  /** The tip of record k approves the chain exactly if k is the last record. */
  lemma VerdictOfTip(c: Codec, landed: seq<Landing>, k: nat)
    requires Faithful(c) && k < |landed|
    requires CollisionFree(c.hash, Elements(Chain(c, landed)))
    requires |Text.Decimal(|landed|)| <= 190
    ensures var lines, n := Chain(c, landed), |landed|;
            VerifyTip(TipData(TipLine(c.hash(lines[k]), k)), HeadHash(c, lines), n) <==> k == n - 1
  {
    var lines, n := Chain(c, landed), |landed|;
    ShorterDecimal(k, n);
    TipLineReads(c.hash(lines[k]), k, Text.Decimal(k));
    Text.DecimalRoundTrip(k);
    if k < n - 1 {
      ChainDistinct(c, landed, k, n - 1);
      assert lines[k] in Elements(lines) && lines[n - 1] in Elements(lines);
    }
  }

  lemma {:induction false} ShorterDecimal(a: nat, b: nat)
    requires a <= b
    ensures |Text.Decimal(a)| <= |Text.Decimal(b)|
    decreases a
  {
    if a >= 10 {
      ShorterDecimal(a / 10, b / 10);
    }
  }
}
