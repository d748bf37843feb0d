/**
 The hash-chained records of storage/audit_log.py: their lines, the verifier
 that walks them, and what a verified chain says about its history.

 JSON and SHA-256 are an abstract codec.  Printing is assumed to give one
 trimmed line whose `prev_hash` and `seq` parse back; digests are 64 hexadecimal
 characters.  Freedom from collisions is assumed only where a result needs it,
 and only of the lines at hand.
 */
module AuditChain {
  import opened Wrappers
  import opened Bytes
  import Text

  /** One record: the caller's fields, and what `_write_record` adds to them. */
  datatype Entry = Entry(body: bytes, prev: string, number: nat, dropped: nat)

  datatype PrevHash = NoPrev | PrevText(text: string) | PrevOther   // NoPrev: absent or null
  datatype SeqField = NoSeq | SeqInt(value: int)                    // NoSeq: absent or no integer
  datatype Parsed = NotJson | NotObject | Object(prev: PrevHash, number: SeqField)

  datatype Codec = Codec(show: Entry -> bytes, parse: bytes -> Parsed, hash: bytes -> string)

  predicate IsDigest(s: string) {
    |s| == 64 && forall i | 0 <= i < 64 :: '0' <= s[i] <= '9' || 'a' <= s[i] <= 'f'
  }

  ghost predicate Faithful(c: Codec) {
    && (forall e: Entry :: Trimmed(c.show(e)) && NEWLINE !in c.show(e))
    && (forall e: Entry :: c.parse(c.show(e)) == Object(PrevText(e.prev), SeqInt(e.number)))
    && (forall line: bytes :: IsDigest(c.hash(line)))
  }

  /** `_seq_after`. */
  function SeqAfter(p: Parsed): nat {
    if p.Object? && p.number.SeqInt? && p.number.value >= 0 then p.number.value + 1 else 0
  }

  // ---------------------------------------------------------------- verify_chain

  datatype TipFile = NoTip | Unreadable | TipData(data: bytes)

  datatype Verdict =
    | Verdict(ok: bool, count: nat)
    | Raises(count: nat)             // a JSON value that is no object has no `get`

  datatype WalkState = Broken(count: nat) | Raised(count: nat)
                     | Walked(prev: Option<string>, expected: int, count: nat)

  function OrEmpty(prev: Option<string>): string {
    match prev case Some(h) => h case None => ""
  }

  /** One line of the walk. */
  function WalkLine(c: Codec, s: WalkState, line: bytes): WalkState
    requires s.Walked?
  {
    if line == [] then s
    else
      match c.parse(line)
      case NotJson => Broken(s.count + 1)
      case NotObject => Raised(s.count + 1)
      case Object(prev, number) =>
        if prev.NoPrev? then
          if s.prev.Some? then Broken(s.count + 1) else s.(count := s.count + 1)
        else if prev != PrevText(OrEmpty(s.prev)) then Broken(s.count + 1)
        else if number.SeqInt? && number.value != s.expected then Broken(s.count + 1)
        else Walked(Some(c.hash(line)), if number.SeqInt? then number.value + 1 else s.expected, s.count + 1)
  }

  function Walk(c: Codec, s: WalkState, lines: seq<bytes>): WalkState
    decreases |lines|
  {
    if lines == [] || !s.Walked? then s else Walk(c, WalkLine(c, s, lines[0]), lines[1..])
  }

  const WALK_START := Walked(None, 0, 0)

  /** The fields of the tip file; the code reads at most 256 bytes of it. */
  function TipFields(data: bytes): seq<string> {
    Text.Fields(Text.Strip(DecodeAscii(if |data| <= 256 then data else data[..256])))
  }

  function TipHash(data: bytes): string {
    var fields := TipFields(data);
    if fields == [] then "" else fields[0]
  }

  /** `_verify_tip`. */
  predicate VerifyTip(tip: TipFile, prev: string, expected: int) {
    match tip
    case NoTip => true
    case Unreadable => false
    case TipData(data) =>
      var fields := TipFields(data);
      && |TipHash(data)| == 64 && TipHash(data) == prev
      && !(|fields| > 1 && Text.AllDigits(fields[1]) && Text.DecimalValue(fields[1]) != expected - 1)
  }

  function Conclude(s: WalkState, tip: TipFile): Verdict {
    match s
    case Broken(n) => Verdict(false, n)
    case Raised(n) => Raises(n)
    case Walked(None, _, n) => Verdict(true, n)
    case Walked(Some(h), expected, n) => Verdict(VerifyTip(tip, h, expected), n)
  }

  function Verify(c: Codec, file: bytes, tip: TipFile): Verdict {
    if file == [] then Verdict(true, 0) else Conclude(Walk(c, WALK_START, Lines(file)), tip)
  }

  /** `verify_chain` (lines 354-401): the loop over the file. */
  method VerifyChain(c: Codec, file: bytes, tip: TipFile) returns (v: Verdict)
    ensures v == Verify(c, file, tip)
  {
    if file == [] {
      return Verdict(true, 0);
    }
    var prevHash: Option<string>, expectedSeq: int, count := None, 0, 0;
    var lines := Lines(file);
    for n := 0 to |lines|
      invariant Walk(c, WALK_START, lines) == Walk(c, Walked(prevHash, expectedSeq, count), lines[n..])
    {
      assert lines[n..][1..] == lines[n + 1..];
      var line := lines[n];
      if line == [] {
        continue;
      }
      count := count + 1;
      match c.parse(line) {
        case NotJson => return Verdict(false, count);
        case NotObject => return Raises(count);
        case Object(stored, number) =>
          if stored.NoPrev? {
            if prevHash.Some? {
              return Verdict(false, count);
            }
          } else {
            if stored != PrevText(OrEmpty(prevHash)) {
              return Verdict(false, count);
            }
            if number.SeqInt? {
              if number.value != expectedSeq {
                return Verdict(false, count);
              }
              expectedSeq := number.value + 1;
            }
            prevHash := Some(c.hash(line));
          }
      }
    }
    v := Conclude(Walked(prevHash, expectedSeq, count), tip);
  }

  // ---------------------------------------------------------------- a chain determines its history

  /** The non-blank lines of a file: its records, as text. */
  function Records(lines: seq<bytes>): seq<bytes> {
    if lines == [] then []
    else if lines[0] == [] then Records(lines[1..])
    else [lines[0]] + Records(lines[1..])
  }

  /** A JSON object without `prev_hash`: what an unchained log consists of. */
  predicate Plain(c: Codec, record: bytes) { c.parse(record).Object? && c.parse(record).prev.NoPrev? }

  ghost predicate AllPlain(c: Codec, records: seq<bytes>) {
    forall i | 0 <= i < |records| :: Plain(c, records[i])
  }

  /** How many plain records come first. */
  function FrontLength(c: Codec, records: seq<bytes>): (n: nat)
    ensures n <= |records|
  {
    if records == [] || !Plain(c, records[0]) then 0 else 1 + FrontLength(c, records[1..])
  }

  /** What follows the plain records in front: where the chain, if any, begins. */
  function Core(c: Codec, records: seq<bytes>): seq<bytes> { records[FrontLength(c, records)..] }

  /** The hash `prev_hash` should name after these records. */
  function HeadHash(c: Codec, records: seq<bytes>): string {
    if records == [] then "" else c.hash(records[|records| - 1])
  }

  predicate Names(c: Codec, record: bytes, prev: string) {
    c.parse(record).Object? && c.parse(record).prev == PrevText(prev)
  }

  /** Each record names the hash of the one before it. */
  ghost predicate Linked(c: Codec, records: seq<bytes>) {
    records == [] ||
    var n := |records| - 1;
    Names(c, records[n], HeadHash(c, records[..n])) && Linked(c, records[..n])
  }

  ghost predicate CollisionFree(hash: bytes -> string, lines: set<bytes>) {
    forall a, b | a in lines && b in lines && hash(a) == hash(b) :: a == b
  }

  function Elements(records: seq<bytes>): set<bytes> {
    set i | 0 <= i < |records| :: records[i]
  }

  /** Blank lines do not matter to the walk. */
  lemma {:induction false} WalkSkipsBlank(c: Codec, s: WalkState, lines: seq<bytes>)
    ensures Walk(c, s, lines) == Walk(c, s, Records(lines))
    decreases |lines|
  {
    if lines != [] && s.Walked? {
      var s' := WalkLine(c, s, lines[0]);
      WalkSkipsBlank(c, s', lines[1..]);
      if lines[0] != [] {
        var rs := Records(lines);
        assert rs[0] == lines[0] && rs[1..] == Records(lines[1..]);
      }
    }
  }

  lemma {:induction false} RecordsNonBlank(lines: seq<bytes>)
    ensures forall i | 0 <= i < |Records(lines)| :: Records(lines)[i] != []
    decreases |lines|
  {
    if lines != [] {
      RecordsNonBlank(lines[1..]);
    }
  }

  /** The records of a file are plain ones, then a core that is empty or starts with another kind. */
  lemma {:induction false} FrontAndCore(c: Codec, records: seq<bytes>)
    ensures var n := FrontLength(c, records);
            && AllPlain(c, records[..n]) && records == records[..n] + Core(c, records)
            && (Core(c, records) != [] ==> !Plain(c, Core(c, records)[0]))
    decreases |records|
  {
    if records != [] && Plain(c, records[0]) {
      FrontAndCore(c, records[1..]);
      var n := FrontLength(c, records);
      assert records[..n] == [records[0]] + records[1..][..n - 1];
    }
  }

  lemma {:induction false} FrontThenCore(c: Codec, front: seq<bytes>, core: seq<bytes>)
    requires AllPlain(c, front) && (core == [] || !Plain(c, core[0]))
    ensures Core(c, front + core) == core
    decreases |front|
  {
    if front == [] {
      assert front + core == core;
    } else {
      assert (front + core)[1..] == front[1..] + core;
      FrontThenCore(c, front[1..], core);
    }
  }

  /** Plain records in front only count. */
  lemma {:induction false} WalkFront(c: Codec, records: seq<bytes>, count: nat)
    requires forall i | 0 <= i < |records| :: records[i] != []
    ensures Walk(c, Walked(None, 0, count), records)
         == Walk(c, Walked(None, 0, count + FrontLength(c, records)), Core(c, records))
    decreases |records|
  {
    if records != [] && Plain(c, records[0]) {
      WalkFront(c, records[1..], count + 1);
    }
  }

  /** The count a walk starts from shifts the count it ends with, and nothing else. */
  lemma {:induction false} WalkShift(c: Codec, lines: seq<bytes>, prev: Option<string>, expected: int, m: nat, n: nat)
    ensures var (a, b) := (Walk(c, Walked(prev, expected, m), lines), Walk(c, Walked(prev, expected, n), lines));
            && (a.Walked? <==> b.Walked?)
            && (a.Walked? ==> a.prev == b.prev && a.expected == b.expected)
    decreases |lines|
  {
    if lines != [] {
      var (a, b) := (WalkLine(c, Walked(prev, expected, m), lines[0]), WalkLine(c, Walked(prev, expected, n), lines[0]));
      if a.Walked? {
        WalkShift(c, lines[1..], a.prev, a.expected, a.count, b.count);
      }
    }
  }

  /** Once a chain has begun, a walk that gets through has seen each record name the one before. */
  lemma {:induction false} WalkedIsLinked(c: Codec, done: seq<bytes>, todo: seq<bytes>, s: WalkState)
    requires Linked(c, done) && s.Walked?
    requires s.prev == if done == [] then None else Some(HeadHash(c, done))
    requires (forall i | 0 <= i < |todo| :: todo[i] != []) && (done == [] && todo != [] ==> !Plain(c, todo[0]))
    requires Walk(c, s, todo).Walked?
    ensures Linked(c, done + todo)
    ensures Walk(c, s, todo).prev == if done + todo == [] then None else Some(HeadHash(c, done + todo))
    decreases |todo|
  {
    if todo == [] {
      assert done + todo == done;
    } else {
      var s' := WalkLine(c, s, todo[0]);
      assert s'.Walked?;
      var done' := done + [todo[0]];
      assert done'[..|done|] == done;
      WalkedIsLinked(c, done', todo[1..], s');
      assert done' + todo[1..] == done + todo;
    }
  }

  /** Two linked sequences with the same final hash are the same sequence. */
  lemma {:induction false} SameHeadSameHistory(c: Codec, a: seq<bytes>, b: seq<bytes>)
    requires Linked(c, a) && Linked(c, b)
    requires CollisionFree(c.hash, Elements(a) + Elements(b))
    requires forall line: bytes :: c.hash(line) != ""
    requires HeadHash(c, a) == HeadHash(c, b)
    ensures a == b
    decreases |a|
  {
    if a != [] && b != [] {
      var m, n := |a| - 1, |b| - 1;
      assert a[m] in Elements(a) && b[n] in Elements(b);
      assert a[m] == b[n];
      var a', b' := a[..m], b[..n];
      assert Elements(a') <= Elements(a) && Elements(b') <= Elements(b);
      SameHeadSameHistory(c, a', b');
      assert a == a' + [a[m]] && b == b' + [b[n]];
    }
  }

  /** A file verifies. */
  predicate Approved(v: Verdict) { v.Verdict? && v.ok }

  /** The verdict on a file is decided by its core and the tip. */
  lemma VerdictOfCore(c: Codec, file: bytes, data: bytes, core: seq<bytes>, s: WalkState)
    requires core == Core(c, Records(Lines(file))) && s == Walk(c, WALK_START, core)
    ensures Approved(Verify(c, file, TipData(data)))
       <==> s.Walked? && (s.prev.Some? ==> VerifyTip(TipData(data), s.prev.value, s.expected))
  {
    var rs := Records(Lines(file));
    RecordsNonBlank(Lines(file));
    WalkSkipsBlank(c, WALK_START, Lines(file));
    WalkFront(c, rs, 0);
    WalkShift(c, core, None, 0, FrontLength(c, rs), 0);
    EmptyFile();
  }

  lemma CoreNonBlank(c: Codec, file: bytes, core: seq<bytes>)
    requires core == Core(c, Records(Lines(file)))
    ensures forall i | 0 <= i < |core| :: core[i] != []
    ensures core != [] ==> !Plain(c, core[0])
  {
    RecordsNonBlank(Lines(file));
    FrontAndCore(c, Records(Lines(file)));
  }

  /** What a verified file that holds a chain, with a tip file, says. */
  lemma VerifiedIsLinked(c: Codec, file: bytes, data: bytes, core: seq<bytes>)
    requires Approved(Verify(c, file, TipData(data)))
    requires core == Core(c, Records(Lines(file))) && core != []
    ensures Linked(c, core) && TipHash(data) == HeadHash(c, core)
  {
    VerdictOfCore(c, file, data, core, Walk(c, WALK_START, core));
    CoreNonBlank(c, file, core);
    assert [] + core == core;
    WalkedIsLinked(c, [], core, WALK_START);
  }

  lemma EmptyFile()
    ensures Records(Lines([])) == []
  {
    assert Split([]) == [[]];
    assert Lines([]) == [];
  }

  /**
   Any file at all, put in place of a verified log that holds a chain, under an
   unchanged tip: `verify_chain` approves it exactly if, after whatever plain
   records it starts with, it has the very same records, or none.
   */
  lemma ChainDeterminesHistory(c: Codec, log: bytes, other: bytes, data: bytes, a: seq<bytes>, b: seq<bytes>)
    requires forall line: bytes :: IsDigest(c.hash(line))
    requires a == Core(c, Records(Lines(log))) && b == Core(c, Records(Lines(other)))
    requires Approved(Verify(c, log, TipData(data))) && a != []
    requires CollisionFree(c.hash, Elements(a) + Elements(b))
    ensures Approved(Verify(c, other, TipData(data))) <==> b == a || b == []
  {
    VerifiedIsLinked(c, log, data, a);
    VerdictOfCore(c, log, data, a, Walk(c, WALK_START, a));
    VerdictOfCore(c, other, data, b, Walk(c, WALK_START, b));
    if b != [] && Approved(Verify(c, other, TipData(data))) {
      VerifiedIsLinked(c, other, data, b);
      SameHeadSameHistory(c, a, b);
    }
  }

  /** For a log of chained records only: the files that pass for it are its records, or none, after any plain ones. */
  lemma PassesForLog(c: Codec, log: bytes, other: bytes, data: bytes, rs: seq<bytes>, os: seq<bytes>)
    requires forall line: bytes :: IsDigest(c.hash(line))
    requires rs == Records(Lines(log)) && os == Records(Lines(other)) && rs != [] && !Plain(c, rs[0])
    requires Approved(Verify(c, log, TipData(data))) && CollisionFree(c.hash, Elements(rs) + Elements(os))
    ensures Approved(Verify(c, other, TipData(data)))
       <==> exists n: nat :: n <= |os| && AllPlain(c, os[..n]) && (os[n..] == rs || os[n..] == [])
  {
    var b := Core(c, os);
    CoreAt(c, rs, 0);
    assert rs[0..] == rs && rs[..0] == [];
    CoreIsTail(c, os, rs);
    assert Elements(b) <= Elements(os);
    ChainDeterminesHistory(c, log, other, data, rs, b);
  }

  /** Being, after some plain records, this chain or nothing. */
  lemma CoreIsTail(c: Codec, os: seq<bytes>, rs: seq<bytes>)
    requires rs != [] && !Plain(c, rs[0])
    ensures Core(c, os) == rs || Core(c, os) == []
       <==> exists n: nat :: n <= |os| && AllPlain(c, os[..n]) && (os[n..] == rs || os[n..] == [])
  {
    FrontAndCore(c, os);
    assert Core(c, os) == os[FrontLength(c, os)..];
    if m: nat :| m <= |os| && AllPlain(c, os[..m]) && (os[m..] == rs || os[m..] == []) {
      CoreAt(c, os, m);
    }
  }

  lemma CoreAt(c: Codec, os: seq<bytes>, m: nat)
    requires m <= |os| && AllPlain(c, os[..m]) && (os[m..] == [] || !Plain(c, os[m..][0]))
    ensures Core(c, os) == os[m..]
  {
    assert os == os[..m] + os[m..];
    FrontThenCore(c, os[..m], os[m..]);
  }

  /** A file of plain records only is approved under any tip: it need not resemble the log it replaced. */
  lemma UnchainedLogPasses(c: Codec, other: bytes, data: bytes)
    requires AllPlain(c, Records(Lines(other)))
    ensures Approved(Verify(c, other, TipData(data)))
  {
    var os := Records(Lines(other));
    assert os + [] == os;
    FrontThenCore(c, os, []);
    VerdictOfCore(c, other, data, [], Walk(c, WALK_START, []));
  }

  /** So is a verified log with any plain records inserted in front. */
  lemma FrontInsertionPasses(c: Codec, log: bytes, other: bytes, data: bytes, front: seq<bytes>)
    requires Approved(Verify(c, log, TipData(data)))
    requires AllPlain(c, front) && Records(Lines(other)) == front + Records(Lines(log))
    ensures Approved(Verify(c, other, TipData(data)))
  {
    var rs := Records(Lines(log));
    var n, core := FrontLength(c, rs), Core(c, rs);
    FrontAndCore(c, rs);
    assert front + rs == (front + rs[..n]) + core;
    FrontThenCore(c, front + rs[..n], core);
    VerdictOfCore(c, log, data, core, Walk(c, WALK_START, core));
    VerdictOfCore(c, other, data, core, Walk(c, WALK_START, core));
  }
}
