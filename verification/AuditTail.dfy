/**
 Finding the last record of a log file: `AuditLog._scan_tail_state` reads only
 the last 64 KiB, backwards; the reference walks the whole file forwards.
 */
module AuditTail {
  import opened Wrappers
  import opened Bytes

  const TAIL_CHUNK := 64 * 1024

  /** The last element that is not empty once stripped, stripped. */
  function LastNonBlank(pieces: seq<bytes>): Option<bytes> {
    if pieces == [] then None
    else
      var raw := Strip(pieces[|pieces| - 1]);
      if raw != [] then Some(raw) else LastNonBlank(pieces[..|pieces| - 1])
  }

  /** Reference: walk the whole file forwards and keep the last record seen. */
  function ForwardWalk(lines: seq<bytes>, seen: Option<bytes>): Option<bytes> {
    if lines == [] then seen
    else ForwardWalk(lines[1..], if Strip(lines[0]) != [] then Some(Strip(lines[0])) else seen)
  }

  function FullScan(file: bytes): Option<bytes> { ForwardWalk(Lines(file), None) }

  /** What the code computes: the last chunk backwards, the whole file if that holds only whitespace. */
  function TailScan(file: bytes, chunk: nat): Option<bytes> {
    var tail := Tail(file, chunk);
    match LastNonBlank(Split(tail))
    case Some(raw) => Some(raw)
    case None => FullScan(file)
  }

  function Tail(file: bytes, chunk: nat): bytes { file[if |file| <= chunk then 0 else |file| - chunk..] }

  /** Lines 308-312: the pieces of the chunk, last one first. */
  method ScanBackwards(pieces: seq<bytes>) returns (last: Option<bytes>)
    ensures last == LastNonBlank(pieces)
  {
    var i := |pieces|;
    assert pieces[..i] == pieces;
    while i > 0
      invariant 0 <= i <= |pieces|
      invariant LastNonBlank(pieces) == LastNonBlank(pieces[..i])
    {
      i := i - 1;
      assert pieces[..i + 1][..i] == pieces[..i];
      var raw := Strip(pieces[i]);
      if raw != [] {
        return Some(raw);
      }
    }
    last := None;
  }

  /** Lines 313-319: every line of the file, keeping the last record seen. */
  method ScanForwards(lines: seq<bytes>) returns (last: Option<bytes>)
    ensures last == ForwardWalk(lines, None)
  {
    last := None;
    for k := 0 to |lines|
      invariant ForwardWalk(lines[k..], last) == ForwardWalk(lines, None)
    {
      assert lines[k..][1..] == lines[k + 1..];
      var raw := Strip(lines[k]);
      if raw != [] {
        last := Some(raw);
      }
    }
  }

  method ScanLastRecord(file: bytes, chunk: nat) returns (last: Option<bytes>)
    ensures last == TailScan(file, chunk)
  {
    last := ScanBackwards(Split(Tail(file, chunk)));
    if last == None {
      last := ScanForwards(Lines(file));
    }
  }

  // ---------------------------------------------------------------- both scans by position

  /** The record the file's last non-space byte belongs to. */
  function LastRecord(file: bytes): Option<bytes> {
    var e := End(file);
    if e == 0 then None else Some(LStrip(file[LineStart(file, e)..e]))
  }

  lemma StripBlank(s: bytes)
    ensures Strip(s) == [] <==> Blank(s)
  {
    EndFacts(s);
    var t := s[..End(s)];
    LeadFacts(t);
    if End(s) > 0 {
      assert t[End(s) - 1] == s[End(s) - 1];
    }
  }

  /** Stripping a whole line: both ends found by position. */
  lemma StripLine(s: bytes, j: nat)
    requires j <= |s| && !Blank(s[j..])
    ensures j < End(s) && Strip(s[j..]) == LStrip(s[j..End(s)])
  {
    EndOfLine(s, j);
    StripTo(s[j..], End(s) - j);
    PrefixOfSlice(s, j, End(s));
  }

  lemma StripTo(t: bytes, e: nat)
    requires e == End(t)
    ensures Strip(t) == LStrip(t[..e])
  {
  }

  lemma EndOfLine(s: bytes, j: nat)
    requires j <= |s| && !Blank(s[j..])
    ensures j < End(s) && End(s[j..]) == End(s) - j
  {
    var t := s[j..];
    EndFacts(s);
    var i :| 0 <= i < |t| && !IsSpace(t[i]);
    assert t[i] == s[j + i];
    var e := End(s);
    assert t[e - j - 1] == s[e - 1];
    assert forall k | e - j <= k < |t| :: t[k] == s[j + k];
    EndUnique(t, e - j);
  }

  lemma PrefixOfSlice(s: bytes, j: nat, e: nat)
    requires j <= e <= |s|
    ensures s[j..][..e - j] == s[j..e]
  {
  }

  /** Removing a last line of whitespace, and the newline before it, keeps the record. */
  lemma DropBlankLine(s: bytes, j: nat)
    requires 0 < j <= |s| && s[j - 1] == NEWLINE && Blank(s[j..])
    ensures LastRecord(s) == LastRecord(s[..j - 1])
  {
    var t := s[..j - 1];
    assert forall i | j <= i < |s| :: s[i] == s[j..][i - j];
    var e := End(t);
    assert forall i | 0 <= i < |t| :: t[i] == s[i];
    EndFacts(t);
    EndUnique(s, e);
    LineStartFacts(t, e);
    LineStartUnique(s, e, LineStart(t, e));
    assert t[LineStart(t, e)..e] == s[LineStart(t, e)..e];
  }

  lemma LastLineRecord(s: bytes, j: nat)
    requires j == LineStart(s, |s|) && !Blank(s[j..])
    ensures LastRecord(s) == Some(Strip(s[j..]))
  {
    StripLine(s, j);
    LineStartFacts(s, |s|);
    LineStartUnique(s, End(s), j);
  }

  lemma NoRecord(s: bytes)
    requires Blank(s)
    ensures LastRecord(s) == None
  {
    EndUnique(s, 0);
  }

  /** Reading the pieces backwards finds the record by position. */
  lemma {:induction false} BackwardIsLastRecord(s: bytes)
    ensures LastNonBlank(Split(s)) == LastRecord(s)
    decreases |s|
  {
    var j := LineStart(s, |s|);
    var ps := Split(s);
    LineStartFacts(s, |s|);
    assert s[0..] == s;
    assert ps[|ps| - 1] == s[j..];
    StripBlank(s[j..]);
    if !Blank(s[j..]) {
      LastLineRecord(s, j);
    } else if j == 0 {
      NoRecord(s);
      assert ps[..0] == [];
    } else {
      DropBlankLine(s, j);
      BackwardIsLastRecord(s[..j - 1]);
      assert ps[..|ps| - 1] == Split(s[..j - 1]);
    }
  }

  lemma {:induction false} ForwardIsBackward(lines: seq<bytes>, seen: Option<bytes>)
    ensures ForwardWalk(lines, seen) == match LastNonBlank(lines) case Some(x) => Some(x) case None => seen
    decreases |lines|
  {
    if lines != [] {
      var seen' := if Strip(lines[0]) != [] then Some(Strip(lines[0])) else seen;
      ForwardIsBackward(lines[1..], seen');
      LastNonBlankCons(lines);
    }
  }

  lemma {:induction false} LastNonBlankCons(lines: seq<bytes>)
    requires lines != []
    ensures LastNonBlank(lines) == match LastNonBlank(lines[1..])
      case Some(x) => Some(x)
      case None => if Strip(lines[0]) != [] then Some(Strip(lines[0])) else None
    decreases |lines|
  {
    var n := |lines| - 1;
    if n > 0 {
      assert lines[1..][n - 1] == lines[n];
      assert lines[1..][..n - 1] == lines[..n][1..];
      LastNonBlankCons(lines[..n]);
    } else {
      assert lines[..0] == [] && lines[1..] == [];
    }
  }

  /** Both walks over the whole file agree. */
  lemma FullScanIsLastRecord(file: bytes)
    ensures FullScan(file) == LastRecord(file)
  {
    BackwardIsLastRecord(file);
    ForwardIsBackward(Lines(file), None);
    var ps := Split(file);
    if ps[|ps| - 1] == [] {
      StripBlank([]);
    }
  }

  // ---------------------------------------------------------------- when the chunk is enough

  /**
   The last record, with whatever whitespace follows it, fits in the chunk; or
   the chunk is all whitespace and the scan falls back to the whole file.
   */
  predicate ChunkSuffices(file: bytes, chunk: nat) {
    Covers(FullScan(file), |file| - End(file), chunk)
  }

  predicate Covers(last: Option<bytes>, trailing: nat, chunk: nat) {
    last.Some? ==> |last.value| + trailing <= chunk || chunk <= trailing
  }

  /**
   The fast scan and the full scan agree exactly when the chunk covers the last
   record: for every file, of any content, and every chunk size.
   */
  lemma TailScanExact(file: bytes, chunk: nat)
    ensures TailScan(file, chunk) == FullScan(file) <==> ChunkSuffices(file, chunk)
  {
    FullScanIsLastRecord(file);
    BackwardIsLastRecord(Tail(file, chunk));
    TailRecordExact(file, chunk, if |file| <= chunk then 0 else |file| - chunk, End(file));
  }

  /** Where the record's line begins once everything before `k` is gone. */
  function CutStart(file: bytes, k: nat): (j: nat)
    requires k < End(file)
    ensures k <= j <= End(file)
  {
    var ls := LineStart(file, End(file));
    if ls < k then k else ls
  }

  lemma TailPositions(file: bytes, k: nat)
    requires k < End(file)
    ensures End(file[k..]) == End(file) - k
    ensures LineStart(file[k..], End(file) - k) == CutStart(file, k) - k
  {
    var tail, e := file[k..], End(file);
    assert forall i | 0 <= i < |tail| :: tail[i] == file[k + i];
    EndFacts(file);
    EndUnique(tail, e - k);
    LineStartFacts(file, e);
    LineStartUnique(tail, e - k, CutStart(file, k) - k);
  }

  lemma RecordByPosition(s: bytes, j: nat, e: nat)
    requires End(s) == e > 0 && LineStart(s, e) == j
    ensures LastRecord(s) == Some(LStrip(s[j..e]))
  {
  }

  lemma SliceOfTail(s: bytes, k: nat, c: nat, e: nat)
    requires k <= c <= e <= |s|
    ensures s[k..][c - k..e - k] == s[c..e]
  {
  }

  /** The record found in a tail of the file that still holds the record's last byte. */
  lemma RecordOfTail(file: bytes, k: nat, c: nat, e: nat)
    requires k < End(file) == e && c == CutStart(file, k)
    ensures LastRecord(file[k..]) == Some(LStrip(file[c..e]))
  {
    TailPositions(file, k);
    RecordByPosition(file[k..], c - k, e - k);
    SliceOfTail(file, k, c, e);
  }

  lemma TailRecordExact(file: bytes, chunk: nat, k: nat, e: nat)
    requires e == End(file) && k == if |file| <= chunk then 0 else |file| - chunk
    ensures (LastRecord(file[k..]) == None || LastRecord(file[k..]) == LastRecord(file))
      <==> Covers(LastRecord(file), |file| - e, chunk)
  {
    if e <= k {
      BlankTail(file, k, e);
    } else {
      EndFacts(file);
      RecordInTail(file, k, e, LineStart(file, e));
    }
  }

  lemma BlankTail(file: bytes, k: nat, e: nat)
    requires e == End(file) && e <= k <= |file|
    ensures LastRecord(file[k..]) == None
  {
    EndFacts(file);
    var tail := file[k..];
    assert forall i | 0 <= i < |tail| :: tail[i] == file[k + i];
    NoRecord(tail);
  }

  lemma RecordInTail(file: bytes, k: nat, e: nat, ls: nat)
    requires k < e == End(file) && ls == LineStart(file, e) && !IsSpace(file[e - 1])
    ensures LastRecord(file).Some? && LastRecord(file[k..]).Some?
    ensures LastRecord(file[k..]) == LastRecord(file) <==> |LastRecord(file).value| <= e - k
  {
    var c := CutStart(file, k);
    RecordOfTail(file, k, c, e);
    RecordByPosition(file, ls, e);
    if ls < k {
      CutLine(file, ls, k, e);
    } else {
      ShorterThanLine(file, ls, e);
    }
  }

  lemma ShorterThanLine(file: bytes, ls: nat, e: nat)
    requires ls <= e <= |file|
    ensures |LStrip(file[ls..e])| <= e - ls
  {
  }

  /** Dropping the front of a line changes what is left after stripping exactly if it drops non-space. */
  lemma CutLine(file: bytes, ls: nat, k: nat, e: nat)
    requires ls < k < e <= |file| && !IsSpace(file[e - 1])
    ensures LStrip(file[k..e]) == LStrip(file[ls..e]) <==> |LStrip(file[ls..e])| <= e - k
    ensures LStrip(file[k..e]) != [] && LStrip(file[ls..e]) != []
  {
    var long, short := file[ls..e], file[k..e];
    var d := k - ls;
    assert long[d..] == short;
    assert long[|long| - 1] == file[e - 1];
    DropFront(long, d, short);
  }

  lemma DropFront(long: bytes, d: nat, short: bytes)
    requires d < |long| && short == long[d..] && !IsSpace(long[|long| - 1])
    ensures LStrip(short) == LStrip(long) <==> |LStrip(long)| <= |short|
    ensures LStrip(short) != [] && LStrip(long) != []
  {
    var n, m := Lead(long), Lead(short);
    LeadFacts(long);
    LeadFacts(short);
    assert short[|short| - 1] == long[|long| - 1];
    if n >= d {
      assert forall i | 0 <= i < |short| :: short[i] == long[d + i];
      assert !IsSpace(short[n - d]) && !IsSpace(long[d + m]);
      assert n == d + m;
      assert long[n..] == short[m..];
    }
  }

  /** The documented case: a log whose last line, newline included, fits in the chunk. */
  lemma TerminatedLineSuffices(before: bytes, record: bytes, chunk: nat)
    requires Complete(before) && Trimmed(record) && NEWLINE !in record
    requires |record| + 1 <= chunk
    ensures TailScan(before + record + [NEWLINE], chunk) == Some(record)
  {
    var file := before + record + [NEWLINE];
    EndsInRecord(before, record, file);
    LeadFacts(record);
    assert Lead(record) == 0 && record[0..] == record;
    FullScanIsLastRecord(file);
    TailScanExact(file, chunk);
  }

  /** Where the last line of such a file lies. */
  lemma EndsInRecord(before: bytes, record: bytes, file: bytes)
    requires Complete(before) && Trimmed(record) && NEWLINE !in record && file == before + record + [NEWLINE]
    ensures End(file) == |before| + |record| && LineStart(file, End(file)) == |before|
    ensures file[|before|..|before| + |record|] == record
  {
    var b, e := |before|, |before| + |record|;
    assert file[e - 1] == record[|record| - 1] && file[e] == NEWLINE;
    EndUnique(file, e);
    assert forall i | b <= i < e :: file[i] == record[i - b];
    LineStartUnique(file, e, b);
  }
}
