/** Python byte strings: framing integers, newline splitting, stripping. */
module Bytes {
  type byte = b: int | 0 <= b < 256

  type bytes = seq<byte>

  const NEWLINE: byte := 10

  /** `s.encode("ascii")`, for text that is ASCII. */
  function EncodeAscii(s: string): (b: bytes)
    ensures |b| == |s|
  {
    seq(|s|, i requires 0 <= i < |s| => if s[i] < '\U{80}' then s[i] as int else 0)
  }

  /** `b.decode("ascii", errors="replace")`. */
  function DecodeAscii(b: bytes): (s: string)
    ensures |s| == |b|
  {
    seq(|b|, i requires 0 <= i < |b| => if b[i] < 128 then b[i] as char else '\U{fffd}')
  }

  lemma DecodeEncode(s: string)
    requires forall i | 0 <= i < |s| :: s[i] < '\U{80}'
    ensures DecodeAscii(EncodeAscii(s)) == s
  {
  }

  // ---------------------------------------------------------------- big-endian uint32

  const U32_LIMIT := 0x1_0000_0000

  /** `struct.pack(">I", n)`. */
  function U32(n: nat): (b: bytes)
    requires n < U32_LIMIT
    ensures |b| == 4
  {
    [n / 0x100_0000, n / 0x1_0000 % 0x100, n / 0x100 % 0x100, n % 0x100]
  }

  /** `struct.unpack(">I", b)`. */
  function U32Value(b: bytes): (n: nat)
    requires |b| == 4
    ensures n < U32_LIMIT
  {
    0x100_0000 * (b[0] as int) + 0x1_0000 * (b[1] as int) + 0x100 * (b[2] as int) + (b[3] as int)
  }

  lemma U32RoundTrip(n: nat)
    requires n < U32_LIMIT
    ensures U32Value(U32(n)) == n
  {
    var a, b, c := n / 0x100, n / 0x1_0000, n / 0x100_0000;
    assert n == 0x100 * a + n % 0x100;
    assert b == a / 0x100 && a == 0x100 * b + a % 0x100;
    assert c == b / 0x100 && b == 0x100 * c + b % 0x100;
  }

  lemma U32Inverse(b: bytes)
    requires |b| == 4
    ensures U32(U32Value(b)) == b
  {
    var n := U32Value(b);
    var b0: int, b1: int, b2: int, b3: int := b[0], b[1], b[2], b[3];
    assert n / 0x100_0000 == b0;
    assert n / 0x1_0000 == 0x100 * b0 + b1;
    assert n / 0x100 == 0x1_0000 * b0 + 0x100 * b1 + b2;
  }

  // ---------------------------------------------------------------- parts of a buffer

  /** `part` sits in `view` at `offset`. */
  predicate At(view: bytes, offset: nat, part: bytes) {
    offset + |part| <= |view| && view[offset..offset + |part|] == part
  }

  lemma AtConcat(view: bytes, offset: nat, a: bytes, b: bytes)
    requires At(view, offset, a + b)
    ensures At(view, offset, a) && At(view, offset + |a|, b)
  {
    var w, mid := view[offset..offset + |a + b|], offset + |a|;
    assert w[..|a|] == a && w[|a|..] == b;
    assert view[offset..mid] == w[..|a|];
    assert view[mid..mid + |b|] == w[|a|..];
  }

  lemma AtJoin(view: bytes, offset: nat, a: bytes, b: bytes)
    requires At(view, offset, a) && At(view, offset + |a|, b)
    ensures At(view, offset, a + b)
  {
    var mid, end := offset + |a|, offset + |a| + |b|;
    assert view[offset..end] == view[offset..mid] + view[mid..end];
  }

  lemma AtWhole(view: bytes, whole: bytes)
    requires At(view, 0, whole) && |view| == |whole|
    ensures view == whole
  {
    assert view[0..|whole|] == view;
  }

  // ---------------------------------------------------------------- whitespace

  /** `bytes.strip()` removes these. */
  predicate IsSpace(b: byte) { b == 32 || 9 <= b <= 13 }

  predicate Blank(s: bytes) { forall i | 0 <= i < |s| :: IsSpace(s[i]) }

  /** Length of the leading whitespace, counted from position `from`. */
  function Lead(s: bytes, from: nat := 0): (n: nat)
    requires from <= |s|
    ensures from <= n <= |s|
    decreases |s| - from
  {
    if from == |s| || !IsSpace(s[from]) then from else Lead(s, from + 1)
  }

  lemma {:induction false} LeadFacts(s: bytes, from: nat := 0)
    requires from <= |s|
    ensures forall i | from <= i < Lead(s, from) :: IsSpace(s[i])
    ensures Lead(s, from) < |s| ==> !IsSpace(s[Lead(s, from)])
    decreases |s| - from
  {
    if from < |s| && IsSpace(s[from]) {
      LeadFacts(s, from + 1);
    }
  }

  function LStrip(s: bytes): bytes { s[Lead(s)..] }

  /** How much of `s` is left after stripping whitespace on the right. */
  function End(s: bytes): (e: nat)
    ensures e <= |s|
  {
    if s == [] then 0 else if IsSpace(s[|s| - 1]) then End(s[..|s| - 1]) else |s|
  }

  lemma {:induction false} EndFacts(s: bytes)
    ensures forall i | End(s) <= i < |s| :: IsSpace(s[i])
    ensures End(s) > 0 ==> !IsSpace(s[End(s) - 1])
  {
    if s != [] && IsSpace(s[|s| - 1]) {
      EndFacts(s[..|s| - 1]);
    }
  }

  /** `s.strip()`. */
  function Strip(s: bytes): bytes { LStrip(s[..End(s)]) }

  lemma EndUnique(s: bytes, e: nat)
    requires e <= |s| && (forall i | e <= i < |s| :: IsSpace(s[i])) && (e > 0 ==> !IsSpace(s[e - 1]))
    ensures End(s) == e
  {
    EndFacts(s);
  }

  /** No whitespace at either end, and something in between. */
  predicate Trimmed(s: bytes) {
    s != [] && !IsSpace(s[0]) && !IsSpace(s[|s| - 1])
  }

  // ---------------------------------------------------------------- lines

  /** Start of the line that `s[..e]` ends in. */
  function LineStart(s: bytes, e: nat): (j: nat)
    requires e <= |s|
    ensures j <= e
  {
    if e == 0 || s[e - 1] == NEWLINE then e else LineStart(s, e - 1)
  }

  lemma {:induction false} LineStartFacts(s: bytes, e: nat)
    requires e <= |s|
    ensures forall i | LineStart(s, e) <= i < e :: s[i] != NEWLINE
    ensures LineStart(s, e) > 0 ==> s[LineStart(s, e) - 1] == NEWLINE
  {
    if e > 0 && s[e - 1] != NEWLINE {
      LineStartFacts(s, e - 1);
    }
  }

  lemma LineStartUnique(s: bytes, e: nat, j: nat)
    requires j <= e <= |s| && (forall i | j <= i < e :: s[i] != NEWLINE) && (j > 0 ==> s[j - 1] == NEWLINE)
    ensures LineStart(s, e) == j
  {
    LineStartFacts(s, e);
  }

  /** `s.split(b"\n")`. */
  function Split(s: bytes): (ps: seq<bytes>)
    ensures ps != []
    decreases |s|
  {
    var j := LineStart(s, |s|);
    if j == 0 then [s] else Split(s[..j - 1]) + [s[j..]]
  }

  /** What iterating over a file yields, each line without its newline. */
  function Lines(s: bytes): seq<bytes> {
    var ps := Split(s);
    if ps[|ps| - 1] == [] then ps[..|ps| - 1] else ps
  }

  /** Empty, or ending in a newline. */
  predicate Complete(s: bytes) { s == [] || s[|s| - 1] == NEWLINE }

  /** Everything after the last newline is one more piece. */
  lemma SplitLast(before: bytes, line: bytes, u: bytes)
    requires NEWLINE !in line && u == before + [NEWLINE] + line
    ensures Split(u) == Split(before) + [line]
  {
    var j := |before| + 1;
    assert forall i | j <= i < |u| :: u[i] == line[i - j];
    LineStartUnique(u, |u|, j);
    assert u[..j - 1] == before && u[j..] == line;
  }

  /** Splitting distributes over a newline. */
  lemma {:induction false} SplitJoin(before: bytes, rest: bytes)
    ensures Split(before + [NEWLINE] + rest) == Split(before) + Split(rest)
    decreases |rest|
  {
    var u, j := before + [NEWLINE] + rest, LineStart(rest, |rest|);
    LineStartFacts(rest, |rest|);
    var last := rest[j..];
    if j == 0 {
      assert last == rest;
      SplitLast(before, rest, u);
      SplitSingle(rest);
    } else {
      var middle := rest[..j - 1];
      SplitJoin(before, middle);
      assert rest == middle + [NEWLINE] + last;
      assert u == before + [NEWLINE] + middle + [NEWLINE] + last;
      SplitLast(before + [NEWLINE] + middle, last, u);
      SplitLast(middle, last, rest);
    }
  }

  /** More bytes only lengthen the last piece, and may split it further. */
  lemma SplitAppend(s: bytes, more: bytes)
    ensures var ps := Split(s);
            Split(s + more) == ps[..|ps| - 1] + Split(ps[|ps| - 1] + more)
  {
    var j := LineStart(s, |s|);
    LineStartFacts(s, |s|);
    var last := s[j..];
    if j == 0 {
      assert last == s;
      SplitSingle(s);
    } else {
      var before := s[..j - 1];
      assert s == before + [NEWLINE] + last;
      SplitLast(before, last, s);
      assert s + more == before + [NEWLINE] + (last + more);
      SplitJoin(before, last + more);
    }
  }

  lemma SplitSingle(line: bytes)
    requires NEWLINE !in line
    ensures Split(line) == [line]
  {
    LineStartUnique(line, |line|, 0);
  }

  /** Appending a newline-terminated line to a file of complete lines adds just that line. */
  lemma LinesAppend(s: bytes, line: bytes)
    requires Complete(s) && NEWLINE !in line
    ensures Lines(s + line + [NEWLINE]) == Lines(s) + [line]
  {
    var t := s + line;
    SplitLast(t, [], t + [NEWLINE]);
    SplitSingle([]);
    if s == [] {
      SplitSingle(line);
      assert t == line;
    } else {
      var before := s[..|s| - 1];
      assert s == before + [NEWLINE] == before + [NEWLINE] + [];
      SplitLast(before, [], s);
      SplitLast(before, line, t);
    }
  }
}
