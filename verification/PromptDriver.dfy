/**
 `_answer_prompts` of services/gpg_service.py: the thread that reads GnuPG's
 status stream in chunks, puts lines together, and answers prompts from a script
 until the first one it has no answer for.
 */
module PromptDriver {
  import opened Wrappers
  import opened Bytes
  import Text
  import opened CardScripts
  import opened PromptScripts

  const STATUS_BUF_LIMIT := 1024 * 1024

  const PROMPT_PREFIXES := ["GET_LINE", "GET_BOOL", "GET_HIDDEN"]

  const MARK := "[GNUPG:] "

  /** `_prompt_keyword`, on the decoded line. */
  function PromptKeyword(line: string): Option<string> {
    var text := Text.Strip(line);
    if !(MARK <= text) then None
    else
      var parts := Text.Fields(text[|MARK|..]);
      if |parts| < 2 || parts[0] !in PROMPT_PREFIXES then None else Some(parts[1])
  }

  // ---------------------------------------------------------------- the reference

  /** The lines that were terminated; what follows the last newline is not one of them. */
  function CompleteLines(stream: bytes): seq<bytes> {
    var ps := Split(stream);
    ps[..|ps| - 1]
  }

  /** How a raw status line is read; the driver only depends on this function. */
  type Reader = bytes -> Option<string>

  /** The reading the code does, for any way of decoding UTF-8 with replacement. */
  function KeywordReader(decode: bytes -> string): Reader {
    line => PromptKeyword(decode(line))
  }

  function AsPrompt(keyword: Option<string>): seq<string> {
    match keyword case None => [] case Some(k) => [k]
  }

  /** The prompts among some status lines, in order. */
  function Prompts(read: Reader, lines: seq<bytes>): seq<string> {
    if lines == [] then []
    else Prompts(read, lines[..|lines| - 1]) + AsPrompt(read(lines[|lines| - 1]))
  }

  /** Each answer, followed by a newline. */
  function Output(xs: seq<Exchange>): bytes {
    if xs == [] then [] else Output(xs[..|xs| - 1]) + (xs[|xs| - 1].item.data + [NEWLINE])
  }

  /** The first prompt the script has no answer for. */
  function Unanswered(s: Script, prompts: seq<string>): Option<string>
    requires WellFormed(s)
  {
    var n := |Dialogue(s, prompts)|;
    if n < |prompts| then Some(prompts[n]) else None
  }

  lemma {:induction false} DialogueAppend(s: Script, ps: seq<string>, more: seq<string>)
    requires WellFormed(s)
    ensures |Dialogue(s, ps)| <= |ps|
    ensures |Dialogue(s, ps)| < |ps| ==> Dialogue(s, ps + more) == Dialogue(s, ps) && Rest(s, ps + more) == Rest(s, ps)
    ensures |Dialogue(s, ps)| == |ps| ==>
              && Dialogue(s, ps + more) == Dialogue(s, ps) + Dialogue(Rest(s, ps), more)
              && Rest(s, ps + more) == Rest(Rest(s, ps), more)
    decreases |ps|
  {
    if ps == [] {
      assert ps + more == more;
    } else {
      var (t, item) := Take(s, ps[0]);
      assert (ps + more)[0] == ps[0] && (ps + more)[1..] == ps[1..] + more;
      if item.Some? {
        DialogueAppend(t, ps[1..], more);
      }
    }
  }

  lemma {:induction false} OutputConcat(xs: seq<Exchange>, ys: seq<Exchange>)
    ensures Output(xs + ys) == Output(xs) + Output(ys)
    decreases |ys|
  {
    if ys == [] {
      assert xs + ys == xs;
    } else {
      var zs, y := ys[..|ys| - 1], ys[|ys| - 1];
      OutputConcat(xs, zs);
      var all := xs + ys;
      assert all[..|all| - 1] == xs + zs && all[|all| - 1] == y;
      var line := y.item.data + [NEWLINE];
      assert Output(all) == Output(xs) + Output(zs) + line == Output(xs) + (Output(zs) + line);
    }
  }

  lemma PromptsSnoc(read: Reader, lines: seq<bytes>, line: bytes)
    ensures Prompts(read, lines + [line]) == Prompts(read, lines) + AsPrompt(read(line))
  {
    assert (lines + [line])[..|lines|] == lines;
  }

  lemma {:induction false} PromptsConcat(read: Reader, a: seq<bytes>, b: seq<bytes>)
    ensures Prompts(read, a + b) == Prompts(read, a) + Prompts(read, b)
    decreases |b|
  {
    if b == [] {
      assert a + b == a;
    } else {
      var c, x := b[..|b| - 1], b[|b| - 1];
      PromptsConcat(read, a, c);
      var all := a + b;
      assert all[..|all| - 1] == a + c && all[|all| - 1] == x;
      Joined(Prompts(read, a), Prompts(read, c), AsPrompt(read(x)));
    }
  }

  lemma Joined(a: seq<string>, b: seq<string>, c: seq<string>)
    ensures (a + b) + c == a + (b + c)
  {
  }

  // ---------------------------------------------------------------- pipes

  /** The writing end of the command pipe; `results` says how many bytes successive writes take, 0 or less for an error. */
  class CommandPipe {
    var isOpen: bool
    var written: bytes
    var results: seq<int>

    constructor (results: seq<int>)
      ensures isOpen && written == [] && this.results == results
    {
      isOpen, written, this.results := true, [], results;
    }

    /** `os.write`. */
    method Write(data: bytes) returns (n: int)
      requires isOpen && data != []
      modifies this`written, this`results
      ensures n <= |data| && (old(results) == [] ==> n == |data|)
      ensures results == if old(results) == [] then [] else old(results)[1..]
      ensures old(results) != [] && old(results)[0] > 0 ==> n > 0
      ensures written == old(written) + data[..if n > 0 then n else 0]
    {
      n := |data|;
      if results != [] {
        n := if results[0] < n then results[0] else n;
        results := results[1..];
      }
      written := written + data[..if n > 0 then n else 0];
    }

    method Close()
      requires isOpen
      modifies this`isOpen
      ensures !isOpen
    {
      isOpen := false;
    }
  }

  predicate AllPositive(results: seq<int>) { forall i | 0 <= i < |results| :: results[i] > 0 }

  /** `_write_all`: all of the data or an error; short writes are carried on. */
  method WriteAll(pipe: CommandPipe, data: bytes) returns (ok: bool)
    requires pipe.isOpen
    modifies pipe`written, pipe`results
    ensures ok ==> pipe.written == old(pipe.written) + data
    ensures !ok ==> exists k :: 0 <= k < |data| && pipe.written == old(pipe.written) + data[..k]
    ensures AllPositive(old(pipe.results)) ==> ok && AllPositive(pipe.results)
  {
    var offset := 0;
    while offset < |data|
      invariant 0 <= offset <= |data| && pipe.written == old(pipe.written) + data[..offset]
      invariant AllPositive(old(pipe.results)) ==> AllPositive(pipe.results)
    {
      var n := pipe.Write(data[offset..]);
      assert n > 0 ==> data[..offset] + data[offset..][..n] == data[..offset + n];
      if n <= 0 {
        return false;
      }
      offset := offset + n;
    }
    assert data[..offset] == data;
    ok := true;
  }

  // ---------------------------------------------------------------- the driver

  /** What the driver has done after some prompts, against the reference. */
  ghost predicate UpToDate(s: Script, prompts: seq<string>, now: Script, written: bytes, answering: bool, outcome: Option<string>)
    requires WellFormed(s)
  {
    && now == Rest(s, prompts) && written == Output(Dialogue(s, prompts))
    && outcome == Unanswered(s, prompts) && answering == outcome.None?
  }

  lemma NextPrompt(s: Script, prompts: seq<string>, k: string, now: Script, written: bytes)
    requires WellFormed(s) && UpToDate(s, prompts, now, written, true, None)
    ensures match Take(now, k)
            case (t, None) => t == now && UpToDate(s, prompts + [k], now, written, false, Some(k))
            case (t, Some(item)) => UpToDate(s, prompts + [k], t, written + (item.data + [NEWLINE]), true, None)
  {
    DialogueAppend(s, prompts, [k]);
    var (t, item) := Take(now, k);
    assert [k][1..] == [];
    var xs := Dialogue(s, prompts);
    if item.Some? {
      var x := Exchange(k, item.value);
      assert Dialogue(t, []) == [] && Dialogue(now, [k]) == [x];
      assert (xs + [x])[..|xs|] == xs;
    } else {
      assert Dialogue(now, [k]) == [] && xs + [] == xs;
    }
  }

  /** Later prompts change nothing once one went unanswered. */
  lemma SamePrompts(s: Script, prompts: seq<string>, more: seq<string>, now: Script, written: bytes, outcome: Option<string>)
    requires WellFormed(s) && UpToDate(s, prompts, now, written, false, outcome)
    ensures UpToDate(s, prompts + more, now, written, false, outcome)
  {
    DialogueAppend(s, prompts, more);
  }

  datatype Answered = Sent | Refused | Failed

  /** Lines 655-663: the answer to one prompt. */
  method AnswerPrompt(k: string, script: PromptScript, command: CommandPipe) returns (r: Answered)
    requires script.Valid() && command !in script.Repr && command.isOpen
    modifies script.Repr, command
    ensures script.Valid() && script.Repr == old(script.Repr) && script.script == Take(old(script.script), k).0
    ensures command.isOpen == !r.Refused?
    ensures AllPositive(old(command.results)) ==> !r.Failed? && AllPositive(command.results)
    ensures match Take(old(script.script), k).1
            case None => r == Refused && command.written == old(command.written)
            case Some(item) =>
              var data := item.data + [NEWLINE];
              && !r.Refused?
              && (r.Sent? ==> command.written == old(command.written) + data)
              && (r.Failed? ==> exists n :: 0 <= n < |data| && command.written == old(command.written) + data[..n])
  {
    var answer := script.Take(k);
    if answer.None? {
      command.Close();
      return Refused;
    }
    var ok := WriteAll(command, answer.value + [NEWLINE]);
    r := if ok then Sent else Failed;
  }

  /** Where the conversation stands: what was said for these prompts, and whether it still goes on. */
  ghost predicate InStep(start: Script, before: bytes, prompts: seq<string>, written: bytes,
                         script: PromptScript, command: CommandPipe, answering: bool, outcome: Option<string>)
    reads script, script.Repr, command
  {
    && script.Valid() && command !in script.Repr && WellFormed(start) && command.isOpen == answering
    && command.written == before + written
    && UpToDate(start, prompts, script.script, written, answering, outcome)
  }

  /** A write has failed: nothing but a proper beginning of what was due is out. */
  ghost predicate CutShort(start: Script, before: bytes, prompts: seq<string>, script: PromptScript, command: CommandPipe)
    reads script, script.Repr, command
  {
    && script.Valid() && command !in script.Repr && WellFormed(start) && command.isOpen
    && before <= command.written < before + Output(Dialogue(start, prompts))
  }

  /** In step, or cut short by the failed write. */
  ghost predicate Stands(ok: bool, start: Script, before: bytes, prompts: seq<string>, written: bytes,
                         script: PromptScript, command: CommandPipe, answering: bool, outcome: Option<string>)
    reads script, script.Repr, command
  {
    if ok then InStep(start, before, prompts, written, script, command, answering, outcome)
    else CutShort(start, before, prompts, script, command) && answering && outcome.None?
  }

  /** Lines 650-666: one status line. */
  method HandleLine(read: Reader, line: bytes, script: PromptScript, command: CommandPipe, answering: bool, outcome: Option<string>,
                    ghost start: Script, ghost before: bytes, ghost prompts: seq<string>, ghost written: bytes)
    returns (ok: bool, answering': bool, outcome': Option<string>, ghost written': bytes)
    requires InStep(start, before, prompts, written, script, command, answering, outcome)
    modifies script.Repr, command
    ensures script.Repr == old(script.Repr)
    ensures Stands(ok, start, before, prompts + AsPrompt(read(line)), written', script, command, answering', outcome')
    ensures AllPositive(old(command.results)) ==> ok && AllPositive(command.results)
  {
    ok, answering', outcome', written' := true, answering, outcome, written;
    var keyword := read(line);
    assert prompts + [] == prompts;
    if keyword.None? {
      return;
    }
    if !answering {
      SamePrompts(start, prompts, [keyword.value], script.script, written, outcome);
      return;
    }
    ok, answering', outcome', written' := HandlePrompt(keyword.value, script, command, start, before, prompts, written);
  }

  /** Lines 655-666: a prompt while still answering. */
  method HandlePrompt(k: string, script: PromptScript, command: CommandPipe,
                      ghost start: Script, ghost before: bytes, ghost prompts: seq<string>, ghost written: bytes)
    returns (ok: bool, answering: bool, outcome: Option<string>, ghost written': bytes)
    requires InStep(start, before, prompts, written, script, command, true, None)
    modifies script.Repr, command
    ensures script.Repr == old(script.Repr)
    ensures Stands(ok, start, before, prompts + [k], written', script, command, answering, outcome)
    ensures AllPositive(old(command.results)) ==> ok && AllPositive(command.results)
  {
    ok, answering, outcome, written' := true, true, None, written;
    NextPrompt(start, prompts, k, script.script, written);
    var r := AnswerPrompt(k, script, command);
    if r.Refused? {
      answering, outcome := false, Some(k);
    } else {
      written' := Output(Dialogue(start, prompts + [k]));
      Extends(before, written, written');
      ok := !r.Failed?;
    }
  }

  lemma Extends(before: bytes, short: bytes, long: bytes)
    requires short <= long
    ensures before + long == before + short + long[|short|..]
  {
  }

  /** `bytes.partition(b"\n")`: where the first newline is. */
  function FirstNewline(s: bytes): (i: nat)
    requires NEWLINE in s
    ensures i < |s| && s[i] == NEWLINE && NEWLINE !in s[..i]
  {
    if s[0] == NEWLINE then 0
    else
      var i := 1 + FirstNewline(s[1..]);
      assert s[..i] == [s[0]] + s[1..][..i - 1];
      i
  }

  lemma SplitFirst(s: bytes, i: nat)
    requires i < |s| && s[i] == NEWLINE && NEWLINE !in s[..i]
    ensures Split(s) == [s[..i]] + Split(s[i + 1..])
  {
    assert s == s[..i] + [NEWLINE] + s[i + 1..];
    SplitJoin(s[..i], s[i + 1..]);
    SplitSingle(s[..i]);
  }

  /** What is out after a cut stays within what any longer run of prompts would put out. */
  lemma CutShortLater(start: Script, before: bytes, prompts: seq<string>, more: seq<string>, script: PromptScript, command: CommandPipe)
    requires CutShort(start, before, prompts, script, command)
    ensures CutShort(start, before, prompts + more, script, command)
  {
    DialogueAppend(start, prompts, more);
    var xs, ys := Dialogue(start, prompts), Dialogue(start, prompts + more);
    OutputConcat(xs, ys[|xs|..]);
    assert ys == xs + ys[|xs|..];
  }

  /** Some lines have been taken off the front of a buffer. */
  ghost predicate Taken(buffer: bytes, lines: seq<bytes>, rest: bytes) {
    Split(buffer) == lines + Split(rest)
  }

  lemma TakenNone(buffer: bytes)
    ensures Taken(buffer, [], buffer)
  {
    assert [] + Split(buffer) == Split(buffer);
  }

  lemma TakenOne(buffer: bytes, lines: seq<bytes>, rest: bytes, i: nat)
    requires Taken(buffer, lines, rest) && i < |rest| && rest[i] == NEWLINE && NEWLINE !in rest[..i]
    ensures Taken(buffer, lines + [rest[..i]], rest[i + 1..])
  {
    SplitFirst(rest, i);
    assert lines + ([rest[..i]] + Split(rest[i + 1..])) == lines + [rest[..i]] + Split(rest[i + 1..]);
  }

  lemma TakenAll(buffer: bytes, lines: seq<bytes>, rest: bytes)
    requires Taken(buffer, lines, rest) && NEWLINE !in rest
    ensures CompleteLines(buffer) == lines && LastPiece(buffer) == rest
  {
    SplitSingle(rest);
  }

  /** What follows the last newline. */
  function LastPiece(stream: bytes): bytes {
    var ps := Split(stream);
    ps[|ps| - 1]
  }

  lemma TakenSome(read: Reader, buffer: bytes, lines: seq<bytes>, rest: bytes)
    requires Taken(buffer, lines, rest)
    ensures exists more :: Prompts(read, CompleteLines(buffer)) == Prompts(read, lines) + more
  {
    assert CompleteLines(buffer) == lines + CompleteLines(rest);
    PromptsConcat(read, lines, CompleteLines(rest));
  }

  lemma MorePrompts(read: Reader, prompts: seq<string>, lines: seq<bytes>, line: bytes, at: seq<string>)
    requires at == prompts + Prompts(read, lines)
    ensures at + AsPrompt(read(line)) == prompts + Prompts(read, lines + [line])
  {
    PromptsSnoc(read, lines, line);
  }

  /** Lines 647-666: every complete line in the buffer, in order; the rest stays. */
  method HandleBuffer(read: Reader, buffer: bytes, script: PromptScript, command: CommandPipe, answering: bool, outcome: Option<string>,
                      ghost start: Script, ghost before: bytes, ghost prompts: seq<string>, ghost written: bytes)
    returns (ok: bool, rest: bytes, answering': bool, outcome': Option<string>, ghost lines: seq<bytes>, ghost written': bytes)
    requires InStep(start, before, prompts, written, script, command, answering, outcome)
    modifies script.Repr, command
    ensures script.Repr == old(script.Repr) && Taken(buffer, lines, rest)
    ensures ok ==> NEWLINE !in rest
    ensures Stands(ok, start, before, prompts + Prompts(read, lines), written', script, command, answering', outcome')
    ensures AllPositive(old(command.results)) ==> ok && AllPositive(command.results)
  {
    ok, rest, answering', outcome', lines, written' := true, buffer, answering, outcome, [], written;
    ghost var at := prompts;
    TakenNone(buffer);
    while ok && NEWLINE in rest
      invariant script.Repr == old(script.Repr) && at == prompts + Prompts(read, lines) && Taken(buffer, lines, rest)
      invariant Stands(ok, start, before, at, written', script, command, answering', outcome')
      invariant AllPositive(old(command.results)) ==> ok && AllPositive(command.results)
      decreases |rest|
    {
      var i := FirstNewline(rest);
      TakenOne(buffer, lines, rest, i);
      var line := rest[..i];
      rest := rest[i + 1..];
      ok, answering', outcome', written' := HandleLine(read, line, script, command, answering', outcome', start, before, at, written');
      MorePrompts(read, prompts, lines, line, at);
      lines, at := lines + [line], at + AsPrompt(read(line));
    }
  }

  // ---------------------------------------------------------------- the whole stream

  function Concat(chunks: seq<bytes>): bytes {
    if chunks == [] then [] else chunks[0] + Concat(chunks[1..])
  }

  /** The reading end of the status pipe: the chunks that will arrive, then end of file or a read error. */
  class StatusPipe {
    var isOpen: bool
    var chunks: seq<bytes>

    constructor (chunks: seq<bytes>)
      ensures isOpen && this.chunks == chunks
    {
      isOpen, this.chunks := true, chunks;
    }

    /** `os.read`: the empty string only at the end. */
    method Read() returns (chunk: bytes)
      requires isOpen
      modifies this`chunks
      ensures old(chunks) == [] ==> chunk == [] && chunks == []
      ensures old(chunks) != [] ==> chunk == old(chunks)[0] && chunks == old(chunks)[1..]
    {
      if chunks == [] {
        return [];
      }
      chunk, chunks := chunks[0], chunks[1..];
    }

    method Close()
      requires isOpen
      modifies this`isOpen
      ensures !isOpen
    {
      isOpen := false;
    }
  }

  /** The transcript keeps a chunk that still fits under the limit. */
  function Keep(t: bytes, chunk: bytes): bytes {
    if |t| + |chunk| <= STATUS_BUF_LIMIT then t + chunk else t
  }

  function Transcript(t: bytes, chunks: seq<bytes>): bytes
    decreases |chunks|
  {
    if chunks == [] then t else Transcript(Keep(t, chunks[0]), chunks[1..])
  }

  lemma TakenAppend(stream: bytes, lines: seq<bytes>, rest: bytes, more: bytes)
    requires Taken(stream, lines, rest)
    ensures Taken(stream + more, lines, rest + more)
  {
    var ps, qs := Split(stream), Split(rest);
    SplitAppend(stream, more);
    SplitAppend(rest, more);
    var last := qs[|qs| - 1];
    assert ps[|ps| - 1] == last && ps[..|ps| - 1] == lines + qs[..|qs| - 1];
    var tail := Split(last + more);
    assert lines + qs[..|qs| - 1] + tail == lines + (qs[..|qs| - 1] + tail);
  }

  lemma TakenCompose(stream: bytes, lines: seq<bytes>, buffer: bytes, more: seq<bytes>, rest: bytes)
    requires Taken(stream, lines, buffer) && Taken(buffer, more, rest)
    ensures Taken(stream, lines + more, rest)
  {
    assert lines + (more + Split(rest)) == lines + more + Split(rest);
  }

  /** The reference for a whole run. */
  function AllPrompts(read: Reader, stream: bytes): seq<string> { Prompts(read, CompleteLines(stream)) }

  /** One chunk: whatever it completes is handled, and the stream seen so far stays accounted for. */
  method HandleChunk(read: Reader, chunk: bytes, buffer: bytes, script: PromptScript, command: CommandPipe,
                     answering: bool, outcome: Option<string>,
                     ghost start: Script, ghost before: bytes, ghost stream: bytes, ghost lines: seq<bytes>, ghost written: bytes)
    returns (ok: bool, rest: bytes, answering': bool, outcome': Option<string>, ghost lines': seq<bytes>, ghost written': bytes)
    requires InStep(start, before, Prompts(read, lines), written, script, command, answering, outcome)
    requires Taken(stream, lines, buffer)
    modifies script.Repr, command
    ensures script.Repr == old(script.Repr) && Taken(stream + chunk, lines', rest)
    ensures ok ==> NEWLINE !in rest
    ensures Stands(ok, start, before, Prompts(read, lines'), written', script, command, answering', outcome')
    ensures AllPositive(old(command.results)) ==> ok && AllPositive(command.results)
  {
    ghost var more: seq<bytes>;
    ok, rest, answering', outcome', more, written' :=
      HandleBuffer(read, buffer + chunk, script, command, answering, outcome, start, before, Prompts(read, lines), written);
    lines' := lines + more;
    PromptsConcat(read, lines, more);
    TakenAppend(stream, lines, buffer, chunk);
    TakenCompose(stream + chunk, lines, buffer + chunk, more, rest);
  }

  /** What the bytes of a whole stream are due as answers. */
  ghost function Due(read: Reader, start: Script, all: bytes): bytes
    requires WellFormed(start)
  {
    Output(Dialogue(start, AllPrompts(read, all)))
  }

  /** Lines 640-666, until the stream ends or a write fails. */
  method Converse(read: Reader, status: StatusPipe, script: PromptScript, command: CommandPipe, transcript: bytes)
    returns (ok: bool, answering: bool, outcome: Option<string>, transcript': bytes)
    requires InStep(script.script, command.written, [], [], script, command, true, None)
    requires status !in script.Repr && status.isOpen
    requires forall i | 0 <= i < |status.chunks| :: status.chunks[i] != []
    modifies status`chunks, script.Repr, command
    ensures var (start, all) := (old(script.script), Concat(old(status.chunks)));
            Stands(ok, start, old(command.written), AllPrompts(read, all), Due(read, start, all), script, command, answering, outcome)
    ensures ok ==> transcript' == Transcript(transcript, old(status.chunks))
    ensures AllPositive(old(command.results)) ==> ok
  {
    ghost var start, before, all := script.script, command.written, Concat(status.chunks);
    ghost var stream: bytes, lines: seq<bytes>, written: bytes := [], [], [];
    var buffer: bytes := [];
    ok, answering, outcome, transcript' := true, true, None, transcript;
    TakenNone(buffer);
    while ok && status.chunks != []
      invariant status.isOpen && status !in script.Repr && script.Repr == old(script.Repr)
      invariant all == stream + Concat(status.chunks)
      invariant Taken(stream, lines, buffer) && (ok ==> NEWLINE !in buffer)
      invariant Stands(ok, start, before, Prompts(read, lines), written, script, command, answering, outcome)
      invariant Transcript(transcript, old(status.chunks)) == Transcript(transcript', status.chunks)
      invariant AllPositive(old(command.results)) ==> ok && AllPositive(command.results)
      decreases |status.chunks|
    {
      Associate(stream, status.chunks);
      var chunk := status.Read();
      transcript' := Keep(transcript', chunk);
      ok, buffer, answering, outcome, lines, written :=
        HandleChunk(read, chunk, buffer, script, command, answering, outcome, start, before, stream, lines, written);
      stream := stream + chunk;
    }
    if ok {
      TakenAll(stream, lines, buffer);
      assert all == stream;
    } else {
      CutShortOfAll(read, start, before, stream, lines, buffer, Concat(status.chunks), script, command);
    }
  }

  lemma Nothing(s: Script)
    requires WellFormed(s)
    ensures UpToDate(s, [], s, [], true, None)
  {
    assert Dialogue(s, []) == [];
  }

  lemma Associate(stream: bytes, chunks: seq<bytes>)
    requires chunks != []
    ensures stream + Concat(chunks) == stream + chunks[0] + Concat(chunks[1..])
  {
  }

  lemma CutShortOfAll(read: Reader, start: Script, before: bytes, stream: bytes, lines: seq<bytes>, rest: bytes, more: bytes,
                      script: PromptScript, command: CommandPipe)
    requires CutShort(start, before, Prompts(read, lines), script, command) && Taken(stream, lines, rest)
    ensures CutShort(start, before, AllPrompts(read, stream + more), script, command)
  {
    TakenAppend(stream, lines, rest, more);
    TakenSome(read, stream + more, lines, rest + more);
    var extra :| AllPrompts(read, stream + more) == Prompts(read, lines) + extra;
    CutShortLater(start, before, Prompts(read, lines), extra, script, command);
  }

  /**
   `_answer_prompts`: for every status stream and every way of cutting it into
   chunks, with no write error, what is written is the scripted answers to the
   prompts of its complete lines, in order, each with a newline, up to the first
   prompt without an answer, which `outcome` names.  With a write error it is
   part of that.  Both descriptors are closed, each exactly once, in every case.
   */
  method AnswerPrompts(decode: bytes -> string, status: StatusPipe, script: PromptScript, command: CommandPipe, transcript: bytes)
    returns (ok: bool, outcome: Option<string>, transcript': bytes)
    requires script.Valid() && command !in script.Repr && status !in script.Repr && command.isOpen && status.isOpen
    requires forall i | 0 <= i < |status.chunks| :: status.chunks[i] != []
    modifies status, script.Repr, command
    ensures script.Valid() && !status.isOpen && !command.isOpen
    ensures var s, prompts := old(script.script), AllPrompts(KeywordReader(decode), Concat(old(status.chunks)));
            if ok then
              && command.written == old(command.written) + Output(Dialogue(s, prompts))
              && outcome == Unanswered(s, prompts) && script.script == Rest(s, prompts)
            else
              outcome.None? && old(command.written) <= command.written < old(command.written) + Output(Dialogue(s, prompts))
    ensures ok ==> transcript' == Transcript(transcript, old(status.chunks))
    ensures AllPositive(old(command.results)) ==> ok
  {
    Nothing(script.script);
    var answering;
    ok, answering, outcome, transcript' := Converse(KeywordReader(decode), status, script, command, transcript);
    status.Close();
    if answering {
      command.Close();
    }
  }
}
