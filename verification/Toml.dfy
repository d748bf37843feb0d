/**
 The TOML printer of services/config_service.py, and a parser for the part of
 TOML v1.0.0 that it prints: bare keys, basic strings, decimal integers,
 booleans, one level of tables, comments, LF line ends.
 */
module Toml {
  import opened Wrappers
  import Text

  /** `Unsupported` stands for any other Python object, such as a float, a list or a nested dict. */
  datatype Value = Bool(b: bool) | Int(i: int) | Str(s: string) | Unsupported

  /** Dictionaries, in insertion order. */
  type Fields = seq<(string, Value)>

  datatype Item = Leaf(value: Value) | Table(fields: Fields)

  type Record = seq<(string, Item)>

  const DELETE := '\U{7f}'

  // ---------------------------------------------------------------- strings

  /** The escapes of `_TOML_STR_ESCAPES`. */
  function Translated(c: char): string {
    if c == '"' then ['\\', '"']
    else if c == '\\' then ['\\', '\\']
    else if c == '\n' then ['\\', 'n']
    else if c == '\r' then ['\\', 'r']
    else [c]
  }

  /** `value.translate(_TOML_STR_ESCAPES)`. */
  function Translate(s: string): string { if s == [] then [] else Translated(s[0]) + Translate(s[1..]) }

  function LowerHex(v: nat): char
    requires v < 16
  {
    if v < 10 then ('0' as int + v) as char else ('a' as int + v - 10) as char
  }

  /** `\u` and four hexadecimal digits. */
  function Unicode(c: char): string
    requires c < ' '
  {
    ['\\', 'u', '0', '0', LowerHex(c as int / 16), LowerHex(c as int % 16)]
  }

  /** What the second pass makes of one character. */
  function Controlled(c: char): string { if c < ' ' && c != '\t' then Unicode(c) else [c] }

  function EscapeControls(s: string): string { if s == [] then [] else Controlled(s[0]) + EscapeControls(s[1..]) }

  /** The string part of `_format_toml_value`. */
  function Quoted(s: string): string { ['"'] + EscapeControls(Translate(s)) + ['"'] }

  /** Both passes on one character. */
  function Code(c: char): string { if Translated(c) == [c] then Controlled(c) else Translated(c) }

  function Coded(s: string): string { if s == [] then [] else Code(s[0]) + Coded(s[1..]) }

  lemma {:induction false} EscapeControlsConcat(a: string, b: string)
    ensures EscapeControls(a + b) == EscapeControls(a) + EscapeControls(b)
  {
    if a == [] {
      assert a + b == b;
    } else {
      assert (a + b)[1..] == a[1..] + b;
      EscapeControlsConcat(a[1..], b);
    }
  }

  /** The second pass leaves the escapes of the first alone. */
  lemma BothOnOne(c: char)
    ensures EscapeControls(Translated(c)) == Code(c)
  {
    var t := Translated(c);
    if t == [c] {
      assert t[1..] == [];
    } else {
      assert t[1..] == [t[1]] && t[1..][1..] == [];
      assert EscapeControls(t[1..]) == [t[1]];
    }
  }

  lemma {:induction false} TwoPasses(s: string)
    ensures EscapeControls(Translate(s)) == Coded(s)
  {
    if s != [] {
      EscapeControlsConcat(Translated(s[0]), Translate(s[1..]));
      BothOnOne(s[0]);
      TwoPasses(s[1..]);
    }
  }

  /** No character's code is the start of another's. */
  lemma CodesPrefixFree(c: char, x: string, d: char, y: string)
    requires Code(c) + x == Code(d) + y
    ensures c == d && x == y
  {
    var u := Code(c) + x;
    assert u[0] == Code(c)[0] == Code(d)[0];
    if u[0] == '\\' {
      assert u[1] == Code(c)[1] == Code(d)[1];
      if u[1] == 'u' {
        assert u[4] == Code(c)[4] == Code(d)[4] && u[5] == Code(c)[5] == Code(d)[5];
        assert c as int / 16 == d as int / 16 && c as int % 16 == d as int % 16;
      }
    }
    assert c == d;
    assert x == u[|Code(c)|..] == y;
  }

  /** Different strings are printed differently, whatever characters they hold. */
  lemma {:induction false} CodedInjective(s: string, t: string)
    requires Coded(s) == Coded(t)
    ensures s == t
  {
    if s != [] && t != [] {
      CodesPrefixFree(s[0], Coded(s[1..]), t[0], Coded(t[1..]));
      CodedInjective(s[1..], t[1..]);
    }
  }

  lemma QuotedInjective(s: string, t: string)
    requires Quoted(s) == Quoted(t)
    ensures s == t
  {
    TwoPasses(s);
    TwoPasses(t);
    var a, b := Quoted(s), Quoted(t);
    assert Coded(s) == a[1..|a| - 1] && Coded(t) == b[1..|b| - 1];
    CodedInjective(s, t);
  }

  // ---------------------------------------------------------------- reading strings (TOML: String)

  /** A character a basic string may hold as it is. */
  predicate Plain(c: char) { c == '\t' || (c >= ' ' && c != '"' && c != '\\' && c != DELETE) }

  function HexNumber(s: string): nat
    requires forall i | 0 <= i < |s| :: Text.IsHex(s[i])
  {
    if s == [] then 0 else 16 * HexNumber(s[..|s| - 1]) + Text.HexValue(s[|s| - 1])
  }

  /** A character written with `n` hexadecimal digits; only Unicode scalar values are allowed. */
  function ReadUnicode(s: string, n: nat): Option<(char, string)> {
    if |s| < n || exists i | 0 <= i < n :: !Text.IsHex(s[i]) then None
    else
      var v := HexNumber(s[..n]);
      if v < 0xD800 || 0xE000 <= v < 0x110000 then Some((v as char, s[n..])) else None
  }

  /** What follows a backslash. */
  function ReadEscape(s: string): (r: Option<(char, string)>)
    ensures r.Some? ==> |r.value.1| < |s|
  {
    if s == [] then None
    else if s[0] == 'b' then Some(('\U{8}', s[1..]))
    else if s[0] == 't' then Some(('\t', s[1..]))
    else if s[0] == 'n' then Some(('\n', s[1..]))
    else if s[0] == 'f' then Some(('\U{c}', s[1..]))
    else if s[0] == 'r' then Some(('\r', s[1..]))
    else if s[0] == '"' || s[0] == '\\' then Some((s[0], s[1..]))
    else if s[0] == 'u' then ReadUnicode(s[1..], 4)
    else if s[0] == 'U' then ReadUnicode(s[1..], 8)
    else None
  }

  /** The rest of a basic string after its opening quote, and what follows it. */
  function ReadString(s: string): Option<(string, string)>
    decreases |s|
  {
    if s == [] then None
    else if s[0] == '"' then Some(([], s[1..]))
    else if s[0] == '\\' then
      match ReadEscape(s[1..])
      case None => None
      case Some((c, rest)) => Prefixed(c, ReadString(rest))
    else if Plain(s[0]) then Prefixed(s[0], ReadString(s[1..]))
    else None
  }

  function Prefixed(c: char, r: Option<(string, string)>): Option<(string, string)> {
    match r case None => None case Some((s, rest)) => Some(([c] + s, rest))
  }

  lemma ReadControl(c: char, rest: string)
    requires c < ' '
    ensures ReadEscape(Unicode(c)[1..] + rest) == Some((c, rest))
  {
    var v, u := c as int, Unicode(c)[1..] + rest;
    var digits := ['0', '0', LowerHex(v / 16), LowerHex(v % 16)];
    assert u[1..] == digits + rest;
    assert (digits + rest)[..4] == digits && (digits + rest)[4..] == rest;
    FourDigits('0', '0', LowerHex(v / 16), LowerHex(v % 16));
    assert HexNumber(digits) == v;
  }

  lemma ReadCode(c: char, rest: string)
    ensures ReadString(Code(c) + rest) == if c == DELETE then None else Prefixed(c, ReadString(rest))
  {
    var u := Code(c) + rest;
    if Translated(c) != [c] {
      assert u[1..] == [u[1]] + rest && u[1..][1..] == rest;
    } else if c < ' ' && c != '\t' {
      ReadControl(c, rest);
      assert u[1..] == Unicode(c)[1..] + rest;
    } else {
      assert u[1..] == rest;
    }
  }

  lemma FourDigits(a: char, b: char, c: char, d: char)
    requires Text.IsHex(a) && Text.IsHex(b) && Text.IsHex(c) && Text.IsHex(d)
    ensures HexNumber([a, b, c, d]) == ((Text.HexValue(a) * 16 + Text.HexValue(b)) * 16 + Text.HexValue(c)) * 16 + Text.HexValue(d)
  {
    var s4, s3, s2, s1 := [a, b, c, d], [a, b, c], [a, b], [a];
    assert s4[..3] == s3 && s3[..2] == s2 && s2[..1] == s1 && s1[..0] == [];
    assert HexNumber(s1) == Text.HexValue(a);
    assert HexNumber(s2) == Text.HexValue(a) * 16 + Text.HexValue(b);
    assert HexNumber(s3) == (Text.HexValue(a) * 16 + Text.HexValue(b)) * 16 + Text.HexValue(c);
  }

  /** A printed string reads back as itself, unless it holds U+007F. */
  lemma {:induction false} ReadCoded(s: string, rest: string)
    ensures ReadString(Coded(s) + ['"'] + rest) == if DELETE in s then None else Some((s, rest))
  {
    if s == [] {
      assert Coded(s) + ['"'] + rest == ['"'] + rest;
    } else {
      var tail := Coded(s[1..]) + ['"'] + rest;
      assert Coded(s) + ['"'] + rest == Code(s[0]) + tail;
      ReadCode(s[0], tail);
      ReadCoded(s[1..], rest);
      assert s == [s[0]] + s[1..];
    }
  }

  // ---------------------------------------------------------------- values

  /** `str(i)`. */
  function IntText(i: int): string { if i < 0 then ['-'] + Text.Decimal(-i) else Text.Decimal(i) }

  /** `_format_toml_value`; None stands for its TypeError. */
  function Format(v: Value): Option<string> {
    match v
    case Bool(b) => Some(if b then "true" else "false")
    case Int(i) => Some(IntText(i))
    case Str(s) => Some(Quoted(s))
    case Unsupported => None
  }

  predicate Readable(v: Value) { v.Str? ==> DELETE !in v.s }

  predicate IsBlank(c: char) { c == ' ' || c == '\t' }

  function Skip(s: string): (r: string)
    ensures |r| <= |s|
  {
    if s != [] && IsBlank(s[0]) then Skip(s[1..]) else s
  }

  /** Length of the word in front: up to a blank or a comment. */
  function TokenLength(s: string): (n: nat)
    ensures n <= |s|
  {
    if s == [] || IsBlank(s[0]) || s[0] == '#' then 0 else 1 + TokenLength(s[1..])
  }

  /** Decimal integer: an optional sign, then digits without a leading zero. */
  function ReadInt(t: string): Option<Value> {
    var signed := t != [] && (t[0] == '-' || t[0] == '+');
    var digits := if signed then t[1..] else t;
    if !Text.AllDigits(digits) || (|digits| > 1 && digits[0] == '0') then None
    else Some(Int(if signed && t[0] == '-' then -(Text.DecimalValue(digits) as int) else Text.DecimalValue(digits)))
  }

  /** A value and what follows it on the line. */
  function ReadValue(s: string): Option<(Value, string)> {
    if s != [] && s[0] == '"' then
      match ReadString(s[1..]) case None => None case Some((text, rest)) => Some((Str(text), rest))
    else
      var n := TokenLength(s);
      var word, rest := s[..n], s[n..];
      if word == "true" then Some((Bool(true), rest))
      else if word == "false" then Some((Bool(false), rest))
      else match ReadInt(word) case None => None case Some(i) => Some((i, rest))
  }

  lemma {:induction false} WholeToken(s: string)
    requires forall i | 0 <= i < |s| :: !IsBlank(s[i]) && s[i] != '#'
    ensures TokenLength(s) == |s|
  {
    if s != [] {
      WholeToken(s[1..]);
    }
  }

  lemma ReadIntText(i: int)
    ensures ReadInt(IntText(i)) == Some(Int(i))
  {
    Text.DecimalRoundTrip(if i < 0 then -i else i);
    if i < 0 {
      assert IntText(i)[1..] == Text.Decimal(-i);
    }
  }

  lemma ReadWord(word: string)
    requires (forall i | 0 <= i < |word| :: !IsBlank(word[i]) && word[i] != '#') && word != [] && word[0] != '"'
    ensures ReadValue(word) == if word == "true" then Some((Bool(true), []))
                               else if word == "false" then Some((Bool(false), []))
                               else match ReadInt(word) case None => None case Some(i) => Some((i, []))
  {
    WholeToken(word);
    assert word[..|word|] == word && word[|word|..] == [];
  }

  lemma IntWord(i: int)
    ensures var w := IntText(i); w != [] && forall k | 0 <= k < |w| :: w[k] == '-' || '0' <= w[k] <= '9'
  {
  }

  lemma ReadQuoted(s: string, text: string)
    requires text == Quoted(s)
    ensures ReadValue(text) == if DELETE in s then None else Some((Str(s), []))
  {
    TwoPasses(s);
    assert text[1..] == Coded(s) + ['"'] + [];
    ReadCoded(s, []);
  }

  /** A printed value reads back as itself, unless it is a string with U+007F in it. */
  lemma ReadFormat(v: Value, text: string)
    requires Format(v) == Some(text)
    ensures ReadValue(text) == if Readable(v) then Some((v, [])) else None
  {
    match v
    case Str(s) => ReadQuoted(s, text);
    case Bool(_) => ReadWord(text);
    case Int(i) =>
      IntWord(i);
      ReadIntText(i);
      assert text[0] != 't' && text[0] != 'f';
      ReadWord(text);
  }

  // ---------------------------------------------------------------- lines

  datatype Line = Empty | Header(name: string) | Pair(key: string, value: Value)

  /** One element of the printer's `lines`. */
  function Shown(l: Line): Option<string> {
    match l
    case Empty => Some("")
    case Header(name) => Some(['['] + name + [']'])
    case Pair(key, value) => match Format(value) case None => None case Some(t) => Some(key + [' ', '=', ' '] + t)
  }

  predicate IsBareChar(c: char) { 'a' <= c <= 'z' || 'A' <= c <= 'Z' || '0' <= c <= '9' || c == '_' || c == '-' }

  /** A key that TOML allows without quotes. */
  predicate IsBare(k: string) { k != [] && forall i | 0 <= i < |k| :: IsBareChar(k[i]) }

  function BareLength(s: string): (n: nat)
    ensures n <= |s|
  {
    if s == [] || !IsBareChar(s[0]) then 0 else 1 + BareLength(s[1..])
  }

  lemma {:induction false} BarePrefix(k: string, rest: string)
    requires (forall i | 0 <= i < |k| :: IsBareChar(k[i])) && (rest == [] || !IsBareChar(rest[0]))
    ensures BareLength(k + rest) == |k|
  {
    if k == [] {
      assert k + rest == rest;
    } else {
      assert (k + rest)[1..] == k[1..] + rest;
      BarePrefix(k[1..], rest);
    }
  }

  /** Blanks and perhaps a comment: all that may end a line. */
  predicate IsTrailing(s: string) {
    var t := Skip(s);
    t == [] || (t[0] == '#' && forall i | 0 <= i < |t| :: t[i] == '\t' || (t[i] >= ' ' && t[i] != DELETE))
  }

  function ReadHeader(s: string): Option<Line> {
    var t := Skip(s);
    var n := BareLength(t);
    var rest := Skip(t[n..]);
    if n > 0 && rest != [] && rest[0] == ']' && IsTrailing(rest[1..]) then Some(Header(t[..n])) else None
  }

  function ReadPair(s: string): Option<Line> {
    var n := BareLength(s);
    var rest := Skip(s[n..]);
    if n == 0 || rest == [] || rest[0] != '=' then None
    else
      match ReadValue(Skip(rest[1..]))
      case None => None
      case Some((v, end)) => if IsTrailing(end) then Some(Pair(s[..n], v)) else None
  }

  function ReadLine(s: string): Option<Line> {
    var t := Skip(s);
    if t == [] || t[0] == '#' then if IsTrailing(t) then Some(Empty) else None
    else if t[0] == '[' then ReadHeader(t[1..])
    else ReadPair(t)
  }

  predicate WellNamed(l: Line) { (l.Header? ==> IsBare(l.name)) && (l.Pair? ==> IsBare(l.key)) }

  predicate LineReadable(l: Line) { l.Pair? ==> Readable(l.value) }

  lemma ReadPairParts(key: string, text: string, read: Option<Value>)
    requires IsBare(key) && text != [] && !IsBlank(text[0])
    requires ReadValue(text) == match read case None => None case Some(v) => Some((v, []))
    ensures ReadPair(key + [' ', '=', ' '] + text) == match read case None => None case Some(v) => Some(Pair(key, v))
  {
    var spaced := [' '] + text;
    var rest := ['='] + spaced;
    var s := key + ([' '] + rest);
    assert key + [' ', '=', ' '] + text == s;
    BarePrefix(key, [' '] + rest);
    assert s[..|key|] == key && s[|key|..] == [' '] + rest;
    assert Skip(text) == text;
    SkipOne(text);
    SkipOne(rest);
    assert rest[1..] == spaced;
  }

  lemma SkipOne(s: string)
    requires s != [] && !IsBlank(s[0])
    ensures Skip([' '] + s) == s
  {
    assert ([' '] + s)[1..] == s && Skip(s) == s;
  }

  lemma FormatStarts(v: Value, text: string)
    requires Format(v) == Some(text)
    ensures text != [] && !IsBlank(text[0])
  {
  }

  /** A printed line reads back as itself, unless it holds U+007F. */
  lemma ReadShown(l: Line, text: string)
    requires WellNamed(l) && Shown(l) == Some(text)
    ensures ReadLine(text) == if LineReadable(l) then Some(l) else None
  {
    match l
    case Empty =>
    case Header(name) =>
      assert text[1..] == name + [']'] && (name + [']'])[|name|..] == [']'] && (name + [']'])[..|name|] == name;
      BarePrefix(name, [']']);
      assert Skip(name + [']']) == name + [']'];
      assert Skip([']']) == [']'] && [']'][1..] == [];
      assert Skip(text) == text;
    case Pair(key, value) =>
      assert text[0] == key[0];
      assert IsBareChar(key[0]);
      assert Skip(text) == text;
      FormatStarts(value, Format(value).value);
      ReadFormat(value, Format(value).value);
      ReadPairParts(key, Format(value).value, if Readable(value) then Some(value) else None);
  }

  // ---------------------------------------------------------------- documents

  datatype Entry = Single(value: Value) | Section(fields: map<string, Value>)

  /** The document so far and the table that pairs go to. */
  datatype State = State(doc: map<string, Entry>, current: Option<string>)

  /** One line read (TOML: Key/Value Pair, Table); keys and tables may be defined once. */
  function Apply(st: State, l: Line): Option<State> {
    match l
    case Empty => Some(st)
    case Header(name) => if name in st.doc then None else Some(State(st.doc[name := Section(map[])], Some(name)))
    case Pair(key, value) =>
      if st.current.None? then
        if key in st.doc then None else Some(st.(doc := st.doc[key := Single(value)]))
      else if st.current.value in st.doc && st.doc[st.current.value].Section? then
        var fields := st.doc[st.current.value].fields;
        if key in fields then None else Some(st.(doc := st.doc[st.current.value := Section(fields[key := value])]))
      else None
  }

  function ApplyAll(st: State, ls: seq<Line>): Option<State>
    decreases |ls|
  {
    if ls == [] then Some(st)
    else match Apply(st, ls[0]) case None => None case Some(next) => ApplyAll(next, ls[1..])
  }

  function ReadLines(st: State, texts: seq<string>): Option<State>
    decreases |texts|
  {
    if texts == [] then Some(st)
    else
      match ReadLine(texts[0])
      case None => None
      case Some(l) => match Apply(st, l) case None => None case Some(next) => ReadLines(next, texts[1..])
  }

  /** Index of the first newline, or the length. */
  function LineEnd(s: string): (n: nat)
    ensures n <= |s|
  {
    if s == [] || s[0] == '\n' then 0 else 1 + LineEnd(s[1..])
  }

  function SplitLines(s: string): seq<string>
    decreases |s|
  {
    var n := LineEnd(s);
    if n == |s| then [s] else [s[..n]] + SplitLines(s[n + 1..])
  }

  const INITIAL := State(map[], None)

  /** The parser. */
  function Parse(s: string): Option<map<string, Entry>> {
    match ReadLines(INITIAL, SplitLines(s)) case None => None case Some(st) => Some(st.doc)
  }

  // ---------------------------------------------------------------- the printer

  function PairsOf(fields: Fields): seq<Line> {
    if fields == [] then [] else [Pair(fields[0].0, fields[0].1)] + PairsOf(fields[1..])
  }

  function Leaves(rec: Record): Fields {
    if rec == [] then []
    else if rec[0].1.Leaf? then [(rec[0].0, rec[0].1.value)] + Leaves(rec[1..])
    else Leaves(rec[1..])
  }

  function Tables(rec: Record): seq<(string, Fields)> {
    if rec == [] then []
    else if rec[0].1.Table? then [(rec[0].0, rec[0].1.fields)] + Tables(rec[1..])
    else Tables(rec[1..])
  }

  function WithTable(lines: seq<Line>, table: (string, Fields)): seq<Line> {
    lines + (if lines == [] then [] else [Empty]) + [Header(table.0)] + PairsOf(table.1)
  }

  function WithTables(lines: seq<Line>, tables: seq<(string, Fields)>): seq<Line>
    decreases |tables|
  {
    if tables == [] then lines else WithTables(WithTable(lines, tables[0]), tables[1..])
  }

  /** The lines of a dump. */
  function Plan(rec: Record): seq<Line> { WithTables(PairsOf(Leaves(rec)), Tables(rec)) }

  function ShownAll(ls: seq<Line>): Option<seq<string>> {
    if ls == [] then Some([])
    else
      match Shown(ls[|ls| - 1])
      case None => None
      case Some(t) => match ShownAll(ls[..|ls| - 1]) case None => None case Some(ts) => Some(ts + [t])
  }

  /** `"\n".join(lines)`. */
  function Join(ts: seq<string>): string {
    if ts == [] then [] else if |ts| == 1 then ts[0] else ts[0] + ['\n'] + Join(ts[1..])
  }

  /** `_dump_toml`, before the encoding to UTF-8. */
  function Dump(rec: Record): Option<string> {
    match ShownAll(Plan(rec)) case None => None case Some(ts) => Some(Join(ts) + ['\n'])
  }

  predicate Prints(v: Value) { !v.Unsupported? }

  predicate ItemPrints(item: Item) {
    match item case Leaf(v) => Prints(v) case Table(fields) => forall f | f in fields :: Prints(f.1)
  }

  lemma {:induction false} ShownAllFacts(ls: seq<Line>)
    ensures ShownAll(ls).Some? <==> forall i | 0 <= i < |ls| :: Shown(ls[i]).Some?
    ensures ShownAll(ls).Some? ==> ShownEach(ls, ShownAll(ls).value)
  {
    if ls != [] {
      var init := ls[..|ls| - 1];
      ShownAllFacts(init);
      assert forall i | 0 <= i < |init| :: init[i] == ls[i];
    }
  }

  ghost predicate ShownEach(ls: seq<Line>, ts: seq<string>) {
    |ts| == |ls| && forall i | 0 <= i < |ls| :: Shown(ls[i]) == Some(ts[i])
  }

  lemma {:induction false} WithTablesExtends(lines: seq<Line>, tables: seq<(string, Fields)>)
    ensures lines <= WithTables(lines, tables)
    decreases |tables|
  {
    if tables != [] {
      WithTablesExtends(WithTable(lines, tables[0]), tables[1..]);
    }
  }

  lemma PrefixUnprintable(ls: seq<Line>, all: seq<Line>)
    requires ls <= all && ShownAll(ls).None?
    ensures ShownAll(all).None?
  {
    ShownAllFacts(ls);
    ShownAllFacts(all);
    assert forall i | 0 <= i < |ls| :: all[i] == ls[i];
  }

  /** One dictionary's pairs, appended to the lines. */
  method AppendPairs(ghost plan: seq<Line>, lines: seq<string>, fields: Fields) returns (r: Option<seq<string>>)
    requires ShownAll(plan) == Some(lines)
    ensures r == ShownAll(plan + PairsOf(fields))
  {
    var out := lines;
    ghost var done := plan;
    for i := 0 to |fields|
      invariant ShownAll(done) == Some(out)
      invariant plan + PairsOf(fields) == done + PairsOf(fields[i..])
    {
      var (key, value) := fields[i];
      ghost var step := Pair(key, value);
      assert (done + [step])[..|done|] == done;
      assert done + PairsOf(fields[i..]) == done + [step] + PairsOf(fields[i + 1..]);
      var text := Format(value);
      done := done + [step];
      if text.None? {
        PrefixUnprintable(done, plan + PairsOf(fields));
        return None;
      }
      out := out + [key + [' ', '=', ' '] + text.value];
    }
    assert done + PairsOf(fields[|fields|..]) == done;
    r := Some(out);
  }

  /** `_dump_toml`: scalars while going over the record, tables after them. */
  method DumpToml(rec: Record) returns (r: Option<string>)
    ensures r == Dump(rec)
  {
    var lines: seq<string>, tables: seq<(string, Fields)> := [], [];
    ghost var plan: seq<Line> := [];
    ghost var leaves := PairsOf(Leaves(rec));
    for i := 0 to |rec|
      invariant ShownAll(plan) == Some(lines)
      invariant leaves == plan + PairsOf(Leaves(rec[i..]))
      invariant Tables(rec) == tables + Tables(rec[i..])
    {
      var (key, item) := rec[i];
      assert rec[i..][1..] == rec[i + 1..];
      match item
      case Table(fields) =>
        tables := tables + [(key, fields)];
      case Leaf(value) =>
        ghost var before := plan;
        plan := plan + [Pair(key, value)];
        LeavesCons(rec[i..]);
        assert plan[..|plan| - 1] == before;
        var text := Format(value);
        if text.None? {
          LeafUnprintable(rec, plan);
          return None;
        }
        lines := lines + [key + [' ', '=', ' '] + text.value];
    }
    assert rec[|rec|..] == [] && leaves == plan && Tables(rec) == tables;
    r := DumpTables(plan, lines, tables);
  }

  lemma LeavesCons(rec: Record)
    requires rec != [] && rec[0].1.Leaf?
    ensures PairsOf(Leaves(rec)) == [Pair(rec[0].0, rec[0].1.value)] + PairsOf(Leaves(rec[1..]))
  {
    assert Leaves(rec) == [(rec[0].0, rec[0].1.value)] + Leaves(rec[1..]);
  }

  lemma LeafUnprintable(rec: Record, plan: seq<Line>)
    requires plan <= PairsOf(Leaves(rec)) && ShownAll(plan).None?
    ensures Dump(rec).None?
  {
    PrefixUnprintable(plan, PairsOf(Leaves(rec)));
    WithTablesExtends(PairsOf(Leaves(rec)), Tables(rec));
    PrefixUnprintable(PairsOf(Leaves(rec)), Plan(rec));
  }

  /** Its second loop. */
  method DumpTables(ghost leaves: seq<Line>, scalars: seq<string>, tables: seq<(string, Fields)>) returns (r: Option<string>)
    requires ShownAll(leaves) == Some(scalars)
    ensures r == match ShownAll(WithTables(leaves, tables)) case None => None case Some(ts) => Some(Join(ts) + ['\n'])
  {
    var lines := scalars;
    ghost var plan := leaves;
    for i := 0 to |tables|
      invariant ShownAll(plan) == Some(lines)
      invariant WithTables(leaves, tables) == WithTables(plan, tables[i..])
    {
      ghost var spaced := plan + if plan == [] then [] else [Empty];
      ghost var headed := spaced + [Header(tables[i].0)];
      assert WithTable(plan, tables[i]) == headed + PairsOf(tables[i].1);
      assert WithTables(plan, tables[i..]) == WithTables(WithTable(plan, tables[i]), tables[i..][1..]);
      assert tables[i..][1..] == tables[i + 1..];
      assert plan != [] ==> spaced[..|spaced| - 1] == plan;
      assert headed[..|headed| - 1] == spaced;
      ShownAllFacts(plan);
      if lines != [] {
        lines := lines + [""];
      }
      lines := lines + [['['] + tables[i].0 + [']']];
      var more := AppendPairs(headed, lines, tables[i].1);
      plan := headed + PairsOf(tables[i].1);
      if more.None? {
        WithTablesExtends(plan, tables[i + 1..]);
        PrefixUnprintable(plan, WithTables(leaves, tables));
        return None;
      }
      lines := more.value;
    }
    assert WithTables(plan, tables[|tables|..]) == plan;
    r := Some(Join(lines) + ['\n']);
  }

  // ---------------------------------------------------------------- the round trip

  function FieldMap(fields: Fields): map<string, Value> {
    if fields == [] then map[] else FieldMap(fields[1..])[fields[0].0 := fields[0].1]
  }

  function Singles(fields: Fields): map<string, Entry> {
    if fields == [] then map[] else Singles(fields[1..])[fields[0].0 := Single(fields[0].1)]
  }

  function Sections(tables: seq<(string, Fields)>): map<string, Entry> {
    if tables == [] then map[] else Sections(tables[1..])[tables[0].0 := Section(FieldMap(tables[0].1))]
  }

  /** The record as the parser returns it. */
  function Meaning(rec: Record): map<string, Entry> {
    if rec == [] then map[]
    else Meaning(rec[1..])[rec[0].0 := match rec[0].1 case Leaf(v) => Single(v) case Table(fields) => Section(FieldMap(fields))]
  }

  /** The keys of a Python dictionary are distinct; here they are also bare. */
  ghost predicate GoodKeys<T>(d: seq<(string, T)>) {
    && (forall i | 0 <= i < |d| :: IsBare(d[i].0))
    && (forall i, j | 0 <= i < j < |d| :: d[i].0 != d[j].0)
  }

  function KeysOf<T>(d: seq<(string, T)>): set<string> { set i | 0 <= i < |d| :: d[i].0 }

  lemma KeysOfCons<T>(d: seq<(string, T)>)
    requires d != []
    ensures KeysOf(d) == {d[0].0} + KeysOf(d[1..])
  {
    assert forall i | 0 < i < |d| :: d[i] == d[1..][i - 1];
  }

  ghost predicate BareKeyed(rec: Record) {
    GoodKeys(rec) && forall i | 0 <= i < |rec| && rec[i].1.Table? :: GoodKeys(rec[i].1.fields)
  }

  /** No string in the record holds U+007F. */
  predicate NoDelete(rec: Record) {
    forall e | e in rec :: match e.1 case Leaf(v) => Readable(v) case Table(fields) => forall f | f in fields :: Readable(f.1)
  }

  lemma {:induction false} ApplyConcat(st: State, a: seq<Line>, b: seq<Line>)
    ensures ApplyAll(st, a + b) == match ApplyAll(st, a) case None => None case Some(mid) => ApplyAll(mid, b)
    decreases |a|
  {
    if a == [] {
      assert a + b == b;
    } else {
      assert (a + b)[1..] == a[1..] + b;
      match Apply(st, a[0])
      case None =>
      case Some(next) => ApplyConcat(next, a[1..], b);
    }
  }

  lemma MergeOne<V>(a: map<string, V>, b: map<string, V>, key: string, v: V)
    requires key !in b
    ensures (a + b)[key := v] == a[key := v] + b == a + b[key := v]
  {
  }

  /** Pairs before the first header define top-level keys. */
  lemma {:induction false} ApplyScalars(doc: map<string, Entry>, fields: Fields)
    requires GoodKeys(fields) && forall i | 0 <= i < |fields| :: fields[i].0 !in doc
    ensures ApplyAll(State(doc, None), PairsOf(fields)) == Some(State(doc + Singles(fields), None))
    decreases |fields|
  {
    if fields == [] {
      assert doc + Singles(fields) == doc;
    } else {
      var (key, value) := fields[0];
      var rest := fields[1..];
      var next := doc[key := Single(value)];
      var ls := PairsOf(fields);
      assert ls[1..] == PairsOf(rest);
      ApplyScalars(next, rest);
      SinglesKeys(rest);
      KeysOfCons(fields);
      assert key !in KeysOf(rest);
      MergeOne(doc, Singles(rest), key, Single(value));
    }
  }

  lemma {:induction false} SinglesKeys(fields: Fields)
    ensures Singles(fields).Keys == KeysOf(fields)
  {
    if fields != [] {
      SinglesKeys(fields[1..]);
      KeysOfCons(fields);
    }
  }

  lemma {:induction false} FieldMapKeys(fields: Fields)
    ensures FieldMap(fields).Keys == KeysOf(fields)
  {
    if fields != [] {
      FieldMapKeys(fields[1..]);
      KeysOfCons(fields);
    }
  }

  /** Pairs after a header define keys of that table. */
  lemma {:induction false} ApplyFields(doc: map<string, Entry>, name: string, fields: Fields)
    requires name in doc && doc[name].Section? && GoodKeys(fields)
    requires forall i | 0 <= i < |fields| :: fields[i].0 !in doc[name].fields
    ensures ApplyAll(State(doc, Some(name)), PairsOf(fields))
         == Some(State(doc[name := Section(doc[name].fields + FieldMap(fields))], Some(name)))
    decreases |fields|
  {
    var had := doc[name].fields;
    if fields == [] {
      assert had + FieldMap(fields) == had && doc[name := Section(had)] == doc;
    } else {
      var (key, value) := fields[0];
      var rest := fields[1..];
      var next := doc[name := Section(had[key := value])];
      var ls := PairsOf(fields);
      assert ls[1..] == PairsOf(rest);
      ApplyFields(next, name, rest);
      FieldMapKeys(rest);
      assert key !in KeysOf(rest);
      MergeOne(had, FieldMap(rest), key, value);
      assert next[name := Section(had + FieldMap(fields))] == doc[name := Section(had + FieldMap(fields))];
    }
  }

  /** A header and its pairs, after any lines, add one table. */
  lemma ApplyTable(lines: seq<Line>, st: State, table: (string, Fields))
    requires ApplyAll(INITIAL, lines) == Some(st) && table.0 !in st.doc && GoodKeys(table.1)
    ensures ApplyAll(INITIAL, WithTable(lines, table)) == Some(State(st.doc[table.0 := Section(FieldMap(table.1))], Some(table.0)))
  {
    var gap := if lines == [] then [] else [Empty];
    var header := [Header(table.0)];
    ApplyConcat(INITIAL, lines, gap);
    assert gap != [] ==> gap[1..] == [];
    assert ApplyAll(INITIAL, lines + gap) == Some(st);
    ApplyConcat(INITIAL, lines + gap, header);
    assert header[1..] == [];
    var begun := st.doc[table.0 := Section(map[])];
    assert ApplyAll(INITIAL, lines + gap + header) == Some(State(begun, Some(table.0)));
    ApplyConcat(INITIAL, lines + gap + header, PairsOf(table.1));
    ApplyFields(begun, table.0, table.1);
    assert map[] + FieldMap(table.1) == FieldMap(table.1);
    assert begun[table.0 := Section(FieldMap(table.1))] == st.doc[table.0 := Section(FieldMap(table.1))];
  }

  lemma {:induction false} ApplyTables(lines: seq<Line>, st: State, tables: seq<(string, Fields)>)
    requires ApplyAll(INITIAL, lines) == Some(st) && GoodKeys(tables)
    requires forall i | 0 <= i < |tables| :: tables[i].0 !in st.doc && GoodKeys(tables[i].1)
    ensures ApplyAll(INITIAL, WithTables(lines, tables)).Some?
    ensures ApplyAll(INITIAL, WithTables(lines, tables)).value.doc == st.doc + Sections(tables)
    decreases |tables|
  {
    if tables == [] {
      assert st.doc + Sections(tables) == st.doc;
    } else {
      var t := tables[0];
      var next := State(st.doc[t.0 := Section(FieldMap(t.1))], Some(t.0));
      ApplyTable(lines, st, t);
      var rest := tables[1..];
      ApplyTables(WithTable(lines, t), next, rest);
      SectionsKeys(rest);
      assert t.0 !in Sections(rest);
      MergeOne(st.doc, Sections(rest), t.0, Section(FieldMap(t.1)));
    }
  }

  lemma {:induction false} SectionsKeys(tables: seq<(string, Fields)>)
    ensures Sections(tables).Keys == KeysOf(tables)
  {
    if tables != [] {
      SectionsKeys(tables[1..]);
      KeysOfCons(tables);
    }
  }

  /** The two halves a record is printed in keep its keys apart. */
  lemma {:induction false} HalvesKeys(rec: Record)
    requires BareKeyed(rec)
    ensures GoodKeys(Leaves(rec)) && GoodKeys(Tables(rec))
    ensures KeysOf(Leaves(rec)) + KeysOf(Tables(rec)) == KeysOf(rec) && KeysOf(Leaves(rec)) !! KeysOf(Tables(rec))
    ensures forall e | e in Tables(rec) :: GoodKeys(e.1)
  {
    if rec != [] {
      var rest := rec[1..];
      HalvesKeys(rest);
      KeysOfCons(rec);
      assert forall i | 0 <= i < |rest| :: rest[i] == rec[i + 1];
      assert rec[0].0 !in KeysOf(rest);
      if rec[0].1.Leaf? {
        GoodCons(rec[0].0, rec[0].1.value, Leaves(rest));
      } else {
        GoodCons(rec[0].0, rec[0].1.fields, Tables(rest));
      }
    }
  }

  lemma GoodCons<T>(key: string, value: T, d: seq<(string, T)>)
    requires GoodKeys(d) && IsBare(key) && key !in KeysOf(d)
    ensures GoodKeys([(key, value)] + d) && KeysOf([(key, value)] + d) == {key} + KeysOf(d)
  {
    KeysOfCons([(key, value)] + d);
    assert forall i | 0 <= i < |d| :: d[i].0 in KeysOf(d);
  }

  lemma {:induction false} Halves(rec: Record)
    requires BareKeyed(rec)
    ensures Meaning(rec) == Singles(Leaves(rec)) + Sections(Tables(rec))
  {
    if rec != [] {
      var rest := rec[1..];
      assert forall i | 0 <= i < |rest| :: rest[i] == rec[i + 1];
      Halves(rest);
      HalvesKeys(rest);
      var a, b, key := Singles(Leaves(rest)), Sections(Tables(rest)), rec[0].0;
      SectionsKeys(Tables(rest));
      assert key !in b;
      match rec[0].1
      case Leaf(v) =>
        MergeOne(a, b, key, Single(v));
        assert Leaves(rec)[1..] == Leaves(rest) && Tables(rec) == Tables(rest);
      case Table(fields) =>
        MergeOne(a, b, key, Section(FieldMap(fields)));
        assert Tables(rec)[1..] == Tables(rest) && Leaves(rec) == Leaves(rest);
    }
  }

  lemma PlanMeans(rec: Record)
    requires BareKeyed(rec)
    ensures ApplyAll(INITIAL, Plan(rec)).Some?
    ensures ApplyAll(INITIAL, Plan(rec)).value.doc == Meaning(rec)
  {
    var leaves, tables := Leaves(rec), Tables(rec);
    HalvesKeys(rec);
    Halves(rec);
    ApplyScalars(map[], leaves);
    assert map[] + Singles(leaves) == Singles(leaves);
    SinglesKeys(leaves);
    assert forall i | 0 <= i < |tables| :: tables[i].0 in KeysOf(tables) && tables[i] in tables;
    ApplyTables(PairsOf(leaves), State(Singles(leaves), None), tables);
  }

  // the text

  lemma {:induction false} LineEndOf(line: string, rest: string)
    requires '\n' !in line && (rest == [] || rest[0] == '\n')
    ensures LineEnd(line + rest) == |line|
  {
    if line == [] {
      assert line + rest == rest;
    } else {
      assert (line + rest)[1..] == line[1..] + rest;
      LineEndOf(line[1..], rest);
    }
  }

  /** Joining lines and splitting again gives the lines, and an empty one after the final newline. */
  lemma {:induction false} SplitJoined(ts: seq<string>)
    requires ts != [] && forall t | t in ts :: '\n' !in t
    ensures SplitLines(Join(ts) + ['\n']) == ts + [""]
  {
    if |ts| == 1 {
      SplitFirst(ts[0], [], Join(ts) + ['\n']);
      assert SplitLines([]) == [""];
    } else {
      SplitJoined(ts[1..]);
      JoinCons(ts);
      SplitFirst(ts[0], Join(ts[1..]) + ['\n'], Join(ts) + ['\n']);
    }
  }

  lemma JoinCons(ts: seq<string>)
    requires |ts| > 1
    ensures Join(ts) + ['\n'] == ts[0] + ['\n'] + (Join(ts[1..]) + ['\n'])
    ensures ts + [""] == [ts[0]] + (ts[1..] + [""])
  {
    assert ts == [ts[0]] + ts[1..];
  }

  lemma SplitFirst(line: string, more: string, all: string)
    requires '\n' !in line && all == line + ['\n'] + more
    ensures SplitLines(all) == [line] + SplitLines(more)
  {
    LineEndOf(line, ['\n'] + more);
    assert all == line + (['\n'] + more);
    assert all[..|line|] == line && all[|line| + 1..] == more;
  }

  lemma {:induction false} CodedHasNoNewline(s: string)
    ensures '\n' !in Coded(s)
  {
    if s != [] {
      CodedHasNoNewline(s[1..]);
    }
  }

  lemma ShownHasNoNewline(l: Line, text: string)
    requires WellNamed(l) && Shown(l) == Some(text)
    ensures '\n' !in text
  {
    if l.Pair? && l.value.Str? {
      TwoPasses(l.value.s);
      CodedHasNoNewline(l.value.s);
    }
  }

  /** Reading printed lines applies them, as long as each can be read. */
  lemma {:induction false} ReadPlan(st: State, ls: seq<Line>, ts: seq<string>)
    requires ShownEach(ls, ts) && forall l | l in ls :: WellNamed(l)
    ensures ReadLines(st, ts + [""]) == if forall l | l in ls :: LineReadable(l) then ApplyAll(st, ls) else None
    decreases |ls|
  {
    if ls == [] {
      assert ts + [""] == [""] && [""][1..] == [];
      assert ReadLine("") == Some(Empty);
    } else {
      var l, more := ls[0], ls[1..];
      assert (ts + [""])[1..] == ts[1..] + [""];
      assert l in ls && ls == [l] + more;
      ReadShown(l, ts[0]);
      if LineReadable(l) && Apply(st, l).Some? {
        ReadPlan(Apply(st, l).value, more, ts[1..]);
      }
    }
  }

  // what holds of every line of a dump

  ghost predicate All(ls: seq<Line>, P: Line -> bool) { forall l | l in ls :: P(l) }

  ghost predicate AllOfFields(fields: Fields, P: Line -> bool) { forall f | f in fields :: P(Pair(f.0, f.1)) }

  ghost predicate AllOfTable(t: (string, Fields), P: Line -> bool) { P(Header(t.0)) && AllOfFields(t.1, P) }

  ghost predicate AllOfItem(e: (string, Item), P: Line -> bool) {
    match e.1 case Leaf(v) => P(Pair(e.0, v)) case Table(fields) => AllOfTable((e.0, fields), P)
  }

  ghost predicate AllOfTables(ts: seq<(string, Fields)>, P: Line -> bool) { forall t | t in ts :: AllOfTable(t, P) }

  ghost predicate AllOfItems(rec: Record, P: Line -> bool) { forall e | e in rec :: AllOfItem(e, P) }

  lemma FieldsCons(f: (string, Value), rest: Fields, P: Line -> bool)
    ensures AllOfFields([f] + rest, P) <==> P(Pair(f.0, f.1)) && AllOfFields(rest, P)
  {
    var all := [f] + rest;
    assert f in all && forall g | g in rest :: g in all;
  }

  lemma TablesCons(t: (string, Fields), rest: seq<(string, Fields)>, P: Line -> bool)
    ensures AllOfTables([t] + rest, P) <==> AllOfTable(t, P) && AllOfTables(rest, P)
  {
    var all := [t] + rest;
    assert t in all && forall g | g in rest :: g in all;
  }

  lemma ItemsCons(e: (string, Item), rest: Record, P: Line -> bool)
    ensures AllOfItems([e] + rest, P) <==> AllOfItem(e, P) && AllOfItems(rest, P)
  {
    var all := [e] + rest;
    assert e in all && forall g | g in rest :: g in all;
  }

  lemma {:induction false} AllPairs(fields: Fields, P: Line -> bool)
    ensures All(PairsOf(fields), P) <==> AllOfFields(fields, P)
  {
    if fields != [] {
      AllPairs(fields[1..], P);
      assert fields == [fields[0]] + fields[1..];
      assert PairsOf(fields) == [Pair(fields[0].0, fields[0].1)] + PairsOf(fields[1..]);
      AllConcat([Pair(fields[0].0, fields[0].1)], PairsOf(fields[1..]), P);
      FieldsCons(fields[0], fields[1..], P);
    }
  }

  lemma AllConcat(a: seq<Line>, b: seq<Line>, P: Line -> bool)
    ensures All(a + b, P) <==> All(a, P) && All(b, P)
  {
    assert forall l | l in a || l in b :: l in a + b;
  }

  lemma AllWithTable(lines: seq<Line>, t: (string, Fields), P: Line -> bool)
    requires P(Empty)
    ensures All(WithTable(lines, t), P) <==> All(lines, P) && AllOfTable(t, P)
  {
    var gap := if lines == [] then [] else [Empty];
    AllConcat(lines, gap, P);
    AllConcat(lines + gap, [Header(t.0)], P);
    AllConcat(lines + gap + [Header(t.0)], PairsOf(t.1), P);
    AllPairs(t.1, P);
  }

  lemma {:induction false} AllTables(lines: seq<Line>, tables: seq<(string, Fields)>, P: Line -> bool)
    requires P(Empty)
    ensures All(WithTables(lines, tables), P) <==> All(lines, P) && AllOfTables(tables, P)
    decreases |tables|
  {
    if tables != [] {
      var t := tables[0];
      AllWithTable(lines, t, P);
      AllTables(WithTable(lines, t), tables[1..], P);
      TablesCons(t, tables[1..], P);
      assert tables == [t] + tables[1..];
    }
  }

  lemma {:induction false} AllHalves(rec: Record, P: Line -> bool)
    ensures AllOfItems(rec, P) <==> AllOfFields(Leaves(rec), P) && AllOfTables(Tables(rec), P)
  {
    if rec != [] {
      var rest := rec[1..];
      AllHalves(rest, P);
      assert rec == [rec[0]] + rest;
      ItemsCons(rec[0], rest, P);
      match rec[0].1
      case Leaf(v) => FieldsCons((rec[0].0, v), Leaves(rest), P);
      case Table(fields) => TablesCons((rec[0].0, fields), Tables(rest), P);
    }
  }

  lemma AllPlan(rec: Record, P: Line -> bool)
    requires P(Empty)
    ensures All(Plan(rec), P) <==> AllOfItems(rec, P)
  {
    AllTables(PairsOf(Leaves(rec)), Tables(rec), P);
    AllPairs(Leaves(rec), P);
    AllHalves(rec, P);
  }

  /** Printing fails only on values TOML cannot hold here. */
  lemma DumpsWhen(rec: Record)
    ensures Dump(rec).Some? <==> forall e | e in rec :: ItemPrints(e.1)
  {
    var P := (l: Line) => Shown(l).Some?;
    ShownAllFacts(Plan(rec));
    AllPlan(rec, P);
    var plan := Plan(rec);
    assert forall i | 0 <= i < |plan| :: plan[i] in plan;
    assert All(plan, P) <==> ShownAll(plan).Some?;
    assert forall e | e in rec :: AllOfItem(e, P) <==> ItemPrints(e.1);
  }

  /** Parsing a dump gives the record back exactly when no string in it holds U+007F; otherwise the dump is not TOML. */
  lemma DumpParse(rec: Record, text: string)
    requires BareKeyed(rec) && Dump(rec) == Some(text)
    ensures Parse(text) == if NoDelete(rec) then Some(Meaning(rec)) else None
  {
    var plan := Plan(rec);
    var ts := ShownAll(plan).value;
    ShownAllFacts(plan);
    AllPlan(rec, WellNamed);
    BareItems(rec);
    AllPlan(rec, LineReadable);
    assert forall e | e in rec :: AllOfItem(e, LineReadable)
                                  <==> match e.1 case Leaf(v) => Readable(v) case Table(fields) => forall f | f in fields :: Readable(f.1);
    assert All(plan, LineReadable) <==> NoDelete(rec);
    ReadPlan(INITIAL, plan, ts);
    PlanMeans(rec);
    if ts == [] {
      assert text == ['\n'];
      assert SplitLines(text) == [""] + SplitLines([]) == ["", ""];
      assert ReadLine("") == Some(Empty);
      assert ["", ""][1..] == ts + [""];
    } else {
      forall t | t in ts
        ensures '\n' !in t
      {
        var i :| 0 <= i < |ts| && ts[i] == t;
        assert plan[i] in plan;
        ShownHasNoNewline(plan[i], t);
      }
      SplitJoined(ts);
    }
  }

  lemma BareItems(rec: Record)
    requires BareKeyed(rec)
    ensures AllOfItems(rec, WellNamed)
  {
    forall e | e in rec
      ensures AllOfItem(e, WellNamed)
    {
      var i :| 0 <= i < |rec| && rec[i] == e;
      if e.1.Table? {
        assert GoodKeys(rec[i].1.fields);
      }
    }
  }
}
