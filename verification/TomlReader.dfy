/**
 * How a TOML reader sees the lines of a configuration before its first table (TOML v1.0.0: Keys,
 * String, Array, Inline Table): statements with their key path, their text and their place. Numbers,
 * dates and booleans are kept as text. Nothing here knows of the code that rewrites configurations.
 */
module TomlReader {
  import opened Wrappers

  predicate IsWs(c: char) {
    c == ' ' || c == '\t'
  }

  function SkipWs(s: string): (r: string)
    ensures |r| <= |s|
    ensures r != "" ==> !IsWs(r[0])
  {
    if s != "" && IsWs(s[0]) then SkipWs(s[1..]) else s
  }

  predicate IsBare(c: char) {
    'a' <= c <= 'z' || 'A' <= c <= 'Z' || '0' <= c <= '9' || c == '_' || c == '-'
  }

  /** The characters no string may hold unescaped. */
  predicate Control(c: char) {
    (c < ' ' && c != '\t') || c == '\U{7F}'
  }

  // ---- strings ----

  function Prepend(c: char, r: Option<(string, string)>): Option<(string, string)> {
    if r.None? then None else Some(([c] + r.value.0, r.value.1))
  }

  function Digit(c: char): Option<int> {
    if '0' <= c <= '9' then Some(c as int - '0' as int)
    else if 'a' <= c <= 'f' then Some(c as int - 'a' as int + 10)
    else if 'A' <= c <= 'F' then Some(c as int - 'A' as int + 10)
    else None
  }

  function Hex(s: string): (r: Option<int>)
    ensures r.Some? ==> r.value >= 0
  {
    if s == "" then Some(0)
    else
      var front, d := Hex(s[..|s| - 1]), Digit(s[|s| - 1]);
      if front.None? || d.None? then None else Some(16 * front.value + d.value)
  }

  /** The character a \u or \U escape stands for. */
  function Scalar(s: string): Option<char> {
    var n := Hex(s);
    if n.None? then None
    else if n.value < 0xD800 || 0xE000 <= n.value < 0x11_0000 then Some(n.value as char)
    else None
  }

  /** An escape sequence, without its backslash: the character and how much text it took. */
  function ReadEscape(s: string): (r: Option<(char, nat)>)
    ensures r.Some? ==> 1 <= r.value.1 <= |s|
  {
    if s == "" then None
    else
      match s[0]
      case '\\' => Some(('\\', 1))
      case '"' => Some(('"', 1))
      case 'b' => Some(('\U{8}', 1))
      case 't' => Some(('\t', 1))
      case 'n' => Some(('\n', 1))
      case 'f' => Some(('\U{C}', 1))
      case 'r' => Some(('\r', 1))
      case 'u' => (
        if |s| < 5 || Scalar(s[1..5]).None? then None else Some((Scalar(s[1..5]).value, 5))
      )
      case 'U' => (
        if |s| < 9 || Scalar(s[1..9]).None? then None else Some((Scalar(s[1..9]).value, 9))
      )
      case _ => None
  }

  /** The inside of a basic string up to its closing quote: the value and what follows. */
  function ReadString(s: string): (r: Option<(string, string)>)
    ensures r.Some? ==> |r.value.0| + |r.value.1| < |s|
    decreases |s|
  {
    if s == "" then None
    else if s[0] == '"' then Some(("", s[1..]))
    else if s[0] != '\\' then if Control(s[0]) then None else Prepend(s[0], ReadString(s[1..]))
    else
      var e := ReadEscape(s[1..]);
      if e.None? then None else Prepend(e.value.0, ReadString(s[1 + e.value.1..]))
  }

  /** The inside of a literal string. */
  function ReadLiteral(s: string): (r: Option<(string, string)>)
    ensures r.Some? ==> |r.value.0| + |r.value.1| < |s|
  {
    if s == "" then None
    else if s[0] == '\'' then Some(("", s[1..]))
    else if Control(s[0]) then None
    else Prepend(s[0], ReadLiteral(s[1..]))
  }

  // ---- keys ----

  function BarePart(s: string): (r: (string, string))
    ensures r.0 + r.1 == s && (forall c :: c in r.0 ==> IsBare(c))
    ensures r.1 != "" ==> !IsBare(r.1[0])
  {
    if s != "" && IsBare(s[0]) then
      var p := BarePart(s[1..]);
      ([s[0]] + p.0, p.1)
    else ("", s)
  }

  /** A bare or quoted key. */
  function ReadSimple(s: string): (r: Option<(string, string)>)
    ensures r.Some? ==> |r.value.1| < |s| && |r.value.0| + |r.value.1| <= |s|
  {
    if s == "" then None
    else if s[0] == '"' then ReadString(s[1..])
    else if s[0] == '\'' then ReadLiteral(s[1..])
    else if !IsBare(s[0]) then None
    else
      assert s == BarePart(s).0 + BarePart(s).1;
      Some(BarePart(s))
  }

  /** A dotted key: its parts and what follows it. */
  function ReadPath(s: string): (r: Option<(seq<string>, string)>)
    ensures r.Some? ==> r.value.0 != [] && |r.value.1| <= |s|
    ensures r.Some? ==> r.value.1 == "" || !IsWs(r.value.1[0])
    decreases |s|
  {
    var k := ReadSimple(SkipWs(s));
    if k.None? then None
    else
      var rest := SkipWs(k.value.1);
      if rest == "" || rest[0] != '.' then Some(([k.value.0], rest))
      else
        var more := ReadPath(rest[1..]);
        if more.None? then None else Some(([k.value.0] + more.value.0, more.value.1))
  }

  /** The path that a key's own text names. */
  function KeyPath(text: string): Option<seq<string>> {
    var p := ReadPath(text);
    if p.Some? && p.value.1 == "" then Some(p.value.0) else None
  }

  /** The left side of a statement: its path and the text after the sign. */
  function ReadKey(line: string): (r: Option<(seq<string>, string)>)
    ensures r.Some? ==> |r.value.1| < |line|
  {
    var p := ReadPath(line);
    if p.None? || p.value.1 == "" || p.value.1[0] != '=' then None
    else Some((p.value.0, p.value.1[1..]))
  }

  // ---- values ----

  datatype Ml = Inline | MlBasic | MlLiteral

  /** What a value has opened and not closed yet: brackets, innermost last, and a multi-line string. */
  datatype Pending = Pending(nest: string, ml: Ml)
  {
    predicate Closed() {
      nest == "" && ml.Inline?
    }

    /** Inside an array a value may go on in the next line. */
    predicate MayBreak() {
      nest == "" || nest[|nest| - 1] == '['
    }
  }

  const NOTHING := Pending("", Inline)

  /** Three quotes, of which the last in a longer run count. */
  predicate Triple(s: string, q: char, closing: bool) {
    |s| >= 3 && s[0] == q && s[1] == q && s[2] == q && (closing ==> |s| == 3 || s[3] != q)
  }

  /** The rest of one line of a value. */
  function Scan(p: Pending, s: string): Option<Pending>
    decreases |s|
  {
    match p.ml
    case MlBasic =>
      if s == "" then Some(p)
      else if s[0] == '\\' then if |s| == 1 then Some(p) else Scan(p, s[2..])
      else if Triple(s, '"', true) then Scan(p.(ml := Inline), s[3..])
      else Scan(p, s[1..])
    case MlLiteral =>
      if s == "" then Some(p)
      else if Triple(s, '\'', true) then Scan(p.(ml := Inline), s[3..])
      else Scan(p, s[1..])
    case Inline =>
      if s == "" || s[0] == '#' then if p.MayBreak() then Some(p) else None
      else if Triple(s, '"', false) then Scan(p.(ml := MlBasic), s[3..])
      else if Triple(s, '\'', false) then Scan(p.(ml := MlLiteral), s[3..])
      else if s[0] == '"' then
        var r := ReadString(s[1..]);
        if r.None? then None else Scan(p, r.value.1)
      else if s[0] == '\'' then
        var r := ReadLiteral(s[1..]);
        if r.None? then None else Scan(p, r.value.1)
      else if s[0] == '[' || s[0] == '{' then Scan(p.(nest := p.nest + [s[0]]), s[1..])
      else if s[0] == ']' || s[0] == '}' then
        if p.nest == "" || p.nest[|p.nest| - 1] != (if s[0] == ']' then '[' else '{') then None
        else Scan(p.(nest := p.nest[..|p.nest| - 1]), s[1..])
      else Scan(p, s[1..])
  }

  /** How many of the lines the value still takes. */
  function Extent(p: Pending, ls: seq<string>): (r: Option<nat>)
    ensures r.Some? ==> r.value <= |ls|
    decreases |ls|
  {
    if p.Closed() then Some(0)
    else if ls == [] then None
    else
      var q := Scan(p, ls[0]);
      if q.None? then None
      else
        var n := Extent(q.value, ls[1..]);
        if n.None? then None else Some(n.value + 1)
  }

  /** Nothing but blanks, a carriage return or a comment. */
  predicate IsBlank(line: string) {
    var s := SkipWs(line);
    s == "" || s == "\r" || s[0] == '#'
  }

  predicate IsTable(line: string) {
    var s := SkipWs(line);
    s != "" && s[0] == '['
  }

  // ---- statements ----

  /** Path, text after the sign, and the number of further lines the value takes. */
  datatype Head = Head(path: seq<string>, rest: string, more: nat)

  function ReadHead(ls: seq<string>): (r: Option<Head>)
    requires ls != []
    ensures r.Some? ==> r.value.more < |ls|
  {
    var k := ReadKey(ls[0]);
    if k.None? || IsBlank(k.value.1) then None
    else
      var p := Scan(NOTHING, k.value.1);
      if p.None? then None
      else
        var n := Extent(p.value, ls[1..]);
        if n.None? then None else Some(Head(k.value.0, k.value.1, n.value))
  }

  /** A statement on line at: what it assigns and the text it assigns, line by line. */
  datatype Stmt = Stmt(at: nat, path: seq<string>, text: seq<string>)

  /** The statements before the first table header, and the lines from there on. */
  datatype Doc = Doc(top: seq<Stmt>, tables: seq<string>)

  function With(s: Stmt, d: Option<Doc>): Option<Doc> {
    if d.None? then None else Some(Doc([s] + d.value.top, d.value.tables))
  }

  /** The lines, the first of which is line at; None where they are no statements. */
  function Read(ls: seq<string>, at: nat): Option<Doc>
    decreases |ls|
  {
    if ls == [] then Some(Doc([], []))
    else if IsTable(ls[0]) then Some(Doc([], ls))
    else if IsBlank(ls[0]) then Read(ls[1..], at + 1)
    else
      var h := ReadHead(ls);
      if h.None? then None
      else
        var n := h.value.more + 1;
        With(Stmt(at, h.value.path, [h.value.rest] + ls[1..n]), Read(ls[n..], at + n))
  }

  /** The value of a statement that assigns one basic string. */
  function BasicValue(s: Stmt): Option<string> {
    if |s.text| != 1 then None
    else
      var t := SkipWs(s.text[0]);
      if t == "" || t[0] != '"' || Triple(t, '"', false) then None
      else
        var r := ReadString(t[1..]);
        if r.None? || !IsBlank(r.value.1) then None else Some(r.value.0)
  }

  // ---- reading stays within what it needs ----

  lemma {:induction false} SkipAppend(s: string, t: string)
    ensures SkipWs(s + t) == if SkipWs(s) == "" then SkipWs(t) else SkipWs(s) + t
  {
    if s == "" {
      assert s + t == t;
    } else {
      assert (s + t)[0] == s[0] && (s + t)[1..] == s[1..] + t;
      SkipAppend(s[1..], t);
    }
  }

  lemma EscapeAppend(s: string, t: string)
    ensures ReadEscape(s).Some? ==> ReadEscape(s + t) == ReadEscape(s)
    ensures ReadEscape(s + t).Some? && ReadEscape(s + t).value.1 <= |s| ==> ReadEscape(s).Some?
  {
    if s != "" {
      assert (s + t)[0] == s[0];
      assert |s| >= 5 ==> (s + t)[1..5] == s[1..5];
      assert |s| >= 9 ==> (s + t)[1..9] == s[1..9];
    }
  }

  /** The definition, one character or escape at a time. */
  lemma StringMeans(s: string)
    ensures s == "" ==> ReadString(s) == None
    ensures s != "" && s[0] == '"' ==> ReadString(s) == Some(("", s[1..]))
    ensures s != "" && s[0] != '"' && s[0] != '\\' ==>
      ReadString(s) == if Control(s[0]) then None else Prepend(s[0], ReadString(s[1..]))
    ensures s != "" && s[0] == '\\' ==>
      var e := ReadEscape(s[1..]);
      ReadString(s) == if e.None? then None else Prepend(e.value.0, ReadString(s[1 + e.value.1..]))
  {
    hide ReadEscape;
  }

  lemma {:induction false} StringAppend(s: string, t: string)
    ensures ReadString(s).Some? ==> ReadString(s + t) == Some((ReadString(s).value.0, ReadString(s).value.1 + t))
    ensures ReadString(s + t).Some? && |ReadString(s + t).value.1| >= |t| ==> ReadString(s).Some?
    decreases |s|
  {
    hide ReadEscape, ReadString, Control;
    StringMeans(s);
    if s != "" {
      StringMeans(s + t);
      assert (s + t)[0] == s[0] && (s + t)[1..] == s[1..] + t;
      if s[0] == '\\' {
        EscapeAppend(s[1..], t);
        var e := ReadEscape(s[1..] + t);
        if e.Some? && e.value.1 <= |s| - 1 {
          assert (s + t)[1 + e.value.1..] == s[1 + e.value.1..] + t;
          StringAppend(s[1 + e.value.1..], t);
        }
      } else if s[0] != '"' {
        StringAppend(s[1..], t);
      }
    }
  }

  lemma {:induction false} LiteralAppend(s: string, t: string)
    ensures ReadLiteral(s).Some? ==> ReadLiteral(s + t) == Some((ReadLiteral(s).value.0, ReadLiteral(s).value.1 + t))
    ensures ReadLiteral(s + t).Some? && |ReadLiteral(s + t).value.1| >= |t| ==> ReadLiteral(s).Some?
  {
    if s != "" {
      assert (s + t)[0] == s[0] && (s + t)[1..] == s[1..] + t;
      if s[0] != '\'' {
        LiteralAppend(s[1..], t);
      }
    }
  }

  lemma {:induction false} BareAppend(s: string, t: string)
    requires t == "" || !IsBare(t[0])
    ensures BarePart(s + t) == (BarePart(s).0, BarePart(s).1 + t)
  {
    if s == "" {
      assert s + t == t;
    } else {
      assert (s + t)[0] == s[0] && (s + t)[1..] == s[1..] + t;
      BareAppend(s[1..], t);
    }
  }

  lemma SimpleAppend(s: string, t: string)
    requires s != "" && (t == "" || !IsBare(t[0]))
    ensures ReadSimple(s).Some? ==> ReadSimple(s + t) == Some((ReadSimple(s).value.0, ReadSimple(s).value.1 + t))
    ensures ReadSimple(s + t).Some? && |ReadSimple(s + t).value.1| >= |t| ==> ReadSimple(s).Some?
  {
    hide ReadString, ReadLiteral, BarePart, IsBare;
    assert (s + t)[0] == s[0] && (s + t)[1..] == s[1..] + t;
    if s[0] == '"' {
      StringAppend(s[1..], t);
    } else if s[0] == '\'' {
      LiteralAppend(s[1..], t);
    } else {
      BareAppend(s, t);
    }
  }

  lemma PathMeans(s: string)
    ensures
      var k := ReadSimple(SkipWs(s));
      if k.None? then ReadPath(s) == None
      else
        var rest := SkipWs(k.value.1);
        if rest == "" || rest[0] != '.' then ReadPath(s) == Some(([k.value.0], rest))
        else
          var more := ReadPath(rest[1..]);
          ReadPath(s) == if more.None? then None else Some(([k.value.0] + more.value.0, more.value.1))
  {
    hide ReadSimple, SkipWs;
  }

  /** Blanks and a sign after a key end it; and a key that ends there is a key by itself. */
  lemma {:induction false} PathAppend(s: string, t: string)
    requires t != "" && IsWs(t[0]) && SkipWs(t) == t[1..] && |t| > 1 && t[1] == '='
    ensures ReadPath(s).Some? && ReadPath(s).value.1 == "" <==>
      ReadPath(s + t).Some? && |ReadPath(s + t).value.1| == |t| - 1
    ensures ReadPath(s).Some? && ReadPath(s).value.1 == "" ==> ReadPath(s + t) == Some((ReadPath(s).value.0, t[1..]))
    decreases |s|
  {
    hide ReadSimple, ReadPath, SkipWs;
    SkipAppend(s, t);
    PathMeans(s);
    var s1 := SkipWs(s);
    if s1 == "" {
      PathMeans(s + t);
      NoKey(t[1..]);
      NoKey("");
    } else {
      SimpleAppend(s1, t);
      PartEnds(s1, t);
      if ReadSimple(s1).Some? {
        var rest := SkipWs(ReadSimple(s1).value.1);
        if rest != "" && rest[0] == '.' {
          PathAppend(rest[1..], t);
        }
        PartAppend(s, t);
      } else if ReadSimple(s1 + t).Some? {
        PathShrinks(s + t);
      } else {
        PathMeans(s + t);
      }
    }
  }

  /** After a part that s holds, s and s + t go on in step. */
  lemma PartAppend(s: string, t: string)
    requires t != "" && IsWs(t[0]) && SkipWs(t) == t[1..] && |t| > 1 && t[1] == '='
    requires SkipWs(s) != "" && ReadSimple(SkipWs(s)).Some?
    ensures
      var k := ReadSimple(SkipWs(s)).value;
      var rest := SkipWs(k.1);
      if rest == "" then ReadPath(s + t) == Some(([k.0], t[1..]))
      else if rest[0] != '.' then ReadPath(s + t) == Some(([k.0], rest + t))
      else
        var more := ReadPath(rest[1..] + t);
        ReadPath(s + t) == if more.None? then None else Some(([k.0] + more.value.0, more.value.1))
  {
    hide ReadSimple, ReadPath, SkipWs;
    SkipAppend(s, t);
    SimpleAppend(SkipWs(s), t);
    var k := ReadSimple(SkipWs(s)).value;
    SkipAppend(k.1, t);
    var rest := SkipWs(k.1);
    if rest == "" {
      PathFrom(s + t, k.0, k.1 + t, t[1..]);
    } else {
      assert (rest + t)[0] == rest[0] && (rest + t)[1..] == rest[1..] + t;
      PathFrom(s + t, k.0, k.1 + t, rest + t);
    }
  }

  lemma PathFrom(s: string, part: string, after: string, rest: string)
    requires ReadSimple(SkipWs(s)) == Some((part, after)) && SkipWs(after) == rest
    ensures rest == "" || rest[0] != '.' ==> ReadPath(s) == Some(([part], rest))
    ensures rest != "" && rest[0] == '.' ==>
      var more := ReadPath(rest[1..]);
      ReadPath(s) == if more.None? then None else Some(([part] + more.value.0, more.value.1))
  {
    hide ReadSimple, SkipWs;
  }

  lemma {:induction false} StringEnds(s: string)
    ensures ReadString(s).Some? ==> s[|s| - |ReadString(s).value.1| - 1] == '"'
    decreases |s|
  {
    hide ReadEscape, ReadString;
    StringMeans(s);
    if s != "" && s[0] != '"' {
      var e := ReadEscape(s[1..]);
      if s[0] != '\\' {
        StringEnds(s[1..]);
      } else if e.Some? {
        StringEnds(s[1 + e.value.1..]);
      }
    }
  }

  lemma {:induction false} LiteralEnds(s: string)
    ensures ReadLiteral(s).Some? ==> s[|s| - |ReadLiteral(s).value.1| - 1] == '\''
  {
    if s != "" && s[0] != '\'' {
      LiteralEnds(s[1..]);
    }
  }

  lemma BareEnds(s: string)
    requires s != "" && IsBare(s[0])
    ensures |BarePart(s).1| < |s| && IsBare(s[|s| - |BarePart(s).1| - 1])
  {
    var p := BarePart(s);
    assert |s| == |p.0| + |p.1|;
    assert p.0[|p.0| - 1] in p.0 && s[|p.0| - 1] == (p.0 + p.1)[|p.0| - 1];
  }

  lemma PartIsNotBlank(s: string)
    ensures ReadSimple(s).Some? ==> !IsWs(s[|s| - |ReadSimple(s).value.1| - 1])
  {
    hide ReadString, ReadLiteral, BarePart;
    if s != "" {
      if s[0] == '"' {
        StringEnds(s[1..]);
      } else if s[0] == '\'' {
        LiteralEnds(s[1..]);
      } else if IsBare(s[0]) {
        BareEnds(s);
      }
    }
  }

  /** A part that reaches into the blank after s reaches past it. */
  lemma PartEnds(s: string, t: string)
    requires s != "" && t != "" && IsWs(t[0])
    ensures ReadSimple(s + t).Some? && ReadSimple(s).None? ==> |ReadSimple(s + t).value.1| < |t| - 1
  {
    hide ReadSimple;
    SimpleAppend(s, t);
    PartIsNotBlank(s + t);
    assert (s + t)[|s|] == t[0];
  }

  lemma PathShrinks(s: string)
    ensures ReadPath(s).Some? && ReadSimple(SkipWs(s)).Some? ==>
      |ReadPath(s).value.1| <= |ReadSimple(SkipWs(s)).value.1|
  {
    hide ReadSimple, ReadPath, SkipWs;
    PathMeans(s);
  }

  lemma NoKey(s: string)
    requires s == "" || s[0] == '='
    ensures ReadSimple(s).None?
  {
  }

  // ---- a key stays on its line ----

  lemma {:induction false} HexHasNoBreak(s: string)
    ensures Hex(s).Some? ==> '\n' !in s
  {
    if s != "" {
      HexHasNoBreak(s[..|s| - 1]);
      assert s == s[..|s| - 1] + [s[|s| - 1]];
    }
  }

  lemma EscapeKeepsBreak(s: string)
    ensures ReadEscape(s).Some? && '\n' in s ==> '\n' in s[ReadEscape(s).value.1..]
  {
    var e := ReadEscape(s);
    if e.Some? {
      var n := e.value.1;
      assert s == s[..n] + s[n..] && s[..n] == [s[0]] + s[1..n];
      HexHasNoBreak(s[1..n]);
    }
  }

  lemma {:induction false} StringKeepsBreak(s: string)
    ensures ReadString(s).Some? && '\n' in s ==> '\n' in ReadString(s).value.1
    decreases |s|
  {
    hide ReadEscape, ReadString;
    StringMeans(s);
    if s != "" {
      assert s == [s[0]] + s[1..];
      if s[0] == '\\' {
        EscapeKeepsBreak(s[1..]);
        var e := ReadEscape(s[1..]);
        if e.Some? {
          assert s[1..][e.value.1..] == s[1 + e.value.1..];
          StringKeepsBreak(s[1 + e.value.1..]);
        }
      } else if s[0] != '"' {
        StringKeepsBreak(s[1..]);
      }
    }
  }

  lemma {:induction false} LiteralKeepsBreak(s: string)
    ensures ReadLiteral(s).Some? && '\n' in s ==> '\n' in ReadLiteral(s).value.1
  {
    if s != "" {
      assert s == [s[0]] + s[1..];
      if s[0] != '\'' {
        LiteralKeepsBreak(s[1..]);
      }
    }
  }

  lemma {:induction false} SkipKeepsBreak(s: string)
    ensures '\n' in s ==> '\n' in SkipWs(s)
  {
    if s != "" {
      assert s == [s[0]] + s[1..];
      SkipKeepsBreak(s[1..]);
    }
  }

  lemma PartKeepsBreak(s: string)
    ensures ReadSimple(s).Some? && '\n' in s ==> '\n' in ReadSimple(s).value.1
  {
    hide ReadString, ReadLiteral, BarePart;
    if s != "" {
      assert s == [s[0]] + s[1..];
      StringKeepsBreak(s[1..]);
      LiteralKeepsBreak(s[1..]);
      assert s == BarePart(s).0 + BarePart(s).1;
    }
  }

  lemma {:induction false} PathKeepsBreak(s: string)
    ensures ReadPath(s).Some? && '\n' in s ==> '\n' in ReadPath(s).value.1
    decreases |s|
  {
    hide ReadSimple, SkipWs;
    SkipKeepsBreak(s);
    PartKeepsBreak(SkipWs(s));
    var k := ReadSimple(SkipWs(s));
    if k.Some? {
      SkipKeepsBreak(k.value.1);
      var rest := SkipWs(k.value.1);
      if rest != "" && rest[0] == '.' {
        assert rest == [rest[0]] + rest[1..];
        PathKeepsBreak(rest[1..]);
      }
    }
  }

  /** The text of a key holds no line break. */
  lemma KeyHasNoBreak(text: string)
    ensures KeyPath(text).Some? ==> '\n' !in text
  {
    PathKeepsBreak(text);
  }

  // ---- bare keys ----

  predicate BareKey(text: string) {
    text != "" && forall c :: c in text ==> IsBare(c)
  }

  lemma {:induction false} BareWhole(s: string)
    ensures BareKey(s) || s == "" ==> BarePart(s) == (s, "")
  {
    if s != "" && BareKey(s) {
      assert s == [s[0]] + s[1..];
      BareWhole(s[1..]);
    }
  }

  /** A key's text names itself exactly when it is bare. */
  lemma BareNamesItself(text: string)
    ensures KeyPath(text) == Some([text]) <==> BareKey(text)
  {
    hide ReadString, ReadLiteral, BarePart;
    BareWhole(text);
    if BareKey(text) {
      assert text[0] in text;
      assert SkipWs(text) == text && ReadSimple(text) == Some((text, "")) && SkipWs("") == "";
    }
    if KeyPath(text) == Some([text]) {
      OnePart(text);
      assert BarePart(text).0 + BarePart(text).1 == text;
    }
  }

  lemma OnePart(text: string)
    requires KeyPath(text) == Some([text])
    ensures text != "" && ReadSimple(text).Some? && ReadSimple(text).value.0 == text
  {
    hide ReadSimple, ReadPath, SkipWs;
    PathMeans(text);
    var k := ReadSimple(SkipWs(text)).value;
    var rest := SkipWs(k.1);
    SkipWhole(text);
  }

  lemma SkipWhole(s: string)
    ensures |SkipWs(s)| == |s| ==> SkipWs(s) == s
  {
  }

  // ---- reading goes forward ----

  /** No statement lies before the first line read, and the tables are its last lines. */
  lemma {:induction false} ReadBounds(ls: seq<string>, at: nat)
    requires Read(ls, at).Some?
    ensures forall i :: 0 <= i < |Read(ls, at).value.top| ==> at <= Read(ls, at).value.top[i].at
    ensures |Read(ls, at).value.tables| <= |ls|
    decreases |ls|
  {
    hide IsTable, IsBlank, ReadHead;
    if ls != [] && !IsTable(ls[0]) {
      if IsBlank(ls[0]) {
        ReadBounds(ls[1..], at + 1);
      } else {
        var n := ReadHead(ls).value.more + 1;
        ReadBounds(ls[n..], at + n);
      }
    }
  }

  /** A value takes as many lines whatever comes after them. */
  lemma {:induction false} ExtentLocal(p: Pending, a: seq<string>, b: seq<string>, c: seq<string>)
    requires Extent(p, a + b) == Some(|a|)
    ensures Extent(p, a + c) == Some(|a|)
    decreases |a|
  {
    hide Scan;
    if !p.Closed() && a != [] {
      assert (a + b)[0] == a[0] == (a + c)[0] && (a + b)[1..] == a[1..] + b && (a + c)[1..] == a[1..] + c;
      ExtentLocal(Scan(p, a[0]).value, a[1..], b, c);
    }
  }

  /** So does the statement at the head of the lines. */
  lemma HeadLocal(a: seq<string>, b: seq<string>, c: seq<string>)
    requires a != [] && ReadHead(a + b).Some? && ReadHead(a + b).value.more == |a| - 1
    ensures ReadHead(a + c) == ReadHead(a + b)
  {
    hide Scan, ReadKey, IsBlank;
    assert (a + b)[0] == a[0] == (a + c)[0] && (a + b)[1..] == a[1..] + b && (a + c)[1..] == a[1..] + c;
    var k := ReadKey(a[0]);
    ExtentLocal(Scan(NOTHING, k.value.1).value, a[1..], b, c);
  }

  lemma BlankIsNoTable(line: string)
    ensures IsBlank(line) ==> !IsTable(line)
  {
  }

  /** Blank lines say nothing. */
  lemma {:induction false} SkipBlanks(a: seq<string>, b: seq<string>, at: nat)
    requires forall i :: 0 <= i < |a| ==> IsBlank(a[i])
    ensures Read(a + b, at) == Read(b, at + |a|)
  {
    hide ReadHead, IsTable, IsBlank;
    if a == [] {
      assert a + b == b;
    } else {
      BlankIsNoTable(a[0]);
      assert (a + b)[1..] == a[1..] + b && (a + b)[0] == a[0];
      SkipBlanks(a[1..], b, at + 1);
    }
  }

  /** A line that is not blank says something there. */
  lemma {:induction false} SpeaksUp(a: seq<string>, b: seq<string>, at: nat)
    requires exists i :: 0 <= i < |a| && !IsBlank(a[i])
    ensures
      var d := Read(a + b, at);
      d.Some? ==> (if d.value.top == [] then |d.value.tables| > |b| else d.value.top[0].at < at + |a|)
  {
    hide ReadHead, IsTable;
    assert (a + b)[1..] == a[1..] + b && (a + b)[0] == a[0];
    if !IsTable(a[0]) && IsBlank(a[0]) {
      var i :| 0 <= i < |a| && !IsBlank(a[i]);
      assert a[1..][i - 1] == a[i];
      SpeaksUp(a[1..], b, at + 1);
    }
  }
}
