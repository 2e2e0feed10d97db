/**
 * What forcing a top-level key does to the statements a TOML reader finds, and exactly when it is
 * what the caller wants.
 */
module ForcedKey {
  import opened Wrappers
  import opened TomlReader
  import opened TunnelToml

  // ---- what the caller wants ----

  function Others(top: seq<Stmt>, path: seq<string>): (r: seq<Stmt>)
    ensures forall s :: s in r <==> s in top && s.path != path
  {
    if top == [] then []
    else (if top[0].path != path then [top[0]] else []) + Others(top[1..], path)
  }

  /** Every other statement with its text and its place, and the tables with one more line break. */
  function Remainder(d: Doc, path: seq<string>): Doc {
    Doc(Others(d.top, path), if d.tables == [] then [] else d.tables + [""])
  }

  /** The forced statement on a first line of its own, then the remainder. */
  function Wanted(d: Doc, path: seq<string>, value: string): Doc {
    var r := Remainder(d, path);
    Doc([Stmt(0, path, [" " + Quoted(value)])] + r.top, r.tables)
  }

  // ---- what the code finds ----

  /** The code's test finds line i: no line up to it looks like a header, and it looks like ours. */
  predicate Found(ls: seq<string>, key: string, inTable: bool, i: nat)
    requires i < |ls|
  {
    !inTable && (forall j :: 0 <= j <= i ==> !IsHeader(ls[j])) && Assigns(ls[i], key)
  }

  predicate Passed(ls: seq<string>, inTable: bool) {
    inTable || exists j :: 0 <= j < |ls| && IsHeader(ls[j])
  }

  /**
   * The code's line test agrees with the reader: it finds every line of a statement that assigns
   * the key, but for blanks and comments among them, and no line of any other statement.
   */
  predicate Agrees(ls: seq<string>, key: string, path: seq<string>, inTable: bool)
    decreases |ls|
  {
    if ls == [] || IsTable(ls[0]) then true
    else if IsBlank(ls[0]) then Agrees(ls[1..], key, path, inTable)
    else
      var h := ReadHead(ls);
      h.Some? &&
      var b := ls[..h.value.more + 1];
      && (if h.value.path == path then forall i :: 0 <= i < |b| ==> IsBlank(b[i]) || Found(b, key, inTable, i)
          else forall i :: 0 <= i < |b| ==> !Found(b, key, inTable, i))
      && Agrees(ls[h.value.more + 1..], key, path, Passed(b, inTable))
  }

  // ---- the code's line test and the reader's lines ----

  lemma {:induction false} TrimStart(line: string)
    ensures
      var s := SkipWs(line);
      s != "" && !IsSpace(s[0]) ==> DropStart(line, IsSpace) == s
    ensures SkipWs(line) == "" || SkipWs(line) == "\r" ==> DropStart(line, IsSpace) == ""
  {
    if line != "" {
      if IsWs(line[0]) {
        TrimStart(line[1..]);
      } else if SkipWs(line) == "\r" {
        assert line[1..] == "";
      }
    }
  }

  lemma BlankIsIdle(line: string, key: string)
    ensures IsBlank(line) ==> !IsHeader(line) && !Assigns(line, key)
    ensures IsTable(line) ==> IsHeader(line)
    ensures IsBlank("# " + line)
  {
    hide SkipWs, DropStart, DropEnd;
    TrimStart(line);
    TrimEdge(line);
    Hash(line);
  }

  lemma TrimEdge(line: string)
    ensures DropStart(line, IsSpace) == "" ==> Trim(line) == ""
    ensures DropStart(line, IsSpace) != "" ==> Trim(line) != "" && Trim(line)[0] == DropStart(line, IsSpace)[0]
  {
  }

  lemma Hash(line: string)
    ensures IsBlank("# " + line)
  {
  }

  // ---- the rewrite, line by line ----

  lemma {:induction false} RewriteAt(ls: seq<string>, key: string, inTable: bool)
    ensures |Rewrite(ls, key, inTable)| == |ls|
    ensures forall i :: 0 <= i < |ls| ==>
      Rewrite(ls, key, inTable)[i] == if Found(ls, key, inTable, i) then "# " + ls[i] else ls[i]
  {
    hide IsHeader, Assigns, Found, Rewrite;
    RewriteFirstLine(ls, key, inTable);
    if ls != [] {
      var t, rest := inTable || IsHeader(ls[0]), ls[1..];
      RewriteAt(rest, key, t);
      forall i | 0 < i < |ls|
        ensures Rewrite(ls, key, inTable)[i] == if Found(ls, key, inTable, i) then "# " + ls[i] else ls[i]
      {
        FoundLater(ls, key, inTable, i);
        assert rest[i - 1] == ls[i];
        assert Rewrite(ls, key, inTable)[1..][i - 1] == Rewrite(ls, key, inTable)[i];
      }
    }
  }

  lemma RewriteFirstLine(ls: seq<string>, key: string, inTable: bool)
    ensures ls == [] ==> Rewrite(ls, key, inTable) == []
    ensures ls != [] ==>
      var r, t := Rewrite(ls, key, inTable), inTable || IsHeader(ls[0]);
      && r != [] && r[1..] == Rewrite(ls[1..], key, t)
      && r[0] == (if Found(ls, key, inTable, 0) then "# " + ls[0] else ls[0])
      && (Found(ls, key, inTable, 0) <==> !t && Assigns(ls[0], key))
  {
    hide IsHeader, Assigns;
  }

  lemma FoundLater(ls: seq<string>, key: string, inTable: bool, i: nat)
    requires 0 < i < |ls|
    ensures Found(ls, key, inTable, i) <==> Found(ls[1..], key, inTable || IsHeader(ls[0]), i - 1)
  {
    hide IsHeader, Assigns;
    if Found(ls[1..], key, inTable || IsHeader(ls[0]), i - 1) {
      forall j | 0 <= j <= i
        ensures !IsHeader(ls[j])
      {
        assert j > 0 ==> ls[j] == ls[1..][j - 1];
      }
    }
  }

  lemma {:induction false} RewriteSplit(a: seq<string>, b: seq<string>, key: string, inTable: bool)
    ensures Rewrite(a + b, key, inTable) == Rewrite(a, key, inTable) + Rewrite(b, key, Passed(a, inTable))
  {
    hide IsHeader, Assigns;
    if a == [] {
      assert a + b == b;
    } else {
      var t := inTable || IsHeader(a[0]);
      assert (a + b)[0] == a[0] && (a + b)[1..] == a[1..] + b;
      RewriteSplit(a[1..], b, key, t);
      PassedLater(a, inTable);
    }
  }

  lemma PassedLater(a: seq<string>, inTable: bool)
    requires a != []
    ensures Passed(a, inTable) == Passed(a[1..], inTable || IsHeader(a[0]))
  {
    hide IsHeader;
    if j :| 0 <= j < |a| && IsHeader(a[j]) {
      assert j > 0 ==> a[1..][j - 1] == a[j];
    }
  }

  lemma {:induction false} InTables(ls: seq<string>, key: string)
    ensures Rewrite(ls, key, true) == ls
  {
    hide IsHeader, Assigns;
    if ls != [] {
      InTables(ls[1..], key);
    }
  }

  /** A block of lines ends up blank, or as it was, exactly as the test on its lines says. */
  lemma BlockOutcome(b: seq<string>, key: string, inTable: bool)
    ensures
      var r := Rewrite(b, key, inTable);
      && |r| == |b|
      && ((forall i :: 0 <= i < |b| ==> IsBlank(r[i])) <==>
          forall i :: 0 <= i < |b| ==> IsBlank(b[i]) || Found(b, key, inTable, i))
      && (r == b <==> forall i :: 0 <= i < |b| ==> !Found(b, key, inTable, i))
      && (forall i :: 0 <= i < |b| ==> r[i] == b[i] || IsBlank(r[i]))
  {
    hide IsHeader, Assigns, IsBlank, Rewrite, Found;
    RewriteAt(b, key, inTable);
    forall i | 0 <= i < |b|
      ensures IsBlank("# " + b[i]) && |"# " + b[i]| > |b[i]|
    {
      BlankIsIdle(b[i], key);
    }
  }

  // ---- the old lines ----

  /** What the old lines say after the rewrite, from line at on. */
  function After(ls: seq<string>, key: string, inTable: bool, at: nat): Option<Doc> {
    Read(Rewrite(ls, key, inTable) + [""], at)
  }

  /** The old lines say what is wanted of them if and only if the test agrees with the reader. */
  lemma {:induction false} RewriteReads(ls: seq<string>, key: string, path: seq<string>, inTable: bool, at: nat)
    requires Read(ls, at).Some?
    ensures After(ls, key, inTable, at) == Some(Remainder(Read(ls, at).value, path)) <==> Agrees(ls, key, path, inTable)
    decreases |ls|
  {
    hide IsHeader, Assigns, IsBlank, IsTable, ReadHead, Found, Rewrite, Agrees, Read;
    Unfold(ls, key, path, inTable, at);
    if ls == [] {
      NothingLeft(key, inTable, path, at);
    } else if IsTable(ls[0]) {
      TablesStay(ls, key, inTable, path, at);
    } else if IsBlank(ls[0]) {
      RewriteReads(ls[1..], key, path, inTable, at + 1);
      BlankStays(ls, key, inTable, at);
    } else {
      var n := ReadHead(ls).value.more + 1;
      RewriteReads(ls[n..], key, path, Passed(ls[..n], inTable), at + n);
      assert ls[..n] + ls[n..] == ls;
      StatementReads(ls[..n], ls[n..], key, path, inTable, at, ReadHead(ls).value);
    }
  }

  /** The definitions at the head of the lines. */
  lemma Unfold(ls: seq<string>, key: string, path: seq<string>, inTable: bool, at: nat)
    requires Read(ls, at).Some?
    ensures ls == [] ==> Read(ls, at).value == Doc([], []) && Agrees(ls, key, path, inTable)
    ensures ls != [] && IsTable(ls[0]) ==> Read(ls, at).value == Doc([], ls) && Agrees(ls, key, path, inTable)
    ensures ls != [] && !IsTable(ls[0]) && IsBlank(ls[0]) ==>
      Read(ls, at) == Read(ls[1..], at + 1) && Agrees(ls, key, path, inTable) == Agrees(ls[1..], key, path, inTable)
    ensures ls != [] && !IsTable(ls[0]) && !IsBlank(ls[0]) ==>
      var h := ReadHead(ls);
      h.Some? &&
      var n := h.value.more + 1;
      var b := ls[..n];
      && Read(ls[n..], at + n).Some?
      && Read(ls, at) == With(Stmt(at, h.value.path, [h.value.rest] + b[1..]), Read(ls[n..], at + n))
      && (Agrees(ls, key, path, inTable) <==>
            && Agrees(ls[n..], key, path, Passed(b, inTable))
            && if h.value.path == path then forall i :: 0 <= i < |b| ==> IsBlank(b[i]) || Found(b, key, inTable, i)
               else forall i :: 0 <= i < |b| ==> !Found(b, key, inTable, i))
  {
    hide IsHeader, Assigns, IsBlank, IsTable, ReadHead, Found;
    if ls != [] && !IsTable(ls[0]) && !IsBlank(ls[0]) {
      var n := ReadHead(ls).value.more + 1;
      assert ls[..n][1..] == ls[1..n];
    }
  }

  lemma NothingLeft(key: string, inTable: bool, path: seq<string>, at: nat)
    ensures After([], key, inTable, at) == Some(Doc([], [])) == Some(Remainder(Doc([], []), path))
  {
    assert [] + [""] == [""];
    assert [""][1..] == [];
    assert SkipWs("") == "";
  }

  lemma TablesStay(ls: seq<string>, key: string, inTable: bool, path: seq<string>, at: nat)
    requires ls != [] && IsTable(ls[0])
    ensures After(ls, key, inTable, at) == Some(Doc([], ls + [""])) == Some(Remainder(Doc([], ls), path))
  {
    hide IsHeader, Assigns, IsTable;
    BlankIsIdle(ls[0], key);
    InTables(ls[1..], key);
    assert Rewrite(ls, key, inTable) == [ls[0]] + ls[1..] == ls;
    assert (ls + [""])[0] == ls[0];
  }

  lemma BlankStays(ls: seq<string>, key: string, inTable: bool, at: nat)
    requires ls != [] && IsBlank(ls[0])
    ensures After(ls, key, inTable, at) == After(ls[1..], key, inTable, at + 1)
  {
    hide IsHeader, Assigns, IsBlank, IsTable, ReadHead;
    BlankIsIdle(ls[0], key);
    var rest := Rewrite(ls[1..], key, inTable) + [""];
    assert Rewrite(ls, key, inTable) + [""] == [ls[0]] + rest;
    SkipBlanks([ls[0]], rest, at);
  }

  /** One statement of the old lines, given what comes of the lines after it. */
  lemma StatementReads(
    b: seq<string>, rest: seq<string>, key: string, path: seq<string>, inTable: bool, at: nat, h: Head)
    requires b != [] && !IsTable(b[0]) && !IsBlank(b[0])
    requires ReadHead(b + rest) == Some(h) && h.more + 1 == |b| && Read(rest, at + |b|).Some?
    requires After(rest, key, Passed(b, inTable), at + |b|) == Some(Remainder(Read(rest, at + |b|).value, path))
      <==> Agrees(rest, key, path, Passed(b, inTable))
    ensures
      var d := With(Stmt(at, h.path, [h.rest] + b[1..]), Read(rest, at + |b|));
      After(b + rest, key, inTable, at) == Some(Remainder(d.value, path)) <==>
        && Agrees(rest, key, path, Passed(b, inTable))
        && if h.path == path then forall i :: 0 <= i < |b| ==> IsBlank(b[i]) || Found(b, key, inTable, i)
           else forall i :: 0 <= i < |b| ==> !Found(b, key, inTable, i)
  {
    hide IsHeader, Assigns, IsBlank, IsTable, ReadHead, Found, Rewrite, Agrees, Read, Passed, Remainder;
    var r, s := Rewrite(b, key, inTable), Rewrite(rest, key, Passed(b, inTable)) + [""];
    RewriteSplit(b, rest, key, inTable);
    BlockOutcome(b, key, inTable);
    RewriteAt(rest, key, Passed(b, inTable));
    assert Rewrite(b + rest, key, inTable) + [""] == r + s;
    var d := Read(rest, at + |b|).value;
    ReadBounds(rest, at + |b|);
    var st := Stmt(at, h.path, [h.rest] + b[1..]);
    if h.path == path {
      Dropped(st, d, path);
      if forall i :: 0 <= i < |b| ==> IsBlank(r[i]) {
        SkipBlanks(r, s, at);
      } else {
        SpeaksUp(r, s, at);
        OwnSpeaks(d, path, r, s, at);
      }
    } else if r == b {
      HeadLocal(b, rest, s);
      OtherStays(b, s, at, h);
      Prepended(st, Read(s, at + |b|), d, path);
    } else {
      OtherChanged(b, r, s, at, h, Remainder(d, path));
      Prepended(st, None, d, path);
    }
  }

  lemma Dropped(st: Stmt, d: Doc, path: seq<string>)
    requires st.path == path
    ensures Remainder(Doc([st] + d.top, d.tables), path) == Remainder(d, path)
  {
    assert ([st] + d.top)[1..] == d.top;
  }

  lemma Prepended(st: Stmt, e: Option<Doc>, d: Doc, path: seq<string>)
    requires st.path != path
    ensures
      var all := Doc([st] + d.top, d.tables);
      && Remainder(all, path) == Doc([st] + Remainder(d, path).top, Remainder(d, path).tables)
      && (With(st, e) == Some(Remainder(all, path)) <==> e == Some(Remainder(d, path)))
  {
    var all := Doc([st] + d.top, d.tables);
    assert ([st] + d.top)[1..] == d.top;
    if e.Some? && With(st, e) == Some(Remainder(all, path)) {
      assert ([st] + e.value.top)[1..] == e.value.top;
      assert ([st] + Remainder(d, path).top)[1..] == Remainder(d, path).top;
    }
  }

  /** A line of an own statement that still says something is more than is wanted. */
  lemma OwnSpeaks(d: Doc, path: seq<string>, r: seq<string>, s: seq<string>, at: nat)
    requires forall i :: 0 <= i < |d.top| ==> at + |r| <= d.top[i].at
    requires |d.tables| + 1 <= |s|
    requires
      var e := Read(r + s, at);
      e.Some? ==> (if e.value.top == [] then |e.value.tables| > |s| else e.value.top[0].at < at + |r|)
    ensures Read(r + s, at) != Some(Remainder(d, path))
  {
    hide Read;
    var w := Remainder(d, path);
    if w.top != [] {
      assert w.top[0] in w.top;
    }
  }

  lemma OtherStays(b: seq<string>, s: seq<string>, at: nat, h: Head)
    requires b != [] && !IsTable(b[0]) && !IsBlank(b[0]) && ReadHead(b + s) == Some(h) && h.more == |b| - 1
    ensures Read(b + s, at) == With(Stmt(at, h.path, [h.rest] + b[1..]), Read(s, at + |b|))
  {
    hide IsBlank, IsTable, ReadHead;
    assert (b + s)[0] == b[0] && (b + s)[1..|b|] == b[1..] && (b + s)[|b|..] == s;
  }

  /** A changed line of another statement shows. */
  lemma OtherChanged(b: seq<string>, r: seq<string>, s: seq<string>, at: nat, h: Head, w: Doc)
    requires b != [] && !IsBlank(b[0]) && |r| == |b| == h.more + 1 && r != b
    requires forall i :: 0 <= i < |b| ==> r[i] == b[i] || IsBlank(r[i])
    ensures Read(r + s, at) != Some(Doc([Stmt(at, h.path, [h.rest] + b[1..])] + w.top, w.tables))
  {
    hide IsBlank, IsTable, ReadHead;
    var all, st := r + s, Stmt(at, h.path, [h.rest] + b[1..]);
    assert all[0] == r[0];
    var e := Read(all, at);
    if e == Some(Doc([st] + w.top, w.tables)) {
      assert e.value.top[0] == st;
      if IsBlank(r[0]) {
        BlankIsNoTable(r[0]);
        ReadBounds(all[1..], at + 1);
        assert false;
      }
      var n := ReadHead(all).value.more + 1;
      assert st.text == [ReadHead(all).value.rest] + all[1..n];
      assert n == |b|;
      forall i | 0 <= i < |b|
        ensures r[i] == b[i]
      {
        assert i > 0 ==> st.text[i] == all[i] == r[i] && st.text[i] == b[i];
      }
    }
  }

  // ---- the forced line ----

  /** A reader takes the forced line for an assignment of the path exactly if the key's text names it. */
  lemma ForcedLineReads(key: string, value: string, path: seq<string>)
    ensures ReadKey(ForcedLine(key, value)) == Some((path, " " + Quoted(value))) <==> KeyPath(key) == Some(path)
  {
    hide ReadPath, Quoted, SkipWs;
    var t := " = " + Quoted(value);
    assert ForcedLine(key, value) == key + t;
    assert t[0] == ' ' && t[1] == '=' && t[1..][1..] == " " + Quoted(value);
    BlankBefore(t);
    PathAppend(key, t);
  }

  lemma BlankBefore(t: string)
    ensures |t| > 1 && t[0] == ' ' && t[1] == '=' ==> SkipWs(t) == t[1..]
  {
    if |t| > 1 && t[1] == '=' {
      assert t[1..][0] == '=';
    }
  }

  /** The text after the sign is a whole value, unless it holds a control character. */
  lemma ForcedTextReads(value: string)
    ensures !IsBlank(" " + Quoted(value))
    ensures Scan(NOTHING, " " + Quoted(value)) == if Clean(value) then Some(NOTHING) else None
    ensures Clean(value) ==> BasicValue(Stmt(0, [], [" " + Quoted(value)])) == Some(value)
  {
    hide Escape, ReadString;
    var q, v := Quoted(value), " " + Quoted(value);
    assert v[1..] == q && q[0] == '"' && SkipWs(v) == q;
    assert q[1..] == Escape(value) + "\"" + "";
    ReadEscaped(value, "");
    QuotedIsNotTriple(value);
    assert Scan(NOTHING, v) == Scan(NOTHING, q);
    assert Scan(NOTHING, "") == Some(NOTHING) && IsBlank("");
  }

  lemma QuotedIsNotTriple(value: string)
    ensures !Triple(Quoted(value), '"', false)
  {
    if value != "" {
      assert Quoted(value)[1] == EscapeChar(value[0])[0];
    }
  }

  lemma ForcedLineSpeaks(key: string, value: string)
    requires KeyPath(key).Some?
    ensures !IsTable(ForcedLine(key, value)) && !IsBlank(ForcedLine(key, value))
  {
    hide IsTable, IsBlank, Quoted;
    assert ForcedLine(key, value) == key + (" = " + Quoted(value));
    LineSpeaks(key, " = " + Quoted(value));
  }

  /** A line that starts with the text of a key is a statement. */
  lemma LineSpeaks(key: string, t: string)
    requires KeyPath(key).Some?
    ensures !IsTable(key + t) && !IsBlank(key + t)
  {
    hide ReadPath, ReadSimple;
    SkipAppend(key, t);
    PathMeans(key);
    PartBegins(SkipWs(key));
    assert SkipWs(key) != "" ==> SkipWs(key + t)[0] == SkipWs(key)[0];
  }

  lemma PartBegins(s: string)
    ensures ReadSimple(s).Some? ==> s != "" && s[0] != '[' && s[0] != '#' && s[0] != '\r'
  {
  }

  /** What the whole rewritten text says. */
  lemma ForcedReads(toml: string, key: string, value: string, path: seq<string>)
    requires KeyPath(key) == Some(path)
    ensures Read(Split(Forced(toml, key, value)), 0)
      == if Clean(value) then With(Stmt(0, path, [" " + Quoted(value)]), After(Split(toml), key, false, 1)) else None
  {
    hide *;
    var line, rest := ForcedLine(key, value), Rewrite(Split(toml), key, false) + [""];
    ForcedLines(toml, key, value);
    KeyHasNoBreak(key);
    OneLine(key, value);
    ForcedLineReads(key, value, path);
    ForcedLineSpeaks(key, value);
    ForcedTextReads(value);
    FirstLineReads(line, rest, path, " " + Quoted(value), Clean(value));
    AfterIs(Split(toml), key);
  }

  lemma AfterIs(ls: seq<string>, key: string)
    ensures After(ls, key, false, 1) == Read(Rewrite(ls, key, false) + [""], 1)
  {
  }

  lemma FirstLineReads(line: string, rest: seq<string>, path: seq<string>, text: string, ok: bool)
    requires !IsTable(line) && !IsBlank(line) && ReadKey(line) == Some((path, text)) && !IsBlank(text)
    requires Scan(NOTHING, text) == if ok then Some(NOTHING) else None
    ensures Read([line] + rest, 0) == if ok then With(Stmt(0, path, [text]), Read(rest, 1)) else None
  {
    hide IsTable, IsBlank, ReadKey, Scan;
    var ls := [line] + rest;
    assert ls[0] == line && ls[1..] == rest;
    assert ls[1..1] == [] && [text] + [] == [text];
  }

  lemma OneLine(key: string, value: string)
    requires '\n' !in key
    ensures Split(ForcedLine(key, value)) == [ForcedLine(key, value)]
  {
    hide Escape, Split;
    SplitOne(ForcedLine(key, value));
  }

  // ---- main results ----

  /**
   * Forcing a key is right if and only if the code's line test agrees with the reader and the
   * value holds no control character that q leaves alone: the result then reads as the forced
   * statement, every other statement with its text and place, and the same tables.
   */
  lemma ForcedMeansWanted(toml: string, key: string, value: string, path: seq<string>)
    requires KeyPath(key) == Some(path) && Read(Split(toml), 1).Some?
    ensures Read(Split(Forced(toml, key, value)), 0) == Some(Wanted(Read(Split(toml), 1).value, path, value))
      <==> Clean(value) && Agrees(Split(toml), key, path, false)
    ensures Clean(value) ==> BasicValue(Stmt(0, path, [" " + Quoted(value)])) == Some(value)
  {
    hide *;
    var d := Read(Split(toml), 1).value;
    ForcedReads(toml, key, value, path);
    RewriteReads(Split(toml), key, path, false, 1);
    ForcedTextReads(value);
    SameValue(" " + Quoted(value), path);
    WantedIs(d, path, value, After(Split(toml), key, false, 1));
  }

  lemma SameValue(text: string, path: seq<string>)
    ensures BasicValue(Stmt(0, path, [text])) == BasicValue(Stmt(0, [], [text]))
  {
  }

  lemma WantedIs(d: Doc, path: seq<string>, value: string, e: Option<Doc>)
    ensures With(Stmt(0, path, [" " + Quoted(value)]), e) == Some(Wanted(d, path, value))
      <==> e == Some(Remainder(d, path))
  {
    hide Remainder, Quoted;
    var st, r := Stmt(0, path, [" " + Quoted(value)]), Remainder(d, path);
    if e.Some? {
      assert ([st] + e.value.top)[1..] == e.value.top && ([st] + r.top)[1..] == r.top;
    }
  }

  // ---- a condition that is easy to check ----

  /** No quote stands before the line's first sign. */
  predicate Unquoted(line: string) {
    forall c :: c in BeforeEquals(line) ==> !IsQuote(c)
  }

  /** A bare key in quotes of either kind, then blanks and the sign. */
  predicate QuotedBare(line: string) {
    var s := SkipWs(line);
    s != "" && IsQuote(s[0]) &&
    var k := BarePart(s[1..]);
    k.0 != "" && k.1 != "" && k.1[0] == s[0] &&
    var rest := SkipWs(k.1[1..]);
    rest != "" && rest[0] == '='
  }

  /** Every statement before the first table takes one line, and its key is unquoted, or a bare one in quotes. */
  predicate Simple(ls: seq<string>)
    decreases |ls|
  {
    if ls == [] || IsTable(ls[0]) then true
    else
      && (!IsBlank(ls[0]) ==>
           && ReadHead(ls).Some? && ReadHead(ls).value.more == 0
           && (Unquoted(ls[0]) || QuotedBare(ls[0])))
      && Simple(ls[1..])
  }

  lemma {:induction false} BeforeSkip(s: string)
    ensures |BeforeEquals(s)| - |BeforeEquals(SkipWs(s))| == |s| - |SkipWs(s)|
    ensures forall c :: c in BeforeEquals(SkipWs(s)) ==> c in BeforeEquals(s)
  {
    if s != "" && IsWs(s[0]) {
      BeforeSkip(s[1..]);
    }
  }

  lemma {:induction false} BeforePrefix(s: string, p: string)
    requires p <= s && '=' in p
    ensures BeforeEquals(p) == BeforeEquals(s)
  {
    assert p[0] == s[0];
    if p[0] != '=' {
      assert p == [p[0]] + p[1..];
      BeforePrefix(s[1..], p[1..]);
    }
  }

  lemma {:induction false} DropEndKeeps(s: string, i: nat)
    requires i < |s| && !IsSpace(s[i])
    ensures |DropEnd(s, IsSpace)| > i
  {
    if IsSpace(s[|s| - 1]) {
      DropEndKeeps(s[..|s| - 1], i);
    }
  }

  /** The code looks for the key before the first sign of the line. */
  lemma KeyIsLeft(line: string)
    requires SkipWs(line) != "" && !IsSpace(SkipWs(line)[0]) && '=' in SkipWs(line)
    ensures '=' in Trim(line) && Trim(line) != "" && Trim(line)[0] == SkipWs(line)[0]
    ensures KeyOf(line) == TrimBy(Trim(BeforeEquals(SkipWs(line))), IsQuote)
  {
    hide SkipWs, BeforeEquals, DropStart, DropEnd;
    var s := SkipWs(line);
    TrimStart(line);
    var n := |BeforeEquals(s)|;
    assert s[n] == '=';
    DropEndKeeps(s, n);
    assert Trim(line) == DropEnd(s, IsSpace) && Trim(line)[n] == '=';
    BeforePrefix(s, Trim(line));
  }

  /** A bare part, the blanks after it, and what stands there. */
  lemma PartThenSign(s: string)
    requires s != "" && IsBare(s[0])
    ensures
      var p := BarePart(s);
      var rest := SkipWs(p.1);
      && (rest != "" && rest[0] == '=' ==> Trim(BeforeEquals(s)) == p.0)
      && (rest != "" && rest[0] == '.' && '=' in s ==> '.' in BeforeEquals(s))
  {
    hide Trim, SkipWs;
    var p := BarePart(s);
    BeforeBare(s);
    BeforeBlanks(p.1);
    BareStarts(s);
    var rest := SkipWs(p.1);
    if rest != "" && rest[0] == '=' {
      TrimBare(p.0, BeforeEquals(p.1));
    }
  }

  lemma {:induction false} BeforeBare(s: string)
    ensures BeforeEquals(s) == BarePart(s).0 + BeforeEquals(BarePart(s).1)
    ensures '=' in s <==> '=' in BarePart(s).1
  {
    if s != "" && IsBare(s[0]) {
      assert s == [s[0]] + s[1..];
      BeforeBare(s[1..]);
    }
  }

  lemma {:induction false} BeforeBlanks(s: string)
    ensures
      var rest := SkipWs(s);
      && (rest != "" && rest[0] == '=' ==> forall c :: c in BeforeEquals(s) ==> IsWs(c))
      && (rest != "" && rest[0] == '.' ==> '.' in BeforeEquals(s))
  {
    if s != "" && IsWs(s[0]) {
      BeforeBlanks(s[1..]);
    }
  }

  lemma TrimBare(b: string, w: string)
    requires b != "" && (forall c :: c in b ==> IsBare(c)) && forall c :: c in w ==> IsWs(c)
    ensures Trim(b + w) == b
  {
    hide DropStart, DropEnd, IsSpace;
    assert b[0] in b && b[|b| - 1] in b;
    BareIsNoSpace(b[0]);
    BareIsNoSpace(b[|b| - 1]);
    DropBlanks(w);
    DropEndAppend(b, w, IsSpace);
    Stays(b + w, IsSpace);
    Stays(b, IsSpace);
  }

  lemma Stays(s: string, p: char -> bool)
    ensures s == "" || !p(s[0]) ==> DropStart(s, p) == s
    ensures s == "" || !p(s[|s| - 1]) ==> DropEnd(s, p) == s
  {
  }

  lemma {:induction false} DropEndAppend(a: string, b: string, p: char -> bool)
    ensures DropEnd(a + b, p) == if DropEnd(b, p) == "" then DropEnd(a, p) else a + DropEnd(b, p)
  {
    if b == "" {
      assert a + b == a;
    } else {
      var s := a + b;
      assert s[..|s| - 1] == a + b[..|b| - 1] && s[|s| - 1] == b[|b| - 1];
      DropEndAppend(a, b[..|b| - 1], p);
    }
  }

  lemma {:induction false} DropBlanks(w: string)
    requires forall c :: c in w ==> IsWs(c)
    ensures DropEnd(w, IsSpace) == ""
  {
    if w != "" {
      assert w[|w| - 1] in w;
      DropBlanks(w[..|w| - 1]);
    }
  }

  lemma {:induction false} TrimByKeeps(s: string, p: char -> bool, c: char)
    requires c in s && !p(c)
    ensures c in TrimBy(s, p)
  {
    var i :| 0 <= i < |s| && s[i] == c;
    StartKeeps(s, p, c);
    EndKeeps(DropStart(s, p), p, c);
  }

  lemma {:induction false} StartKeeps(s: string, p: char -> bool, c: char)
    requires c in s && !p(c)
    ensures c in DropStart(s, p)
  {
    if p(s[0]) {
      assert s == [s[0]] + s[1..];
      StartKeeps(s[1..], p, c);
    }
  }

  lemma {:induction false} EndKeeps(s: string, p: char -> bool, c: char)
    requires c in s && !p(c)
    ensures c in DropEnd(s, p)
  {
    var n := |s| - 1;
    if p(s[n]) {
      assert s == s[..n] + [s[n]];
      EndKeeps(s[..n], p, c);
    }
  }

  lemma BareIsUntrimmed(s: string)
    requires s == "" || !IsQuote(s[0])
    requires s == "" || !IsQuote(s[|s| - 1])
    ensures TrimBy(s, IsQuote) == s
  {
    hide DropStart, DropEnd;
    Stays(s, IsQuote);
  }

  /** On an unquoted line the code's test and the reader see the same key. */
  lemma UnquotedAgrees(line: string, key: string)
    requires ReadKey(line).Some? && Unquoted(line) && BareKey(key)
    ensures !IsHeader(line) && (Assigns(line, key) <==> ReadKey(line).value.0 == [key])
  {
    hide ReadPath, Trim, TrimBy, BeforeEquals, BarePart, SkipWs, IsSpace;
    var s := SkipWs(line);
    FirstPart(line);
    BareIsNoSpace(s[0]);
    KeyIsLeft(line);
    PartThenSign(s);
    var v := BarePart(s).0;
    assert v[0] in v && v[|v| - 1] in v;
    BareIsUntrimmed(v);
    if |ReadKey(line).value.0| > 1 {
      var b := BeforeEquals(s);
      TrimByKeeps(b, IsSpace, '.') by { DotIsNoSpace(); }
      TrimByKeeps(Trim(b), IsQuote, '.') by { TrimIs(b); }
      assert '.' in KeyOf(line);
    }
  }

  /** So do they on a line whose key is a bare one in quotes. */
  lemma QuotedAgrees(line: string, key: string)
    requires QuotedBare(line)
    ensures ReadKey(line).Some? && !IsHeader(line)
    ensures Assigns(line, key) <==> ReadKey(line).value.0 == [key]
  {
    hide ReadPath, Trim, TrimBy, BeforeEquals, BarePart, SkipWs, IsSpace;
    var s := SkipWs(line);
    var k := BarePart(s[1..]);
    assert s == [s[0]] + k.0 + [s[0]] + k.1[1..];
    QuotedReads(line, s[0], k.0, k.1[1..]);
    QuotedLeft(s[0], k.0, k.1[1..]);
    QuoteIsNoSpace(s[0]);
    KeyIsLeft(line);
  }

  lemma QuoteIsNoSpace(c: char)
    ensures IsQuote(c) ==> !IsSpace(c) && !IsBare(c) && c != '=' && c != '[' && c != '#'
  {
  }

  lemma QuotedReads(line: string, c: char, k: string, t: string)
    requires SkipWs(line) == [c] + k + [c] + t && IsQuote(c) && forall x :: x in k ==> IsBare(x)
    requires SkipWs(t) != "" && SkipWs(t)[0] == '='
    ensures ReadKey(line) == Some(([k], SkipWs(t)[1..]))
  {
    hide SkipWs, ReadString, ReadLiteral;
    var s := SkipWs(line);
    assert s[1..] == k + [c] + t;
    if c == '"' {
      BareString(k, t);
    } else {
      BareLiteral(k, t);
    }
    assert ReadSimple(s) == Some((k, t));
  }

  lemma {:induction false} BareString(k: string, t: string)
    requires forall x :: x in k ==> IsBare(x)
    ensures ReadString(k + ['"'] + t) == Some((k, t))
  {
    var s := k + ['"'] + t;
    if k == "" {
      assert s[1..] == t;
    } else {
      assert s[1..] == k[1..] + ['"'] + t && k == [k[0]] + k[1..];
      BareIsPlainChar(k[0]);
      BareString(k[1..], t);
    }
  }

  lemma BareIsPlainChar(c: char)
    ensures IsBare(c) ==> !Control(c) && c != '"' && c != '\\' && c != '\'' && !IsQuote(c) && c != '='
  {
  }

  lemma {:induction false} BareLiteral(k: string, t: string)
    requires forall x :: x in k ==> IsBare(x)
    ensures ReadLiteral(k + ['\''] + t) == Some((k, t))
  {
    var s := k + ['\''] + t;
    if k == "" {
      assert s[1..] == t;
    } else {
      assert s[1..] == k[1..] + ['\''] + t && k == [k[0]] + k[1..];
      BareIsPlainChar(k[0]);
      BareLiteral(k[1..], t);
    }
  }

  /** What the code takes for the key of such a line. */
  lemma QuotedLeft(c: char, k: string, t: string)
    requires IsQuote(c) && k != "" && (forall x :: x in k ==> IsBare(x)) && SkipWs(t) != "" && SkipWs(t)[0] == '='
    ensures
      var s := [c] + k + [c] + t;
      '=' in s && TrimBy(Trim(BeforeEquals(s)), IsQuote) == k
  {
    hide Trim, TrimBy, SkipWs, BeforeEquals;
    var w, q := BeforeEquals(t), [c] + k + [c];
    SignAhead(t);
    QuotedHasNoSign(c, k);
    SignLater(q, t);
    BeforeBlanks(t);
    QuoteIsNoSpace(c);
    TrimEnds(q, w);
    TrimQuotes(c, k);
  }

  lemma {:induction false} SignAhead(t: string)
    requires SkipWs(t) != "" && SkipWs(t)[0] == '='
    ensures '=' in t
  {
    if IsWs(t[0]) {
      SignAhead(t[1..]);
    }
  }

  lemma QuotedHasNoSign(c: char, k: string)
    requires IsQuote(c) && forall x :: x in k ==> IsBare(x)
    ensures '=' !in [c] + k + [c]
  {
    QuoteIsNoSpace(c);
  }

  lemma {:induction false} SignLater(a: string, t: string)
    requires '=' !in a
    ensures BeforeEquals(a + t) == a + BeforeEquals(t)
  {
    if a == "" {
      assert a + t == t;
    } else {
      assert a == [a[0]] + a[1..] && (a + t)[1..] == a[1..] + t;
      SignLater(a[1..], t);
    }
  }

  lemma TrimEnds(b: string, w: string)
    requires b != "" && !IsSpace(b[0]) && !IsSpace(b[|b| - 1]) && forall c :: c in w ==> IsWs(c)
    ensures Trim(b + w) == b
  {
    hide DropStart, DropEnd, IsSpace;
    DropBlanks(w);
    DropEndAppend(b, w, IsSpace);
    Stays(b + w, IsSpace);
    Stays(b, IsSpace);
  }

  lemma TrimQuotes(c: char, k: string)
    requires IsQuote(c) && k != "" && forall x :: x in k ==> IsBare(x)
    ensures TrimBy([c] + k + [c], IsQuote) == k
  {
    hide DropStart, DropEnd, IsQuote, IsBare;
    assert k[0] in k && k[|k| - 1] in k;
    BareIsPlainChar(k[0]);
    BareIsPlainChar(k[|k| - 1]);
    OneDropped(c, k, IsQuote);
    Stays(k, IsQuote);
  }

  /** One character of p at either end of a text that needs no trimming. */
  lemma OneDropped(c: char, k: string, p: char -> bool)
    requires p(c) && k != "" && !p(k[0]) && !p(k[|k| - 1])
    ensures TrimBy([c] + k + [c], p) == k
  {
    FirstDropped(c, k + [c], p);
    assert [c] + (k + [c]) == [c] + k + [c];
    LastDropped(c, k, p);
  }

  lemma FirstDropped(c: char, t: string, p: char -> bool)
    requires p(c) && t != "" && !p(t[0])
    ensures DropStart([c] + t, p) == t
  {
    assert ([c] + t)[1..] == t;
  }

  lemma LastDropped(c: char, k: string, p: char -> bool)
    requires p(c) && k != "" && !p(k[|k| - 1])
    ensures DropEnd(k + [c], p) == k
  {
    assert (k + [c])[..|k|] == k;
  }

  lemma BareIsNoSpace(c: char)
    ensures IsBare(c) ==> !IsSpace(c)
  {
  }

  lemma DotIsNoSpace()
    ensures !IsSpace('.')
  {
  }

  lemma TrimIs(s: string)
    ensures Trim(s) == TrimBy(s, IsSpace)
  {
  }

  /** An unquoted key starts with a bare part, and is that part alone or goes on with a dot. */
  lemma FirstPart(line: string)
    requires ReadKey(line).Some? && Unquoted(line)
    ensures
      var s := SkipWs(line);
      && s != "" && IsBare(s[0]) && '=' in s && BarePart(s).0 != ""
      && var rest := SkipWs(BarePart(s).1);
         && rest != "" && (rest[0] == '=' || rest[0] == '.')
         && (rest[0] == '=' ==> ReadKey(line).value.0 == [BarePart(s).0])
         && (rest[0] == '.' ==> |ReadKey(line).value.0| > 1)
  {
    hide ReadPath, SkipWs, BarePart, ReadString, ReadLiteral;
    var s := SkipWs(line);
    PathMeans(line);
    BeforeSkip(line);
    PathHasSign(line);
    SignSkip(line);
    FirstIsLeft(s);
    BareStarts(s);
  }

  lemma FirstIsLeft(s: string)
    ensures s != "" && s[0] != '=' ==> s[0] in BeforeEquals(s)
  {
  }

  lemma BareStarts(s: string)
    ensures s != "" && IsBare(s[0]) ==> BarePart(s).0 != ""
  {
  }

  lemma {:induction false} SignSkip(s: string)
    ensures '=' in s ==> '=' in SkipWs(s)
  {
    if s != "" && IsWs(s[0]) {
      assert s == [s[0]] + s[1..];
      SignSkip(s[1..]);
    }
  }

  lemma PathHasSign(line: string)
    ensures ReadKey(line).Some? ==> '=' in line
  {
    hide ReadSimple, SkipWs;
    if ReadKey(line).Some? {
      PathRest(line);
    }
  }

  lemma {:induction false} PathRest(s: string)
    ensures ReadPath(s).Some? ==> forall c :: c in ReadPath(s).value.1 ==> c in s
    decreases |s|
  {
    hide ReadSimple, SkipWs;
    RestWithin(s);
    var k := ReadSimple(SkipWs(s));
    if k.Some? {
      RestWithin(k.value.1);
      PartWithin(SkipWs(s));
      var rest := SkipWs(k.value.1);
      if rest != "" && rest[0] == '.' {
        PathRest(rest[1..]);
      }
    }
  }

  lemma {:induction false} RestWithin(s: string)
    ensures forall c :: c in SkipWs(s) ==> c in s
  {
    if s != "" && IsWs(s[0]) {
      RestWithin(s[1..]);
    }
  }

  lemma PartWithin(s: string)
    ensures ReadSimple(s).Some? ==> forall c :: c in ReadSimple(s).value.1 ==> c in s
  {
    if s != "" {
      StringWithin(s[1..]);
      LiteralWithin(s[1..]);
      assert s == BarePart(s).0 + BarePart(s).1;
    }
  }

  lemma {:induction false} StringWithin(s: string)
    ensures ReadString(s).Some? ==> forall c :: c in ReadString(s).value.1 ==> c in s
    decreases |s|
  {
    hide ReadEscape, ReadString;
    StringMeans(s);
    if s != "" && s[0] != '"' {
      var e := ReadEscape(s[1..]);
      if s[0] != '\\' {
        StringWithin(s[1..]);
      } else if e.Some? {
        StringWithin(s[1 + e.value.1..]);
      }
    }
  }

  lemma {:induction false} LiteralWithin(s: string)
    ensures ReadLiteral(s).Some? ==> forall c :: c in ReadLiteral(s).value.1 ==> c in s
  {
    if s != "" && s[0] != '\'' {
      LiteralWithin(s[1..]);
    }
  }

  /** Forcing a bare key is right on every configuration of one-line statements with such keys. */
  lemma {:induction false} SimpleAgrees(ls: seq<string>, key: string)
    requires BareKey(key) && Simple(ls)
    ensures Agrees(ls, key, [key], false)
    decreases |ls|
  {
    hide IsHeader, Assigns, IsTable, IsBlank, ReadKey, Scan, Unquoted, QuotedBare;
    if ls != [] && !IsTable(ls[0]) {
      SimpleAgrees(ls[1..], key);
      if !IsBlank(ls[0]) {
        if Unquoted(ls[0]) {
          UnquotedAgrees(ls[0], key);
        } else {
          QuotedAgrees(ls[0], key);
        }
        var b := ls[..1];
        assert b[0] == ls[0] && !Passed(b, false);
      }
    }
  }

  // ---- forcing again ----

  function Lower(top: seq<Stmt>): seq<Stmt> {
    if top == [] then [] else [top[0].(at := top[0].at + 1)] + Lower(top[1..])
  }

  /** The same statements one line further down, and one more line break after the tables. */
  function Below(d: Option<Doc>): Option<Doc> {
    if d.None? then None
    else Some(Doc(Lower(d.value.top), if d.value.tables == [] then [] else d.value.tables + [""]))
  }

  lemma BelowWith(st: Stmt, d: Option<Doc>)
    ensures Below(With(st, d)) == With(st.(at := st.at + 1), Below(d))
  {
    if d.Some? {
      assert ([st] + d.value.top)[1..] == d.value.top;
    }
  }

  lemma {:induction false} ExtentSnoc(p: Pending, ls: seq<string>)
    ensures Extent(p, ls + [""]) == Extent(p, ls)
    decreases |ls|
  {
    hide Scan;
    if !p.Closed() {
      if ls == [] {
        assert [] + [""] == [""] && [""][1..] == [];
        NeverCloses(p);
      } else {
        assert (ls + [""])[0] == ls[0] && (ls + [""])[1..] == ls[1..] + [""];
        if Scan(p, ls[0]).Some? {
          ExtentSnoc(Scan(p, ls[0]).value, ls[1..]);
        }
      }
    }
  }

  /** An empty line closes nothing. */
  lemma NeverCloses(p: Pending)
    ensures Scan(p, "").Some? ==> Scan(p, "").value == p
  {
  }

  lemma HeadSnoc(ls: seq<string>)
    requires ls != []
    ensures ReadHead(ls + [""]) == ReadHead(ls)
  {
    hide Scan, ReadKey, IsBlank;
    assert (ls + [""])[0] == ls[0] && (ls + [""])[1..] == ls[1..] + [""];
    var k := ReadKey(ls[0]);
    if k.Some? && Scan(NOTHING, k.value.1).Some? {
      ExtentSnoc(Scan(NOTHING, k.value.1).value, ls[1..]);
    }
  }

  /** A blank line at the end, and a start one line further down, change nothing else. */
  lemma {:induction false} ReadBelow(ls: seq<string>, at: nat)
    ensures Read(ls + [""], at + 1) == Below(Read(ls, at))
    decreases |ls|
  {
    hide ReadHead, IsTable, IsBlank, Read;
    var all := ls + [""];
    ReadMeans(ls, at);
    ReadMeans(all, at + 1);
    if ls == [] {
      EmptyIsBlank();
      ReadMeans([], at + 2);
      assert all == [""] && all[1..] == [];
    } else {
      assert all[0] == ls[0] && all[1..] == ls[1..] + [""];
      HeadSnoc(ls);
      if !IsTable(ls[0]) && IsBlank(ls[0]) {
        ReadBelow(ls[1..], at + 1);
      } else if !IsTable(ls[0]) && ReadHead(ls).Some? {
        var h := ReadHead(ls).value;
        var n := h.more + 1;
        assert all[n..] == ls[n..] + [""] && all[1..n] == ls[1..n];
        ReadBelow(ls[n..], at + n);
        BelowWith(Stmt(at, h.path, [h.rest] + ls[1..n]), Read(ls[n..], at + n));
      }
    }
  }

  /** The definition, one statement at a time. */
  lemma ReadMeans(ls: seq<string>, at: nat)
    ensures ls == [] ==> Read(ls, at) == Some(Doc([], []))
    ensures ls != [] && IsTable(ls[0]) ==> Read(ls, at) == Some(Doc([], ls))
    ensures ls != [] && !IsTable(ls[0]) && IsBlank(ls[0]) ==> Read(ls, at) == Read(ls[1..], at + 1)
    ensures ls != [] && !IsTable(ls[0]) && !IsBlank(ls[0]) ==>
      var h := ReadHead(ls);
      Read(ls, at) == if h.None? then None
        else With(Stmt(at, h.value.path, [h.value.rest] + ls[1..h.value.more + 1]),
                  Read(ls[h.value.more + 1..], at + h.value.more + 1))
  {
    hide ReadHead, IsTable, IsBlank;
  }

  lemma EmptyIsBlank()
    ensures IsBlank("") && !IsTable("")
  {
  }

  /** A second rewrite finds nothing more. */
  lemma {:induction false} RewriteTwice(ls: seq<string>, key: string, inTable: bool)
    ensures Rewrite(Rewrite(ls, key, inTable) + [""], key, inTable) == Rewrite(ls, key, inTable) + [""]
  {
    hide IsHeader, Assigns, Rewrite, Found;
    var once := Rewrite(ls, key, inTable) + [""];
    RewriteFirstLine(ls, key, inTable);
    RewriteFirstLine(once, key, inTable);
    if ls == [] {
      EmptyIsIdle(key);
      assert once == [""] && once[1..] == [];
      RewriteFirstLine([], key, inTable || IsHeader(""));
    } else {
      var t := inTable || IsHeader(ls[0]);
      RewriteTwice(ls[1..], key, t);
      CommentIsIdle(ls[0], key);
      assert once[0] == Rewrite(ls, key, inTable)[0];
      assert once[1..] == Rewrite(ls[1..], key, t) + [""];
      var twice := Rewrite(once, key, inTable);
      assert twice == [twice[0]] + twice[1..] && once == [once[0]] + once[1..];
    }
  }

  lemma EmptyIsIdle(key: string)
    ensures !Assigns("", key)
  {
  }

  lemma CommentIsIdle(line: string, key: string)
    ensures !IsHeader("# " + line) && !Assigns("# " + line, key)
  {
    hide IsHeader, Assigns, IsBlank;
    BlankIsIdle(line, key);
    BlankIsIdle("# " + line, key);
  }

  /** A bare forced line is one the code finds again. */
  lemma ForcedIsFound(key: string, value: string)
    requires BareKey(key)
    ensures !IsHeader(ForcedLine(key, value)) && Assigns(ForcedLine(key, value), key)
  {
    hide IsHeader, Assigns, Quoted, ReadPath, BeforeEquals;
    BareNamesItself(key);
    ForcedLineReads(key, value, [key]);
    ForcedLeft(key, value);
    UnquotedAgrees(ForcedLine(key, value), key);
  }

  lemma ForcedLeft(key: string, value: string)
    requires BareKey(key)
    ensures Unquoted(ForcedLine(key, value))
  {
    hide Quoted;
    assert ForcedLine(key, value) == (key + " ") + ("=" + (" " + Quoted(value)));
    LeftAppend(key + " ", "=" + (" " + Quoted(value)));
  }

  lemma {:induction false} LeftAppend(a: string, b: string)
    requires '=' !in a && b != "" && b[0] == '='
    ensures BeforeEquals(a + b) == a
  {
    if a == "" {
      assert a + b == b;
    } else {
      assert (a + b)[0] == a[0] && (a + b)[1..] == a[1..] + b;
      LeftAppend(a[1..], b);
    }
  }

  /** The same first statement, and the others one line further down. */
  predicate OneLower(once: Option<Doc>, twice: Option<Doc>) {
    if once.None? then twice.None?
    else
      && twice.Some? && once.value.top != []
      && twice.value.top == [once.value.top[0]] + Lower(once.value.top[1..])
      && twice.value.tables == if once.value.tables == [] then [] else once.value.tables + [""]
  }

  /** For a bare key, forcing twice reads as forcing the second time alone, one line further down. */
  lemma ForcedTwice(toml: string, key: string, first: string, second: string)
    requires BareKey(key)
    ensures OneLower(Read(Split(Forced(toml, key, second)), 0),
                     Read(Split(Forced(Forced(toml, key, first), key, second)), 0))
  {
    hide *;
    var once := Forced(toml, key, first);
    BareNamesItself(key);
    ForcedReads(toml, key, second, [key]);
    ForcedReads(once, key, second, [key]);
    TwiceAfter(toml, key, first);
    TwiceRead(Stmt(0, [key], [" " + Quoted(second)]), After(Split(toml), key, false, 1), Clean(second));
  }

  lemma TwiceRead(st: Stmt, e: Option<Doc>, clean: bool)
    ensures OneLower(if clean then With(st, e) else None, if clean then With(st, Below(e)) else None)
  {
    if e.Some? {
      assert ([st] + e.value.top)[1..] == e.value.top;
    }
  }

  lemma TwiceAfter(toml: string, key: string, first: string)
    requires BareKey(key)
    ensures After(Split(Forced(toml, key, first)), key, false, 1) == Below(After(Split(toml), key, false, 1))
  {
    hide *;
    var line, rest := ForcedLine(key, first), Rewrite(Split(toml), key, false) + [""];
    ForcedLines(toml, key, first);
    BareNamesItself(key);
    KeyHasNoBreak(key);
    OneLine(key, first);
    ForcedIsFound(key, first);
    RewriteTwice(Split(toml), key, false);
    RewriteFirst(line, rest, key);
    BlankIsIdle(line, key);
    SkipBlanks(["# " + line], rest + [""], 1);
    assert (["# " + line] + rest) + [""] == ["# " + line] + (rest + [""]);
    ReadBelow(rest, 1);
    AfterIs(Split(Forced(toml, key, first)), key);
    AfterIs(Split(toml), key);
  }

  lemma RewriteFirst(line: string, rest: seq<string>, key: string)
    requires !IsHeader(line) && Assigns(line, key)
    ensures Rewrite([line] + rest, key, false) == ["# " + line] + Rewrite(rest, key, false)
  {
    hide IsHeader, Assigns;
    assert ([line] + rest)[1..] == rest;
  }
}
