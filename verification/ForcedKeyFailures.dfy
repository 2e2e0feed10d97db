/** Inputs on which forcing a key does not do what the caller wants. */
module ForcedKeyFailures {
  import opened Wrappers
  import opened TomlReader
  import opened TunnelToml
  import opened ForcedKey

  /** A reader's view of a line that assigns to a key's text. */
  lemma KeyLine(key: string, text: string, path: seq<string>)
    requires KeyPath(key) == Some(path)
    ensures
      var line := key + (" =" + text);
      ReadKey(line) == Some((path, text)) && !IsTable(line) && !IsBlank(line) && '\n' !in key
  {
    hide ReadPath, IsTable, IsBlank, SkipWs;
    var t := " =" + text;
    BlankBefore(t);
    PathAppend(key, t);
    LineSpeaks(key, t);
    KeyHasNoBreak(key);
    assert t[1..][1..] == text;
  }

  // ---- texts of given lines ----

  function Join(ls: seq<string>): string
    requires ls != []
  {
    if |ls| == 1 then ls[0] else ls[0] + "\n" + Join(ls[1..])
  }

  lemma {:induction false} SplitJoin(ls: seq<string>)
    requires ls != [] && forall i :: 0 <= i < |ls| ==> '\n' !in ls[i]
    ensures Split(Join(ls)) == ls
  {
    if |ls| == 1 {
      SplitOne(ls[0]);
      assert ls == [ls[0]];
    } else {
      SplitJoin(ls[1..]);
      SplitLine(ls[0], Join(ls[1..]));
      assert ls == [ls[0]] + ls[1..];
    }
  }

  predicate Plain(s: string) {
    forall c :: c in s ==> c != '\\' && c != '"' && c != '\t' && !Control(c)
  }

  lemma {:induction false} PlainEscape(s: string)
    requires Plain(s)
    ensures Escape(s) == s && Clean(s)
  {
    if s != "" {
      assert s == [s[0]] + s[1..] && s[0] in s && forall c :: c in s[1..] ==> c in s;
      PlainEscape(s[1..]);
    }
  }

  /** A quoted key of plain characters names them. */
  lemma QuotedKey(s: string)
    requires Plain(s)
    ensures KeyPath("\"" + s + "\"") == Some([s])
  {
    hide ReadString, Escape;
    var text := "\"" + s + "\"";
    PlainEscape(s);
    ReadEscaped(s, "");
    assert text[0] == '"' && text[1..] == Escape(s) + "\"" + "";
    assert SkipWs(text) == text && ReadSimple(text) == Some((s, "")) && SkipWs("") == "";
    PathFrom(text, s, "", "");
  }

  lemma BareIsPlain(key: string)
    requires BareKey(key)
    ensures Plain(key) && Plain(key + "=") && '=' !in key && KeyPath(key) == Some([key])
  {
    BareNamesItself(key);
  }

  // ---- another key's line is lost ----

  /** A line that assigns a quoted key in which a sign follows ours. */
  function Foreign(key: string, text: string): string {
    ("\"" + (key + "=") + "\"") + (" =" + text)
  }

  lemma ForeignIsFound(key: string)
    requires BareKey(key)
    ensures !IsHeader(Foreign(key, " 1")) && Assigns(Foreign(key, " 1"), key)
  {
    hide IsHeader, Assigns;
    assert Foreign(key, " 1") == ("\"" + key) + ("=" + ("\"" + (" =" + " 1")));
    QuotedIsFound(key, "\"" + (" =" + " 1"));
  }

  /** The test finds any line that starts with a quote, the key and a sign. */
  lemma QuotedIsFound(key: string, tail: string)
    requires BareKey(key) && tail != "" && !IsSpace(tail[|tail| - 1])
    ensures
      var line := ("\"" + key) + ("=" + tail);
      !IsHeader(line) && Assigns(line, key)
  {
    hide *;
    var left := "\"" + key;
    var line := left + ("=" + tail);
    BareIsPlain(key);
    NoSpaces(key);
    Untrimmed(line);
    Untrimmed(left);
    assert line[|left|] == '=';
    LeftAppend(left, "=" + tail);
    DropQuote(key);
    Unfolded(line, key);
  }

  lemma Untrimmed(s: string)
    ensures s == "" || (!IsSpace(s[0]) && !IsSpace(s[|s| - 1])) ==> Trim(s) == s
  {
    hide DropStart, DropEnd, IsSpace;
    Stays(s, IsSpace);
  }

  lemma Unfolded(line: string, key: string)
    ensures
      var t := Trim(line);
      t != "" ==>
        && (IsHeader(line) <==> t[0] == '[')
        && (Assigns(line, key) <==>
              t[0] != '#' && '=' in t && TrimBy(Trim(BeforeEquals(t)), IsQuote) == key)
  {
    hide Trim, TrimBy, BeforeEquals;
  }

  lemma NoSpaces(key: string)
    requires BareKey(key)
    ensures !IsSpace('"') && !IsSpace('1') && !IsSpace(key[|key| - 1])
  {
    assert key[|key| - 1] in key;
  }

  lemma DropQuote(key: string)
    requires BareKey(key)
    ensures TrimBy("\"" + key, IsQuote) == key
  {
    hide DropEnd, DropStart;
    assert key[0] in key && key[|key| - 1] in key;
    QuoteFirst("\"" + key);
    assert ("\"" + key)[1..] == key;
    Stays(key, IsQuote);
  }

  lemma QuoteFirst(s: string)
    requires s != "" && s[0] == '"'
    ensures TrimBy(s, IsQuote) == TrimBy(s[1..], IsQuote)
  {
    hide DropEnd;
  }

  /** The text assigns another key and nothing else; forcing ours removes that assignment. */
  lemma ForeignLineLost(key: string, value: string)
    requires BareKey(key) && Clean(value)
    ensures
      var toml := Foreign(key, " 1");
      && Read(Split(toml), 1) == Some(Doc([Stmt(1, [key + "="], [" 1"])], []))
      && Read(Split(Forced(toml, key, value)), 0) == Some(Doc([Stmt(0, [key], [" " + Quoted(value)])], []))
      && !Agrees(Split(toml), key, [key], false)
  {
    hide *;
    var toml := Foreign(key, " 1");
    BareIsPlain(key);
    QuotedKey(key + "=");
    KeyHasNoBreak(key);
    ForeignIs(key);
    KeyLine("\"" + (key + "=") + "\"", " 1", [key + "="]);
    SplitOne(toml);
    OneScan();
    FirstAt(toml, [], [key + "="], " 1", 1);
    ForeignIsFound(key);
    RewriteFirst(toml, [], key);
    NoMore(toml);
    BlankIsIdle(toml, key);
    SkipBlanks(["# " + toml, ""], [], 1);
    AfterIs(Split(toml), key);
    ForcedReads(toml, key, value, [key]);
    ForcedMeansWanted(toml, key, value, [key]);
    LostIs(key, value);
  }

  lemma ForeignIs(key: string)
    requires '\n' !in key
    ensures Foreign(key, " 1") == ("\"" + (key + "=") + "\"") + (" =" + " 1") && '\n' !in Foreign(key, " 1")
  {
  }

  lemma OneScan()
    ensures Scan(NOTHING, " 1") == Some(NOTHING) && !IsBlank(" 1")
  {
    assert " 1"[1..] == "1" && "1"[1..] == "";
    assert Scan(NOTHING, "") == Some(NOTHING);
    assert Scan(NOTHING, "1") == Scan(NOTHING, "");
    assert SkipWs(" 1") == SkipWs("1") == "1";
  }

  lemma FirstAt(line: string, rest: seq<string>, path: seq<string>, text: string, at: nat)
    requires !IsTable(line) && !IsBlank(line) && ReadKey(line) == Some((path, text)) && !IsBlank(text)
    requires Scan(NOTHING, text) == Some(NOTHING)
    ensures Read([line] + rest, at) == With(Stmt(at, path, [text]), Read(rest, at + 1))
    ensures rest == [] ==> Read([line], at) == Some(Doc([Stmt(at, path, [text])], []))
  {
    hide IsTable, IsBlank, ReadKey, Scan;
    var ls := [line] + rest;
    assert ls[0] == line && ls[1..] == rest;
    var st := Stmt(at, path, [text]);
    assert ls[1..1] == [] && [text] + [] == [text] && [st] + [] == [st];
    assert rest == [] ==> ls == [line] && Read(rest, at + 1) == Some(Doc([], []));
  }

  lemma NoMore(toml: string)
    ensures forall key :: Rewrite([], key, false) == []
    ensures ["# " + toml] + [] + [""] == ["# " + toml, ""] + [] && [toml] + [] == [toml]
    ensures Read([], 3) == Some(Doc([], [])) && IsBlank("")
  {
    EmptyIsBlank();
  }

  lemma LostIs(key: string, value: string)
    ensures With(Stmt(0, [key], [" " + Quoted(value)]), Some(Doc([], [])))
      == Some(Doc([Stmt(0, [key], [" " + Quoted(value)])], []))
    ensures Wanted(Doc([Stmt(1, [key + "="], [" 1"])], []), [key], value)
      != Doc([Stmt(0, [key], [" " + Quoted(value)])], [])
  {
    var f, st := Stmt(0, [key], [" " + Quoted(value)]), Stmt(1, [key + "="], [" 1"]);
    assert [f] + [] == [f];
    assert |key + "="| > |key| && st.path[0] == key + "=" && f.path[0] == key;
    assert [st][1..] == [] && Others([st], [key]) == [st] + [];
    assert |[f] + [st]| == 2;
  }

  // ---- a value over several lines ----

  function LongValue(key: string): seq<string> {
    [key + (" =" + " ["), "1", "]"]
  }

  /** Only the first line of a longer value goes; the rest is no TOML. */
  lemma LongValueLeftBehind(key: string, value: string)
    requires BareKey(key)
    ensures
      var toml := Join(LongValue(key));
      && Read(Split(toml), 1) == Some(Doc([Stmt(1, [key], [" [", "1", "]"])], []))
      && Read(Split(Forced(toml, key, value)), 0).None? && !Agrees(Split(toml), key, [key], false)
  {
    hide Read, IsTable, IsBlank, Agrees, After, ReadKey, IsHeader, Assigns, Split, Forced, Join;
    var ls := LongValue(key);
    BareIsPlain(key);
    KeyLine(key, " [", [key]);
    SplitJoin(ls);
    Brackets();
    ArrayReads(ls, key, 1);
    KeyLineIsFound(key, " [");
    RewriteReads(ls, key, [key], false, 1);
    LeftBehind(ls, key);
    ForcedReads(Join(ls), key, value, [key]);
  }

  lemma ArrayReads(ls: seq<string>, key: string, at: nat)
    requires |ls| >= 3 && ReadKey(ls[0]) == Some(([key], " [")) && !IsTable(ls[0]) && !IsBlank(ls[0])
    requires Scan(Pending("[", Inline), ls[1]) == Some(Pending("[", Inline)) && ls[2] == "]"
    ensures ReadHead(ls) == Some(Head([key], " [", 2))
    ensures Read(ls, at) == With(Stmt(at, [key], [" [", ls[1], ls[2]]), Read(ls[3..], at + 3))
    ensures |ls| == 3 ==> Read(ls, at) == Some(Doc([Stmt(at, [key], [" [", ls[1], ls[2]])], []))
  {
    hide ReadKey, IsTable, Scan, IsBlank;
    Brackets();
    var p, more := Pending("[", Inline), ls[1..];
    assert more[0] == ls[1] && more[1..][0] == ls[2];
    assert Extent(p, more[1..]) == Some(1) && Extent(p, more) == Some(2);
    assert ls[1..3] == [ls[1], ls[2]];
    var st := Stmt(at, [key], [" [", ls[1], ls[2]]);
    assert [" ["] + ls[1..3] == st.text && [st] + [] == [st];
    assert |ls| == 3 ==> ls[3..] == [];
  }

  lemma ScanStep(p: Pending, c: char, s: string)
    requires p.ml.Inline?
    ensures
      var t := [c] + s;
      && (c == '[' ==> Scan(p, t) == Scan(p.(nest := p.nest + [c]), s))
      && (c == ']' && p.nest != "" && p.nest[|p.nest| - 1] == '[' ==>
           Scan(p, t) == Scan(p.(nest := p.nest[..|p.nest| - 1]), s))
      && (IsBare(c) || c == ',' || IsWs(c) ==> Scan(p, t) == Scan(p, s))
    ensures p.MayBreak() ==> Scan(p, "") == Some(p)
  {
    assert ([c] + s)[1..] == s;
  }

  lemma Brackets()
    ensures Scan(NOTHING, " [") == Some(Pending("[", Inline)) && !IsBlank(" [")
    ensures Scan(Pending("[", Inline), "]") == Some(NOTHING)
    ensures Scan(Pending("[", Inline), "1") == Some(Pending("[", Inline))
    ensures Scan(Pending("[", Inline), "[1],") == Some(Pending("[", Inline))
  {
    hide Scan;
    var p, q := Pending("[", Inline), Pending("[[", Inline);
    assert "" + ['['] == "[" && "["[..0] == "" && "[" + ['['] == "[[" && "[["[..1] == "[";
    ScanStep(NOTHING, ' ', "[");
    ScanStep(NOTHING, '[', "");
    ScanStep(p, ']', "");
    ScanStep(p, '1', "");
    ScanStep(p, '[', "1],");
    ScanStep(q, '1', "],");
    ScanStep(q, ']', ",");
    ScanStep(p, ',', "");
    assert [' '] + "[" == " [" && ['['] + "" == "[" && [']'] + "" == "]" && ['1'] + "" == "1";
    assert ['['] + "1]," == "[1]," && ['1'] + "]," == "1]," && [']'] + "," == "]," && [','] + "" == ",";
    assert SkipWs(" [") == SkipWs("[") == "[";
  }

  lemma KeyLineIsFound(key: string, text: string)
    requires BareKey(key) && KeyPath(key) == Some([key])
    ensures !IsHeader(key + (" =" + text)) && Assigns(key + (" =" + text), key)
  {
    hide IsHeader, Assigns, BeforeEquals, ReadPath;
    KeyLine(key, text, [key]);
    UnquotedLeft(key, text);
    UnquotedAgrees(key + (" =" + text), key);
  }

  lemma UnquotedLeft(key: string, text: string)
    requires BareKey(key)
    ensures Unquoted(key + (" =" + text))
  {
    assert key + (" =" + text) == (key + " ") + ("=" + text);
    LeftAppend(key + " ", "=" + text);
  }

  lemma LeftBehind(ls: seq<string>, key: string)
    requires |ls| == 3 && !IsHeader(ls[0]) && Assigns(ls[0], key) && ls[1] == "1"
    ensures After(ls, key, false, 1).None?
  {
    hide IsHeader, Assigns, IsBlank, IsTable, ReadHead;
    var r := Rewrite(ls, key, false) + [""];
    RewriteAt(ls, key, false);
    BlankIsIdle(ls[0], key);
    OneIsNothing(key);
    assert ls[0] in ls;
    assert Found(ls, key, false, 0);
    assert r == [r[0]] + r[1..] && r[1..][0] == r[1] == "1";
    SkipBlanks([r[0]], r[1..], 1);
  }

  lemma OneIsNothing(key: string)
    ensures !Assigns("1", key) && !IsTable("1") && !IsBlank("1")
    ensures forall ls: seq<string> :: ls != [] && ls[0] == "1" ==> ReadHead(ls).None?
  {
    hide ReadHead, ReadPath, BarePart, DropStart, DropEnd;
    assert "1"[1..] == "" && SkipWs("1") == "1" && SkipWs("") == "";
    OneIsBare();
    PathFrom("1", "1", "", "");
    OneAssigns(key);
    forall ls: seq<string> | ls != [] && ls[0] == "1"
      ensures ReadHead(ls).None?
    {
      NoKeyNoHead(ls);
    }
  }

  lemma OneIsBare()
    ensures ReadSimple("1") == Some(("1", ""))
  {
    BareWhole("1");
  }

  lemma OneAssigns(key: string)
    ensures !Assigns("1", key)
  {
    hide IsSpace;
    BareIsNoSpace('1');
    Stays("1", IsSpace);
  }

  lemma NoKeyNoHead(ls: seq<string>)
    requires ls != [] && ReadKey(ls[0]).None?
    ensures ReadHead(ls).None?
  {
  }

  // ---- a line of another value is lost ----

  function Element(key: string): string {
    ("\"" + key) + ("=" + "\",")
  }

  /** The lines of an array of a's whose one element starts with our key. */
  function Holder(element: string): seq<string> {
    ["a" + (" =" + " ["), element, "]"]
  }

  /** A string in an array of another key passes for an assignment of ours, and is commented out. */
  lemma ElementLost(key: string, value: string)
    requires BareKey(key) && key != "a" && Clean(value)
    ensures
      var toml, e := Join(Holder(Element(key))), Element(key);
      && Read(Split(toml), 1) == Some(Doc([Stmt(1, ["a"], [" [", e, "]"])], []))
      && Read(Split(Forced(toml, key, value)), 0)
         == Some(Doc([Stmt(0, [key], [" " + Quoted(value)]), Stmt(1, ["a"], [" [", "# " + e, "]"])], []))
      && !Agrees(Split(toml), key, [key], false)
  {
    hide *;
    var ls, e := Holder(Element(key)), Element(key);
    BareIsPlain(key);
    HolderLines(key);
    SplitJoin(ls);
    ElementScans(key);
    assert ls + [] == ls;
    HolderReads(e, []);
    HolderReads("# " + e, [""]);
    HolderRewritten(key);
    AfterIs(ls, key);
    RewriteReads(ls, key, [key], false, 1);
    HolderRemainder(e, key);
    ForcedReads(Join(ls), key, value, [key]);
    TwoStatements(Stmt(0, [key], [" " + Quoted(value)]), Stmt(1, ["a"], [" [", "# " + e, "]"]));
  }

  lemma HolderLines(key: string)
    requires BareKey(key)
    ensures
      var ls := Holder(Element(key));
      ls != [] && forall i :: 0 <= i < |ls| ==> '\n' !in ls[i]
  {
  }

  lemma HolderReads(e: string, tail: seq<string>)
    requires Scan(Pending("[", Inline), e) == Some(Pending("[", Inline)) && (tail == [] || tail == [""])
    ensures Read(Holder(e) + tail, 1) == Some(Doc([Stmt(1, ["a"], [" [", e, "]"])], []))
  {
    hide IsTable, IsBlank, ReadKey, ReadHead, Scan;
    var ls := Holder(e) + tail;
    AIsBare();
    KeyLine("a", " [", ["a"]);
    ArrayReads(ls, "a", 1);
    EmptyIsBlank();
    assert ls[3..] == tail && (tail == [""] ==> tail[1..] == []);
    var st := Stmt(1, ["a"], [" [", e, "]"]);
    assert [st] + [] == [st];
  }

  lemma HolderRewritten(key: string)
    requires BareKey(key) && key != "a"
    ensures Rewrite(Holder(Element(key)), key, false) + [""] == Holder("# " + Element(key)) + [""]
  {
    hide IsHeader, Assigns, IsTable, IsBlank, ReadKey, Unquoted;
    var ls := Holder(Element(key));
    AIsBare();
    KeyLine("a", " [", ["a"]);
    UnquotedLeft("a", " [");
    UnquotedAgrees(ls[0], key);
    NoSpaces(key);
    QuotedIsFound(key, "\",");
    BracketIsIdle(key);
    RewriteAt(ls, key, false);
    assert !Found(ls, key, false, 0) && Found(ls, key, false, 1) && !Found(ls, key, false, 2);
    assert Rewrite(ls, key, false) == Holder("# " + Element(key));
  }

  lemma BracketIsIdle(key: string)
    ensures !Assigns("]", key)
  {
    hide IsSpace, DropStart, DropEnd;
    BracketIsNoSpace();
    Stays("]", IsSpace);
  }

  lemma BracketIsNoSpace()
    ensures !IsSpace(']')
  {
  }

  lemma HolderRemainder(e: string, key: string)
    requires key != "a"
    ensures
      var a := Stmt(1, ["a"], [" [", e, "]"]);
      Remainder(Doc([a], []), [key]) != Doc([Stmt(1, ["a"], [" [", "# " + e, "]"])], [])
  {
    var a, b := Stmt(1, ["a"], [" [", e, "]"]), Stmt(1, ["a"], [" [", "# " + e, "]"]);
    assert a.path[0] != [key][0] && [a][0] == a;
    assert a in [a] && a in Others([a], [key]);
    assert a.text[1] == e && b.text[1] == "# " + e && |"# " + e| > |e|;
  }

  lemma AIsBare()
    ensures BareKey("a") && KeyPath("a") == Some(["a"])
  {
    BareIsPlain("a");
  }

  lemma ElementScans(key: string)
    requires BareKey(key)
    ensures
      var p := Pending("[", Inline);
      Scan(p, Element(key)) == Some(p) && Scan(p, "# " + Element(key)) == Some(p)
  {
    hide ReadString, Escape;
    var p, k, line := Pending("[", Inline), key + "=", Element(key);
    BareIsPlain(key);
    PlainEscape(k);
    ReadEscaped(k, ",");
    assert line[0] == '"' && line[1..] == Escape(k) + "\"" + ",";
    assert key[0] in key && line[1] == key[0];
    ScanStep(p, ',', "");
    assert [','] + "" == ",";
    assert ("# " + line)[0] == '#';
  }

  // ---- a nested array hides what follows ----

  function Nested(own: string): seq<string> {
    ["a" + (" =" + " ["), "[1],", "]", own]
  }

  lemma NestedReads(own: string, key: string, tail: seq<string>)
    requires BareKey(key) && own == key + (" =" + " 1") && (tail == [] || tail == [""])
    ensures Read(Nested(own) + tail, 1)
      == Some(Doc([Stmt(1, ["a"], [" [", "[1],", "]"]), Stmt(4, [key], [" 1"])], []))
    ensures ReadHead(Nested(own) + tail) == Some(Head(["a"], " [", 2))
  {
    hide IsHeader, Assigns, IsTable, ReadKey, ReadHead, Scan, IsBlank;
    BareIsPlain(key);
    BareIsPlain("a");
    KeyLine("a", " [", ["a"]);
    KeyLine(key, " 1", [key]);
    Brackets();
    var ls := Nested(own) + tail;
    ArrayReads(ls, "a", 1);
    OneScan();
    EmptyIsBlank();
    assert ls[3..] == [own] + tail;
    assert Read(tail, 5) == Some(Doc([], [])) by {
      if tail == [""] {
        assert tail[1..] == [];
      }
    }
    FirstAt(own, tail, [key], " 1", 4);
    var st := Stmt(4, [key], [" 1"]);
    assert [st] + [] == [st];
    TwoStatements(Stmt(1, ["a"], [" [", "[1],", "]"]), st);
  }

  /** A line of a nested array passes for a header: a later assignment stays, and the key has two. */
  lemma NestedArrayDuplicates(key: string, value: string)
    requires BareKey(key) && key != "a" && Clean(value)
    ensures
      var toml := Join(Nested(key + (" =" + " 1")));
      var a, own := Stmt(1, ["a"], [" [", "[1],", "]"]), Stmt(4, [key], [" 1"]);
      && Read(Split(toml), 1) == Some(Doc([a, own], []))
      && Read(Split(Forced(toml, key, value)), 0) == Some(Doc([Stmt(0, [key], [" " + Quoted(value)]), a, own], []))
      && !Agrees(Split(toml), key, [key], false)
  {
    hide *;
    var own := key + (" =" + " 1");
    var ls := Nested(own);
    assert ls + [] == ls;
    BareIsPlain(key);
    NestedLines(key);
    SplitJoin(ls);
    NestedReads(own, key, []);
    NestedReads(own, key, [""]);
    NestedUntouched(ls, key);
    RewriteReads(ls, key, [key], false, 1);
    AfterIs(ls, key);
    NestedRemainder(key);
    ForcedReads(Join(ls), key, value, [key]);
    ThreeStatements(Stmt(0, [key], [" " + Quoted(value)]), Stmt(1, ["a"], [" [", "[1],", "]"]), Stmt(4, [key], [" 1"]));
  }

  lemma NestedLines(key: string)
    requires BareKey(key)
    ensures
      var ls := Nested(key + (" =" + " 1"));
      ls != [] && forall i :: 0 <= i < |ls| ==> '\n' !in ls[i]
  {
  }

  lemma ThreeStatements(f: Stmt, a: Stmt, b: Stmt)
    ensures With(f, Some(Doc([a, b], []))) == Some(Doc([f, a, b], []))
  {
    assert [f] + [a, b] == [f, a, b];
  }

  lemma NestedRemainder(key: string)
    ensures
      var d := Doc([Stmt(1, ["a"], [" [", "[1],", "]"]), Stmt(4, [key], [" 1"])], []);
      Remainder(d, [key]) != d
  {
    var d := Doc([Stmt(1, ["a"], [" [", "[1],", "]"]), Stmt(4, [key], [" 1"])], []);
    assert d.top[1] in d.top;
  }

  lemma NestedUntouched(ls: seq<string>, key: string)
    requires BareKey(key) && key != "a" && ls == Nested(key + (" =" + " 1"))
    ensures Rewrite(ls, key, false) == ls
  {
    hide IsHeader, Assigns, IsTable, IsBlank, ReadKey, Unquoted;
    BareIsPlain("a");
    KeyLine("a", " [", ["a"]);
    UnquotedLeft("a", " [");
    UnquotedAgrees(ls[0], key);
    NestedIsHeader();
    RewriteAt(ls, key, false);
    forall i | 0 <= i < |ls|
      ensures !Found(ls, key, false, i)
    {
      assert IsHeader(ls[1]);
    }
  }

  lemma TwoStatements(a: Stmt, b: Stmt)
    ensures With(a, Some(Doc([b], []))) == Some(Doc([a, b], []))
  {
    assert [a] + [b] == [a, b];
  }

  lemma NestedIsHeader()
    ensures IsHeader("[1],")
  {
    assert DropStart("[1],", IsSpace) == "[1],";
  }

  // ---- a value with a control character ----

  /** q leaves a backspace as it is, and no reader takes the line. */
  lemma ControlInValue(toml: string, key: string)
    requires KeyPath(key).Some?
    ensures Read(Split(Forced(toml, key, "\U{8}")), 0).None?
  {
    hide *;
    ForcedReads(toml, key, "\U{8}", KeyPath(key).value);
    BackspaceIsNotClean();
  }

  lemma BackspaceIsNotClean()
    ensures !Clean("\U{8}")
  {
    assert "\U{8}"[0] in "\U{8}";
  }

  // ---- texts that are no keys ----

  lemma NoKeys()
    ensures KeyPath("") == None && KeyPath("a b") == None && KeyPath("\"a\"") == Some(["a"])
  {
    hide ReadPath;
    PathMeans("");
    assert SkipWs("") == "";
    BareAppend("a", " b");
    BareWhole("a");
    assert "a" + " b" == "a b" && SkipWs("a b") == "a b" && " b"[1..] == "b" && SkipWs(" b") == SkipWs("b") == "b";
    PathFrom("a b", "a", " b", "b");
    QuotedKey("a");
    assert "\"" + "a" + "\"" == "\"a\"";
  }
}
