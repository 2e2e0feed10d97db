/** The line-level config rewrite and string escaping of TunnelToml.kt. */
module TunnelToml {
  import opened TomlReader
  import opened Wrappers

  /** Char.isWhitespace. */
  predicate IsSpace(c: char) {
    || '\t' <= c <= '\r' || c == ' ' || '\U{1C}' <= c <= '\U{1F}' || c == '\U{A0}'
    || c == '\U{1680}' || '\U{2000}' <= c <= '\U{200A}' || c == '\U{2028}' || c == '\U{2029}'
    || c == '\U{202F}' || c == '\U{205F}' || c == '\U{3000}'
  }

  predicate IsQuote(c: char) {
    c == '"' || c == '\''
  }

  function DropStart(s: string, p: char -> bool): (r: string)
    ensures |r| <= |s|
    ensures |r| == |s| <==> s == "" || !p(s[0])
    ensures |r| == |s| ==> r == s
    ensures r == s[|s| - |r|..]
    ensures r != "" ==> !p(r[0])
  {
    if s != "" && p(s[0]) then DropStart(s[1..], p) else s
  }

  function DropEnd(s: string, p: char -> bool): (r: string)
    ensures r <= s
    ensures |r| == |s| <==> s == "" || !p(s[|s| - 1])
    ensures s != "" && !p(s[0]) ==> r != ""
  {
    if s != "" && p(s[|s| - 1]) then DropEnd(s[..|s| - 1], p) else s
  }

  /** trim(): the text without the characters p at either end. */
  function TrimBy(s: string, p: char -> bool): (r: string)
    ensures |r| <= |s|
    ensures |r| == |s| ==> r == s
    ensures forall c :: c in r ==> c in s
  {
    DropEnd(DropStart(s, p), p)
  }

  function Trim(s: string): string {
    TrimBy(s, IsSpace)
  }

  /** substringBefore('='): everything when there is none. */
  function BeforeEquals(s: string): (r: string)
    ensures r <= s && '=' !in r
    ensures |r| < |s| <==> '=' in s
    ensures |r| < |s| ==> s[|r|] == '='
  {
    if s == "" || s[0] == '=' then "" else [s[0]] + BeforeEquals(s[1..])
  }

  predicate StartsWith(s: string, c: char) {
    s != "" && s[0] == c
  }

  // ---- lines ----

  /** split("\n"). */
  function Split(s: string): (r: seq<string>)
    ensures r != [] && forall l :: l in r ==> '\n' !in l
  {
    if s == "" then [""]
    else
      var rest := Split(s[1..]);
      if s[0] == '\n' then [""] + rest else [[s[0]] + rest[0]] + rest[1..]
  }

  function Unlines(ls: seq<string>): string {
    if ls == [] then "" else ls[0] + "\n" + Unlines(ls[1..])
  }

  lemma {:induction false} SplitLine(l: string, rest: string)
    requires '\n' !in l
    ensures Split(l + "\n" + rest) == [l] + Split(rest)
  {
    if l == "" {
      var s := l + "\n" + rest;
      assert s[0] == '\n' && s[1..] == rest;
      assert [""] == [l];
    } else {
      var s := l + "\n" + rest;
      assert s[1..] == l[1..] + "\n" + rest && s[0] == l[0];
      SplitLine(l[1..], rest);
      var r := [l[1..]] + Split(rest);
      assert l[0] in l && r[0] == l[1..] && r[1..] == Split(rest) && [l[0]] + l[1..] == l;
    }
  }

  lemma {:induction false} SplitUnlines(ls: seq<string>)
    requires forall i :: 0 <= i < |ls| ==> '\n' !in ls[i]
    ensures Split(Unlines(ls)) == ls + [""]
  {
    if ls != [] {
      SplitUnlines(ls[1..]);
      SplitLine(ls[0], Unlines(ls[1..]));
    }
  }

  predicate IsHeader(line: string) {
    StartsWith(Trim(line), '[')
  }

  predicate IsComment(line: string) {
    StartsWith(Trim(line), '#')
  }

  function KeyOf(line: string): string {
    TrimBy(Trim(BeforeEquals(Trim(line))), IsQuote)
  }

  predicate Assigns(line: string, key: string) {
    !IsComment(line) && '=' in Trim(line) && KeyOf(line) == key
  }

  // ---- escaping ----

  function EscapeChar(c: char): (r: string)
    ensures 1 <= |r| <= 2 && '\n' !in r
  {
    match c
    case '\\' => "\\\\"
    case '"' => "\\\""
    case '\n' => "\\n"
    case '\r' => "\\r"
    case '\t' => "\\t"
    case _ => [c]
  }

  function Escape(s: string): (r: string)
    ensures '\n' !in r
  {
    if s == "" then "" else EscapeChar(s[0]) + Escape(s[1..])
  }

  function Quoted(s: string): string {
    "\"" + Escape(s) + "\""
  }

  lemma {:induction false} EscapeSnoc(s: string, c: char)
    ensures Escape(s + [c]) == Escape(s) + EscapeChar(c)
  {
    if s == "" {
      assert s + [c] == [c] && [c][1..] == "";
    } else {
      assert (s + [c])[1..] == s[1..] + [c];
      EscapeSnoc(s[1..], c);
    }
  }

  /** q. */
  method Q(s: string) returns (r: string)
    ensures r == Quoted(s)
  {
    hide Escape;
    var sb := "\"";
    EscapeNone();
    for i := 0 to |s|
      invariant sb == "\"" + Escape(s[..i])
    {
      assert s[..i + 1] == s[..i] + [s[i]];
      EscapeSnoc(s[..i], s[i]);
      ghost var before := sb;
      match s[i]
      case '\\' => sb := sb + "\\\\";
      case '"' => sb := sb + "\\\"";
      case '\n' => sb := sb + "\\n";
      case '\r' => sb := sb + "\\r";
      case '\t' => sb := sb + "\\t";
      case ch => sb := sb + [ch];
      assert sb == before + EscapeChar(s[i]);
      assert ("\"" + Escape(s[..i])) + EscapeChar(s[i]) == "\"" + (Escape(s[..i]) + EscapeChar(s[i]));
    }
    assert s[..|s|] == s;
    r := sb + "\"";
  }

  lemma EscapeNone()
    ensures "\"" + Escape("") == "\""
  {
  }

  /** No control character but the three that q escapes. */
  predicate Clean(s: string) {
    forall c :: c in s ==> c == '\n' || c == '\r' || !Control(c)
  }

  /** Reading what was written gives the value back, unless it holds a control character. */
  lemma {:induction false} ReadEscaped(s: string, rest: string)
    ensures ReadString(Escape(s) + "\"" + rest) == if Clean(s) then Some((s, rest)) else None
  {
    hide ReadString, Control, EscapeChar;
    if s == "" {
      assert Escape(s) + "\"" + rest == "\"" + rest && ("\"" + rest)[1..] == rest;
      StringMeans("\"" + rest);
    } else {
      ReadEscaped(s[1..], rest);
      var tail := Escape(s[1..]) + "\"" + rest;
      ReadChar(s[0], tail);
      assert Escape(s) + "\"" + rest == EscapeChar(s[0]) + tail;
      assert [s[0]] + s[1..] == s;
      assert Clean(s) <==> Clean([s[0]]) && Clean(s[1..]);
      assert s[0] in [s[0]];
    }
  }

  lemma ReadChar(c: char, tail: string)
    ensures ReadString(EscapeChar(c) + tail) == if Clean([c]) then Prepend(c, ReadString(tail)) else None
  {
    hide ReadString;
    var e := EscapeChar(c);
    var t := e + tail;
    assert t[|e|..] == tail && t[0] == e[0];
    assert c in [c];
    StringMeans(t);
    if |e| == 2 {
      assert t[1..][0] == e[1];
    }
  }

  // ---- the rewrite ----

  /** What becomes of the lines, inTable telling whether a header came before them. */
  function Rewrite(ls: seq<string>, key: string, inTable: bool): seq<string> {
    if ls == [] then []
    else
      var t := inTable || IsHeader(ls[0]);
      [if !t && Assigns(ls[0], key) then "# " + ls[0] else ls[0]] + Rewrite(ls[1..], key, t)
  }

  function ForcedLine(key: string, value: string): string {
    key + " = " + Quoted(value)
  }

  /** The whole rewritten text. */
  function Forced(toml: string, key: string, value: string): string {
    ForcedLine(key, value) + "\n" + Unlines(Rewrite(Split(toml), key, false))
  }

  /** withForcedTopLevelKey. */
  method WithForcedTopLevelKey(toml: string, key: string, value: string) returns (r: string)
    ensures r == Forced(toml, key, value)
  {
    hide Trim, KeyOf, Rewrite, Unlines, Split, Quoted;
    var quoted := Q(value);
    var out := key + " = " + quoted + "\n";
    var lines := Split(toml);
    var inTable := false;
    ghost var before := out;
    for i := 0 to |lines|
      invariant out + Unlines(Rewrite(lines[i..], key, inTable)) == before + Unlines(Rewrite(lines[0..], key, false))
    {
      var line := lines[i];
      var trimmed := Trim(line);
      ghost var was := inTable;
      if !inTable && StartsWith(trimmed, '[') {
        inTable := true;
      }
      var isOurs := !inTable && !StartsWith(trimmed, '#') && KeyOf(line) == key && '=' in trimmed;
      RewriteStep(out, lines, i, key, was);
      if isOurs {
        out := out + "# " + line + "\n";
      } else {
        out := out + line + "\n";
      }
    }
    r := out;
    RewriteEnd(out, lines, key, inTable);
  }

  lemma RewriteStep(out: string, ls: seq<string>, i: nat, key: string, inTable: bool)
    requires i < |ls|
    ensures
      var t := inTable || IsHeader(ls[i]);
      out + Unlines(Rewrite(ls[i..], key, inTable))
      == (if !t && Assigns(ls[i], key) then out + "# " + ls[i] + "\n" else out + ls[i] + "\n")
         + Unlines(Rewrite(ls[i + 1..], key, t))
  {
    hide Trim, KeyOf;
    var t := inTable || IsHeader(ls[i]);
    var rest := Rewrite(ls[i + 1..], key, t);
    assert ls[i..][0] == ls[i] && ls[i..][1..] == ls[i + 1..];
    var l := if !t && Assigns(ls[i], key) then "# " + ls[i] else ls[i];
    assert Rewrite(ls[i..], key, inTable) == [l] + rest;
    assert ([l] + rest)[1..] == rest;
    assert out + (l + "\n" + Unlines(rest)) == (out + l + "\n") + Unlines(rest);
    assert out + ("# " + ls[i]) == out + "# " + ls[i];
  }

  lemma RewriteEnd(out: string, ls: seq<string>, key: string, inTable: bool)
    ensures out + Unlines(Rewrite(ls[|ls|..], key, inTable)) == out && ls[0..] == ls
  {
  }

  // ---- the rewritten lines ----

  lemma {:induction false} SplitAppend(s: string, rest: string)
    ensures Split(s + "\n" + rest) == Split(s) + Split(rest)
  {
    hide Split;
    if s == "" {
      SplitLine("", rest);
      SplitOne("");
    } else {
      var t := s + "\n" + rest;
      assert t[1..] == s[1..] + "\n" + rest && t[0] == s[0];
      SplitAppend(s[1..], rest);
      SplitHead(s);
      SplitHead(t);
      Joined([s[0]], Split(s[1..]), Split(rest));
    }
  }

  lemma Joined(c: string, r: seq<string>, more: seq<string>)
    requires r != []
    ensures (r + more)[0] == r[0] && [c + r[0]] + (r + more)[1..] == ([c + r[0]] + r[1..]) + more
    ensures [""] + (r + more) == ([""] + r) + more
  {
  }

  lemma SplitHead(s: string)
    requires s != ""
    ensures
      var r := Split(s[1..]);
      Split(s) == if s[0] == '\n' then [""] + r else [[s[0]] + r[0]] + r[1..]
  {
  }

  lemma {:induction false} SplitOne(l: string)
    requires '\n' !in l
    ensures Split(l) == [l]
  {
    if l != "" {
      SplitOne(l[1..]);
      assert [l[0]] + l[1..] == l && l[0] in l;
    }
  }

  lemma {:induction false} RewrittenHasNoBreak(ls: seq<string>, key: string, t: bool)
    requires forall l :: l in ls ==> '\n' !in l
    ensures forall l :: l in Rewrite(ls, key, t) ==> '\n' !in l
  {
    hide Trim, KeyOf;
    if ls != [] {
      assert forall l :: l in ls[1..] ==> l in ls;
      RewrittenHasNoBreak(ls[1..], key, t || IsHeader(ls[0]));
    }
  }

  /** The lines of the result: the forced one, the old ones rewritten, and a last blank one. */
  lemma ForcedLines(toml: string, key: string, value: string)
    ensures Split(Forced(toml, key, value))
      == Split(ForcedLine(key, value)) + (Rewrite(Split(toml), key, false) + [""])
  {
    hide Trim, KeyOf;
    var r := Rewrite(Split(toml), key, false);
    SplitAppend(ForcedLine(key, value), Unlines(r));
    RewrittenHasNoBreak(Split(toml), key, false);
    SplitUnlines(r);
  }
}
