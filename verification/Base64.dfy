/**
 * The lenient base64 decoder of SubscriptionParser.kt (sections 4 and 5 of RFC 4648): either
 * alphabet, padding and blanks anywhere, and a 32-bit accumulator that is never masked.
 */
module Base64 {
  import opened Bytes
  import opened Bits
  import opened Wrappers

  type Sextet = x: int | 0 <= x < 64

  /** Characters the decoder skips. */
  predicate Skipped(c: char) {
    c == '=' || c == '\n' || c == '\r' || c == ' ' || c == '\t'
  }

  /** base64Value; -1 outside both alphabets. */
  function Base64Value(c: char): int {
    if 'A' <= c <= 'Z' then c as int - 'A' as int
    else if 'a' <= c <= 'z' then c as int - 'a' as int + 26
    else if '0' <= c <= '9' then c as int - '0' as int + 52
    else if c == '+' || c == '-' then 62
    else if c == '/' || c == '_' then 63
    else -1
  }

  // ---- what encoding means ----

  /** The standard alphabet (table 1 of RFC 4648). */
  function Letter(v: Sextet): char {
    if v < 26 then ('A' as int + v) as char
    else if v < 52 then ('a' as int + v - 26) as char
    else if v < 62 then ('0' as int + v - 52) as char
    else if v == 62 then '+' else '/'
  }

  /** Section 4: three octets become four letters; one or two left over are padded. */
  function Encode(b: seq<Byte>): string {
    if b == [] then ""
    else if |b| == 1 then [Letter(b[0] / 4), Letter(b[0] % 4 * 16), '=', '=']
    else if |b| == 2 then
      [Letter(b[0] / 4), Letter(b[0] % 4 * 16 + b[1] / 16), Letter(b[1] % 16 * 4), '=']
    else
      [Letter(b[0] / 4), Letter(b[0] % 4 * 16 + b[1] / 16), Letter(b[1] % 16 * 4 + b[2] / 64), Letter(b[2] % 64)]
      + Encode(b[3..])
  }

  /** Padding and blanks, which a lenient reader ignores. */
  const BLANKS := {'=', '\n', '\r', ' ', '\t'}

  /** The text with padding and blanks dropped and the URL-safe letters of section 5 replaced. */
  function Canonical(s: string): string {
    if s == "" then ""
    else if s[0] in BLANKS then Canonical(s[1..])
    else [if s[0] == '-' then '+' else if s[0] == '_' then '/' else s[0]] + Canonical(s[1..])
  }

  // ---- what decoding yields ----

  /** The values of the letters; None as soon as a foreign character appears. */
  function Sextets(s: string): Option<seq<Sextet>> {
    if s == "" then Some([])
    else if Skipped(s[0]) then Sextets(s[1..])
    else
      var v := Base64Value(s[0]);
      if v < 0 then None
      else
        var rest := Sextets(s[1..]);
        if rest.None? then None else Some([v] + rest.value)
  }

  /** The octets in a run of sextets, most significant bits first; leftover bits are dropped. */
  function Octets(v: seq<Sextet>): seq<Byte> {
    if |v| < 2 then []
    else if |v| == 2 then [Join(v[0], 4, v[1], 16)]
    else if |v| == 3 then [Join(v[0], 4, v[1], 16), Join(v[1], 16, v[2], 4)]
    else [Join(v[0], 4, v[1], 16), Join(v[1], 16, v[2], 4), Join(v[2], 64, v[3], 1)] + Octets(v[4..])
  }

  /** The low bits of a, shifted by the factor m, joined with the high bits of b. */
  function Join(a: Sextet, m: int, b: Sextet, d: int): (r: Byte)
    requires (m == 4 && d == 16) || (m == 16 && d == 4) || (m == 64 && d == 1)
  {
    var x: int, y: int := a, b;
    x * m % 256 + y / d
  }

  /** 32-bit wrap-around to a Kotlin Int. */
  function ToInt(x: int): int {
    (x + 0x8000_0000) % 0x1_0000_0000 - 0x8000_0000
  }

  lemma ShiftedBy4(k: int, y: int, z: int)
    requires 0 <= y < 64 && 0 <= z < 64
    ensures (k * 4096 + y * 64 + z) / 16 % 256 == y * 4 + z / 16
  {
    ModIs(k * 4096 + y * 64 + z, 16, k * 256 + y * 4 + z / 16, z % 16);
    ModIs(k * 256 + y * 4 + z / 16, 256, k, y * 4 + z / 16);
  }

  lemma ShiftedBy2(k: int, y: int, z: int)
    requires 0 <= y < 64 && 0 <= z < 64
    ensures (k * 4096 + y * 64 + z) / 4 % 256 == y % 16 * 16 + z / 4
  {
    ModIs(k * 4096 + y * 64 + z, 4, k * 1024 + y * 16 + z / 4, z % 4);
    ModIs(k * 1024 + y * 16 + z / 4, 256, k * 4 + y / 16, y % 16 * 16 + z / 4);
  }

  lemma ShiftedBy0(k: int, y: int, z: int)
    requires 0 <= y < 64 && 0 <= z < 64
    ensures (k * 4096 + y * 64 + z) % 256 == y % 4 * 64 + z
  {
    ModIs(k * 4096 + y * 64 + z, 256, k * 16 + y / 4, y % 4 * 64 + z);
  }

  /** Only the low twelve bits of the accumulator ever reach an octet. */
  lemma Shifted(buffer: int, p: int, x: int)
    requires 0 <= p < 64 && 0 <= x < 64 && buffer % 4096 == p * 64 + x
    ensures buffer / 16 % 256 == Join(p, 4, x, 16)
    ensures buffer / 4 % 256 == Join(p, 16, x, 4)
    ensures buffer % 256 == Join(p, 64, x, 1)
  {
    var k := buffer / 4096;
    assert buffer == k * 4096 + p * 64 + x;
    ShiftedBy4(k, p, x);
    ShiftedBy2(k, p, x);
    ShiftedBy0(k, p, x);
    ModIs(p * 16, 256, p / 16, p % 16 * 16);
    ModIs(p * 64, 256, p / 4, p % 4 * 64);
  }

  /** shl 6, or value: wrap-around never touches the low twelve bits. */
  lemma Accumulated(buffer: int, x: Sextet)
    ensures var b := ToInt(buffer * 64) + x;
            && -0x8000_0000 <= b < 0x8000_0000
            && b % 64 == x && b % 4096 == buffer % 64 * 64 + x
  {
    var q := (buffer * 64 + 0x8000_0000) / 0x1_0000_0000;
    var b := ToInt(buffer * 64) + x;
    assert b == buffer * 64 - q * 0x1_0000_0000 + x;
    var h, l := buffer / 64, buffer % 64;
    assert b == 4096 * (h - q * 0x10_0000) + (l * 64 + x);
    ModIs(b, 4096, h - q * 0x10_0000, l * 64 + x);
    ModIs(b, 64, 64 * (h - q * 0x10_0000) + l, x);
  }

  /** The octet that a sextet completes, if it completes one. */
  function Completed(v: seq<Sextet>, x: Sextet): seq<Byte> {
    if |v| % 4 == 0 then []
    else if |v| % 4 == 1 then [Join(v[|v| - 1], 4, x, 16)]
    else if |v| % 4 == 2 then [Join(v[|v| - 1], 16, x, 4)]
    else [Join(v[|v| - 1], 64, x, 1)]
  }

  lemma {:induction false} OctetsSnoc(v: seq<Sextet>, x: Sextet)
    ensures Octets(v + [x]) == Octets(v) + Completed(v, x)
  {
    hide Join;
    if |v| >= 4 {
      OctetsSnoc(v[4..], x);
      assert (v + [x])[4..] == v[4..] + [x];
      assert Completed(v[4..], x) == Completed(v, x);
    } else if |v| == 3 {
      assert (v + [x])[4..] == [] && Octets([]) == [];
      assert v == [v[0], v[1], v[2]];
    } else if |v| == 2 {
      assert v == [v[0], v[1]];
    }
  }

  /** What decodeBase64 returns. */
  function Decoded(s: string): Option<seq<Byte>> {
    var v := Sextets(s);
    if v.None? || Octets(v.value) == [] then None else Some(Octets(v.value))
  }

  lemma {:induction false} SextetsSnoc(s: string, c: char)
    ensures Sextets(s + [c]) ==
            if Sextets(s).None? || (!Skipped(c) && Base64Value(c) < 0) then None
            else if Skipped(c) then Sextets(s) else Some(Sextets(s).value + [Base64Value(c)])
  {
    hide Base64Value, Skipped;
    if s == "" {
      assert s + [c] == [c] && [c][1..] == "";
      if !Skipped(c) && Base64Value(c) >= 0 {
        assert [Base64Value(c)] + [] == [] + [Base64Value(c)];
      }
    } else {
      assert (s + [c])[1..] == s[1..] + [c];
      SextetsSnoc(s[1..], c);
      var rest, v, x := Sextets(s[1..]), Base64Value(s[0]), Base64Value(c);
      if rest.Some? && v >= 0 && x >= 0 {
        assert [v] + (rest.value + [x]) == [v] + rest.value + [x];
      }
    }
  }

  lemma {:induction false} SextetsFail(a: string, b: string)
    requires Sextets(a).None?
    ensures Sextets(a + b).None?
  {
    assert (a + b)[1..] == a[1..] + b;
    if Skipped(a[0]) || Base64Value(a[0]) >= 0 {
      SextetsFail(a[1..], b);
    }
  }

  /** The loop's state after the sextets v. */
  ghost predicate Holds(v: seq<Sextet>, out: seq<Byte>, buffer: int, bits: nat) {
    && -0x8000_0000 <= buffer < 0x8000_0000
    && out == Octets(v) && bits == |v| * 6 % 8
    && (v != [] ==> buffer % 64 == v[|v| - 1])
  }

  lemma HoldsStep(v: seq<Sextet>, out: seq<Byte>, buffer: int, bits: nat, x: Sextet)
    requires Holds(v, out, buffer, bits)
    ensures var b, n := ToInt(buffer * 64) + x, bits + 6;
            if n >= 8 then n <= 12 && Holds(v + [x], out + [b / Pow2(n - 8) % 256], b, n - 8)
            else Holds(v + [x], out, b, n)
  {
    hide Join, Octets, ToInt;
    var b, n := ToInt(buffer * 64) + x, bits + 6;
    Accumulated(buffer, x);
    OctetsSnoc(v, x);
    BitsStep(|v|);
    assert Pow2(2) == 4 && Pow2(4) == 16;
    if v != [] {
      Shifted(b, v[|v| - 1], x);
    } else {
      assert out + [] == out;
    }
  }

  lemma BitsStep(n: nat)
    ensures n * 6 % 8 == if n % 4 == 0 then 0 else if n % 4 == 1 then 6 else if n % 4 == 2 then 4 else 2
    ensures (n + 1) * 6 % 8 == if n % 4 == 0 then 6 else if n % 4 == 1 then 4 else if n % 4 == 2 then 2 else 0
  {
  }

  /** decodeBase64. */
  method DecodeBase64(input: string) returns (r: Option<seq<Byte>>)
    ensures r == Decoded(input)
  {
    hide Octets, ToInt, Base64Value, Holds, Pow2;
    var out: seq<Byte> := [];
    var buffer := 0;
    var bits := 0;
    HoldsNothing();
    assert input[..0] == "";
    for i := 0 to |input|
      invariant Sextets(input[..i]).Some? && Holds(Sextets(input[..i]).value, out, buffer, bits)
    {
      var ch := input[i];
      assert input[..i + 1] == input[..i] + [ch];
      SextetsSnoc(input[..i], ch);
      if ch == '=' || ch == '\n' || ch == '\r' || ch == ' ' || ch == '\t' {
        continue;
      }
      var value := Base64Value(ch);
      if value < 0 {
        SextetsFail(input[..i + 1], input[i + 1..]);
        assert input[..i + 1] + input[i + 1..] == input;
        return None;
      }
      ValueBound(ch);
      HoldsStep(Sextets(input[..i]).value, out, buffer, bits, value);
      buffer := ToInt(buffer * 64) + value;
      bits := bits + 6;
      if bits >= 8 {
        bits := bits - 8;
        out := out + [buffer / Pow2(bits) % 256];
      }
    }
    assert input[..|input|] == input;
    HoldsIs(Sextets(input).value, out, buffer, bits);
    if out == [] {
      return None;
    }
    return Some(out);
  }

  lemma ValueBound(c: char)
    ensures Base64Value(c) < 64
  {
  }

  lemma HoldsNothing()
    ensures Holds([], [], 0, 0)
  {
  }

  lemma HoldsIs(v: seq<Sextet>, out: seq<Byte>, buffer: int, bits: nat)
    requires Holds(v, out, buffer, bits)
    ensures out == Octets(v)
  {
  }

  // ---- decoding inverts encoding ----

  lemma LetterValue(v: Sextet)
    ensures Base64Value(Letter(v)) == v && !Skipped(Letter(v))
    ensures Letter(v) != '-' && Letter(v) != '_'
  {
  }

  /** The sextets of an encoding, without the letters. */
  function Split(b: seq<Byte>): seq<Sextet> {
    if b == [] then []
    else if |b| == 1 then [b[0] / 4, b[0] % 4 * 16]
    else if |b| == 2 then [b[0] / 4, b[0] % 4 * 16 + b[1] / 16, b[1] % 16 * 4]
    else [b[0] / 4, b[0] % 4 * 16 + b[1] / 16, b[1] % 16 * 4 + b[2] / 64, b[2] % 64] + Split(b[3..])
  }

  lemma {:induction false} OctetsOfSplit(b: seq<Byte>)
    ensures Octets(Split(b)) == b
  {
    if |b| >= 3 {
      OctetsOfSplit(b[3..]);
      assert Split(b)[4..] == Split(b[3..]);
      Triple(b[0], b[1], b[2]);
      assert b == [b[0], b[1], b[2]] + b[3..];
    } else if |b| == 2 {
      Triple(b[0], b[1], 0);
    } else if |b| == 1 {
      Triple(b[0], 0, 0);
    }
  }

  lemma Triple(a: Byte, b: Byte, c: Byte)
    ensures Join(a / 4, 4, a % 4 * 16 + b / 16, 16) == a
    ensures Join(a % 4 * 16 + b / 16, 16, b % 16 * 4 + c / 64, 4) == b
    ensures Join(b % 16 * 4 + c / 64, 64, c % 64, 1) == c
  {
    FirstOctet(a, b);
    SecondOctet(a, b, c);
    ThirdOctet(b, c);
  }

  lemma FirstOctet(a: int, b: int)
    requires 0 <= a < 256 && 0 <= b < 256
    ensures Join(a / 4, 4, a % 4 * 16 + b / 16, 16) == a
  {
    ModIs(a % 4 * 16 + b / 16, 16, a % 4, b / 16);
  }

  lemma SecondOctet(a: int, b: int, c: int)
    requires 0 <= a < 256 && 0 <= b < 256 && 0 <= c < 256
    ensures Join(a % 4 * 16 + b / 16, 16, b % 16 * 4 + c / 64, 4) == b
  {
    var h, l := b / 16, b % 16;
    ModIs((a % 4 * 16 + h) * 16, 256, a % 4, h * 16);
    ModIs(l * 4 + c / 64, 4, l, c / 64);
  }

  lemma ThirdOctet(b: int, c: int)
    requires 0 <= b < 256 && 0 <= c < 256
    ensures Join(b % 16 * 4 + c / 64, 64, c % 64, 1) == c
  {
    ModIs((b % 16 * 4 + c / 64) * 64, 256, b % 16, c / 64 * 64);
  }

  function Letters(v: seq<Sextet>): string {
    if v == [] then "" else [Letter(v[0])] + Letters(v[1..])
  }

  /** An encoding is the letters of its sextets, then at most two pads. */
  lemma {:induction false} EncodeIsLetters(b: seq<Byte>)
    ensures Encode(b) == Letters(Split(b)) + Pads(|b|)
  {
    hide Letter;
    if |b| >= 3 {
      hide Pads;
      EncodeIsLetters(b[3..]);
      LettersOf4(b[0] / 4, b[0] % 4 * 16 + b[1] / 16, b[1] % 16 * 4 + b[2] / 64, b[2] % 64, Split(b[3..]));
      SamePads(|b|);
    } else if |b| == 2 {
      LettersOf2(b[0] / 4, b[0] % 4 * 16 + b[1] / 16, [b[1] % 16 * 4]);
      LettersOf1(b[1] % 16 * 4);
    } else if |b| == 1 {
      LettersOf2(b[0] / 4, b[0] % 4 * 16, []);
    }
  }

  /** Padding of the last quantum. */
  function Pads(n: nat): string {
    if n % 3 == 0 then "" else if n % 3 == 1 then "==" else "="
  }

  lemma SamePads(n: nat)
    requires n >= 3
    ensures Pads(n) == Pads(n - 3)
  {
  }

  lemma LettersOf1(x: Sextet)
    ensures Letters([x]) == [Letter(x)]
  {
    assert [x][1..] == [];
  }

  lemma LettersOf2(x: Sextet, y: Sextet, v: seq<Sextet>)
    ensures Letters([x, y] + v) == [Letter(x), Letter(y)] + Letters(v)
  {
    assert ([x, y] + v)[1..] == [y] + v && ([y] + v)[1..] == v;
  }

  lemma LettersOf4(x: Sextet, y: Sextet, z: Sextet, w: Sextet, v: seq<Sextet>)
    ensures Letters([x, y, z, w] + v) == [Letter(x), Letter(y), Letter(z), Letter(w)] + Letters(v)
  {
    assert [x, y, z, w] + v == [x, y] + ([z, w] + v);
    LettersOf2(x, y, [z, w] + v);
    LettersOf2(z, w, v);
  }

  lemma {:induction false} SextetsOfLetters(v: seq<Sextet>, pad: string)
    requires pad == "" || pad == "=" || pad == "=="
    ensures Sextets(Letters(v) + pad) == Some(v)
  {
    if v != [] {
      LetterValue(v[0]);
      assert (Letters(v) + pad)[1..] == Letters(v[1..]) + pad;
      SextetsOfLetters(v[1..], pad);
      assert (Letters(v) + pad)[0] == Letter(v[0]) && [v[0]] + v[1..] == v;
    } else {
      assert Letters(v) + pad == pad;
      assert "="[1..] == "" && "=="[1..] == "=";
      assert Sextets("=") == Some([]) == Sextets("==");
    }
  }

  /** Blanks, pads and the choice of alphabet do not change the sextets. */
  lemma {:induction false} SextetsCanonical(s: string)
    ensures Sextets(s) == Sextets(Canonical(s))
  {
    if s != "" {
      SextetsCanonical(s[1..]);
      if !Skipped(s[0]) {
        assert Canonical(s)[1..] == Canonical(s[1..]);
      }
    }
  }

  /**
   * Main theorem on decoding: any text that is an encoding of b up to alphabet, padding and
   * blanks decodes to b. (An empty b is refused: the source turns empty output into null.)
   */
  lemma DecodeInvertsEncode(b: seq<Byte>, s: string)
    requires Canonical(s) == Canonical(Encode(b))
    ensures Decoded(s) == if b == [] then None else Some(b)
  {
    hide Encode, Octets, Split, Canonical;
    SextetsCanonical(s);
    SextetsCanonical(Encode(b));
    EncodeIsLetters(b);
    SextetsOfLetters(Split(b), Pads(|b|));
    OctetsOfSplit(b);
  }

  // ---- any text, character by character ----

  /** The standard alphabet by code point: capitals, small letters, digits, plus and slash. */
  lemma Alphabet(v: Sextet)
    ensures
      var c := Letter(v) as int;
      && (v < 26 ==> c == 65 + v) && (26 <= v < 52 ==> c == 97 + (v - 26)) && (52 <= v < 62 ==> c == 48 + (v - 52))
      && (v == 62 ==> c == 43) && (v == 63 ==> c == 47)
  {
  }

  /** Three octets are one number of 24 bits, written in four letters; fewer are filled up with zero bits. */
  lemma EncodeQuantum(a: Byte, b: Byte, c: Byte, rest: seq<Byte>)
    ensures
      var n := a * 65536 + b * 256 + c;
      Encode([a, b, c] + rest)
      == [Letter(n / 262144), Letter(n / 4096 % 64), Letter(n / 64 % 64), Letter(n % 64)] + Encode(rest)
    ensures
      var n := a * 65536 + b * 256;
      Encode([a, b]) == [Letter(n / 262144), Letter(n / 4096 % 64), Letter(n / 64 % 64), '=']
    ensures
      var n := a * 65536;
      Encode([a]) == [Letter(n / 262144), Letter(n / 4096 % 64), '=', '=']
  {
    hide Letter;
    assert ([a, b, c] + rest)[3..] == rest;
    Quantum(a, b, c);
    Quantum(a, b, 0);
    Quantum(a, 0, 0);
  }

  lemma Quantum(a: int, b: int, c: int)
    requires 0 <= a < 256 && 0 <= b < 256 && 0 <= c < 256
    ensures
      var n := a * 65536 + b * 256 + c;
      && n / 262144 == a / 4 && n / 4096 % 64 == a % 4 * 16 + b / 16
      && n / 64 % 64 == b % 16 * 4 + c / 64 && n % 64 == c % 64
  {
    var n := a * 65536 + b * 256 + c;
    ModIs(n, 262144, a / 4, a % 4 * 65536 + b * 256 + c);
    ModIs(n, 4096, a * 16 + b / 16, b % 16 * 256 + c);
    ModIs(a * 16 + b / 16, 64, a / 4, a % 4 * 16 + b / 16);
    ModIs(n, 64, a * 1024 + b * 4 + c / 64, c % 64);
    ModIs(a * 1024 + b * 4 + c / 64, 64, a * 16 + b / 16, b % 16 * 4 + c / 64);
  }

  lemma {:induction false} SextetsAppend(a: string, b: string)
    ensures Sextets(a + b)
      == if Sextets(a).None? || Sextets(b).None? then None else Some(Sextets(a).value + Sextets(b).value)
  {
    hide Skipped, Base64Value;
    if a == "" {
      assert a + b == b && (Sextets(b).Some? ==> [] + Sextets(b).value == Sextets(b).value);
    } else {
      assert (a + b)[1..] == a[1..] + b;
      SextetsAppend(a[1..], b);
      var v := Base64Value(a[0]);
      if !Skipped(a[0]) && v >= 0 && Sextets(a[1..]).Some? && Sextets(b).Some? {
        Regroup(v, Sextets(a[1..]).value, Sextets(b).value);
      }
    }
  }

  lemma Regroup(v: int, a: seq<int>, b: seq<int>)
    ensures [v] + (a + b) == [v] + a + b
  {
  }

  /** Padding and blanks may stand anywhere, in any number. */
  lemma BlanksAnywhere(a: string, c: char, b: string)
    requires c == '=' || c == '\n' || c == '\r' || c == ' ' || c == '\t'
    ensures Decoded(a + [c] + b) == Decoded(a + b)
  {
    SextetsAppend(a + [c], b);
    SextetsSnoc(a, c);
    SextetsAppend(a, b);
  }

  /** Either alphabet may be used, letter by letter. */
  lemma EitherAlphabet(a: string, b: string)
    ensures Decoded(a + "-" + b) == Decoded(a + "+" + b)
    ensures Decoded(a + "_" + b) == Decoded(a + "/" + b)
  {
    SextetsAppend(a + "-", b);
    SextetsAppend(a + "+", b);
    SextetsAppend(a + "_", b);
    SextetsAppend(a + "/", b);
    SextetsSnoc(a, '-');
    SextetsSnoc(a, '+');
    SextetsSnoc(a, '_');
    SextetsSnoc(a, '/');
  }

  /** A letter of either alphabet. */
  predicate IsLetter(c: char) {
    'A' <= c <= 'Z' || 'a' <= c <= 'z' || '0' <= c <= '9' || c in "+/-_"
  }

  function LettersIn(s: string): nat {
    if s == "" then 0 else (if IsLetter(s[0]) then 1 else 0) + LettersIn(s[1..])
  }

  /** A text decodes exactly if it holds nothing but letters, padding and blanks, and two letters at least. */
  lemma DecodesExactly(s: string)
    ensures Decoded(s).Some? <==> (forall c :: c in s ==> IsLetter(c) || c in BLANKS) && LettersIn(s) >= 2
  {
    SextetsExactly(s);
  }

  lemma {:induction false} SextetsExactly(s: string)
    ensures Sextets(s).Some? <==> forall c :: c in s ==> IsLetter(c) || c in BLANKS
    ensures Sextets(s).Some? ==> |Sextets(s).value| == LettersIn(s)
  {
    if s != "" {
      var c := s[0];
      LetterOrBlank(c);
      SextetsExactly(s[1..]);
      assert s == [c] + s[1..];
    }
  }

  lemma LetterOrBlank(c: char)
    ensures Skipped(c) <==> c in BLANKS
    ensures Base64Value(c) >= 0 <==> IsLetter(c)
    ensures IsLetter(c) ==> c !in BLANKS
  {
  }
}
