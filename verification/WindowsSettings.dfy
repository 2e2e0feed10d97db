/** The DefaultConnectionSettings blob of WindowsConnectionSettings.kt. */
module WindowsSettings {
  import opened Bytes
  import opened Bits
  import opened Wrappers
  import TunnelToml

  const VERSION: U32 := 0x46
  const FLAG_DIRECT: U32 := 1
  const FLAG_PROXY: U32 := 2
  const FLAG_PAC: U32 := 4
  const FLAG_WPAD: U32 := 8

  /** Kotlin's Int. */
  type Int32 = x: int | -0x8000_0000 <= x < 0x8000_0000

  datatype Parsed = Parsed(version: int, counter: int, flags: U32, server: string, bypass: string, pacUrl: string)
  {
    predicate ProxyEnabled() {
      And(flags, FLAG_PROXY) != 0
    }
  }

  // ---- words and strings ----

  /** The bits of an Int. */
  function Word(x: Int32): (w: U32)
    ensures Signed(w) == x
  {
    if x < 0 then x + 0x1_0000_0000 else x
  }

  /** Int addition wraps around. */
  function Wrap(x: int): Int32 {
    var w: int := x % 0x1_0000_0000;
    if w < 0x8000_0000 then w else w - 0x1_0000_0000
  }

  function Le32(w: U32): (s: seq<Byte>)
    ensures |s| == 4 && FromLe(s) == w
  {
    var w1: int := w / 256;
    var w2: int := w1 / 256;
    [w % 256, w1 % 256, w2 % 256, w2 / 256]
  }

  function FromLe(s: seq<Byte>): U32
    requires |s| == 4
  {
    ReadU32(s[3], s[2], s[1], s[0])
  }

  /** toByteArray(US_ASCII): what has no code becomes a question mark. */
  function ToAscii(s: string): (b: seq<Byte>)
    ensures |b| == |s|
    ensures forall i :: 0 <= i < |s| ==> b[i] == if s[i] < '\U{80}' then s[i] as int else '?' as int
  {
    seq(|s|, i requires 0 <= i < |s| => if s[i] < '\U{80}' then s[i] as int else '?' as int)
  }

  /** String(bytes, US_ASCII): what is no code becomes the replacement character. */
  function FromAscii(b: seq<Byte>): (s: string)
    ensures |s| == |b|
    ensures forall i :: 0 <= i < |b| ==> s[i] == if b[i] < 128 then b[i] as char else '\U{FFFD}'
  {
    seq(|b|, i requires 0 <= i < |b| => if b[i] < 128 then b[i] as char else '\U{FFFD}')
  }

  predicate IsAscii(s: string) {
    forall c :: c in s ==> c < '\U{80}'
  }

  /** What survives the trip through ASCII. */
  function Asciified(s: string): string {
    FromAscii(ToAscii(s))
  }

  lemma AsciiSurvives(s: string)
    ensures Asciified(s) == s <==> IsAscii(s)
    ensures IsAscii(Asciified(s))
  {
    var b, t := ToAscii(s), Asciified(s);
    forall i | 0 <= i < |s|
      ensures t[i] == if s[i] < '\U{80}' then s[i] else '?'
    {
      CharTrip(s[i], b[i]);
    }
    if IsAscii(s) {
      forall i | 0 <= i < |s|
        ensures t[i] == s[i]
      {
        assert s[i] in s;
      }
      assert t == s;
    }
    if t == s {
      assert forall i :: 0 <= i < |s| ==> s[i] < '\U{80}';
    }
  }

  lemma CharTrip(c: char, b: Byte)
    requires b == if c < '\U{80}' then c as int else '?' as int
    ensures b < 128 && b as char == if c < '\U{80}' then c else '?'
  {
  }

  predicate IsBlank(s: string) {
    forall c :: c in s ==> TunnelToml.IsSpace(c)
  }

  // ---- the blob ----

  /** The flags as the source combines them. */
  function Flags(enabled: bool, pacUrl: string, extraFlags: U32): U32 {
    Or32(
      Or32(Or32(FLAG_DIRECT, if enabled then FLAG_PROXY else 0), if IsBlank(pacUrl) then 0 else FLAG_PAC),
      And(And(extraFlags, Not32(FLAG_PAC)), Not32(FLAG_WPAD)))
  }

  function AtLeast1(counter: Int32): Int32 {
    if counter < 1 then 1 else counter
  }

  function Field(s: string): seq<Byte>
    requires |s| < 0x8000_0000
  {
    Le32(|s|) + ToAscii(s)
  }

  function Zeros(n: nat): seq<Byte> {
    seq(n, _ => 0)
  }

  /** The size of the blob; beyond Int's range it cannot be allocated. */
  function Size(server: string, bypass: string, pacUrl: string): nat {
    12 + 4 + |server| + 4 + |bypass| + 4 + |pacUrl| + 32
  }

  predicate Fits(server: string, bypass: string, pacUrl: string) {
    Size(server, bypass, pacUrl) < 0x8000_0000
  }

  /** Header and strings, without the zeros that follow. */
  function Body(flags: U32, counter: Int32, server: string, bypass: string, pacUrl: string): seq<Byte>
    requires Fits(server, bypass, pacUrl)
  {
    Le32(VERSION) + (Le32(Word(AtLeast1(counter))) + (Le32(flags) + (Field(server) + (Field(bypass) + Field(pacUrl)))))
  }

  /** A length and that many characters at the head of the bytes, and what follows them. */
  function TakeString(b: seq<Byte>): Option<(string, seq<Byte>)> {
    if |b| < 4 then None
    else
      var len := Signed(FromLe(b[..4]));
      if len < 0 || len > |b| - 4 then None
      else Some((FromAscii(b[4..4 + len]), b[4 + len..]))
  }

  function Decoded(raw: seq<Byte>): Option<Parsed> {
    if |raw| < 16 then None
    else
      var server := TakeString(raw[12..]);
      if server.None? then None
      else
        var bypass := TakeString(server.value.1);
        if bypass.None? then None
        else
          var pac := TakeString(bypass.value.1);
          Some(Parsed(
            Signed(FromLe(raw[..4])), Signed(FromLe(raw[4..8])), FromLe(raw[8..12]),
            server.value.0, bypass.value.0, if pac.None? then "" else pac.value.0))
  }

  // ---- the little-endian java.nio.ByteBuffer ----

  class Cursor {
    const data: array<Byte>
    var pos: nat

    ghost predicate Valid()
      reads this
    {
      pos <= data.Length
    }

    constructor (bytes: array<Byte>)
      ensures Valid() && data == bytes && pos == 0
    {
      data := bytes;
      pos := 0;
    }

    function Remaining(): nat
      requires Valid()
      reads this
    {
      data.Length - pos
    }

    method Put(bytes: seq<Byte>)
      requires Valid() && |bytes| <= data.Length - pos
      modifies this`pos, data
      ensures Valid() && pos == old(pos) + |bytes|
      ensures data[..pos] == old(data[..pos]) + bytes
    {
      forall i | 0 <= i < |bytes| {
        data[pos + i] := bytes[i];
      }
      pos := pos + |bytes|;
    }

    method PutInt(w: U32)
      requires Valid() && 4 <= data.Length - pos
      modifies this`pos, data
      ensures Valid() && pos == old(pos) + 4
      ensures data[..pos] == old(data[..pos]) + Le32(w)
    {
      Put(Le32(w));
    }

    /** putLenString. */
    method PutLenString(s: string)
      requires Valid() && 4 + |s| <= data.Length - pos && |s| < 0x8000_0000
      modifies this`pos, data
      ensures Valid() && pos == old(pos) + 4 + |s|
      ensures data[..pos] == old(data[..pos]) + Field(s)
    {
      PutInt(|s|);
      Put(ToAscii(s));
    }

    /** Zeros up to the capacity. */
    method FillUp()
      requires Valid()
      modifies this`pos, data
      ensures Valid() && pos == data.Length && data[..] == old(data[..pos]) + Zeros(data.Length - old(pos))
    {
      ghost var start, body := pos, data[..pos];
      while pos < data.Length
        invariant Valid() && start <= pos && data[..pos] == body + Zeros(pos - start)
      {
        Put([0]);
        assert Zeros(pos - start) == Zeros(pos - start - 1) + [0];
      }
      assert data[..] == data[..pos];
    }

    method GetInt() returns (w: U32)
      requires Valid() && 4 <= data.Length - pos
      modifies this`pos
      ensures Valid() && pos == old(pos) + 4 && w == FromLe(data[old(pos)..pos])
    {
      w := FromLe(data[pos..pos + 4]);
      pos := pos + 4;
    }

    /** getLenString. */
    method GetLenString() returns (r: Option<string>)
      requires Valid()
      modifies this`pos
      ensures Valid()
      ensures
        var t := TakeString(old(data[pos..]));
        r == (if t.None? then None else Some(t.value.0)) && (t.Some? ==> data[pos..] == t.value.1)
    {
      ghost var b := data[pos..];
      if Remaining() < 4 {
        return None;
      }
      var len := GetInt();
      assert b[..4] == data[old(pos)..pos];
      var n := Signed(len);
      if n < 0 || n > Remaining() {
        return None;
      }
      var bytes := data[pos..pos + n];
      assert bytes == b[4..4 + n];
      pos := pos + n;
      assert data[pos..] == b[4 + n..];
      return Some(FromAscii(bytes));
    }
  }

  /** encode; None where the buffer cannot be allocated. */
  method Encode(enabled: bool, server: string, bypass: string, pacUrl: string, counter: Int32, extraFlags: U32)
    returns (r: Option<seq<Byte>>)
    ensures r == if Fits(server, bypass, pacUrl)
      then Some(Body(Flags(enabled, pacUrl, extraFlags), counter, server, bypass, pacUrl) + Zeros(32)) else None
  {
    hide Le32, Field, Flags, ToAscii, Word, AtLeast1;
    var flags := Flags(enabled, pacUrl, extraFlags);
    if Size(server, bypass, pacUrl) >= 0x8000_0000 {
      return None;
    }
    var data := new Byte[Size(server, bypass, pacUrl)](_ => 0);
    var buf := new Cursor(data);
    buf.PutInt(VERSION);
    buf.PutInt(Word(AtLeast1(counter)));
    buf.PutInt(flags);
    buf.PutLenString(server);
    buf.PutLenString(bypass);
    buf.PutLenString(pacUrl);
    ghost var body := Body(flags, counter, server, bypass, pacUrl);
    assert data[..buf.pos] == body by {
      Regroup(Le32(VERSION), Le32(Word(AtLeast1(counter))), Le32(flags), Field(server), Field(bypass), Field(pacUrl));
    }
    buf.FillUp();
    assert data[..] == body + Zeros(32);
    return Some(data[..]);
  }

  lemma Regroup(a: seq<Byte>, b: seq<Byte>, c: seq<Byte>, d: seq<Byte>, e: seq<Byte>, f: seq<Byte>)
    ensures [] + a + b + c + d + e + f == a + (b + (c + (d + (e + f))))
  {
  }

  /** decode: total, and within the array whatever the lengths in it claim. */
  method Decode(raw: array<Byte>) returns (r: Option<Parsed>)
    ensures r == Decoded(raw[..])
  {
    if raw.Length < 16 {
      return None;
    }
    var buf := new Cursor(raw);
    var version := buf.GetInt();
    var counter := buf.GetInt();
    var flags := buf.GetInt();
    assert raw[0..4] == raw[..][..4] && raw[4..8] == raw[..][4..8] && raw[8..12] == raw[..][8..12];
    assert raw[12..] == raw[..][12..];
    var server := buf.GetLenString();
    if server.None? {
      return None;
    }
    var bypass := buf.GetLenString();
    if bypass.None? {
      return None;
    }
    var pac := "";
    if buf.Remaining() >= 4 {
      var p := buf.GetLenString();
      pac := if p.None? then "" else p.value;
    }
    return Some(Parsed(Signed(version), Signed(counter), flags, server.value, bypass.value, pac));
  }

  function NextCounter(existing: Option<seq<Byte>>): Int32 {
    if existing.None? || Decoded(existing.value).None? then 1
    else Wrap(Decoded(existing.value).value.counter + 1)
  }

  // ---- what a written blob reads as ----

  lemma FieldTaken(s: string, rest: seq<Byte>)
    requires |s| < 0x8000_0000
    ensures TakeString(Field(s) + rest) == Some((Asciified(s), rest))
  {
    var b := Field(s) + rest;
    assert b[..4] == Le32(|s|) && b[4..4 + |s|] == ToAscii(s) && b[4 + |s|..] == rest;
  }

  /**
   * Whatever follows the strings, reading gives back what was written: version 0x46, the counter
   * raised to at least 1, the flags, and the strings as far as ASCII can carry them.
   */
  lemma DecodeInvertsEncode(
    flags: U32, counter: Int32, server: string, bypass: string, pacUrl: string, rest: seq<Byte>)
    requires Fits(server, bypass, pacUrl)
    ensures Decoded(Body(flags, counter, server, bypass, pacUrl) + rest)
      == Some(Parsed(0x46, AtLeast1(counter), flags, Asciified(server), Asciified(bypass), Asciified(pacUrl)))
  {
    hide Le32, Field, TakeString, Asciified;
    var v, c, f := Le32(VERSION), Le32(Word(AtLeast1(counter))), Le32(flags);
    var raw := Body(flags, counter, server, bypass, pacUrl) + rest;
    Headers(v, c, f, Field(server) + (Field(bypass) + Field(pacUrl)), rest);
    FieldTaken(server, Field(bypass) + (Field(pacUrl) + rest));
    FieldTaken(bypass, Field(pacUrl) + rest);
    FieldTaken(pacUrl, rest);
    assert (Field(server) + (Field(bypass) + Field(pacUrl))) + rest
      == Field(server) + (Field(bypass) + (Field(pacUrl) + rest));
    assert |raw| >= 12 && raw[12..] == Field(server) + (Field(bypass) + (Field(pacUrl) + rest));
    assert |raw| >= 16 by {
      StringIsLong(raw[12..]);
    }
  }

  lemma Headers(v: seq<Byte>, c: seq<Byte>, f: seq<Byte>, t: seq<Byte>, rest: seq<Byte>)
    requires |v| == |c| == |f| == 4
    ensures
      var raw := (v + (c + (f + t))) + rest;
      |raw| >= 12 && raw[..4] == v && raw[4..8] == c && raw[8..12] == f && raw[12..] == t + rest
  {
  }

  lemma StringIsLong(b: seq<Byte>)
    ensures TakeString(b).Some? ==> |b| >= 4
  {
  }

  lemma DecodedCounter(raw: seq<Byte>)
    ensures Decoded(raw).Some? ==> -0x8000_0000 <= Decoded(raw).value.counter < 0x8000_0000
  {
    hide TakeString, FromLe;
  }

  /** Each rewrite counts up by one, and starts again at 1 where Int or the old blob ends. */
  lemma CounterAdvances(existing: seq<Byte>, flags: U32, server: string, bypass: string, pacUrl: string)
    requires Fits(server, bypass, pacUrl)
    ensures
      var was, now := Decoded(existing),
        Decoded(Body(flags, NextCounter(Some(existing)), server, bypass, pacUrl) + Zeros(32));
      now.Some? && now.value.counter ==
        if was.Some? && 0 <= was.value.counter < 0x7FFF_FFFF then was.value.counter + 1 else 1
  {
    hide Decoded, Body, Zeros, Fits, Asciified;
    DecodeInvertsEncode(flags, NextCounter(Some(existing)), server, bypass, pacUrl, Zeros(32));
    DecodedCounter(existing);
  }

  // ---- the blob, octet by octet ----

  /** The octets of a word, least significant first. */
  function Octets(w: nat): seq<Byte> {
    [w % 256, w / 256 % 256, w / 65536 % 256, w / 16777216 % 256]
  }

  lemma WordOctets(w: U32)
    ensures Le32(w) == Octets(w)
    ensures FromLe(Le32(w)) == w
  {
    var a, b := w / 256, w / 256 / 256;
    ModIs(w, 65536, b, a % 256 * 256 + w % 256);
    ModIs(w, 16777216, b / 256, b % 256 * 65536 + a % 256 * 256 + w % 256);
  }

  /** What a blob holds, in order: three words, three counted strings in ASCII, and 32 zeros. */
  lemma BlobOctets(flags: U32, counter: Int32, server: string, bypass: string, pacUrl: string)
    requires Fits(server, bypass, pacUrl)
    ensures Body(flags, counter, server, bypass, pacUrl) + Zeros(32)
      == [0x46, 0, 0, 0] + Octets(if counter < 1 then 1 else counter) + Octets(flags)
         + Octets(|server|) + ToAscii(server) + Octets(|bypass|) + ToAscii(bypass)
         + Octets(|pacUrl|) + ToAscii(pacUrl) + seq(32, _ => 0)
  {
    hide Le32, Octets, ToAscii;
    WordOctets(0x46);
    WordOctets(if counter < 1 then 1 else counter);
    WordOctets(flags);
    WordOctets(|server|);
    WordOctets(|bypass|);
    WordOctets(|pacUrl|);
    VersionOctets();
    Ungroup(Octets(0x46), Octets(if counter < 1 then 1 else counter), Octets(flags), Octets(|server|), ToAscii(server),
      Octets(|bypass|), ToAscii(bypass), Octets(|pacUrl|), ToAscii(pacUrl), Zeros(32));
  }

  lemma VersionOctets()
    ensures Octets(0x46) == [0x46, 0, 0, 0]
  {
  }

  lemma Ungroup(a: seq<Byte>, b: seq<Byte>, c: seq<Byte>, d: seq<Byte>, e: seq<Byte>, f: seq<Byte>, g: seq<Byte>,
                h: seq<Byte>, i: seq<Byte>, z: seq<Byte>)
    ensures (a + (b + (c + ((d + e) + ((f + g) + (h + i)))))) + z == a + b + c + d + e + f + g + h + i + z
  {
  }

  /** A word of the blob, least significant octet first. */
  function WordAt(raw: seq<Byte>, k: nat): nat
    requires k + 4 <= |raw|
  {
    var a: nat, b: nat, c: nat, d: nat := raw[k], raw[k + 1], raw[k + 2], raw[k + 3];
    a + 256 * b + 65536 * c + 16777216 * d
  }

  /** A length that is not negative stands at k, and that many characters behind it. */
  predicate StringAt(raw: seq<Byte>, k: nat) {
    k + 4 <= |raw| && WordAt(raw, k) < 0x8000_0000 && k + 4 + WordAt(raw, k) <= |raw|
  }

  /** A blob can be read exactly if the first two strings are there. */
  lemma DecodesExactly(raw: seq<Byte>)
    ensures Decoded(raw).Some? <==> StringAt(raw, 12) && StringAt(raw, 16 + WordAt(raw, 12))
  {
    hide TakeString, FromLe;
    if |raw| >= 16 {
      Taken(raw, 12);
      if StringAt(raw, 12) {
        Taken(raw, 16 + WordAt(raw, 12));
      }
    }
  }

  lemma Taken(raw: seq<Byte>, k: nat)
    requires k <= |raw|
    ensures
      var t := TakeString(raw[k..]);
      if StringAt(raw, k) then
        t.Some? && t.value.1 == raw[k + 4 + WordAt(raw, k)..]
      else t.None?
  {
    if k + 4 <= |raw| {
      var b := raw[k..];
      assert b[..4] == [raw[k], raw[k + 1], raw[k + 2], raw[k + 3]];
      assert WordAt(raw, k) == FromLe(b[..4]);
    }
  }

  // ---- what the flags mean ----

  lemma LowBit(x: nat)
    ensures Bit(x, 0) <==> x % 2 == 1
  {
  }

  lemma {:induction false} NotBit(x: nat, n: nat, k: nat)
    requires x < Pow2(n) && k < n
    ensures Bit(Pow2(n) - 1 - x, k) <==> !Bit(x, k)
    decreases n
  {
    hide Bit;
    var y := Pow2(n) - 1 - x;
    assert Pow2(n) == 2 * Pow2(n - 1);
    var h, b := x / 2, x % 2;
    assert y == 2 * (Pow2(n - 1) - 1 - h) + (1 - b);
    HalfOf(Pow2(n - 1) - 1 - h, 1 - b);
    if k > 0 {
      BitShift(x, k);
      BitShift(y, k);
      NotBit(h, n - 1, k - 1);
    } else {
      LowBit(x);
      LowBit(y);
    }
  }

  /**
   * Direct always, proxy when asked for (or already among the extra flags), a script only with an
   * address, never WPAD.
   */
  lemma FlagsMean(enabled: bool, pacUrl: string, extraFlags: U32, k: nat)
    requires k < 32
    ensures Bit(Flags(enabled, pacUrl, extraFlags), k) <==>
      match k
      case 0 => true
      case 1 => enabled || Bit(extraFlags, 1)
      case 2 => !IsBlank(pacUrl)
      case 3 => false
      case _ => Bit(extraFlags, k)
  {
    hide And, Or, Bit, IsBlank;
    var e, p := if enabled then FLAG_PROXY else 0, if IsBlank(pacUrl) then 0 else FLAG_PAC;
    var a := And(extraFlags, Not32(FLAG_PAC));
    OrBit(Or32(Or32(FLAG_DIRECT, e), p), And(a, Not32(FLAG_WPAD)), k);
    OrBit(Or32(FLAG_DIRECT, e), p, k);
    OrBit(FLAG_DIRECT, e, k);
    AndBit(a, Not32(FLAG_WPAD), k);
    AndBit(extraFlags, Not32(FLAG_PAC), k);
    FlagBits(k);
  }

  lemma AndTwo(x: nat)
    ensures And(x, FLAG_PROXY) != 0 <==> Bit(x, 1)
  {
    assert And(x, 2) == if x == 0 then 0 else 2 * And(x / 2, 1);
    assert And(x / 2, 1) == x / 2 % 2;
    assert Pow2(1) == 2;
  }

  /** A written blob shows the proxy as on when it was asked for, or was among the extra flags. */
  lemma ProxyShown(
    enabled: bool, pacUrl: string, extraFlags: U32, counter: Int32, server: string, bypass: string, rest: seq<Byte>)
    requires Fits(server, bypass, pacUrl)
    ensures
      var p := Decoded(Body(Flags(enabled, pacUrl, extraFlags), counter, server, bypass, pacUrl) + rest);
      p.Some? && (p.value.ProxyEnabled() <==> enabled || Bit(extraFlags, 1))
  {
    hide Decoded, Body, Flags, Fits, Asciified, And, Bit;
    var flags := Flags(enabled, pacUrl, extraFlags);
    DecodeInvertsEncode(flags, counter, server, bypass, pacUrl, rest);
    AndTwo(flags);
    FlagsMean(enabled, pacUrl, extraFlags, 1);
  }

  /** With the proxy flag among the extra ones, a proxy that was not asked for shows as on. */
  lemma ProxyUnasked(counter: Int32, server: string, bypass: string)
    requires Fits(server, bypass, "")
    ensures
      var p := Decoded(Body(Flags(false, "", FLAG_PROXY), counter, server, bypass, "") + Zeros(32));
      p.Some? && p.value.ProxyEnabled()
  {
    hide Decoded, Body, Flags, Fits, Bit, Zeros;
    ProxyShown(false, "", FLAG_PROXY, counter, server, bypass, Zeros(32));
    FlagBits(1);
  }

  lemma FlagBits(k: nat)
    requires k < 32
    ensures (Bit(FLAG_DIRECT, k) <==> k == 0) && (Bit(FLAG_PROXY, k) <==> k == 1) && !Bit(0, k)
    ensures Bit(FLAG_PAC, k) <==> k == 2
    ensures Bit(Not32(FLAG_PAC), k) <==> k != 2
    ensures Bit(Not32(FLAG_WPAD), k) <==> k != 3
  {
    hide Bit;
    Pow2Word();
    assert Pow2(0) == 1 && Pow2(1) == 2 && Pow2(2) == 4 && Pow2(3) == 8;
    PowerBit(0, k);
    PowerBit(1, k);
    PowerBit(2, k);
    PowerBit(3, k);
    NotBit(4, 32, k);
    NotBit(8, 32, k);
    ZeroBit(k);
  }

  lemma ZeroBit(k: nat)
    ensures !Bit(0, k)
  {
    ModIs(0, Pow2(k), 0, 0);
  }
}
