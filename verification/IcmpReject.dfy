/**
 * The rejection of UDP packets in hev-socks5-tunnel.c: parsing the packet read from the TUN device
 * and building an ICMP Port Unreachable with two Internet checksums (RFC 792, RFC 1071).
 */
module IcmpReject {
  import opened Bytes
  import opened Bits

  // ---- one's complement sums ----

  /** One's complement addition: a carry out of bit 15 comes back in at bit 0. */
  function OnesAdd(a: U16, b: U16): (r: U16) {
    if a + b > 0xFFFF then a + b - 0xFFFF else a + b
  }

  /** Section 1 of RFC 1071: the one's complement sum of the 16-bit words, an odd octet padded. */
  function OnesSum(s: seq<Byte>): U16
    decreases |s|
  {
    if s == [] then 0 else OnesAdd(FirstWord(s), OnesSum(Rest(s)))
  }

  function FirstWord(s: seq<Byte>): (w: U16)
    requires s != []
  {
    if |s| == 1 then ReadU16(s[0], 0) else ReadU16(s[0], s[1])
  }

  function Rest(s: seq<Byte>): (r: seq<Byte>)
    requires s != []
    ensures |r| < |s|
  {
    if |s| == 1 then [] else s[2..]
  }

  /** What the code accumulates: the plain sum, carries deferred. */
  function WordSum(s: seq<Byte>): nat
    decreases |s|
  {
    if s == [] then 0 else FirstWord(s) + WordSum(Rest(s))
  }

  /** The fold loop's result. */
  function Fold(x: nat): (r: nat)
    ensures r <= 0xFFFF
    decreases x
  {
    if x / 0x1_0000 == 0 then x else Fold(x % 0x1_0000 + x / 0x1_0000)
  }

  /** The canonical one's complement representative of a plain sum. */
  function Canon(x: nat): (r: U16) {
    if x == 0 then 0 else if x % 0xFFFF == 0 then 0xFFFF else x % 0xFFFF
  }

  lemma {:induction false} FoldIsCanon(x: nat)
    ensures Fold(x) == Canon(x)
    decreases x
  {
    var h, l := x / 0x1_0000, x % 0x1_0000;
    if h > 0 {
      FoldIsCanon(l + h);
      assert x == h * 0xFFFF + (l + h);
      SameRemainder(x, l + h, h);
    }
  }

  lemma SameRemainder(x: nat, y: nat, h: nat)
    requires x == h * 0xFFFF + y
    ensures x % 0xFFFF == y % 0xFFFF
  {
    ModIs(x, 0xFFFF, h + y / 0xFFFF, y % 0xFFFF);
  }

  lemma OnesAddCanon(w: U16, y: nat)
    ensures OnesAdd(w, Canon(y)) == Canon(w + y)
  {
    var c := Canon(y);
    var q := y / 0xFFFF;
    if y > 0 {
      assert y == q * 0xFFFF + y % 0xFFFF;
      if w + c > 0xFFFF {
        SameRemainder(w + y, w + c - 0xFFFF, (w + y - (w + c - 0xFFFF)) / 0xFFFF);
      } else {
        SameRemainder(w + y, w + c, (y - c) / 0xFFFF);
      }
    }
  }

  /** Main lemma: deferring the carries and folding them at the end gives the RFC's sum. */
  lemma {:induction false} FoldedSum(s: seq<Byte>)
    ensures Fold(WordSum(s)) == OnesSum(s) == Canon(WordSum(s))
    decreases |s|
  {
    FoldIsCanon(WordSum(s));
    if s != [] {
      FoldedSum(Rest(s));
      OnesAddCanon(FirstWord(s), WordSum(Rest(s)));
    }
  }

  /** Writing a word into two zero octets at an even offset adds it to the sum. */
  lemma {:induction false} SumWithWord(s: seq<Byte>, k: nat, w: U16)
    requires k + 2 <= |s| && k % 2 == 0 && s[k] == 0 && s[k + 1] == 0
    ensures WordSum(s[k := w / 256][k + 1 := w % 256]) == WordSum(s) + w
    decreases |s|
  {
    var t := s[k := w / 256][k + 1 := w % 256];
    if k == 0 {
      assert t[2..] == s[2..];
    } else {
      assert t[2..] == s[2..][k - 2 := w / 256][k - 1 := w % 256];
      SumWithWord(s[2..], k - 2, w);
    }
  }

  lemma CanonComplement(x: nat)
    requires x > 0
    ensures Canon(x + (0xFFFF - Canon(x))) == 0xFFFF
  {
    var q := x / 0xFFFF;
    assert x == q * 0xFFFF + x % 0xFFFF;
    ModIs(x + (0xFFFF - Canon(x)), 0xFFFF, if x % 0xFFFF == 0 then q else q + 1, 0);
  }

  /** The complement of the folded sum makes the region sum to all ones. */
  lemma ChecksumVerifies(s: seq<Byte>, k: nat)
    requires k + 2 <= |s| && k % 2 == 0 && s[k] == 0 && s[k + 1] == 0 && WordSum(s) > 0
    ensures var c := 0xFFFF - Fold(WordSum(s));
            OnesSum(s[k := c / 256][k + 1 := c % 256]) == 0xFFFF
  {
    hide WordSum, OnesSum, Fold, Canon;
    var c := 0xFFFF - Fold(WordSum(s));
    SumWithWord(s, k, c);
    FoldedSum(s[k := c / 256][k + 1 := c % 256]);
    FoldIsCanon(WordSum(s));
    CanonComplement(WordSum(s));
  }

  lemma {:induction false} SumBound(s: seq<Byte>)
    ensures WordSum(s) <= 0xFFFF * |s|
    decreases |s|
  {
    if s != [] {
      SumBound(Rest(s));
    }
  }

  // ---- the sum as a number ----

  /** Octets read as one number, the first most significant. */
  function Number(s: seq<Byte>): nat {
    if s == [] then 0 else Number(s[..|s| - 1]) * 256 + s[|s| - 1]
  }

  function Padded(s: seq<Byte>): (r: seq<Byte>)
    ensures |r| % 2 == 0
  {
    if |s| % 2 == 0 then s else s + [0]
  }

  /**
   * What the sum means: it is the padded octets, read as one number, modulo 65535; and it is zero only
   * for zeros.
   */
  lemma OnesSumIsRemainder(s: seq<Byte>)
    ensures OnesSum(s) % 0xFFFF == Number(Padded(s)) % 0xFFFF
    ensures OnesSum(s) == 0 <==> forall i :: 0 <= i < |s| ==> s[i] == 0
  {
    hide OnesSum, Fold, WordSum, Number;
    FoldedSum(s);
    PaddedSum(s);
    NumberIsSum(Padded(s));
    CanonRemainder(WordSum(s));
    SumZero(s);
  }

  lemma CanonRemainder(x: nat)
    ensures Canon(x) % 0xFFFF == x % 0xFFFF && (Canon(x) == 0 <==> x == 0)
  {
  }

  predicate AllZero(s: seq<Byte>) {
    forall i :: 0 <= i < |s| ==> s[i] == 0
  }

  lemma {:induction false} SumZero(s: seq<Byte>)
    ensures WordSum(s) == 0 <==> AllZero(s)
    decreases |s|
  {
    hide AllZero;
    ZeroFirst(s);
    if s != [] {
      SumZero(Rest(s));
    }
  }

  lemma ZeroFirst(s: seq<Byte>)
    ensures AllZero([]) && (s != [] ==> (AllZero(s) <==> FirstWord(s) == 0 && AllZero(Rest(s))))
  {
    if |s| >= 2 {
      hide AllZero;
      assert s == [s[0], s[1]] + s[2..];
      ZeroBoth([s[0], s[1]], s[2..]);
      ZeroWord(s[0], s[1]);
    }
  }

  lemma ZeroBoth(a: seq<Byte>, b: seq<Byte>)
    ensures AllZero([]) && (AllZero(a + b) <==> AllZero(a) && AllZero(b))
  {
    if AllZero(a + b) {
      assert forall i :: 0 <= i < |a| ==> a[i] == (a + b)[i];
      assert forall i :: 0 <= i < |b| ==> b[i] == (a + b)[|a| + i];
    }
  }

  lemma ZeroWord(a: Byte, b: Byte)
    ensures AllZero([a, b]) <==> ReadU16(a, b) == 0
  {
    assert [a, b][0] == a && [a, b][1] == b;
  }

  lemma {:induction false} PaddedSum(s: seq<Byte>)
    ensures WordSum(Padded(s)) == WordSum(s)
    decreases |s|
  {
    if |s| >= 2 {
      PaddedSum(s[2..]);
      assert Padded(s)[2..] == Padded(s[2..]);
    } else if |s| == 1 {
      assert Padded(s) == [s[0], 0] && Padded(s)[2..] == [];
    }
  }

  lemma {:induction false} SumSnoc(s: seq<Byte>, a: Byte, b: Byte)
    requires |s| % 2 == 0
    ensures WordSum(s + [a, b]) == WordSum(s) + (a * 256 + b)
    decreases |s|
  {
    if s == [] {
      assert s + [a, b] == [a, b] && [a, b][2..] == [];
    } else {
      assert (s + [a, b])[2..] == s[2..] + [a, b];
      SumSnoc(s[2..], a, b);
    }
  }

  lemma {:induction false} NumberIsSum(s: seq<Byte>)
    requires |s| % 2 == 0
    ensures Number(s) % 0xFFFF == WordSum(s) % 0xFFFF
    decreases |s|
  {
    hide WordSum, Number;
    if s == [] {
      NothingSums();
    } else {
      var t, a, b := s[..|s| - 2], s[|s| - 2], s[|s| - 1];
      assert s == t + [a, b];
      NumberIsSum(t);
      SumSnoc(t, a, b);
      NumberSnoc(t, a, b);
      var w: nat := ReadU16(a, b);
      SameRemainder(Number(s), Number(t) + w, Number(t));
      Added(Number(t), WordSum(t), w);
    }
  }

  lemma NothingSums()
    ensures Number([]) == 0 && WordSum([]) == 0
  {
  }

  lemma NumberSnoc(t: seq<Byte>, a: Byte, b: Byte)
    ensures Number(t + [a, b]) == Number(t) * 65536 + a * 256 + b
  {
    var s := t + [a, b];
    assert s[..|s| - 1] == t + [a] && (t + [a])[..|t|] == t;
  }

  lemma Added(x: nat, y: nat, w: nat)
    requires x % 0xFFFF == y % 0xFFFF
    ensures (x + w) % 0xFFFF == (y + w) % 0xFFFF
  {
    var k, l := x / 0xFFFF, y / 0xFFFF;
    SameRemainder(x + w, x % 0xFFFF + w, k);
    SameRemainder(y + w, y % 0xFFFF + w, l);
  }

  // ---- the packet ----

  /** What parse_udp_packet accepts as IPv4 carrying UDP. */
  predicate IsUdp(d: seq<Byte>, len: nat)
    requires len <= |d|
  {
    && 28 <= len && d[0] / 16 == 4
    && 20 <= d[0] % 16 * 4 && d[0] % 16 * 4 + 4 <= len
    && d[9] == 17
  }

  method ParseUdpPacket(data: array<Byte>, len: nat) returns (iphdrLen: U16, dstPort: U16)
    requires len <= data.Length
    ensures iphdrLen != 0 <==> IsUdp(data[..], len)
    ensures iphdrLen != 0 ==> 20 <= iphdrLen <= 60 && iphdrLen == data[0] % 16 * 4 && iphdrLen + 4 <= len
    ensures iphdrLen != 0 ==> dstPort == ReadU16(data[iphdrLen + 2], data[iphdrLen + 3])
  {
    dstPort := 0;
    if len < 28 {
      return 0, 0;
    }
    if data[0] / 16 != 4 {
      return 0, 0;
    }
    iphdrLen := data[0] % 16 * 4;
    if iphdrLen < 20 || len < iphdrLen + 4 {
      return 0, 0;
    }
    if data[9] != 17 {
      return 0, 0;
    }
    dstPort := ReadU16(data[iphdrLen + 2], data[iphdrLen + 3]);
  }

  /** An IPv4 packet: version 4, its header's length in words, protocol 17, options, and what it carries. */
  ghost predicate CarriesUdp(p: seq<Byte>, head: seq<Byte>, tail: seq<Byte>, options: seq<Byte>, udp: seq<Byte>) {
    && |head| == 8 && |tail| == 10 && |options| % 4 == 0 && |options| <= 40
    && p == [0x40 + 5 + |options| / 4] + head + [17] + tail + options + udp
  }

  /**
   * Accepted are exactly the IPv4 packets of protocol 17, with any options, that hold 28 octets at least
   * and four behind their header; its length is then read as it is.
   */
  lemma UdpExactly(d: seq<Byte>, len: nat)
    requires len <= |d|
    ensures IsUdp(d, len) <==> len >= 28 && exists head, tail, options, udp ::
      CarriesUdp(d[..len], head, tail, options, udp) && |udp| >= 4
    ensures forall head, tail, options, udp :: CarriesUdp(d[..len], head, tail, options, udp) ==>
      |d| > 0 && d[0] % 16 * 4 == 20 + |options|
  {
    var p := d[..len];
    forall head, tail, options, udp | CarriesUdp(p, head, tail, options, udp)
      ensures |d| > 0 && d[0] % 16 * 4 == 20 + |options| && (len >= 28 && |udp| >= 4 ==> IsUdp(d, len))
    {
      UdpHeader(p, head, tail, options, udp);
      assert d[0] == p[0] && d[9] == p[9];
    }
    if IsUdp(d, len) {
      assert p[0] == d[0] && p[9] == d[9];
      UdpParts(p);
    }
  }

  lemma UdpParts(p: seq<Byte>)
    requires IsUdp(p, |p|)
    ensures exists head, tail, options, udp :: CarriesUdp(p, head, tail, options, udp) && |udp| >= 4
  {
    var n: int := p[0] % 16 * 4;
    var head, tail, options, udp := p[1..9], p[10..20], p[20..n], p[n..];
    assert p == [p[0]] + head + [p[9]] + tail + options + udp;
    assert p[0] % 16 == 5 + (n - 20) / 4 && n % 4 == 0 && p[0] == 0x40 + p[0] % 16;
    assert [p[0]] == [0x40 + 5 + |options| / 4];
    assert CarriesUdp(p, head, tail, options, udp) && |udp| >= 4;
  }

  lemma UdpHeader(p: seq<Byte>, head: seq<Byte>, tail: seq<Byte>, options: seq<Byte>, udp: seq<Byte>)
    requires CarriesUdp(p, head, tail, options, udp)
    ensures |p| == 20 + |options| + |udp| && p[9] == 17
    ensures p[0] / 16 == 4 && p[0] % 16 * 4 == 20 + |options|
  {
    var w := |options| / 4;
    assert p[0] == 0x40 + 5 + w;
    assert p[0] % 16 == 5 + w;
  }

  lemma SumStep(s: seq<Byte>, i: nat)
    requires i < |s|
    ensures if i + 1 < |s| then WordSum(s[i..]) == ReadU16(s[i], s[i + 1]) + WordSum(s[i + 2..])
            else WordSum(s[i..]) == ReadU16(s[i], 0)
  {
    if i + 1 < |s| {
      assert s[i..][2..] == s[i + 2..];
    }
  }

  /** The accumulate loop; a 32-bit sum suffices. */
  method SumWords(a: array<Byte>, from: nat, n: nat) returns (sum: U32)
    requires from + n <= a.Length && n <= 0xFFFF
    ensures sum == WordSum(a[from..from + n])
  {
    hide WordSum, ReadU16;
    ghost var s := a[from..from + n];
    SumBound(s);
    sum := 0;
    var i := 0;
    assert s[0..] == s;
    while i < n
      invariant 0 <= i <= n + 1
      invariant sum + (if i < n then WordSum(s[i..]) else 0) == WordSum(s) || (n == 0 && i == 0 && sum == 0)
    {
      SumStep(s, i);
      SumTail(s, i + 2);
      if i + 1 < n {
        sum := sum + ReadU16(a[from + i], a[from + i + 1]);
      } else {
        sum := sum + ReadU16(a[from + i], 0);
      }
      i := i + 2;
    }
    SumEmpty(s);
  }

  lemma SumTail(s: seq<Byte>, i: nat)
    ensures i == |s| ==> WordSum(s[i..]) == 0
  {
  }

  lemma SumEmpty(s: seq<Byte>)
    ensures s == [] ==> WordSum(s) == 0
  {
  }

  /** The accumulate loop, the fold loop and the complement. */
  method Checksum(a: array<Byte>, from: nat, n: nat) returns (cksum: U16)
    requires from + n <= a.Length && n <= 0xFFFF
    ensures cksum == 0xFFFF - Fold(WordSum(a[from..from + n]))
  {
    hide WordSum;
    var sum := SumWords(a, from, n);
    while sum / 0x1_0000 != 0
      invariant Fold(sum) == Fold(WordSum(a[from..from + n]))
      decreases sum
    {
      sum := sum % 0x1_0000 + sum / 0x1_0000;
    }
    cksum := 0xFFFF - sum;
  }

  /** Destination Unreachable with code 3, back to the sender, quoting header and eight octets. */
  ghost predicate PortUnreachable(out: seq<Byte>, orig: seq<Byte>, iphdrLen: nat)
    requires 20 <= iphdrLen && iphdrLen + 8 <= |orig|
  {
    && |out| == 20 + 8 + iphdrLen + 8
    && out[..2] == [0x45, 0] && ReadU16(out[2], out[3]) == |out| && out[4..8] == [0, 0, 0, 0]
    && out[8..10] == [64, 1] && out[12..16] == orig[16..20] && out[16..20] == orig[12..16]
    && out[20..22] == [3, 3] && out[24..28] == [0, 0, 0, 0] && out[28..] == orig[..iphdrLen + 8]
    && OnesSum(out[..20]) == 0xFFFF && OnesSum(out[20..]) == 0xFFFF
  }

  /** The IPv4 header without its checksum. */
  function IpHeader(total: U16, src: seq<Byte>, dst: seq<Byte>): (h: seq<Byte>)
    requires |src| == |dst| == 4
    ensures |h| == 20
  {
    [0x45, 0] + PutU16(total) + [0, 0, 0, 0, 64, 1, 0, 0] + src + dst
  }

  function IcmpBody(quote: seq<Byte>): (b: seq<Byte>)
    ensures |b| == 8 + |quote|
  {
    [3, 3, 0, 0, 0, 0, 0, 0] + quote
  }

  /** s with the word w at k. */
  function WithWord(s: seq<Byte>, k: nat, w: U16): (r: seq<Byte>)
    requires k + 2 <= |s|
    ensures |r| == |s|
  {
    s[k := w / 256][k + 1 := w % 256]
  }

  method WriteIpHeader(p: array<Byte>, orig: array<Byte>)
    requires p != orig && 20 <= p.Length < 0x1_0000 && 20 <= orig.Length && forall i :: 0 <= i < p.Length ==> p[i] == 0
    modifies p
    ensures p[..20] == IpHeader(p.Length, orig[16..20], orig[12..16])
    ensures forall i :: 20 <= i < p.Length ==> p[i] == 0
  {
    p[0] := 0x45;
    p[2] := p.Length / 256;
    p[3] := p.Length % 256;
    p[8] := 64;
    p[9] := 1;
    forall i | 0 <= i < 4 { p[12 + i] := orig[16 + i]; }
    forall i | 0 <= i < 4 { p[16 + i] := orig[12 + i]; }
    ghost var h := IpHeader(p.Length, orig[16..20], orig[12..16]);
    assert forall i :: 0 <= i < 20 ==> p[i] == h[i];
  }

  method WriteIcmpBody(p: array<Byte>, orig: array<Byte>, n: nat)
    requires p != orig && p.Length == 28 + n && n <= orig.Length && forall i :: 20 <= i < p.Length ==> p[i] == 0
    modifies p
    ensures p[..20] == old(p[..20]) && p[20..] == IcmpBody(orig[..n])
  {
    p[20] := 3;
    p[21] := 3;
    forall i | 0 <= i < n { p[28 + i] := orig[i]; }
    ghost var b := IcmpBody(orig[..n]);
    assert forall i :: 0 <= i < 8 + n ==> p[20 + i] == b[i];
  }

  /** Stores the complement at offset k of the region, which then sums to all ones. */
  method StoreChecksum(p: array<Byte>, from: nat, n: nat, k: nat) returns (ghost c: U16)
    requires from + n <= p.Length && n <= 0xFFFF && k + 2 <= n && k % 2 == 0
    requires p[from + k] == 0 && p[from + k + 1] == 0 && WordSum(p[from..from + n]) > 0
    modifies p
    ensures p[..from] == old(p[..from]) && p[from + n..] == old(p[from + n..])
    ensures p[from..from + n] == WithWord(old(p[from..from + n]), k, c)
    ensures OnesSum(p[from..from + n]) == 0xFFFF
  {
    hide WordSum, OnesSum, Fold;
    ghost var s := p[from..from + n];
    ChecksumVerifies(s, k);
    var cksum := Checksum(p, from, n);
    c := cksum;
    p[from + k] := cksum / 256;
    p[from + k + 1] := cksum % 256;
    assert p[from..from + n] == WithWord(s, k, cksum);
  }

  lemma HeaderZeros(total: U16, src: seq<Byte>, dst: seq<Byte>)
    requires |src| == |dst| == 4
    ensures var h := IpHeader(total, src, dst); h[10] == 0 && h[11] == 0 && WordSum(h) > 0
  {
  }

  lemma BodyZeros(quote: seq<Byte>)
    ensures var b := IcmpBody(quote); b[2] == 0 && b[3] == 0 && WordSum(b) > 0
  {
  }

  lemma Assembled(out: seq<Byte>, orig: seq<Byte>, iphdrLen: nat, c: U16, d: U16)
    requires 20 <= iphdrLen <= 60 && iphdrLen + 8 <= |orig| && |out| == iphdrLen + 36
    requires out[..20] == WithWord(IpHeader(|out|, orig[16..20], orig[12..16]), 10, c)
    requires out[20..] == WithWord(IcmpBody(orig[..iphdrLen + 8]), 2, d)
    requires OnesSum(out[..20]) == 0xFFFF && OnesSum(out[20..]) == 0xFFFF
    ensures PortUnreachable(out, orig, iphdrLen)
  {
    hide OnesSum;
    var h, b := out[..20], out[20..];
    assert out[..2] == h[..2] && out[4..8] == h[4..8] && out[8..10] == h[8..10];
    assert out[2] == h[2] && out[3] == h[3];
    assert out[12..16] == h[12..16] && out[16..20] == h[16..20];
    assert out[20..22] == b[..2] && out[24..28] == b[4..8] && out[28..] == b[8..];
  }

  /** send_icmp_port_unreachable: the packet handed to the TUN device, or null when too short to quote. */
  method PortUnreachablePacket(orig: array<Byte>, origLen: nat, iphdrLen: nat) returns (out: array?<Byte>)
    requires origLen <= orig.Length && 20 <= iphdrLen <= 60
    ensures out == null <==> origLen < iphdrLen + 8
    ensures out != null ==> fresh(out) && PortUnreachable(out[..], orig[..], iphdrLen)
  {
    hide OnesSum, WordSum, IpHeader, IcmpBody, WithWord, PortUnreachable;
    var icmpDataLen := iphdrLen + 8;
    if origLen < icmpDataLen {
      return null;
    }
    var icmpTotal := 8 + icmpDataLen;
    var ipTotal := 20 + icmpTotal;
    var p := new Byte[ipTotal](_ => 0);
    WriteIpHeader(p, orig);
    HeaderZeros(ipTotal, orig[16..20], orig[12..16]);
    assert p[0..20] == p[..20] && p[10] == p[..20][10] && p[11] == p[..20][11];
    ghost var c := StoreChecksum(p, 0, 20, 10);
    ghost var h := p[..20];
    WriteIcmpBody(p, orig, icmpDataLen);
    BodyZeros(orig[..icmpDataLen]);
    assert p[20..20 + icmpTotal] == p[20..] && p[22] == p[20..][2] && p[23] == p[20..][3];
    ghost var d := StoreChecksum(p, 20, icmpTotal, 2);
    assert p[20..20 + icmpTotal] == p[..][20..] && p[..20] == p[..][..20] == h;
    Assembled(p[..], orig[..], iphdrLen, c, d);
    out := p;
  }
}
