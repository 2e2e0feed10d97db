/**
 * DNS messages as octets (section 4.1 of RFC 1035): what hev_mapped_dns_handle reads out of a
 * query and writes into a reply.
 */
module DnsWire {
  import opened Bytes
  import opened Bits
  import opened Wrappers

  type Name = seq<Byte>

  /** The octet that replaces a length octet. */
  const DOT: Byte := '.' as int

  // ---- what the parser sees ----

  /** Where a name's root octet is, and its octets with every length octet turned into a dot. */
  datatype NameRead = NameRead(end: nat, dotted: seq<Byte>)

  function ReadName(q: seq<Byte>, qlen: nat, off: nat): (r: Option<NameRead>)
    requires qlen <= |q| && off < |q|
    ensures r.Some? ==> off <= r.value.end < |q| && q[r.value.end] == 0
    ensures r.Some? ==> |r.value.dotted| == r.value.end - off
    ensures r.Some? && r.value.end != off ==> r.value.end < qlen
    decreases |q| - off
  {
    if q[off] == 0 then Some(NameRead(off, []))
    else
      var next := off + 1 + q[off];
      if next >= qlen then None
      else
        match ReadName(q, qlen, next)
        case None => None
        case Some(r) => Some(NameRead(r.end, [DOT] + q[off + 1..next] + r.dotted))
  }

  /** The name handed to the cache: the dotted octets after the first, up to the first NUL. */
  function QueryName(dotted: seq<Byte>): Name {
    if dotted == [] then [] else CString(dotted[1..])
  }

  /** An IPv4 Internet question: where its name starts, and the name. */
  datatype Ask = Ask(at: nat, name: Name)

  datatype Scanned = Scanned(ok: bool, off: nat, asks: seq<Ask>)

  /** The next n questions from off on; the asks before a malformed question are kept. */
  function Scan(q: seq<Byte>, qlen: nat, off: nat, n: nat): (r: Scanned)
    requires qlen <= |q| && off <= |q|
    ensures |r.asks| <= n && off <= r.off <= |q|
    ensures r.ok ==> if n > 0 then r.off <= qlen else r.off == off
    decreases n
  {
    if n == 0 then Scanned(true, off, [])
    else if off == |q| then Scanned(false, off, [])
    else
      match ReadName(q, qlen, off)
      case None => Scanned(false, off, [])
      case Some(r) =>
        var e := r.end + 1;
        if e + 3 >= qlen then Scanned(false, off, [])
        else
          var rest := Scan(q, qlen, e + 4, n - 1);
          Scanned(rest.ok, rest.off, AskAt(q, off, r) + rest.asks)
  }

  /** Each of n questions from off on starts at a byte that is there: the code reads it unchecked. */
  predicate Readable(q: seq<Byte>, qlen: nat, off: nat, n: nat)
    requires qlen <= |q|
    decreases n
  {
    n == 0 ||
    (off < |q| &&
     var r := ReadName(q, qlen, off);
     r.None? || r.value.end + 4 >= qlen || Readable(q, qlen, r.value.end + 5, n - 1))
  }

  /** One byte past the query always suffices. */
  lemma {:induction false} SpareByte(q: seq<Byte>, qlen: nat, off: nat, n: nat)
    requires qlen < |q| && off < |q|
    ensures Readable(q, qlen, off, n)
    decreases n
  {
    hide ReadName;
    if n > 0 {
      var r := ReadName(q, qlen, off);
      if r.Some? && r.value.end + 4 < qlen {
        SpareByte(q, qlen, r.value.end + 5, n - 1);
      }
    }
  }

  function AskAt(q: seq<Byte>, off: nat, r: NameRead): (a: seq<Ask>)
    requires r.end + 4 < |q|
  {
    if ReadU16(q[r.end + 1], q[r.end + 2]) == 1 && ReadU16(q[r.end + 3], q[r.end + 4]) == 1
    then [Ask(off, QueryName(r.dotted))] else []
  }

  // ---- what the writer produces ----

  /** QR set, RA copied from RD, everything else kept. */
  function ReplyFlags(fl: U16): (r: U16)
    ensures r == Or(Or(fl, 0x8000), And(fl, 0x100) / 2)
  {
    Pow2Word();
    OrBound(fl, 0x8000, 16);
    OrBound(Or(fl, 0x8000), And(fl, 0x100) / 2, 16);
    Or(Or(fl, 0x8000), And(fl, 0x100) / 2)
  }

  function ReplyHeader(q: seq<Byte>, an: U16): (r: seq<Byte>)
    requires |q| >= 12
    ensures |r| == 12
  {
    q[..2] + PutU16(ReplyFlags(ReadU16(q[2], q[3]))) + q[4..6] + PutU16(an) + [0, 0, 0, 0]
  }

  /** A pointer to the question's name, type A, class IN, one second to live, four octets. */
  function Answer(at: nat, ip: U32): (r: seq<Byte>)
    ensures |r| == 16
  {
    [0xc0, at % 256] + PutU16(1) + PutU16(1) + PutU32(1) + PutU16(4) + PutU32(ip)
  }

  function Answers(ats: seq<nat>, ips: seq<U32>): (r: seq<Byte>)
    requires |ats| == |ips|
    ensures |r| == 16 * |ats|
  {
    if ats == [] then []
    else Answers(ats[..|ats| - 1], ips[..|ips| - 1]) + Answer(ats[|ats| - 1], ips[|ips| - 1])
  }

  function Reply(q: seq<Byte>, off: nat, ats: seq<nat>, ips: seq<U32>): (r: seq<Byte>)
    requires 12 <= off <= |q| && |ats| == |ips| < 0x1_0000
    ensures |r| == off + 16 * |ats|
  {
    ReplyHeader(q, |ats|) + q[12..off] + Answers(ats, ips)
  }

  function Ats(asks: seq<Ask>): (r: seq<nat>)
    ensures |r| == |asks|
  {
    seq(|asks|, i requires 0 <= i < |asks| => asks[i].at)
  }

  function AskNames(asks: seq<Ask>): (r: seq<Name>)
    ensures |r| == |asks|
  {
    seq(|asks|, i requires 0 <= i < |asks| => asks[i].name)
  }

  /** The synthetic address of an index. */
  function Address(net: U32, idx: nat): U32 {
    Or32(net, idx % 0x1_0000_0000)
  }

  function Addresses(net: U32, idxs: seq<nat>): (r: seq<U32>)
    ensures |r| == |idxs|
  {
    seq(|idxs|, i requires 0 <= i < |idxs| => Address(net, idxs[i]))
  }
}
