/** hev_mapped_dns_handle: answers a query in place, byte by byte. */
module DnsHandle {
  import opened Bytes
  import opened Bits
  import opened Wrappers
  import opened LruSpec
  import opened MappedDns
  import opened DnsWire

  /** Overwriting the length octet at off extends the dotted part done up to next. */
  lemma Overwrite(q: seq<Byte>, done: seq<Byte>, start: nat, off: nat, next: nat)
    requires start <= off < next < |q| && |done| == off - start
    ensures (q[..start] + done + q[off..])[off := DOT] == q[..start] + (done + [DOT] + q[off + 1..next]) + q[next..]
  {
  }

  /** What reading gives when the octets done came before it. */
  function After(done: seq<Byte>, r: Option<NameRead>): Option<NameRead> {
    if r.None? then None else Some(NameRead(r.value.end, done + r.value.dotted))
  }

  lemma AfterLabel(q: seq<Byte>, qlen: nat, done: seq<Byte>, off: nat)
    requires qlen <= |q| && off < |q|
    ensures q[off] == 0 ==> After(done, ReadName(q, qlen, off)) == Some(NameRead(off, done))
    ensures var next := off + 1 + q[off];
            q[off] != 0 ==>
              After(done, ReadName(q, qlen, off)) ==
              if next >= qlen then None else After(done + [DOT] + q[off + 1..next], ReadName(q, qlen, next))
  {
    var next := off + 1 + q[off];
    if q[off] == 0 {
      assert done + [] == done;
    } else if next < qlen {
      var r := ReadName(q, qlen, next);
      if r.Some? {
        assert done + ([DOT] + q[off + 1..next] + r.value.dotted) == done + [DOT] + q[off + 1..next] + r.value.dotted;
      }
    }
  }

  lemma AfterNothing(r: Option<NameRead>)
    ensures After([], r) == r
  {
    assert r.Some? ==> [] + r.value.dotted == r.value.dotted;
  }

  /** Rewrites the name at start as a dotted C string, length octet by length octet. */
  method DotName(rb: array<Byte>, qlen: nat, start: nat) returns (ok: bool, off: nat)
    requires qlen <= rb.Length && start < rb.Length
    modifies rb
    ensures var q, r := old(rb[..]), ReadName(old(rb[..]), qlen, start);
            && (ok <==> r.Some?)
            && (ok ==> off == r.value.end && rb[..] == q[..start] + r.value.dotted + q[off..])
  {
    hide *;
    ghost var q, all := rb[..], ReadName(rb[..], qlen, start);
    ghost var done: seq<Byte> := [];
    off, ok := start, true;
    AfterNothing(all);
    while rb[off] != 0
      invariant start <= off < rb.Length && |done| == off - start
      invariant rb[..] == q[..start] + done + q[off..]
      invariant all == After(done, ReadName(q, qlen, off))
      decreases rb.Length - off
    {
      assert rb[off] == rb[..][off] == q[off];
      AfterLabel(q, qlen, done, off);
      var poff := off;
      off := off + 1 + rb[off];
      if off >= qlen {
        ok := false;
        AfterNothing(all);
        return;
      }
      Overwrite(q, done, start, poff, off);
      rb[poff] := DOT;
      done := done + [DOT] + q[poff + 1..off];
    }
    assert rb[off] == rb[..][off] == q[off];
    AfterLabel(q, qlen, done, off);
  }

  lemma SameTail(a: seq<Byte>, b: seq<Byte>, n: nat, i: nat, j: nat)
    requires |a| == |b| && n <= i <= j <= |a| && a[n..] == b[n..]
    ensures i < |a| ==> a[i] == b[i]
    ensures a[i..j] == b[i..j] && a[j..] == b[j..]
  {
    SliceOfTail(a, n, i, j);
    SliceOfTail(b, n, i, j);
  }

  lemma SliceOfTail(a: seq<Byte>, n: nat, i: nat, j: nat)
    requires n <= i <= j <= |a|
    ensures a[i..j] == a[n..][i - n..j - n]
    ensures a[j..] == a[n..][j - n..]
    ensures i < |a| ==> a[i] == a[n..][i - n]
  {
  }

  lemma {:induction false} ReadNameLocal(a: seq<Byte>, b: seq<Byte>, qlen: nat, off: nat)
    requires qlen <= |a| == |b| && off < |a| && a[off..] == b[off..]
    ensures ReadName(a, qlen, off) == ReadName(b, qlen, off)
    decreases |a| - off
  {
    SameTail(a, b, off, off, off);
    var next := off + 1 + a[off];
    if a[off] != 0 && next < qlen {
      SameTail(a, b, off, off + 1, next);
      ReadNameLocal(a, b, qlen, next);
    }
  }

  lemma {:induction false} CStringStops(a: seq<Byte>, b: seq<Byte>)
    requires b != [] && b[0] == 0
    ensures CString(a + b) == CString(a)
  {
    if a != [] && a[0] != 0 {
      assert (a + b)[1..] == a[1..] + b;
      CStringStops(a[1..], b);
    }
  }

  /** The buffer after the rewrite: the same octets from the root one on, and the name in C form. */
  lemma Rewritten(q: seq<Byte>, before: seq<Byte>, now: seq<Byte>, qlen: nat, start: nat)
    requires qlen <= |q| == |before| && start < |q| && before[start..] == q[start..]
    requires ReadName(q, qlen, start).Some?
    requires var r := ReadName(q, qlen, start).value; now == before[..start] + r.dotted + before[r.end..]
    ensures var r := ReadName(q, qlen, start).value;
            && |now| == |q| && now[r.end..] == q[r.end..]
            && (r.end + 1 < |q| && q[r.end + 1] == 0 ==> CString(now[start + 1..]) == QueryName(r.dotted))
  {
    hide ReadName, CString;
    var r := ReadName(q, qlen, start).value;
    SlicesAgree(q, before, start, r.end);
    assert now[r.end..] == before[r.end..];
    if r.dotted == [] {
      assert now == before;
      SlicesAgree(q, before, start, start);
      assert now[start + 1..] == [] + q[start + 1..];
      if r.end + 1 < |q| && q[r.end + 1] == 0 {
        CStringStops([], q[start + 1..]);
        CStringOfNothing();
      }
    } else {
      NameFirst(before, r.dotted, start, r.end);
      CStringStops(r.dotted[1..], q[r.end..]);
    }
  }

  lemma SlicesAgree(q: seq<Byte>, before: seq<Byte>, start: nat, end: nat)
    requires |before| == |q| && start <= end < |q| && before[start..] == q[start..]
    ensures before[end..] == q[end..] && before[end + 1..] == q[end + 1..]
  {
    SameTail(before, q, start, end, end + 1);
    SameTail(before, q, start, start, end);
  }

  lemma CStringOfNothing()
    ensures CString([]) == []
  {
  }

  /** The buffer behind the name's first dot. */
  lemma NameFirst(before: seq<Byte>, dotted: seq<Byte>, start: nat, end: nat)
    requires dotted != [] && start + |dotted| == end <= |before|
    ensures (before[..start] + dotted + before[end..])[start + 1..] == dotted[1..] + before[end..]
  {
  }

  /** The four octets after the root octet, as the code compares them. */
  lemma FixedFields(q: seq<Byte>, now: seq<Byte>, start: nat, r: NameRead)
    requires |now| == |q| && r.end + 4 < |q| && now[r.end..] == q[r.end..]
    ensures var e := r.end + 1;
            var asked := ReadU16(now[e], now[e + 1]) == 1 && ReadU16(now[e + 2], now[e + 3]) == 1;
            && AskAt(q, start, r) == (if asked then [Ask(start, QueryName(r.dotted))] else [])
            && (asked ==> q[e] == 0)
    ensures now[r.end + 5..] == q[r.end + 5..]
  {
    var e := r.end + 1;
    SameTail(now, q, r.end, e, e);
    SameTail(now, q, r.end, e + 1, e + 1);
    SameTail(now, q, r.end, e + 2, e + 2);
    SameTail(now, q, r.end, e + 3, e + 4);
  }

  /** One turn of the question loop: the name, the fixed fields, and the find they call for. */
  method OneQuestion(dns: MappedDns, rb: array<Byte>, qlen: nat, start: nat, ghost q: seq<Byte>)
    returns (ok: bool, off: nat, idx: Option<nat>)
    requires dns.Valid() && rb !in dns.Repr
    requires qlen <= rb.Length == |q| && start < |q| && rb[start..] == q[start..]
    modifies rb, dns.Repr
    ensures dns.Valid() && fresh(dns.Repr - old(dns.Repr)) && rb !in dns.Repr
    ensures var r := ReadName(q, qlen, start);
            && (ok <==> r.Some? && r.value.end + 4 < qlen)
            && (!ok ==> dns.Contents() == old(dns.Contents()))
            && (ok ==>
                  && off == r.value.end + 5 <= qlen && rb[off..] == q[off..]
                  && (idx.Some? <==> AskAt(q, start, r.value) != [])
                  && (idx.None? ==> dns.Contents() == old(dns.Contents()))
                  && (idx.Some? ==>
                        && dns.Contents() == Find(old(dns.Contents()), dns.max, AskAt(q, start, r.value)[0].name)
                        && idx.value == FoundIdx(old(dns.Contents()), dns.max, AskAt(q, start, r.value)[0].name)))
  {
    hide *;
    ReadNameLocal(rb[..], q, qlen, start);
    idx := None;
    ghost var before, r, c := rb[..], ReadName(q, qlen, start), dns.Contents();
    dns.Footprint();
    ok, off := DotName(rb, qlen, start);
    assert dns.Contents() == c;
    if !ok {
      return;
    }
    Rewritten(q, before, rb[..], qlen, start);
    off := off + 1;
    if off + 3 >= qlen {
      ok := false;
      return;
    }
    FixedFields(q, rb[..], start, r.value);
    if ReadU16(rb[off], rb[off + 1]) == 1 && ReadU16(rb[off + 2], rb[off + 3]) == 1 {
      var i := dns.Find(CString(rb[start + 1..]));
      idx := Some(i);
    }
    off := off + 4;
  }

  /** The scan of n questions from off on, when the asks `asked` came before. */
  function Scanning(asked: seq<Ask>, s: Scanned): Scanned {
    Scanned(s.ok, s.off, asked + s.asks)
  }

  lemma ScanStep(q: seq<Byte>, qlen: nat, off: nat, n: nat, asked: seq<Ask>)
    requires qlen <= |q| && Readable(q, qlen, off, n) && n > 0
    ensures off < |q|
    ensures var s, r := Scanning(asked, Scan(q, qlen, off, n)), ReadName(q, qlen, off);
            if r.Some? && r.value.end + 4 < qlen
            then
              && Readable(q, qlen, r.value.end + 5, n - 1)
              && s == Scanning(asked + AskAt(q, off, r.value), Scan(q, qlen, r.value.end + 5, n - 1))
            else !s.ok && s.asks == asked
  {
    hide ReadName, AskAt;
    var r := ReadName(q, qlen, off);
    if r.Some? && r.value.end + 4 < qlen {
      var rest := Scan(q, qlen, r.value.end + 5, n - 1);
      assert asked + (AskAt(q, off, r.value) + rest.asks) == asked + AskAt(q, off, r.value) + rest.asks;
    } else {
      assert asked + [] == asked;
    }
  }

  lemma ScanDone(q: seq<Byte>, qlen: nat, off: nat, asked: seq<Ask>)
    requires qlen <= |q| && off <= |q|
    ensures Scanning(asked, Scan(q, qlen, off, 0)) == Scanned(true, off, asked)
    ensures forall s: Scanned :: Scanning([], s) == s
  {
    assert asked + [] == asked;
    forall s: Scanned ensures Scanning([], s) == s {
      assert [] + s.asks == s.asks;
    }
  }

  /** What the two arrays and the cache hold once the asks have been looked up. */
  ghost predicate Gathered(asked: seq<Ask>, c0: Cache<Name>, c: Cache<Name>, max: nat, net: U32,
                           ipo: seq<nat>, ips: seq<U32>)
    requires 1 <= max
  {
    var all := FindAll(c0, max, AskNames(asked));
    c == all.0 && ipo == Ats(asked) && ips == Addresses(net, all.1)
  }

  lemma GatherNone(c: Cache<Name>, max: nat, net: U32)
    requires 1 <= max
    ensures Gathered([], c, c, max, net, [], [])
  {
  }

  lemma GatherOne(asked: seq<Ask>, c0: Cache<Name>, c: Cache<Name>, max: nat, net: U32,
                  ipo: seq<nat>, ips: seq<U32>, ask: Ask)
    requires 1 <= max && Gathered(asked, c0, c, max, net, ipo, ips)
    ensures Gathered(asked + [ask], c0, Find(c, max, ask.name), max, net,
                     ipo + [ask.at], ips + [Address(net, FoundIdx(c, max, ask.name))])
  {
    hide Find, FoundIdx, Or32;
    var names := AskNames(asked);
    assert AskNames(asked + [ask]) == names + [ask.name];
    assert (names + [ask.name])[..|names|] == names;
    var idx := FoundIdx(c, max, ask.name);
    assert FindAll(c0, max, names + [ask.name]) == (Find(c, max, ask.name), FindAll(c0, max, names).1 + [idx]);
    assert Addresses(net, FindAll(c0, max, names).1 + [idx]) == ips + [Address(net, idx)];
    assert Ats(asked + [ask]) == ipo + [ask.at];
  }

  lemma AskIs(q: seq<Byte>, off: nat, r: NameRead)
    requires r.end + 4 < |q|
    ensures AskAt(q, off, r) == [] || (|AskAt(q, off, r)| == 1 && AskAt(q, off, r)[0].at == off)
  {
  }

  /** The question loop: collects where each answered name starts and the address it gets. */
  method Questions(dns: MappedDns, rb: array<Byte>, qlen: nat, qd: nat, ghost q: seq<Byte>)
    returns (ok: bool, off: nat, ipo: seq<nat>, ips: seq<U32>)
    requires dns.Valid() && rb !in dns.Repr && 1 <= dns.max
    requires qlen <= rb.Length == |q| && 12 <= |q| && rb[12..] == q[12..] && Readable(q, qlen, 12, qd)
    modifies rb, dns.Repr
    ensures dns.Valid() && fresh(dns.Repr - old(dns.Repr)) && rb !in dns.Repr
    ensures var s := Scan(q, qlen, 12, qd);
            && ok == s.ok && (ok ==> off == s.off)
            && Gathered(s.asks, old(dns.Contents()), dns.Contents(), dns.max, dns.net, ipo, ips)
  {
    hide *;
    ghost var all, c0, asked := Scan(q, qlen, 12, qd), dns.Contents(), [];
    ok, off, ipo, ips := true, 12, [], [];
    ScanDone(q, qlen, off, asked);
    GatherNone(c0, dns.max, dns.net);
    for i := 0 to qd
      invariant dns.Valid() && fresh(dns.Repr - old(dns.Repr)) && rb !in dns.Repr
      invariant off <= |q| && rb[off..] == q[off..] && ok && Readable(q, qlen, off, qd - i)
      invariant all == Scanning(asked, Scan(q, qlen, off, qd - i))
      invariant Gathered(asked, c0, dns.Contents(), dns.max, dns.net, ipo, ips)
    {
      ScanStep(q, qlen, off, qd - i, asked);
      ghost var r := ReadName(q, qlen, off);
      ghost var c := dns.Contents();
      var at, idx := off, None;
      ok, off, idx := OneQuestion(dns, rb, qlen, at, q);
      if !ok {
        return;
      }
      AskIs(q, at, r.value);
      if idx.Some? {
        ghost var ask := AskAt(q, at, r.value)[0];
        assert AskAt(q, at, r.value) == [ask];
        GatherOne(asked, c0, c, dns.max, dns.net, ipo, ips, ask);
        ipo := ipo + [at];
        ips := ips + [Address(dns.net, idx.value)];
        asked := asked + [ask];
      } else {
        assert asked + [] == asked;
      }
    }
    ScanDone(q, qlen, off, asked);
  }

  /** s with the octets v written at off. */
  function Put(s: seq<Byte>, off: nat, v: seq<Byte>): (r: seq<Byte>)
    requires off + |v| <= |s|
    ensures |r| == |s|
  {
    s[..off] + v + s[off + |v|..]
  }

  lemma PutTwice(s: seq<Byte>, off: nat, v: seq<Byte>, w: seq<Byte>)
    requires off + |v| + |w| <= |s|
    ensures Put(Put(s, off, v), off + |v|, w) == Put(s, off, v + w)
  {
  }

  method WriteByte(p: array<Byte>, off: nat, v: Byte)
    requires off < p.Length
    modifies p
    ensures p[..] == Put(old(p[..]), off, [v])
  {
    p[off] := v;
  }

  method WriteU16(p: array<Byte>, off: nat, v: U16)
    requires off + 2 <= p.Length
    modifies p
    ensures p[..] == Put(old(p[..]), off, PutU16(v))
  {
    p[off + 0] := v / 256;
    p[off + 1] := v % 256;
  }

  method WriteU32(p: array<Byte>, off: nat, v: U32)
    requires off + 4 <= p.Length
    modifies p
    ensures p[..] == Put(old(p[..]), off, PutU32(v))
  {
    p[off + 0] := v / 256 / 256 / 256;
    p[off + 1] := v / 256 / 256 % 256;
    p[off + 2] := v / 256 % 256;
    p[off + 3] := v % 256;
  }

  method WriteAnswer(sb: array<Byte>, off: nat, at: nat, ip: U32)
    requires off + 16 <= sb.Length
    modifies sb
    ensures sb[..] == Put(old(sb[..]), off, Answer(at, ip))
  {
    hide PutU16, PutU32;
    ghost var s := sb[..];
    WriteByte(sb, off + 0, 0xc0);
    WriteByte(sb, off + 1, at % 256);
    WriteU16(sb, off + 2, 1);
    WriteU16(sb, off + 4, 1);
    WriteU32(sb, off + 6, 1);
    WriteU16(sb, off + 10, 4);
    WriteU32(sb, off + 12, ip);
    var b: Byte := at % 256;
    PutTwice(s, off, [0xc0], [b]);
    assert [0xc0] + [b] == [0xc0, b];
    PutTwice(s, off, [0xc0, b], PutU16(1));
    PutTwice(s, off, [0xc0, b] + PutU16(1), PutU16(1));
    PutTwice(s, off, [0xc0, b] + PutU16(1) + PutU16(1), PutU32(1));
    PutTwice(s, off, [0xc0, b] + PutU16(1) + PutU16(1) + PutU32(1), PutU16(4));
    PutTwice(s, off, [0xc0, b] + PutU16(1) + PutU16(1) + PutU32(1) + PutU16(4), PutU32(ip));
  }

  /** The answer loop; it gives up as soon as a record does not fit into slen octets. */
  method WriteAnswers(sb: array<Byte>, slen: nat, start: nat, ipo: seq<nat>, ips: seq<U32>)
    returns (ok: bool, off: nat)
    requires start <= sb.Length && slen <= sb.Length && |ipo| == |ips|
    modifies sb
    ensures ok <==> ipo == [] || start + 16 * |ipo| <= slen
    ensures ok ==> off == start + 16 * |ipo| && sb[..off] == old(sb[..start]) + Answers(ipo, ips)
  {
    hide Answer;
    ok, off := true, start;
    for i := 0 to |ipo|
      invariant ok && off == start + 16 * i && (i > 0 ==> off <= slen) && off <= sb.Length
      invariant sb[..off] == old(sb[..start]) + Answers(ipo[..i], ips[..i])
    {
      if off + 15 >= slen {
        ok := false;
        return;
      }
      ghost var before := sb[..off];
      WriteAnswer(sb, off, ipo[i], ips[i]);
      off := off + 16;
      assert sb[..off] == sb[..][..off] == before + Answer(ipo[i], ips[i]);
      assert ipo[..i + 1][..i] == ipo[..i] && ips[..i + 1][..i] == ips[..i];
    }
    assert ipo[..|ipo|] == ipo && ips[..|ips|] == ips;
  }

  /** What handle answers, and the cache it leaves, in terms of the query octets q. */
  ghost predicate Handled(q: seq<Byte>, qlen: nat, slen: nat, c0: Cache<Name>, c: Cache<Name>, max: nat, net: U32,
                          r: int, reply: seq<Byte>)
    requires qlen <= |q| && 12 <= |q| && 1 <= max
  {
    var qd := ReadU16(q[4], q[5]);
    if slen < qlen || qd > 32 then r == -1 && c == c0
    else
      var s := Scan(q, qlen, 12, qd);
      var all := FindAll(c0, max, AskNames(s.asks));
      && c == all.0
      && (r == -1 || r == s.off + 16 * |s.asks|)
      && (r == -1 <==> !s.ok || (s.asks != [] && s.off + 16 * |s.asks| > slen))
      && (r != -1 && 12 <= qlen ==> reply == Reply(q, s.off, Ats(s.asks), Addresses(net, all.1)))
  }

  /** memcpy, then the record counts ns, an and ar cleared. */
  method CopyQuery(req: array<Byte>, qlen: nat, res: array<Byte>)
    requires req != res && qlen <= req.Length && qlen <= res.Length && 12 <= res.Length
    modifies res
    ensures 12 <= qlen ==> Copied(req[..], qlen, res[..])
  {
    forall i | 0 <= i < qlen {
      res[i] := req[i];
    }
    ghost var was := res[..];
    res[6], res[7], res[8], res[9], res[10], res[11] := 0, 0, 0, 0, 0, 0;
    if 12 <= qlen {
      assert was[..qlen] == req[..][..qlen];
      Cleared(req[..], qlen, was, res[..]);
    }
  }

  lemma Cleared(q: seq<Byte>, qlen: nat, was: seq<Byte>, r: seq<Byte>)
    requires 12 <= qlen <= |q| && qlen <= |was| == |r| && was[..qlen] == q[..qlen]
    requires forall i :: 0 <= i < |r| ==> r[i] == if 6 <= i < 12 then 0 else was[i]
    ensures Copied(q, qlen, r)
  {
    assert forall i :: 0 <= i < qlen ==> was[i] == was[..qlen][i] == q[i];
    assert r[..6] == q[..6];
    assert r[12..qlen] == q[12..qlen];
  }

  ghost predicate Copied(q: seq<Byte>, qlen: nat, r: seq<Byte>) {
    && 12 <= qlen <= |q| && qlen <= |r|
    && r[..6] == q[..6] && r[6..12] == [0, 0, 0, 0, 0, 0] && r[12..qlen] == q[12..qlen]
  }

  lemma PutFields(r: seq<Byte>, f: seq<Byte>, an: seq<Byte>, end: nat)
    requires |f| == |an| == 2 && 12 <= end <= |r|
    ensures Put(Put(r, 2, f), 6, an)[..end] == r[..2] + f + r[4..6] + an + r[8..12] + r[12..end]
  {
    var a := Put(r, 2, f);
    assert a[..6] == r[..2] + f + r[4..6] && a[8..] == r[8..];
    assert r[8..end] == r[8..12] + r[12..end];
    assert Put(a, 6, an)[..end] == a[..6] + an + r[8..end];
  }

  /** The finished buffer is the reply. */
  lemma Finished(q: seq<Byte>, qlen: nat, r0: seq<Byte>, r1: seq<Byte>, off: nat, end: nat,
                 ipo: seq<nat>, ips: seq<U32>)
    requires Copied(q, qlen, r0) && 12 <= off <= qlen && |r0| == |r1|
    requires |ipo| == |ips| < 0x1_0000 && end == off + 16 * |ipo| <= |r1|
    requires r1[..end] == r0[..off] + Answers(ipo, ips)
    ensures ReadU16(r0[2], r0[3]) == ReadU16(q[2], q[3])
    ensures Put(Put(r1, 2, PutU16(ReplyFlags(ReadU16(r0[2], r0[3])))), 6, PutU16(|ipo|))[..end]
            == Reply(q, off, ipo, ips)
  {
    hide ReplyFlags, Answers, PutU16, Put;
    assert r0[2] == r0[..6][2] && r0[3] == r0[..6][3];
    PutFields(r1, PutU16(ReplyFlags(ReadU16(q[2], q[3]))), PutU16(|ipo|), end);
    FinishedParts(q, qlen, r0, r1, off, end, Answers(ipo, ips));
  }

  lemma FinishedParts(q: seq<Byte>, qlen: nat, r0: seq<Byte>, r1: seq<Byte>, off: nat, end: nat, tail: seq<Byte>)
    requires Copied(q, qlen, r0) && 12 <= off <= qlen && |r0| == |r1| && off <= end <= |r1|
    requires r1[..end] == r0[..off] + tail
    ensures r1[..2] == q[..2] && r1[4..6] == q[4..6] && r1[8..12] == [0, 0, 0, 0]
    ensures r1[12..end] == q[12..off] + tail
  {
    assert r1[..6] == r1[..end][..6] == r0[..6];
    assert r1[6..12] == r1[..end][6..12] == r0[6..12];
    assert r1[..2] == r1[..6][..2] && r1[4..6] == r1[..6][4..6] && r1[8..12] == r1[6..12][2..];
    assert q[12..off] == q[12..qlen][..off - 12] == r0[12..qlen][..off - 12] == r0[12..off];
    assert r1[12..end] == r1[..end][12..] == r0[12..off] + tail;
  }

  /** Reading the outcome of the two loops as Handled. */
  lemma ScanOutcome(q: seq<Byte>, qlen: nat, slen: nat, c0: Cache<Name>, c: Cache<Name>, max: nat, net: U32,
                 ipo: seq<nat>, ips: seq<U32>)
    requires qlen <= |q| && 12 <= |q| && 1 <= max && qlen <= slen && ReadU16(q[4], q[5]) <= 32
    requires Gathered(Scan(q, qlen, 12, ReadU16(q[4], q[5])).asks, c0, c, max, net, ipo, ips)
    ensures var s := Scan(q, qlen, 12, ReadU16(q[4], q[5]));
            && |ipo| == |ips| == |s.asks| <= 32
            && (s.ok && 12 <= qlen ==> 12 <= s.off <= qlen)
            && (!s.ok || (ipo != [] && s.off + 16 * |ipo| > slen) ==>
                  Handled(q, qlen, slen, c0, c, max, net, -1, []))
  {
    hide Scan, FindAll, Reply;
  }

  lemma Replied(q: seq<Byte>, qlen: nat, slen: nat, c0: Cache<Name>, c: Cache<Name>, max: nat, net: U32,
                ipo: seq<nat>, ips: seq<U32>, reply: seq<Byte>)
    requires qlen <= |q| && 12 <= |q| && 1 <= max && qlen <= slen && ReadU16(q[4], q[5]) <= 32
    requires Gathered(Scan(q, qlen, 12, ReadU16(q[4], q[5])).asks, c0, c, max, net, ipo, ips)
    requires |ipo| == |ips| <= 32
    requires var s := Scan(q, qlen, 12, ReadU16(q[4], q[5]));
             && s.ok && (ipo == [] || s.off + 16 * |ipo| <= slen)
             && (12 <= qlen ==> 12 <= s.off <= qlen && reply == Reply(q, s.off, ipo, ips))
    ensures var s := Scan(q, qlen, 12, ReadU16(q[4], q[5]));
            Handled(q, qlen, slen, c0, c, max, net, s.off + 16 * |ipo|, reply)
  {
    hide Scan, FindAll, Reply;
  }

  lemma Refused(q: seq<Byte>, qlen: nat, slen: nat, c: Cache<Name>, max: nat, net: U32)
    requires qlen <= |q| && 12 <= |q| && 1 <= max && (slen < qlen || ReadU16(q[4], q[5]) > 32)
    ensures Handled(q, qlen, slen, c, c, max, net, -1, [])
  {
  }

  /** hev_mapped_dns_handle. */
  method Handle(dns: MappedDns, req: array<Byte>, qlen: nat, res: array<Byte>, slen: nat) returns (r: int)
    requires dns.Valid() && req != res && req !in dns.Repr && res !in dns.Repr && 1 <= dns.max
    requires qlen <= req.Length && 12 <= req.Length && slen <= res.Length && 12 <= res.Length
    requires slen < qlen || ReadU16(req[4], req[5]) > 32 || Readable(req[..], qlen, 12, ReadU16(req[4], req[5]))
    modifies req, res, dns.Repr
    ensures dns.Valid() && fresh(dns.Repr - old(dns.Repr))
    ensures -1 <= r <= res.Length
    ensures Handled(old(req[..]), qlen, slen, old(dns.Contents()), dns.Contents(), dns.max, dns.net,
                    r, if r == -1 then [] else res[..r])
  {
    hide *;
    ghost var q, c0 := req[..], dns.Contents();
    var qd := ReadU16(req[4], req[5]);
    if slen < qlen {
      Refused(q, qlen, slen, c0, dns.max, dns.net);
      return -1;
    }
    dns.Footprint();
    CopyQuery(req, qlen, res);
    assert dns.Contents() == c0;
    ghost var r0 := res[..];
    var fl := ReadU16(res[2], res[3]);
    if qd > 32 {
      Refused(q, qlen, slen, c0, dns.max, dns.net);
      return -1;
    }
    var ok, off, ipo, ips := Questions(dns, req, qlen, qd, q);
    ghost var c := dns.Contents();
    ScanOutcome(q, qlen, slen, c0, c, dns.max, dns.net, ipo, ips);
    if !ok {
      return -1;
    }
    dns.Footprint();
    ghost var start := off;
    ok, off := WriteAnswers(res, slen, off, ipo, ips);
    assert dns.Contents() == c;
    if !ok {
      return -1;
    }
    ghost var r1 := res[..];
    WriteU16(res, 2, ReplyFlags(fl));
    assert dns.Contents() == c;
    WriteU16(res, 6, |ipo|);
    assert dns.Contents() == c;
    if 12 <= qlen {
      Finished(q, qlen, r0, r1, start, off, ipo, ips);
    }
    Replied(q, qlen, slen, c0, c, dns.max, dns.net, ipo, ips, res[..off]);
    r := off;
  }
}
