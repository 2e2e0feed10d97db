/**
 * What handle does to well-formed queries, told with structured messages (sections 4.1.1 to 4.1.4
 * of RFC 1035) instead of octets: the encoders below share nothing with the parser.
 */
module DnsReply {
  import opened Bytes
  import opened Bits
  import opened Wrappers
  import opened LruSpec
  import opened MappedDns
  import opened DnsWire
  import opened DnsHandle

  datatype Question = Question(labels: seq<seq<Byte>>, qtype: U16, qclass: U16)

  /** Labels are non-empty and their lengths fit in the length octet. */
  predicate Encodable(labels: seq<seq<Byte>>) {
    labels == [] || (1 <= |labels[0]| <= 255 && Encodable(labels[1..]))
  }

  function EncodeName(labels: seq<seq<Byte>>): (r: seq<Byte>)
    requires Encodable(labels)
    ensures r != []
  {
    if labels == [] then [0] else [|labels[0]|] + labels[0] + EncodeName(labels[1..])
  }

  function EncodeQuestion(q: Question): seq<Byte>
    requires Encodable(q.labels)
  {
    EncodeName(q.labels) + PutU16(q.qtype) + PutU16(q.qclass)
  }

  predicate AllEncodable(qs: seq<Question>) {
    qs == [] || (Encodable(qs[0].labels) && AllEncodable(qs[1..]))
  }

  function EncodeQuestions(qs: seq<Question>): seq<Byte>
    requires AllEncodable(qs)
  {
    if qs == [] then [] else EncodeQuestion(qs[0]) + EncodeQuestions(qs[1..])
  }

  function EncodeHeader(id: U16, fl: U16, qd: U16, an: U16, ns: U16, ar: U16): (r: seq<Byte>)
    ensures |r| == 12
  {
    PutU16(id) + PutU16(fl) + PutU16(qd) + PutU16(an) + PutU16(ns) + PutU16(ar)
  }

  /** A resource record whose owner name is a compression pointer: 14 bits (section 4.1.4). */
  datatype Record = Record(owner: nat, rtype: U16, rclass: U16, ttl: U32, rdata: seq<Byte>)

  function EncodeRecord(r: Record): (s: seq<Byte>)
    requires |r.rdata| < 0x1_0000
    ensures |s| == 12 + |r.rdata|
  {
    PutU16(0xC000 + r.owner % 0x4000) + PutU16(r.rtype) + PutU16(r.rclass) + PutU32(r.ttl) + PutU16(|r.rdata|) + r.rdata
  }

  /** The name as people write it. */
  function Dotted(labels: seq<seq<Byte>>): (r: Name) {
    if labels == [] then []
    else if |labels| == 1 then labels[0]
    else labels[0] + [DOT] + Dotted(labels[1..])
  }

  predicate NoNul(labels: seq<seq<Byte>>) {
    labels == [] || (0 !in labels[0] && NoNul(labels[1..]))
  }

  // ---- names ----

  /** What the in-place rewrite leaves between the first length octet and the root octet. */
  function Rewrite(labels: seq<seq<Byte>>): seq<Byte> {
    if labels == [] then [] else [DOT] + labels[0] + Rewrite(labels[1..])
  }

  lemma {:induction false} RewriteDotted(labels: seq<seq<Byte>>)
    requires labels != []
    ensures Rewrite(labels) == [DOT] + Dotted(labels)
  {
    if |labels| > 1 {
      RewriteDotted(labels[1..]);
      assert Rewrite(labels) == [DOT] + (labels[0] + [DOT] + Dotted(labels[1..]));
    } else {
      assert Rewrite(labels[1..]) == [];
    }
  }

  lemma {:induction false} DottedNoNul(labels: seq<seq<Byte>>)
    ensures 0 !in Dotted(labels) <==> NoNul(labels)
  {
    if |labels| > 1 {
      DottedNoNul(labels[1..]);
      assert 0 in Dotted(labels) <==> 0 in labels[0] || 0 in Dotted(labels[1..]);
    } else if |labels| == 1 {
      assert NoNul(labels[1..]);
    }
  }

  /** The cache is asked for the dotted name; a NUL inside a label would cut it short. */
  lemma QueryNameIsDotted(labels: seq<seq<Byte>>)
    ensures QueryName(Rewrite(labels)) == CString(Dotted(labels))
    ensures QueryName(Rewrite(labels)) == Dotted(labels) <==> NoNul(labels)
  {
    if labels != [] {
      RewriteDotted(labels);
      assert ([DOT] + Dotted(labels))[1..] == Dotted(labels);
    }
    DottedNoNul(labels);
  }

  ghost predicate At(q: seq<Byte>, off: nat, v: seq<Byte>) {
    off + |v| <= |q| && q[off..off + |v|] == v
  }

  lemma AtParts(q: seq<Byte>, off: nat, v: seq<Byte>, w: seq<Byte>)
    ensures At(q, off, v + w) <==> At(q, off, v) && At(q, off + |v|, w)
  {
    var n := |v| + |w|;
    if At(q, off, v + w) {
      assert q[off..off + |v|] == q[off..off + n][..|v|] == v;
      assert q[off + |v|..off + n] == q[off..off + n][|v|..] == w;
    } else if off + n <= |q| {
      assert q[off..off + n] == q[off..off + |v|] + q[off + |v|..off + n];
    }
  }

  /** The first label of an encoded name, and where the rest of the name starts. */
  lemma EncodedLabel(q: seq<Byte>, off: nat, labels: seq<seq<Byte>>)
    requires Encodable(labels) && At(q, off, EncodeName(labels))
    ensures off < |q| && q[off] == if labels == [] then 0 else |labels[0]|
    ensures labels != [] ==>
              var next := off + 1 + |labels[0]|;
              && |EncodeName(labels)| == 1 + |labels[0]| + |EncodeName(labels[1..])|
              && At(q, next, EncodeName(labels[1..])) && q[off + 1..next] == labels[0]
    ensures labels == [] ==> |EncodeName(labels)| == 1
    ensures labels != [] ==> 1 <= |labels[0]| <= 255 && Encodable(labels[1..])
  {
    if labels == [] {
      assert q[off] == q[off..off + 1][0];
    } else {
      var l, rest := labels[0], EncodeName(labels[1..]);
      AtParts(q, off, [|l|] + l, rest);
      AtParts(q, off, [|l|], l);
      assert q[off] == q[off..off + 1][0] == |l|;
    }
  }

  lemma ReadLabel(q: seq<Byte>, qlen: nat, off: nat, l: seq<Byte>, end: nat, rest: seq<Byte>)
    requires qlen <= |q| && off < |q| && q[off] == |l| != 0
    requires var next := off + 1 + |l|;
             && next < qlen && q[off + 1..next] == l
             && ReadName(q, qlen, next) == Some(NameRead(end, rest))
    ensures ReadName(q, qlen, off) == Some(NameRead(end, [DOT] + l + rest))
  {
  }

  lemma ReadRoot(q: seq<Byte>, qlen: nat, off: nat)
    requires qlen <= |q| && off < |q| && q[off] == 0
    ensures ReadName(q, qlen, off) == Some(NameRead(off, []))
  {
  }

  lemma RewriteLabel(labels: seq<seq<Byte>>)
    ensures Rewrite(labels) == if labels == [] then [] else [DOT] + labels[0] + Rewrite(labels[1..])
  {
  }

  lemma {:induction false} ReadEncodedName(q: seq<Byte>, qlen: nat, off: nat, labels: seq<seq<Byte>>)
    requires Encodable(labels) && qlen <= |q| && At(q, off, EncodeName(labels)) && off + |EncodeName(labels)| <= qlen
    ensures ReadName(q, qlen, off) == Some(NameRead(off + |EncodeName(labels)| - 1, Rewrite(labels)))
    decreases |labels|
  {
    hide *;
    EncodedLabel(q, off, labels);
    RewriteLabel(labels);
    if labels == [] {
      ReadRoot(q, qlen, off);
    } else {
      var next := off + 1 + |labels[0]|;
      ReadEncodedName(q, qlen, next, labels[1..]);
      ReadLabel(q, qlen, off, labels[0], next + |EncodeName(labels[1..])| - 1, Rewrite(labels[1..]));
    }
  }

  // ---- questions ----

  predicate IsInternetA(q: Question) {
    q.qtype == 1 && q.qclass == 1
  }

  /** The questions that get an answer, in order. */
  function Answered(qs: seq<Question>): (r: seq<Question>)
    ensures |r| <= |qs|
  {
    if qs == [] then [] else (if IsInternetA(qs[0]) then [qs[0]] else []) + Answered(qs[1..])
  }

  /** Where each of them starts when the first question starts at off. */
  function Offsets(qs: seq<Question>, off: nat): (r: seq<nat>)
    requires AllEncodable(qs)
    ensures |r| == |Answered(qs)|
  {
    if qs == [] then []
    else (if IsInternetA(qs[0]) then [off] else []) + Offsets(qs[1..], off + |EncodeQuestion(qs[0])|)
  }

  /** What the cache is asked, name by name. */
  function Asked(qs: seq<Question>): (r: seq<Name>)
    ensures |r| == |Answered(qs)|
  {
    if qs == [] then []
    else (if IsInternetA(qs[0]) then [CString(Dotted(qs[0].labels))] else []) + Asked(qs[1..])
  }

  function Pair(ats: seq<nat>, names: seq<Name>): (r: seq<Ask>)
    requires |ats| == |names|
    ensures |r| == |ats|
  {
    if ats == [] then [] else [Ask(ats[0], names[0])] + Pair(ats[1..], names[1..])
  }

  lemma {:induction false} PairParts(ats: seq<nat>, names: seq<Name>)
    requires |ats| == |names|
    ensures Ats(Pair(ats, names)) == ats && AskNames(Pair(ats, names)) == names
  {
    if ats != [] {
      PairParts(ats[1..], names[1..]);
      var p, rest := Pair(ats, names), Pair(ats[1..], names[1..]);
      assert Ats(p) == [ats[0]] + Ats(rest);
      assert AskNames(p) == [names[0]] + AskNames(rest);
    }
  }

  lemma EncodedField(q: seq<Byte>, off: nat, v: U16)
    requires At(q, off, PutU16(v))
    ensures off + 1 < |q| && ReadU16(q[off], q[off + 1]) == v
  {
    assert q[off] == q[off..off + 2][0] && q[off + 1] == q[off..off + 2][1];
  }

  /** One encoded question as the parser sees it. */
  lemma ReadEncodedQuestion(q: seq<Byte>, qlen: nat, off: nat, d: Question)
    requires Encodable(d.labels) && qlen <= |q| && At(q, off, EncodeQuestion(d)) && off + |EncodeQuestion(d)| <= qlen
    ensures At(q, off, EncodeName(d.labels))
    ensures var r := ReadName(q, qlen, off);
            && r.Some? && r.value.end + 5 == off + |EncodeQuestion(d)|
            && AskAt(q, off, r.value) == if IsInternetA(d) then [Ask(off, CString(Dotted(d.labels)))] else []
  {
    hide ReadName, EncodeName, Rewrite, PutU16, QueryName;
    var e := off + |EncodeName(d.labels)|;
    AtParts(q, off, EncodeName(d.labels) + PutU16(d.qtype), PutU16(d.qclass));
    AtParts(q, off, EncodeName(d.labels), PutU16(d.qtype));
    ReadEncodedName(q, qlen, off, d.labels);
    QueryNameIsDotted(d.labels);
    EncodedField(q, e, d.qtype);
    EncodedField(q, e + 2, d.qclass);
  }

  /** The scan of encoded questions finds every answerable one, at its offset, under its name. */
  lemma {:induction false} ScanEncoded(q: seq<Byte>, qlen: nat, off: nat, qs: seq<Question>)
    requires AllEncodable(qs) && qlen <= |q| && At(q, off, EncodeQuestions(qs)) && off <= |q|
    requires off + |EncodeQuestions(qs)| <= qlen
    ensures Scan(q, qlen, off, |qs|)
            == Scanned(true, off + |EncodeQuestions(qs)|, Pair(Offsets(qs, off), Asked(qs)))
    decreases |qs|
  {
    hide *;
    FirstQuestion(q, off, qs);
    if qs == [] {
      ScanNothing(q, qlen, off);
    } else {
      ScanEncodedStep(q, qlen, off, qs);
      ScanEncoded(q, qlen, off + |EncodeQuestion(qs[0])|, qs[1..]);
      PairStep(qs, off);
    }
  }

  lemma ScanNothing(q: seq<Byte>, qlen: nat, off: nat)
    requires qlen <= |q| && off <= |q|
    ensures Scan(q, qlen, off, 0) == Scanned(true, off, Pair(Offsets([], off), Asked([])))
    ensures EncodeQuestions([]) == []
  {
  }

  lemma FirstQuestion(q: seq<Byte>, off: nat, qs: seq<Question>)
    requires AllEncodable(qs) && At(q, off, EncodeQuestions(qs))
    ensures qs != [] ==>
              && Encodable(qs[0].labels) && AllEncodable(qs[1..])
              && |EncodeQuestion(qs[0])| >= 4
              && |EncodeQuestions(qs)| == |EncodeQuestion(qs[0])| + |EncodeQuestions(qs[1..])|
              && At(q, off, EncodeQuestion(qs[0])) && At(q, off + |EncodeQuestion(qs[0])|, EncodeQuestions(qs[1..]))
  {
    if qs != [] {
      AtParts(q, off, EncodeQuestion(qs[0]), EncodeQuestions(qs[1..]));
    }
  }

  lemma PairStep(qs: seq<Question>, off: nat)
    requires AllEncodable(qs) && qs != []
    ensures var rest := Pair(Offsets(qs[1..], off + |EncodeQuestion(qs[0])|), Asked(qs[1..]));
            Pair(Offsets(qs, off), Asked(qs)) ==
            (if IsInternetA(qs[0]) then [Ask(off, CString(Dotted(qs[0].labels)))] else []) + rest
  {
    hide EncodeQuestion, CString, Dotted;
    if IsInternetA(qs[0]) {
      assert Offsets(qs, off)[1..] == Offsets(qs[1..], off + |EncodeQuestion(qs[0])|);
      assert Asked(qs)[1..] == Asked(qs[1..]);
    } else {
      assert Offsets(qs, off) == Offsets(qs[1..], off + |EncodeQuestion(qs[0])|);
      assert Asked(qs) == Asked(qs[1..]);
      var rest := Pair(Offsets(qs, off), Asked(qs));
      assert [] + rest == rest;
    }
  }

  lemma ScanEncodedStep(q: seq<Byte>, qlen: nat, off: nat, qs: seq<Question>)
    requires AllEncodable(qs) && qs != [] && qlen <= |q| && At(q, off, EncodeQuestion(qs[0]))
    requires off + |EncodeQuestion(qs[0])| <= qlen && off < qlen
    ensures var rest := Scan(q, qlen, off + |EncodeQuestion(qs[0])|, |qs| - 1);
            Scan(q, qlen, off, |qs|) ==
            Scanned(rest.ok, rest.off,
                    (if IsInternetA(qs[0]) then [Ask(off, CString(Dotted(qs[0].labels)))] else []) + rest.asks)
  {
    hide ReadName, EncodeQuestion, CString, Dotted, AskAt;
    ReadEncodedQuestion(q, qlen, off, qs[0]);
  }

  /**
   * A query that ends with its last question is read past its end exactly when its header counts
   * more questions than it has.
   */
  lemma {:induction false} ReadsPastEnd(q: seq<Byte>, off: nat, qs: seq<Question>, n: nat)
    requires AllEncodable(qs) && At(q, off, EncodeQuestions(qs)) && off + |EncodeQuestions(qs)| == |q|
    ensures Readable(q, |q|, off, n) <==> n <= |qs|
    decreases |qs|
  {
    hide ReadName, EncodeQuestion, EncodeQuestions, AllEncodable, Encodable, IsInternetA, At, CString, Dotted, AskAt;
    FirstQuestion(q, off, qs);
    if qs == [] {
      ScanNothing(q, |q|, off);
    } else {
      ReadEncodedQuestion(q, |q|, off, qs[0]);
      if n > 0 {
        ReadsPastEnd(q, off + |EncodeQuestion(qs[0])|, qs[1..], n - 1);
      }
    }
  }

  // ---- the reply ----

  function Records(ats: seq<nat>, ips: seq<U32>): seq<Byte>
    requires |ats| == |ips|
  {
    if ats == [] then []
    else Records(ats[..|ats| - 1], ips[..|ips| - 1])
         + EncodeRecord(Record(ats[|ats| - 1], 1, 1, 1, PutU32(ips[|ips| - 1])))
  }

  /** The pointer the code writes keeps eight bits of the offset: right exactly below 256. */
  lemma AnswerIsRecord(at: nat, ip: U32)
    requires at < 0x4000
    ensures Answer(at, ip) == EncodeRecord(Record(at, 1, 1, 1, PutU32(ip))) <==> at < 256
  {
    hide PutU32;
    var a, r := Answer(at, ip), EncodeRecord(Record(at, 1, 1, 1, PutU32(ip)));
    assert PutU16(0xC000 + at) == [0xC0 + at / 256, at % 256];
    if at < 256 {
      assert a == r;
    } else {
      assert a[0] != r[0];
    }
  }

  lemma {:induction false} AnswersAreRecords(ats: seq<nat>, ips: seq<U32>)
    requires |ats| == |ips| && forall i :: 0 <= i < |ats| ==> ats[i] < 0x4000
    ensures |Records(ats, ips)| == |Answers(ats, ips)|
    ensures Answers(ats, ips) == Records(ats, ips) <==> Low(ats)
  {
    hide Answer, EncodeRecord;
    if ats != [] {
      var n := |ats| - 1;
      var a, r := Answer(ats[n], ips[n]), EncodeRecord(Record(ats[n], 1, 1, 1, PutU32(ips[n])));
      AnswersAreRecords(ats[..n], ips[..n]);
      AnswerIsRecord(ats[n], ips[n]);
      SplitEqual(Answers(ats[..n], ips[..n]), a, Records(ats[..n], ips[..n]), r);
      assert (forall i :: 0 <= i < |ats| ==> ats[i] < 256) <==> Low(ats[..n]) && ats[n] < 256;
    }
  }

  predicate Low(ats: seq<nat>) {
    forall i :: 0 <= i < |ats| ==> ats[i] < 256
  }

  lemma SplitEqual(a: seq<Byte>, b: seq<Byte>, c: seq<Byte>, d: seq<Byte>)
    requires |a| == |c|
    ensures a + b == c + d <==> a == c && b == d
  {
    if a + b == c + d {
      assert a == (a + b)[..|a|] && b == (a + b)[|a|..];
    }
  }

  /** A well-formed query: header, questions, and sections the server ignores. */
  ghost predicate IsQuery(q: seq<Byte>, qlen: nat, id: U16, fl: U16, an: U16, ns: U16, ar: U16, qs: seq<Question>) {
    && AllEncodable(qs) && |qs| <= 32 && 12 <= |q| && qlen <= |q|
    && 12 + |EncodeQuestions(qs)| <= qlen
    && At(q, 0, EncodeHeader(id, fl, |qs|, an, ns, ar) + EncodeQuestions(qs))
  }

  lemma QueryParts(q: seq<Byte>, qlen: nat, id: U16, fl: U16, an: U16, ns: U16, ar: U16, qs: seq<Question>)
    requires IsQuery(q, qlen, id, fl, an, ns, ar, qs)
    ensures At(q, 12, EncodeQuestions(qs)) && ReadU16(q[4], q[5]) == |qs|
    ensures forall n: U16 :: ReplyHeader(q, n) == EncodeHeader(id, ReplyFlags(fl), |qs|, n, 0, 0)
  {
    hide EncodeQuestions, ReplyFlags, PutU16, EncodeHeader, ReplyHeader;
    var h := EncodeHeader(id, fl, |qs|, an, ns, ar);
    AtParts(q, 0, h, EncodeQuestions(qs));
    HeaderFields(id, fl, |qs|, an, ns, ar);
    assert q[..12] == h;
    assert q[..2] == h[..2] && q[2..4] == h[2..4] && q[4..6] == h[4..6];
    EncodedField(q, 2, fl);
    EncodedField(q, 4, |qs|);
    forall n: U16
      ensures ReplyHeader(q, n) == EncodeHeader(id, ReplyFlags(fl), |qs|, n, 0, 0)
    {
      HeaderReplied(q, id, fl, |qs|, n);
    }
  }

  lemma HeaderFields(id: U16, fl: U16, qd: U16, an: U16, ns: U16, ar: U16)
    ensures
      var h := EncodeHeader(id, fl, qd, an, ns, ar);
      h[..2] == PutU16(id) && h[2..4] == PutU16(fl) && h[4..6] == PutU16(qd)
  {
    hide PutU16;
  }

  lemma HeaderReplied(q: seq<Byte>, id: U16, fl: U16, qd: U16, n: U16)
    requires |q| >= 12 && q[..2] == PutU16(id) && q[2..4] == PutU16(fl) && q[4..6] == PutU16(qd)
    requires ReadU16(q[2], q[3]) == fl
    ensures ReplyHeader(q, n) == EncodeHeader(id, ReplyFlags(fl), qd, n, 0, 0)
  {
    hide PutU16, ReplyFlags, ReadU16;
    ZeroField();
  }

  lemma ZeroField()
    ensures PutU16(0) + PutU16(0) == [0, 0, 0, 0]
  {
    hide PutU16;
    var z := PutU16(0);
    assert z == [z[0], z[1]];
  }

  /** The reply a resolver expects: same id and questions, reply flags, one A record each. */
  function EncodedReply(id: U16, fl: U16, qs: seq<Question>, ips: seq<U32>): seq<Byte>
    requires AllEncodable(qs) && |qs| < 0x1_0000 && |ips| == |Answered(qs)| < 0x1_0000
  {
    EncodeHeader(id, ReplyFlags(fl), |qs|, |ips|, 0, 0) + EncodeQuestions(qs) + Records(Offsets(qs, 12), ips)
  }

  /**
   * Main theorem on replies. A well-formed query is refused exactly when its answers do not fit;
   * otherwise the reply is the encoding of a message with the same id and questions, the reply
   * flags, and one A record per A/IN question, if and only if those questions start below 256.
   */
  lemma ReplyIsWellFormed(q: seq<Byte>, qlen: nat, slen: nat, c0: Cache<Name>, c: Cache<Name>, max: nat, net: U32,
                          r: int, reply: seq<Byte>,
                          id: U16, fl: U16, an: U16, ns: U16, ar: U16, qs: seq<Question>)
    requires IsQuery(q, qlen, id, fl, an, ns, ar, qs) && qlen <= slen && 1 <= max
    requires Handled(q, qlen, slen, c0, c, max, net, r, reply)
    requires 12 + |EncodeQuestions(qs)| < 0x4000
    ensures c == FindAll(c0, max, Asked(qs)).0
    ensures var n := |Answered(qs)|; var end := 12 + |EncodeQuestions(qs)| + 16 * n;
            r == if n > 0 && end > slen then -1 else end
    ensures r != -1 ==>
              (reply == EncodedReply(id, fl, qs, Addresses(net, FindAll(c0, max, Asked(qs)).1))
               <==> Low(Offsets(qs, 12)))
  {
    hide Scan, FindAll, EncodeHeader, ReplyHeader, ReplyFlags, EncodeQuestions, Records, Answers, Offsets, Asked,
      Pair, Ats, AskNames, Addresses;
    QueryParts(q, qlen, id, fl, an, ns, ar, qs);
    ScanEncoded(q, qlen, 12, qs);
    var ats, idxs := Offsets(qs, 12), FindAll(c0, max, Asked(qs)).1;
    PairParts(ats, Asked(qs));
    OffsetsBound(qs, 12);
    AnswersAreRecords(ats, Addresses(net, idxs));
    var off := 12 + |EncodeQuestions(qs)|;
    assert q[12..off] == EncodeQuestions(qs);
    var h := EncodeHeader(id, ReplyFlags(fl), |qs|, |ats|, 0, 0) + EncodeQuestions(qs);
    SplitEqual(h, Answers(ats, Addresses(net, idxs)), h, Records(ats, Addresses(net, idxs)));
  }

  /** Names as section 2.3.4 of RFC 1035 limits them keep 32 questions within reach of a pointer. */
  lemma {:induction false} LegalQueriesFit(qs: seq<Question>)
    requires AllEncodable(qs)
    requires forall i :: 0 <= i < |qs| ==> Encodable(qs[i].labels) && |EncodeName(qs[i].labels)| <= 255
    ensures |EncodeQuestions(qs)| <= 259 * |qs|
    ensures |qs| <= 32 ==> 12 + |EncodeQuestions(qs)| < 0x4000
  {
    hide EncodeName;
    if qs != [] {
      assert |EncodeName(qs[0].labels)| <= 255;
      LegalQueriesFit(qs[1..]);
    }
  }

  lemma {:induction false} OffsetsBound(qs: seq<Question>, off: nat)
    requires AllEncodable(qs)
    ensures forall i :: 0 <= i < |Offsets(qs, off)| ==> off <= Offsets(qs, off)[i] < off + |EncodeQuestions(qs)|
  {
    hide EncodeQuestion, Answered;
    if qs != [] {
      QuestionNonEmpty(qs[0]);
      OffsetsBound(qs[1..], off + |EncodeQuestion(qs[0])|);
    }
  }

  lemma QuestionNonEmpty(q: Question)
    requires Encodable(q.labels)
    ensures |EncodeQuestion(q)| > 0
  {
  }

  /** Section 4.1.1: QR is bit 15, RD bit 8 and RA bit 7 of the flags word. */
  lemma ReplyFlagsMeaning(fl: U16, k: nat)
    ensures Bit(ReplyFlags(fl), k) <==> k == 15 || (k == 7 && Bit(fl, 8)) || Bit(fl, k)
  {
    Pow2Word();
    Pow2Add(8, 7);
    Pow2Add(4, 3);
    assert Pow2(3) == 8 && Pow2(4) == 16;
    var ra := And(fl, 0x100);
    OrBit(Or(fl, 0x8000), ra / 2, k);
    OrBit(fl, 0x8000, k);
    PowerBit(15, k);
    BitShift(ra, k + 1);
    AndBit(fl, 0x100, k + 1);
    PowerBit(8, k + 1);
  }

  /** Every answer's pointer leads to the encoded name of the question it answers. */
  lemma {:induction false} PointerTargets(q: seq<Byte>, off: nat, qs: seq<Question>, i: nat)
    requires AllEncodable(qs) && At(q, off, EncodeQuestions(qs)) && i < |Answered(qs)|
    ensures Encodable(Answered(qs)[i].labels) && IsInternetA(Answered(qs)[i])
    ensures At(q, Offsets(qs, off)[i], EncodeName(Answered(qs)[i].labels))
    ensures Asked(qs)[i] == CString(Dotted(Answered(qs)[i].labels))
    decreases |qs|
  {
    hide *;
    FirstQuestion(q, off, qs);
    AskedIs(qs, i);
    AnsweredStep(qs, off, i);
    var d := qs[0];
    if IsInternetA(d) && i == 0 {
      NameFirst(q, off, d);
    } else {
      PointerTargets(q, off + |EncodeQuestion(d)|, qs[1..], if IsInternetA(d) then i - 1 else i);
    }
  }

  /** The i-th answered question is the first one, or lies among the rest. */
  lemma AnsweredStep(qs: seq<Question>, off: nat, i: nat)
    requires AllEncodable(qs) && i < |Answered(qs)|
    ensures qs != [] && Encodable(qs[0].labels) && AllEncodable(qs[1..])
    ensures IsInternetA(qs[0]) && i == 0 ==> Answered(qs)[i] == qs[0] && Offsets(qs, off)[i] == off
    ensures !(IsInternetA(qs[0]) && i == 0) ==>
      var k := if IsInternetA(qs[0]) then i - 1 else i;
      && k < |Answered(qs[1..])|
      && Answered(qs)[i] == Answered(qs[1..])[k]
      && Offsets(qs, off)[i] == Offsets(qs[1..], off + |EncodeQuestion(qs[0])|)[k]
  {
    hide EncodeQuestion, IsInternetA, Encodable;
  }

  lemma NameFirst(q: seq<Byte>, off: nat, d: Question)
    requires Encodable(d.labels) && At(q, off, EncodeQuestion(d))
    ensures At(q, off, EncodeName(d.labels))
  {
    AtParts(q, off, EncodeName(d.labels) + PutU16(d.qtype), PutU16(d.qclass));
    AtParts(q, off, EncodeName(d.labels), PutU16(d.qtype));
  }

  /**
   * Main theorem on addresses. If the query asks for at most max distinct names, then once it has
   * been handled the address in its i-th answer lies in the network and looks up the i-th name asked.
   */
  lemma AnswersResolve(qs: seq<Question>, c0: Cache<Name>, max: nat, net: U32, mask: U32, k: nat, i: nat)
    requires WellFormed(c0, max) && 1 <= max <= Signed(Not32(mask))
    requires Netmask(mask, k) && net % Pow2(k) == 0
    requires |SetOf(Asked(qs))| <= max && i < |Answered(qs)|
    ensures
      var all, labels := FindAll(c0, max, Asked(qs)), Answered(qs)[i].labels;
      && WellFormed(all.0, max) && all.1[i] < max
      && Addresses(net, all.1)[i] == net + all.1[i]
      && And(Addresses(net, all.1)[i], mask) == net && And(Addresses(net, all.1)[i], Not32(mask)) == all.1[i]
      && NameAt(all.0, And(Addresses(net, all.1)[i], Not32(mask))) == Some(CString(Dotted(labels)))
      && (CString(Dotted(labels)) == Dotted(labels) <==> NoNul(labels))
  {
    hide *;
    var names := Asked(qs);
    var all := FindAll(c0, max, names);
    FindAllKeeps(c0, max, names);
    CarriedName(all.0, max, names, all.1, i);
    AddressOf(net, all.1, mask, k, i);
    AskedIs(qs, i);
    DottedNoNul(Answered(qs)[i].labels);
    CStringCuts(Dotted(Answered(qs)[i].labels));
  }

  lemma CStringCuts(s: seq<Byte>)
    ensures CString(s) == s <==> 0 !in s
  {
  }

  lemma CarriedName(c: Cache<Name>, max: nat, names: seq<Name>, idxs: seq<nat>, i: nat)
    requires WellFormed(c, max) && Carries(c, names, idxs) && i < |names|
    ensures i < |idxs| && idxs[i] < max && NameAt(c, idxs[i]) == Some(names[i])
  {
    assert Entry(names[i], idxs[i]) in c;
    var j :| 0 <= j < |c| && c[j] == Entry(names[i], idxs[i]);
  }

  lemma AddressOf(net: U32, idxs: seq<nat>, mask: U32, k: nat, i: nat)
    requires Netmask(mask, k) && net % Pow2(k) == 0 && i < |idxs| && idxs[i] < Signed(Not32(mask))
    ensures And(Addresses(net, idxs)[i], Not32(mask)) == idxs[i]
    ensures Addresses(net, idxs)[i] == net + idxs[i] && And(Addresses(net, idxs)[i], mask) == net
  {
    hide And, Pow2, Or;
    NetPart(net, mask, k, idxs[i]);
    HostPart(net, mask, k, idxs[i]);
  }

  lemma {:induction false} AskedIs(qs: seq<Question>, i: nat)
    requires i < |Answered(qs)|
    ensures Asked(qs)[i] == CString(Dotted(Answered(qs)[i].labels))
  {
    hide CString, Dotted;
    if !(IsInternetA(qs[0]) && i == 0) {
      AskedIs(qs[1..], if IsInternetA(qs[0]) then i - 1 else i);
    }
  }
}
