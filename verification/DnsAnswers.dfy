/**
 * What handle accepts and what it sends, octet by octet: which queries get a reply at all, and where
 * in the reply a client finds the address it asked for.
 */
module DnsAnswers {
  import opened Bytes
  import opened Bits
  import opened Wrappers
  import opened DnsTree
  import opened LruSpec
  import opened MappedDns
  import opened DnsWire
  import opened DnsHandle
  import opened DnsReply
  import DnsRuns

  // ---- which queries are answered ----

  /** The labels of a name that can be read. */
  function LabelsAt(q: seq<Byte>, qlen: nat, off: nat): (labels: seq<seq<Byte>>)
    requires qlen <= |q| && off < |q| && ReadName(q, qlen, off).Some?
    ensures Encodable(labels)
    decreases |q| - off
  {
    if q[off] == 0 then []
    else
      var next := off + 1 + q[off];
      var rest := LabelsAt(q, qlen, next);
      assert ([q[off + 1..next]] + rest)[1..] == rest;
      [q[off + 1..next]] + rest
  }

  lemma {:induction false} LabelsEncoded(q: seq<Byte>, qlen: nat, off: nat)
    requires qlen <= |q| && off < |q| && ReadName(q, qlen, off).Some?
    ensures At(q, off, EncodeName(LabelsAt(q, qlen, off)))
    ensures off + |EncodeName(LabelsAt(q, qlen, off))| == ReadName(q, qlen, off).value.end + 1
    decreases |q| - off
  {
    hide At, EncodeName, Encodable;
    if q[off] == 0 {
      RootEncoded(q, off);
    } else {
      var next := off + 1 + q[off];
      LabelsEncoded(q, qlen, next);
      LabelEncoded(q, off, q[off + 1..next], LabelsAt(q, qlen, next));
    }
  }

  lemma RootEncoded(q: seq<Byte>, off: nat)
    requires off < |q| && q[off] == 0
    ensures Encodable([]) && EncodeName([]) == [0] && At(q, off, [0])
  {
  }

  lemma LabelEncoded(q: seq<Byte>, off: nat, l: seq<Byte>, rest: seq<seq<Byte>>)
    requires Encodable(rest) && off < |q| && q[off] == |l| > 0
    requires At(q, off + 1 + |l|, EncodeName(rest)) && q[off + 1..off + 1 + |l|] == l
    ensures Encodable([l] + rest) && At(q, off, EncodeName([l] + rest))
    ensures |EncodeName([l] + rest)| == 1 + |l| + |EncodeName(rest)|
  {
    assert ([l] + rest)[1..] == rest;
    Here(q, off, [|l|]);
    Here(q, off + 1, l);
    AtParts(q, off, [|l|], l);
    AtParts(q, off, [|l|] + l, EncodeName(rest));
  }

  lemma Here(q: seq<Byte>, off: nat, v: seq<Byte>)
    requires off + |v| <= |q| && q[off..off + |v|] == v
    ensures At(q, off, v)
  {
  }

  /** A question that starts at off and ends before qlen. */
  ghost predicate QuestionAt(q: seq<Byte>, qlen: nat, off: nat, d: Question, end: nat) {
    && Encodable(d.labels) && At(q, off, EncodeQuestion(d))
    && end == off + |EncodeQuestion(d)| && end <= qlen
  }

  /** A question is read exactly if one is there. */
  lemma QuestionReads(q: seq<Byte>, qlen: nat, off: nat) returns (d: Question)
    requires qlen <= |q| && off < |q|
    ensures
      var r := ReadName(q, qlen, off);
      r.Some? && r.value.end + 5 <= qlen ==> QuestionAt(q, qlen, off, d, r.value.end + 5)
  {
    hide ReadName, EncodeQuestion, EncodeName, Encodable, At;
    var r := ReadName(q, qlen, off);
    d := Question([], 0, 0);
    if r.Some? && r.value.end + 5 <= qlen {
      var labels, e := LabelsAt(q, qlen, off), r.value.end + 1;
      var t, c := ReadU16(q[e], q[e + 1]), ReadU16(q[e + 2], q[e + 3]);
      d := Question(labels, t, c);
      LabelsEncoded(q, qlen, off);
      QuestionEncoded(q, off, labels, e);
    }
  }

  lemma QuestionEncoded(q: seq<Byte>, off: nat, labels: seq<seq<Byte>>, e: nat)
    requires Encodable(labels) && At(q, off, EncodeName(labels)) && e == off + |EncodeName(labels)| && e + 4 <= |q|
    ensures
      var d := Question(labels, ReadU16(q[e], q[e + 1]), ReadU16(q[e + 2], q[e + 3]));
      At(q, off, EncodeQuestion(d)) && |EncodeQuestion(d)| == e + 4 - off
  {
    hide EncodeName;
    var t, c := ReadU16(q[e], q[e + 1]), ReadU16(q[e + 2], q[e + 3]);
    FieldHere(q, e);
    FieldHere(q, e + 2);
    AtParts(q, off, EncodeName(labels), PutU16(t));
    AtParts(q, off, EncodeName(labels) + PutU16(t), PutU16(c));
  }

  lemma FieldHere(q: seq<Byte>, e: nat)
    requires e + 2 <= |q|
    ensures At(q, e, PutU16(ReadU16(q[e], q[e + 1])))
  {
    assert q[e..e + 2] == [q[e], q[e + 1]];
  }

  /** The query holds so many questions from off on, and ends no earlier than they do. */
  ghost predicate Holds(q: seq<Byte>, qlen: nat, off: nat, qs: seq<Question>) {
    AllEncodable(qs) && At(q, off, EncodeQuestions(qs)) && off + |EncodeQuestions(qs)| <= qlen
  }

  /** Scanning succeeds only where questions are. */
  lemma {:induction false} ScanHolds(q: seq<Byte>, qlen: nat, off: nat, n: nat) returns (qs: seq<Question>)
    requires qlen <= |q| && off <= qlen
    ensures Scan(q, qlen, off, n).ok ==> |qs| == n && Holds(q, qlen, off, qs)
    decreases n
  {
    hide ReadName, EncodeQuestion, Encodable, At, AskAt;
    qs := [];
    if n == 0 {
      Here(q, off, []);
    } else if Scan(q, qlen, off, n).ok {
      var d := QuestionReads(q, qlen, off);
      var end := ReadName(q, qlen, off).value.end + 5;
      var rest := ScanHolds(q, qlen, end, n - 1);
      qs := [d] + rest;
      assert qs[1..] == rest;
      AtParts(q, off, EncodeQuestion(d), EncodeQuestions(rest));
    }
  }

  /**
   * A query is answered exactly if it fits the reply buffer, counts at most 32 questions, holds them
   * all, and their answers fit.
   */
  lemma AnsweredExactly(
    q: seq<Byte>, qlen: nat, slen: nat, c0: Cache<Name>, c: Cache<Name>, max: nat, net: U32, r: int, reply: seq<Byte>)
    requires 12 <= qlen <= |q| && 1 <= max && Handled(q, qlen, slen, c0, c, max, net, r, reply)
    ensures r != -1 <==>
      && qlen <= slen && q[4] == 0 && q[5] <= 32
      && exists qs ::
           && |qs| == q[5] && Holds(q, qlen, 12, qs)
           && (Answered(qs) == [] || 12 + |EncodeQuestions(qs)| + 16 * |Answered(qs)| <= slen)
  {
    hide Scan, FindAll, Reply, EncodeQuestions, Answered, At, Pair, Offsets, Asked, AllEncodable;
    var n := ReadU16(q[4], q[5]);
    if r != -1 {
      var qs := ScanHolds(q, qlen, 12, n);
      ScanEncoded(q, qlen, 12, qs);
      NoAnswers(qs);
    } else if qlen <= slen && n <= 32 {
      forall qs | |qs| == n && Holds(q, qlen, 12, qs)
        ensures Answered(qs) != [] && 12 + |EncodeQuestions(qs)| + 16 * |Answered(qs)| > slen
      {
        ScanEncoded(q, qlen, 12, qs);
        NoAnswers(qs);
      }
    }
  }

  lemma NoAnswers(qs: seq<Question>)
    requires AllEncodable(qs)
    ensures Pair(Offsets(qs, 12), Asked(qs)) == [] <==> Answered(qs) == []
  {
  }

  // ---- what the reply holds ----

  /** The i-th answer of a reply, octet by octet, at the place where it stands. */
  lemma {:induction false} AnswerStands(ats: seq<nat>, ips: seq<U32>, i: nat)
    requires i < |ats| == |ips|
    ensures |Answers(ats, ips)| == 16 * |ats| && Answers(ats, ips)[16 * i..16 * i + 16] == Answer(ats[i], ips[i])
    decreases |ats|
  {
    hide Answer;
    var n := |ats| - 1;
    var before, last := Answers(ats[..n], ips[..n]), Answer(ats[n], ips[n]);
    if i < n {
      AnswerStands(ats[..n], ips[..n], i);
      assert (before + last)[16 * i..16 * i + 16] == before[16 * i..16 * i + 16];
    }
  }

  lemma AnswerOctets(at: nat, ip: U32)
    ensures Answer(at, ip)
      == [0xC0, at % 256, 0, 1, 0, 1, 0, 0, 0, 1, 0, 4, ip / 0x100_0000, ip / 0x1_0000 % 256, ip / 256 % 256, ip % 256]
  {
    hide PutU32, PutU16;
    var v := PutU32(ip);
    Digits(ip);
    SmallFields();
    assert v == [v[0], v[1], v[2], v[3]];
  }

  lemma SmallFields()
    ensures PutU16(1) == [0, 1] && PutU16(4) == [0, 4] && PutU32(1) == [0, 0, 0, 1]
  {
  }

  lemma Digits(ip: U32)
    ensures PutU32(ip) == [ip / 0x100_0000, ip / 0x1_0000 % 256, ip / 256 % 256, ip % 256]
  {
    var a, b := ip / 256, ip / 256 / 256;
    ModIs(ip, 0x1_0000, b, a % 256 * 256 + ip % 256);
    ModIs(ip, 0x100_0000, b / 256, b % 256 * 0x1_0000 + a % 256 * 256 + ip % 256);
  }

  /** A well-formed query that was answered, on a network with room for every name it asks for. */
  ghost predicate Served(
    q: seq<Byte>, qlen: nat, slen: nat, c0: Cache<Name>, c: Cache<Name>, max: nat, net: U32, mask: U32, k: nat,
    r: int, reply: seq<Byte>, qs: seq<Question>)
  {
    && 12 <= qlen <= |q| && |qs| == ReadU16(q[4], q[5]) && Holds(q, qlen, 12, qs)
    && WellFormed(c0, max) && 1 <= max <= Signed(Not32(mask))
    && Handled(q, qlen, slen, c0, c, max, net, r, reply) && r != -1
    && Netmask(mask, k) && net % Pow2(k) == 0
    && |SetOf(Asked(qs))| <= max
  }

  /**
   * The reply to a well-formed query, octet by octet: id and questions as they came, the counts, and
   * for each A/IN question sixteen octets that end in the network's address or-ed with the index.
   */
  lemma ReplyOctets(
    q: seq<Byte>, qlen: nat, slen: nat, c0: Cache<Name>, c: Cache<Name>, max: nat, net: U32, mask: U32, k: nat,
    r: int, reply: seq<Byte>, qs: seq<Question>, i: nat)
    requires Served(q, qlen, slen, c0, c, max, net, mask, k, r, reply, qs) && i < |Answered(qs)|
    ensures
      var off, ip := 12 + |EncodeQuestions(qs)|, net + FindAll(c0, max, Asked(qs)).1[i];
      && |reply| == off + 16 * |Answered(qs)|
      && reply[..2] == q[..2] && reply[4..6] == q[4..6] && reply[6..12] == [0, |Answered(qs)|, 0, 0, 0, 0]
      && reply[12..off] == q[12..off]
      && reply[off + 16 * i..off + 16 * i + 16]
         == [0xC0, Offsets(qs, 12)[i] % 256, 0, 1, 0, 1, 0, 0, 0, 1, 0, 4,
             ip / 0x100_0000, ip / 0x1_0000 % 256, ip / 256 % 256, ip % 256]
      && And(ip, mask) == net && NameAt(c, And(ip, Not32(mask))) == Some(CString(Dotted(Answered(qs)[i].labels)))
  {
    hide *;
    Means(q, qlen, slen, c0, c, max, net, mask, k, r, reply, qs);
    var off := 12 + |EncodeQuestions(qs)|;
    var ats, all := Offsets(qs, 12), FindAll(c0, max, Asked(qs));
    var ips := Addresses(net, all.1);
    HeldParts(q, qlen, slen, c0, c, max, net, r, reply, qs);
    AnswersResolve(qs, c0, max, net, mask, k, i);
    ReplyParts(q, off, ats, ips);
    AnswerStands(ats, ips, i);
    AnswerOctets(ats[i], ips[i]);
    SliceAfter(reply, off, Answers(ats, ips), 16 * i, 16 * i + 16);
  }

  lemma Means(
    q: seq<Byte>, qlen: nat, slen: nat, c0: Cache<Name>, c: Cache<Name>, max: nat, net: U32, mask: U32, k: nat,
    r: int, reply: seq<Byte>, qs: seq<Question>)
    requires Served(q, qlen, slen, c0, c, max, net, mask, k, r, reply, qs)
    ensures 12 <= qlen <= |q| && |qs| == ReadU16(q[4], q[5]) && Holds(q, qlen, 12, qs) && AllEncodable(qs)
    ensures WellFormed(c0, max) && 1 <= max <= Signed(Not32(mask))
    ensures Handled(q, qlen, slen, c0, c, max, net, r, reply) && r != -1
    ensures Netmask(mask, k) && net % Pow2(k) == 0 && |SetOf(Asked(qs))| <= max
  {
    hide Handled, WellFormed, At, Netmask, Pow2, Signed, Asked, SetOf, EncodeQuestions, AllEncodable;
  }

  /** The questions answered are those of type A and class IN, one after the other. */
  lemma {:induction false} AnsweredAre(qs: seq<Question>, d: Question)
    ensures Answered([]) == []
    ensures Answered(qs + [d]) == Answered(qs) + if d.qtype == 1 && d.qclass == 1 then [d] else []
  {
    hide Answered;
    AnsweredFirst(d, []);
    if qs == [] {
      assert [d] + [] == [d] && [] + [d] == [d];
    } else {
      var rest := qs[1..];
      assert qs == [qs[0]] + rest && qs + [d] == [qs[0]] + (rest + [d]);
      AnsweredAre(rest, d);
      AnsweredFirst(qs[0], rest);
      AnsweredFirst(qs[0], rest + [d]);
    }
  }

  lemma AnsweredFirst(d: Question, rest: seq<Question>)
    ensures Answered([]) == []
    ensures Answered([d] + rest) == (if d.qtype == 1 && d.qclass == 1 then [d] else []) + Answered(rest)
  {
    assert ([d] + rest)[1..] == rest;
  }

  lemma SliceAfter(a: seq<Byte>, off: nat, tail: seq<Byte>, i: nat, j: nat)
    requires off <= |a| && a[off..] == tail && i <= j <= |tail|
    ensures a[off + i..off + j] == tail[i..j]
  {
    assert a[off..][i..j] == a[off + i..off + j];
  }

  lemma HeldParts(q: seq<Byte>, qlen: nat, slen: nat, c0: Cache<Name>, c: Cache<Name>, max: nat, net: U32,
                  r: int, reply: seq<Byte>, qs: seq<Question>)
    requires 12 <= qlen <= |q| && |qs| == ReadU16(q[4], q[5]) && Holds(q, qlen, 12, qs) && 1 <= max
    requires Handled(q, qlen, slen, c0, c, max, net, r, reply) && r != -1
    ensures |qs| <= 32 && |Answered(qs)| <= 32 && c == FindAll(c0, max, Asked(qs)).0
    ensures
      var off := 12 + |EncodeQuestions(qs)|;
      && off <= |q| && AllEncodable(qs)
      && reply == Reply(q, off, Offsets(qs, 12), Addresses(net, FindAll(c0, max, Asked(qs)).1))
  {
    hide Scan, FindAll, Reply, EncodeQuestions, At, Pair, Offsets, Asked, Addresses, Ats, AskNames, AllEncodable;
    ScanEncoded(q, qlen, 12, qs);
    PairParts(Offsets(qs, 12), Asked(qs));
  }

  lemma ReplyParts(q: seq<Byte>, off: nat, ats: seq<nat>, ips: seq<U32>)
    requires 12 <= off <= |q| && |ats| == |ips| <= 32
    ensures
      var r := Reply(q, off, ats, ips);
      && |r| == off + 16 * |ats| && r[..2] == q[..2] && r[4..6] == q[4..6]
      && r[6..12] == [0, |ats|, 0, 0, 0, 0] && r[12..off] == q[12..off] && r[off..] == Answers(ats, ips)
  {
    hide ReplyFlags, Answers;
    var an := PutU16(|ats|);
    assert an == [0, |ats|];
  }

  // ---- the address in the reply, later ----

  /** The finds that a query's questions call for. */
  function Finds(names: seq<Name>): (ops: seq<Op<Name>>)
    ensures |ops| == |names| && forall i :: 0 <= i < |names| ==> ops[i] == FindOp(names[i])
  {
    seq(|names|, i requires 0 <= i < |names| => FindOp(names[i]))
  }

  lemma {:induction false} FindAllRuns(max: nat, pre: seq<Op<Name>>, names: seq<Name>)
    requires 1 <= max
    ensures FindAll(Run([], max, pre), max, names).0 == Run([], max, pre + Finds(names))
    decreases |names|
  {
    hide LruSpec.Find;
    if names == [] {
      assert pre + Finds(names) == pre;
    } else {
      var p, n := names[..|names| - 1], names[|names| - 1];
      FindAllRuns(max, pre, p);
      var ops := pre + Finds(names);
      assert ops[..|ops| - 1] == pre + Finds(p) && ops[|ops| - 1] == FindOp(n);
    }
  }

  lemma {:induction false} FoundAt<N(!new)>(s: Cache<N>, max: nat, names: seq<N>, i: nat)
    requires 1 <= max && i < |names|
    ensures FindAll(s, max, names).1[i] == FoundIdx(FindAll(s, max, names[..i]).0, max, names[i])
    decreases |names|
  {
    hide LruSpec.Find, FoundIdx;
    var p := names[..|names| - 1];
    if i < |names| - 1 {
      FoundAt(s, max, p, i);
      assert p[..i] == names[..i];
    }
  }

  /** The address that ends the i-th answer of a reply whose answers start at off. */
  function AnsweredIp(reply: seq<Byte>, off: nat, i: nat): int
    requires off + 16 * i + 16 <= |reply|
  {
    var at := off + 16 * i + 12;
    ReadU32(reply[at], reply[at + 1], reply[at + 2], reply[at + 3])
  }

  /** The names touched after the i-th name of a query was asked: by the rest of it, and by what follows. */
  ghost function SinceAsked(max: nat, pre: seq<Op<Name>>, names: seq<Name>, post: seq<Op<Name>>, i: nat): set<Name>
    requires 1 <= max && i < |names|
  {
    SetOf(Since(max, pre + Finds(names[..i]) + [FindOp(names[i])], Finds(names[i + 1..]) + post)) - {names[i]}
  }

  /**
   * The four octets that end an answer keep standing for the name asked, through the rest of the query
   * and any further run that touches fewer than max other names.
   */
  lemma ReplyStable(
    q: seq<Byte>, qlen: nat, slen: nat, pre: seq<Op<Name>>, post: seq<Op<Name>>, c: Cache<Name>, max: nat,
    net: U32, mask: U32, k: nat, r: int, reply: seq<Byte>, qs: seq<Question>, i: nat)
    requires 1 <= max && Served(q, qlen, slen, Run([], max, pre), c, max, net, mask, k, r, reply, qs)
    requires i < |Answered(qs)| && |SinceAsked(max, pre, Asked(qs), post, i)| < max
    ensures AllEncodable(qs) && |reply| == 12 + |EncodeQuestions(qs)| + 16 * |Answered(qs)|
    ensures
      var ip := AnsweredIp(reply, 12 + |EncodeQuestions(qs)|, i);
      && 0 <= ip < 0x1_0000_0000 && And(ip, mask) == net
      && NameAt(Run([], max, pre + Finds(Asked(qs)) + post), And(ip, Not32(mask)))
         == Some(CString(Dotted(Answered(qs)[i].labels)))
  {
    hide *;
    Means(q, qlen, slen, Run([], max, pre), c, max, net, mask, k, r, reply, qs);
    ReplyOctets(q, qlen, slen, Run([], max, pre), c, max, net, mask, k, r, reply, qs, i);
    AskedIs(qs, i);
    StillStands(net, mask, k, max, pre, Asked(qs), post, i);
    var idx := FindAll(Run([], max, pre), max, Asked(qs)).1[i];
    OctetsRead(reply, 12 + |EncodeQuestions(qs)|, i, net + idx);
  }

  lemma StillStands(
    net: U32, mask: U32, k: nat, max: nat, pre: seq<Op<Name>>, names: seq<Name>, post: seq<Op<Name>>, i: nat)
    requires Netmask(mask, k) && net % Pow2(k) == 0 && 1 <= max <= Signed(Not32(mask)) && i < |names|
    requires |SinceAsked(max, pre, names, post, i)| < max
    ensures
      var ip := net + FindAll(Run([], max, pre), max, names).1[i];
      && ip < 0x1_0000_0000 && And(ip, mask) == net
      && NameAt(Run([], max, pre + Finds(names) + post), And(ip, Not32(mask))) == Some(names[i])
  {
    hide *;
    var before, later := pre + Finds(names[..i]), Finds(names[i + 1..]) + post;
    FindAllRuns(max, pre, names[..i]);
    FoundAt(Run([], max, pre), max, names, i);
    SinceAskedMeans(max, pre, names, post, i);
    Glued(pre, names, post, i);
    DnsRuns.AddressStable(net, mask, k, max, before, later, names[i]);
    DnsRuns.SignedBound(Not32(mask));
    NetPart(net, mask, k, FoundIdx(Run([], max, before), max, names[i]));
  }

  lemma SinceAskedMeans(max: nat, pre: seq<Op<Name>>, names: seq<Name>, post: seq<Op<Name>>, i: nat)
    requires 1 <= max && i < |names|
    ensures SinceAsked(max, pre, names, post, i)
      == SetOf(Since(max, pre + Finds(names[..i]) + [FindOp(names[i])], Finds(names[i + 1..]) + post)) - {names[i]}
  {
    hide SetOf, Since;
  }

  lemma Glued(pre: seq<Op<Name>>, names: seq<Name>, post: seq<Op<Name>>, i: nat)
    requires i < |names|
    ensures pre + Finds(names[..i]) + [FindOp(names[i])] + (Finds(names[i + 1..]) + post) == pre + Finds(names) + post
  {
    hide Finds;
    FindsSplit(names, i);
    Regroup(pre, Finds(names[..i]), [FindOp(names[i])], Finds(names[i + 1..]), post);
  }

  lemma FindsSplit(names: seq<Name>, i: nat)
    requires i < |names|
    ensures Finds(names) == Finds(names[..i]) + [FindOp(names[i])] + Finds(names[i + 1..])
  {
    var a, b, c := Finds(names[..i]), [FindOp(names[i])], Finds(names[i + 1..]);
    forall j | 0 <= j < |names|
      ensures (a + b + c)[j] == FindOp(names[j])
    {
    }
  }

  lemma Regroup<T>(p: seq<T>, a: seq<T>, b: seq<T>, c: seq<T>, q: seq<T>)
    ensures p + a + b + (c + q) == p + (a + b + c) + q
  {
  }

  lemma OctetsRead(reply: seq<Byte>, off: nat, i: nat, ip: U32)
    requires off + 16 * i + 16 <= |reply|
    requires reply[off + 16 * i..off + 16 * i + 16][12..]
      == [ip / 0x100_0000, ip / 0x1_0000 % 256, ip / 256 % 256, ip % 256]
    ensures AnsweredIp(reply, off, i) == ip
  {
    var base := off + 16 * i;
    var d := reply[base..base + 16][12..];
    assert reply[base + 12] == d[0] && reply[base + 13] == d[1] && reply[base + 14] == d[2] && reply[base + 15] == d[3];
    Digits(ip);
    assert d == PutU32(ip);
  }
}
