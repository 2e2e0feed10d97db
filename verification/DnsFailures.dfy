/** Queries on which the fake-IP server does less than one might expect. */
module DnsFailures {
  import opened Bytes
  import opened Bits
  import opened Wrappers
  import opened LruSpec
  import opened MappedDns
  import opened DnsWire
  import opened DnsHandle
  import opened DnsReply

  /** A name of the longest legal length. */
  function LongName(): (labels: seq<seq<Byte>>)
    ensures Encodable(labels) && |EncodeName(labels)| == 255
  {
    var l: seq<Byte> := seq(63, _ => 97);
    var m: seq<Byte> := seq(61, _ => 97);
    LongNameLength(l, m);
    [l, l, l, m]
  }

  lemma LongNameLength(l: seq<Byte>, m: seq<Byte>)
    requires |l| == 63 && |m| == 61
    ensures Encodable([l, l, l, m]) && |EncodeName([l, l, l, m])| == 255
  {
    assert [m][1..] == [] && [l, m][1..] == [m] && [l, l, m][1..] == [l, m] && [l, l, l, m][1..] == [l, l, m];
    assert Encodable([m]) && |EncodeName([m])| == 63;
    assert Encodable([l, m]) && |EncodeName([l, m])| == 127;
    assert Encodable([l, l, m]) && |EncodeName([l, l, m])| == 191;
  }

  /** Two questions for addresses, the first of them long. */
  function LateQuestion(): (qs: seq<Question>)
    ensures AllEncodable(qs) && |qs| == 2 && |EncodeQuestions(qs)| == 266
    ensures |Answered(qs)| == 2 && |Offsets(qs, 12)| == 2 && Offsets(qs, 12)[1] == 271
  {
    var a, b := Question(LongName(), 1, 1), Question([[97]], 1, 1);
    LateOffset(a, b);
    [a, b]
  }

  lemma LateOffset(a: Question, b: Question)
    requires Encodable(a.labels) && |EncodeName(a.labels)| == 255 && IsInternetA(a)
    requires b.labels == [[97]] && IsInternetA(b)
    ensures
      var qs := [a, b];
      && AllEncodable(qs) && |EncodeQuestions(qs)| == 266
      && |Answered(qs)| == 2 && |Offsets(qs, 12)| == 2 && Offsets(qs, 12)[1] == 271
  {
    hide EncodeName;
    ShortName();
    assert [b][1..] == [] && [a, b][1..] == [b];
    assert |EncodeQuestion(a)| == 259 && |EncodeQuestion(b)| == 7;
    assert EncodeQuestions([]) == [] && Answered([]) == [] && Offsets([], 278) == [];
    assert AllEncodable([b]) && |EncodeQuestions([b])| == 7 && Answered([b]) == [b] && Offsets([b], 271) == [271];
  }

  lemma ShortName()
    ensures Encodable([[97]]) && |EncodeName([[97]])| == 3
  {
    assert [[97]][1..] == [];
  }

  /** From a fresh server: a legal query whose second answer does not point at its question. */
  method LateQuestionMisleads(net: U32, mask: U32, max: nat) returns (r: int, reply: seq<Byte>)
    requires 1 <= max <= Signed(Not32(mask))
    ensures
      var qs := LateQuestion();
      && r == |reply| == 12 + |EncodeQuestions(qs)| + 32
      && reply != EncodedReply(7, 0x100, qs, Addresses(net, FindAll([], max, Asked(qs)).1))
  {
    hide *;
    var qs := LateQuestion();
    var q := EncodeHeader(7, 0x100, 2, 0, 0, 0) + EncodeQuestions(qs);
    var req := new Byte[|q|](i requires 0 <= i < |q| => q[i]);
    var res := new Byte[512](_ => 0);
    var dns := new MappedDns(net, mask, max);
    assert req[..] == q;
    LateIsQuery(q, qs);
    r := Handle(dns, req, |q|, res, 512);
    reply := if r == -1 then [] else res[..r];
    LateReply(q, qs, dns.Contents(), max, net, r, reply);
  }

  lemma LateIsQuery(q: seq<Byte>, qs: seq<Question>)
    requires qs == LateQuestion() && q == EncodeHeader(7, 0x100, 2, 0, 0, 0) + EncodeQuestions(qs)
    ensures |q| == 278 && IsQuery(q, |q|, 7, 0x100, 0, 0, 0, qs)
    ensures Readable(q, |q|, 12, ReadU16(q[4], q[5]))
  {
    hide EncodeQuestions, EncodeHeader, LateQuestion, Readable;
    assert At(q, 0, q);
    QueryParts(q, |q|, 7, 0x100, 0, 0, 0, qs);
    ReadsPastEnd(q, 12, qs, 2);
  }

  lemma LateReply(q: seq<Byte>, qs: seq<Question>, c: Cache<Name>, max: nat, net: U32, r: int, reply: seq<Byte>)
    requires qs == LateQuestion() && |q| == 278 && IsQuery(q, |q|, 7, 0x100, 0, 0, 0, qs) && 1 <= max
    requires Handled(q, |q|, 512, [], c, max, net, r, reply)
    ensures r == 310
    ensures reply != EncodedReply(7, 0x100, qs, Addresses(net, FindAll([], max, Asked(qs)).1))
  {
    hide Handled, IsQuery, EncodeQuestions, EncodedReply, FindAll, Asked, LateQuestion, Offsets, Answered;
    ReplyIsWellFormed(q, |q|, 512, [], c, max, net, r, reply, 7, 0x100, 0, 0, 0, qs);
    assert !Low(Offsets(qs, 12)) by {
      assert Offsets(qs, 12)[1] == 271;
    }
  }

  // ---- a NUL in a label ----

  /** Two questions for names that differ only after a NUL. */
  function NulQuestions(): (qs: seq<Question>)
    ensures AllEncodable(qs) && |qs| == 2 && |EncodeQuestions(qs)| == 18 && Answered(qs) == qs
  {
    NulLengths();
    [Question([[97, 0, 98]], 1, 1), Question([[97, 0, 99]], 1, 1)]
  }

  lemma NulLengths()
    ensures
      var qs := [Question([[97, 0, 98]], 1, 1), Question([[97, 0, 99]], 1, 1)];
      AllEncodable(qs) && |EncodeQuestions(qs)| == 18 && Answered(qs) == qs
  {
    var a, b := Question([[97, 0, 98]], 1, 1), Question([[97, 0, 99]], 1, 1);
    assert a.labels[1..] == [] && b.labels[1..] == [];
    assert [b][1..] == [] && [a, b][1..] == [b];
    assert |EncodeQuestion(a)| == 9 && |EncodeQuestion(b)| == 9;
    assert EncodeQuestions([]) == [] && |EncodeQuestions([b])| == 9;
    assert Answered([]) == [] && Answered([b]) == [b];
  }

  lemma NulAsked()
    ensures
      var qs := NulQuestions();
      && Asked(qs) == [[97], [97]]
      && Dotted(qs[0].labels) == [97, 0, 98] && Dotted(qs[1].labels) == [97, 0, 99]
  {
    hide EncodeQuestions, AllEncodable;
    var a, b := Question([[97, 0, 98]], 1, 1), Question([[97, 0, 99]], 1, 1);
    assert [b][1..] == [] && [a, b][1..] == [b];
    assert Asked([]) == [] && Dotted(a.labels) == [97, 0, 98] && Dotted(b.labels) == [97, 0, 99];
    NulStops(98);
    NulStops(99);
    assert Asked([b]) == [CString(Dotted(b.labels))] + [];
    assert Asked([a, b]) == [CString(Dotted(a.labels))] + Asked([b]);
  }

  lemma NulStops(x: Byte)
    ensures CString([97, 0, x]) == [97]
  {
    assert [97, 0, x][1..] == [0, x] && CString([0, x]) == [];
  }

  /** From a fresh server: two names get one address, and it stands for neither of them. */
  method NulCutsName(net: U32, mask: U32, k: nat, max: nat)
    returns (reply: seq<Byte>, ips: seq<U32>, name: Option<Name>)
    requires Netmask(mask, k) && net % Pow2(k) == 0 && 1 <= max <= Signed(Not32(mask))
    ensures |ips| == 2 && ips[0] == ips[1]
    ensures reply == EncodedReply(7, 0x100, NulQuestions(), ips)
    ensures name == Some([97]) && forall q :: q in NulQuestions() ==> Dotted(q.labels) != [97]
  {
    hide *;
    NulAsked();
    var qs := NulQuestions();
    var q := EncodeHeader(7, 0x100, 2, 0, 0, 0) + EncodeQuestions(qs);
    var req := new Byte[|q|](i requires 0 <= i < |q| => q[i]);
    var res := new Byte[512](_ => 0);
    var dns := new MappedDns(net, mask, max);
    assert req[..] == q;
    NulIsQuery(q, qs);
    var r := Handle(dns, req, |q|, res, 512);
    reply := if r == -1 then [] else res[..r];
    NulReply(q, qs, dns.Contents(), max, net, mask, k, r, reply);
    ips := Addresses(net, FindAll([], max, Asked(qs)).1);
    name := dns.Lookup(ips[0]);
    assert [97, 0, 98][1] == 0;
  }

  lemma NulIsQuery(q: seq<Byte>, qs: seq<Question>)
    requires qs == NulQuestions() && q == EncodeHeader(7, 0x100, 2, 0, 0, 0) + EncodeQuestions(qs)
    ensures |q| == 30 && IsQuery(q, |q|, 7, 0x100, 0, 0, 0, qs)
    ensures Readable(q, |q|, 12, ReadU16(q[4], q[5]))
  {
    hide EncodeQuestions, EncodeHeader, NulQuestions, Readable;
    assert At(q, 0, q);
    QueryParts(q, |q|, 7, 0x100, 0, 0, 0, qs);
    ReadsPastEnd(q, 12, qs, 2);
  }

  lemma NulReply(
    q: seq<Byte>, qs: seq<Question>, c: Cache<Name>, max: nat, net: U32, mask: U32, k: nat, r: int, reply: seq<Byte>)
    requires qs == NulQuestions() && |q| == 30 && IsQuery(q, |q|, 7, 0x100, 0, 0, 0, qs)
    requires Netmask(mask, k) && net % Pow2(k) == 0 && 1 <= max <= Signed(Not32(mask))
    requires Handled(q, |q|, 512, [], c, max, net, r, reply)
    ensures r == 62 && c == FindAll([], max, Asked(qs)).0
    ensures
      var ips := Addresses(net, FindAll([], max, Asked(qs)).1);
      && |ips| == 2 && ips[0] == ips[1] && NameAt(c, And(ips[0], Not32(mask))) == Some([97])
      && reply == EncodedReply(7, 0x100, qs, ips)
  {
    hide Handled, IsQuery, EncodeQuestions, EncodedReply, FindAll, Asked, NulQuestions, Offsets, Answered, Netmask;
    hide Pow2, And, Addresses, CString, Dotted, NoNul, Signed;
    NulAsked();
    NulStops(98);
    ReplyIsWellFormed(q, |q|, 512, [], c, max, net, r, reply, 7, 0x100, 0, 0, 0, qs);
    assert [[97], [97]] == Asked(qs);
    OneName([97]);
    AnswersResolve(qs, [], max, net, mask, k, 0);
    TwiceFound([97], max, net);
    NulOffsets();
  }

  lemma NulOffsets()
    ensures Low(Offsets(NulQuestions(), 12))
  {
    var a, b := Question([[97, 0, 98]], 1, 1), Question([[97, 0, 99]], 1, 1);
    NulLengths();
    assert [b][1..] == [] && [a, b][1..] == [b] && |EncodeQuestion(a)| == 9;
    assert Offsets([], 30) == [] && Offsets([b], 21) == [21] && Offsets([a, b], 12) == [12, 21];
  }

  lemma OneName(n: Name)
    ensures |SetOf([n, n])| == 1
  {
    assert SetOf([n, n]) == {n};
  }

  /** Asked for twice, a name gets one index. */
  lemma TwiceFound(n: Name, max: nat, net: U32)
    requires 1 <= max
    ensures
      var ips := Addresses(net, FindAll([], max, [n, n]).1);
      |ips| == 2 && ips[0] == ips[1]
  {
    hide FindAll, Address;
    OneName(n);
    FindAllKeeps([], max, [n, n]);
    var c, idxs := FindAll([], max, [n, n]).0, FindAll([], max, [n, n]).1;
    assert Entry(n, idxs[0]) in c && Entry(n, idxs[1]) in c;
  }
}
