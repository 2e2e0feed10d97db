/** What a client of the fake-IP server can rely on over any run of queries by name and by address. */
module DnsRuns {
  import opened Bytes
  import opened Bits
  import opened Wrappers
  import opened DnsTree
  import opened LruSpec
  import MappedDns

  /**
   * An address handed out for a name keeps standing for it, and the name keeps getting it, through
   * any further run that touches fewer than max other names.
   */
  lemma AddressStable(
    net: U32, mask: U32, k: nat, max: nat, pre: seq<Op<Name>>, post: seq<Op<Name>>, n: Name)
    requires Netmask(mask, k) && net % Pow2(k) == 0 && 1 <= max <= Signed(Not32(mask))
    requires |SetOf(Since(max, pre + [FindOp(n)], post)) - {n}| < max
    ensures
      var idx := FoundIdx(Run([], max, pre), max, n);
      var now := Run([], max, pre + [FindOp(n)] + post);
      && idx < max
      && FoundIdx(now, max, n) == idx
      && And(net + idx, mask) == net
      && MappedDns.NameAt(now, And(net + idx, Not32(mask))) == Some(n)
  {
    hide *;
    var idx := FoundIdx(Run([], max, pre), max, n);
    JustFound(max, pre, n);
    IndexStable(max, pre + [FindOp(n)], post, n, idx);
    var now := Run([], max, pre + [FindOp(n)] + post);
    RunWellFormed(max, pre + [FindOp(n)] + post);
    EntryAnswers(now, max, n, idx);
    SignedBound(Not32(mask));
    HostPart(net, mask, k, idx);
    NetPart(net, mask, k, idx);
  }

  lemma SignedBound(x: U32)
    ensures Signed(x) <= x
  {
  }

  lemma JustFound(max: nat, pre: seq<Op<Name>>, n: Name)
    requires 1 <= max
    ensures
      var h := Touched(max, pre + [FindOp(n)]);
      && h != [] && h[|h| - 1] == n
      && Entry(n, FoundIdx(Run([], max, pre), max, n)) in Run([], max, pre + [FindOp(n)])
  {
    var ops := pre + [FindOp(n)];
    assert ops[..|ops| - 1] == pre && ops[|ops| - 1] == FindOp(n);
    RunWellFormed(max, pre);
    FoundLast(Run([], max, pre), max, n);
  }

  lemma FoundLast(c: Cache<Name>, max: nat, n: Name)
    requires WellFormed(c, max) && 1 <= max
    ensures
      var r := LruSpec.Find(c, max, n);
      |r| > 0 && r[|r| - 1] == Entry(n, FoundIdx(c, max, n))
  {
  }

  lemma EntryAnswers(c: Cache<Name>, max: nat, n: Name, idx: nat)
    requires WellFormed(c, max) && 1 <= max && Entry(n, idx) in c
    ensures idx < max && FoundIdx(c, max, n) == idx && MappedDns.NameAt(c, idx) == Some(n)
  {
    var j :| 0 <= j < |c| && c[j] == Entry(n, idx);
  }

  /** The same of a server: what it answers for the name and for its address, whatever came in between. */
  lemma ServerAddressStable(dns: MappedDns.MappedDns, k: nat, pre: seq<Op<Name>>, post: seq<Op<Name>>, n: Name)
    requires dns.Valid() && Netmask(dns.mask, k) && dns.net % Pow2(k) == 0
    requires dns.ops == pre + [FindOp(n)] + post && dns.max >= 1
    requires |SetOf(Since(dns.max, pre + [FindOp(n)], post)) - {n}| < dns.max
    ensures
      var idx := FoundIdx(Run([], dns.max, pre), dns.max, n);
      && FoundIdx(dns.Contents(), dns.max, n) == idx
      && And(dns.net + idx, dns.mask) == dns.net
      && MappedDns.NameAt(dns.Contents(), And(dns.net + idx, Not32(dns.mask))) == Some(n)
  {
    hide *;
    dns.Holding();
    AddressStable(dns.net, dns.mask, k, dns.max, pre, post, n);
  }
}
