/**
 * The fake-IP name server of hev-mapped-dns.c: a search tree by name, a recency list and an array
 * by index over the same heap nodes.
 */
module MappedDns {
  import opened Bytes
  import opened Bits
  import opened HevList
  import opened DnsTree
  import opened LruSpec
  import opened Wrappers

  ghost function EntryOf(n: DnsNode): Entry<Name>
    reads n`idx
  {
    Entry(n.name, n.idx)
  }

  ghost function Items(ls: seq<Link<DnsNode>>): (ns: seq<DnsNode>)
    ensures |ns| == |ls| && forall i :: 0 <= i < |ls| ==> ns[i] == ls[i].item
  {
    seq(|ls|, i requires 0 <= i < |ls| => ls[i].item)
  }

  ghost function Entries(ns: seq<DnsNode>): (c: Cache<Name>)
    reads ns`idx
    ensures |c| == |ns| && forall i :: 0 <= i < |ns| ==> c[i] == EntryOf(ns[i])
  {
    if ns == [] then [] else Entries(ns[..|ns| - 1]) + [EntryOf(ns[|ns| - 1])]
  }

  lemma RequeuedEntries(ls: seq<Link<DnsNode>>, k: nat)
    requires k < |ls|
    ensures Entries(Items(DropAt(ls, k) + [ls[k]])) == Touch(Entries(Items(ls)), k)
  {
    var r, c := DropAt(ls, k) + [ls[k]], Entries(Items(ls));
    forall i | 0 <= i < |ls| ensures Entries(Items(r))[i] == Touch(c, k)[i] {
      assert r[i] == ls[Before(|ls|, k, i)];
      assert Touch(c, k)[i] == c[Before(|ls|, k, i)];
    }
  }

  lemma AddedEntries(ls: seq<Link<DnsNode>>, l: Link<DnsNode>, gone: nat)
    requires gone <= |ls|
    ensures Entries(Items(ls[gone..] + [l])) == Entries(Items(ls))[gone..] + [EntryOf(l.item)]
    ensures Entries(Items(ls)) == Entries(Items(ls + [l]))[..|ls|]
  {
  }

  lemma HitFinds(c: Cache<Name>, max: nat, k: nat)
    requires k < |c| && 1 <= max && PosOf(c, c[k].name) == k && PosOfIdx(c, c[k].idx) == k
    ensures LruSpec.Find(c, max, c[k].name) == Touch(c, k) == Lookup(c, c[k].idx)
    ensures FoundIdx(c, max, c[k].name) == c[k].idx
  {
  }

  class MappedDns {
    var use: nat
    const max: nat
    const net: U32
    const mask: U32
    const list: List<DnsNode>
    const tree: Tree
    const records: array<DnsNode?>
    ghost var Repr: set<object>
    /** Every find and every lookup so far. */
    ghost var ops: seq<Op<Name>>

    /** The list holds exactly the nodes ns. */
    ghost predicate Lists(ns: set<DnsNode>)
      reads list, ns`link
    {
      && (forall i {:trigger list.links[i]} :: 0 <= i < |list.links| ==>
            list.links[i].item in ns && list.links[i].item.link == list.links[i])
      && (forall n :: n in ns ==> n.link != null && n.link in list.links && n.link.item == n)
    }

    /** The first n slots hold the nodes ns, each at its own index; the others are empty. */
    ghost predicate Indexed(ns: set<DnsNode>, n: nat)
      reads records, ns`idx
    {
      && n <= records.Length == max
      && (forall i :: 0 <= i < n ==> records[i] in ns && records[i].idx == i)
      && (forall d :: d in ns ==> d.idx < n && records[d.idx] == d)
      && (forall i :: n <= i < max ==> records[i] == null)
    }

    /** Who owns what; the three structures share nothing but nodes and links. */
    ghost predicate Owns()
      reads this`Repr, list, tree
    {
      && {this, list, tree, records} <= Repr && tree.nodes <= Repr && list.Repr <= Repr
      && this !in list.Repr && tree !in list.Repr && records !in list.Repr
      && (forall n :: n in tree.nodes ==> n !in list.Repr)
    }

    /** The three structures agree. */
    ghost predicate Held()
      reads this, Repr
      ensures Held() ==> this in Repr
    {
      && {this, list, tree, records} <= Repr && Owns() && tree.Valid() && list.Valid()
      && Lists(tree.nodes) && Indexed(tree.nodes, use)
      && use == |list.links| && 1 <= max <= Signed(Not32(mask))
    }

    /** The bounded map that the three structures stand for, oldest entry first. */
    ghost function Contents(): (c: Cache<Name>)
      reads list, Items(list.links)`idx
      ensures |c| == |list.links|
    {
      Entries(Items(list.links))
    }

    /** And they hold what the run of all operations so far leaves in the bounded map. */
    ghost predicate Valid()
      reads this, Repr, list, Items(list.links)`idx
      ensures Valid() ==> this in Repr
    {
      Held() && Contents() == Run([], max, ops)
    }

    constructor (net: U32, mask: U32, max: nat)
      requires 1 <= max <= Signed(Not32(mask))
      ensures Valid() && fresh(Repr) && Contents() == [] && ops == []
      ensures this.net == net && this.mask == mask && this.max == max
    {
      hide *;
      use, ops := 0, [];
      this.net, this.mask, this.max := net, mask, max;
      list := new List<DnsNode>();
      tree := new Tree();
      records := new DnsNode?[max](_ => null);
      new;
      Repr := {this, list, tree, records} + list.Repr;
      Started();
    }

    lemma Started()
      requires tree.Valid() && tree.nodes == {} && list.Valid() && list.links == []
      requires this !in list.Repr && tree !in list.Repr && records !in list.Repr
      requires Repr == {this, list, tree, records} + list.Repr
      requires use == 0 && ops == [] && 1 <= max <= Signed(Not32(mask))
      requires records.Length == max && forall i :: 0 <= i < max ==> records[i] == null
      ensures Valid() && Contents() == []
    {
      hide Tree.Valid, List.Valid, Signed, Not32;
    }

    /** hev_mapped_dns_new: refused when the host part cannot number max names. */
    static method New(net: U32, mask: U32, max: nat) returns (r: MappedDns?)
      requires 1 <= max
      ensures r == null <==> mask < 0x8000_0000 || max > 0xFFFF_FFFF - mask
      ensures r != null ==> r.Valid() && fresh(r.Repr) && r.Contents() == []
      ensures r != null ==> r.net == net && r.mask == mask && r.max == max
    {
      if max > Signed(Not32(mask)) {
        r := null;
      } else {
        r := new MappedDns(net, mask, max);
      }
    }

    /** Tree, list and array agree on one well-formed cache. */
    lemma ContentsWellFormed()
      requires Held()
      ensures WellFormed(Contents(), max)
    {
      var c := Contents();
      forall i, j | 0 <= i < j < |c| ensures c[i].name != c[j].name && c[i].idx != c[j].idx {
        var a, b := list.links[i].item, list.links[j].item;
        assert list.links[i] != list.links[j];
        if a.name == b.name { NamesDiffer(tree.shape, a, b); }
      }
    }

    /** hev_list_del then hev_list_add_tail: the node at position k becomes the most recent. */
    method MoveToTail(node: DnsNode, ghost k: nat)
      requires Held() && k < |list.links| && list.links[k] == node.link
      modifies list.Repr
      ensures Held() && Repr == old(Repr) && Contents() == Touch(old(Contents()), k)
    {
      hide Tree.Valid, List.Valid, Indexed, Entries, Items;
      ghost var links := list.links;
      list.Requeue(node.link, k);
      RequeuedEntries(links, k);
      forall i | 0 <= i < |list.links|
        ensures list.links[i].item in tree.nodes && list.links[i].item.link == list.links[i]
      {
        assert list.links[i] == links[Before(|links|, k, i)];
      }
    }

    /** Everything but the list's and the array's agreement with the tree. */
    ghost predicate Parts()
      reads this`Repr, list, list.Repr, tree, tree.nodes
    {
      Owns() && tree.Valid() && list.Valid()
    }

    /** Links a new node into the tree; the list and the array do not know it yet. */
    method GrowTree(name: Name, parent: DnsNode?) returns (node: DnsNode)
      requires Parts() && Lists(tree.nodes) && Indexed(tree.nodes, use) && !HasName(tree.shape, name)
      requires parent == SearchParent(tree.shape, name, null)
      modifies this`Repr, tree, tree.nodes`left, tree.nodes`right
      ensures Parts() && Lists(old(tree.nodes)) && Indexed(old(tree.nodes), use)
      ensures list.links == old(list.links)
      ensures node.name == name && node !in old(tree.nodes) && tree.nodes == old(tree.nodes) + {node}
      ensures node.link != null && node.link.item == node && node.link !in list.links
      ensures Repr == old(Repr) + {node, node.link} && fresh(node) && fresh(node.link)
    {
      hide Tree.Valid, List.Valid, Entries, Items;
      node := new DnsNode(name);
      tree.LinkUnder(node, parent);
      Repr := Repr + {node, node.link};
    }

    /** Appends node to the list. */
    method GrowList(node: DnsNode, ghost was: set<DnsNode>)
      requires Parts() && Lists(was) && Indexed(was, use) && tree.nodes == was + {node}
      requires node.link != null && node.link.item == node && node.link !in list.links && node.link in Repr
      modifies list.Repr, node.link
      ensures Parts() && Lists(tree.nodes) && Indexed(was, use)
      ensures list.links == old(list.links) + [node.link]
      ensures use == old(use) && tree.nodes == old(tree.nodes) && Repr == old(Repr)
    {
      hide Tree.Valid, List.Valid, Indexed, Entries, Items;
      list.AddTail(node.link);
    }

    /** Drops the oldest node from the tree; its slot keeps pointing at it until Store. */
    method ShrinkTree(nf: DnsNode, ghost was: set<DnsNode>)
      requires Parts() && Lists(tree.nodes) && Indexed(was, use) && was <= tree.nodes && nf in tree.nodes
      modifies tree, tree.nodes`left, tree.nodes`right
      ensures Parts() && Lists(old(tree.nodes)) && Indexed(was, use)
      ensures tree.nodes == old(tree.nodes) - {nf} && list.links == old(list.links)
      ensures list.Repr == old(list.Repr) && Repr == old(Repr)
    {
      hide Tree.Valid, List.Valid, Entries, Items;
      tree.Remove(nf);
    }

    /** Drops the oldest node from the list. */
    method ShrinkList(nl: Link<DnsNode>, ghost was: set<DnsNode>, ghost all: set<DnsNode>)
      requires Parts() && Lists(all) && Indexed(was, use) && list.links != [] && nl == list.links[0]
      requires was <= all && tree.nodes == all - {nl.item} && forall d :: d in all ==> d !in list.Repr
      modifies list.Repr
      ensures Parts() && Lists(tree.nodes) && Indexed(was, use)
      ensures list.links == old(list.links)[1..]
      ensures tree.nodes == old(tree.nodes) && Repr == old(Repr)
    {
      assert Distinct(list.links);
      hide Tree.Valid, List.Valid, Indexed, Entries, Items;
      list.Del(nl, 0);
    }

    /** records[idx] = node; node->idx = idx. The slot is new, or nf's. */
    method Store(node: DnsNode, idx: nat, ghost was: set<DnsNode>, ghost n: nat, ghost nf: DnsNode?)
      requires Parts() && Lists(tree.nodes) && node !in was
      requires |list.links| == use <= max && 1 <= max <= Signed(Not32(mask)) && Indexed(was, n)
      requires nf == null ==> idx == n && use == n + 1 && tree.nodes == was + {node}
      requires nf != null ==> nf in was && nf.idx == idx && use == n && tree.nodes == was - {nf} + {node}
      modifies records, node`idx
      ensures Held() && node.idx == idx
    {
      hide List.Valid, Entries, Items, Sorted, Nodes, Child, Root;
      records[idx] := node;
      node.idx := idx;
    }

    lemma Unpack()
      requires Parts() && Lists(tree.nodes)
      ensures tree.nodes <= Repr - {this, records} && list.Repr <= Repr - {this, records}
      ensures {this, tree} <= Repr - {records} && records in Repr && tree != this as object && list.Valid()
      ensures forall d :: d in tree.nodes ==> d !in list.Repr
      ensures forall i :: 0 <= i < |list.links| ==>
                list.links[i].item in tree.nodes && Contents()[i].idx == list.links[i].item.idx
      ensures Contents() == Entries(Items(list.links))
    {
    }

    /** Adds a node called name to the tree and at the end of the list. */
    method Enter(name: Name, parent: DnsNode?) returns (node: DnsNode)
      requires Parts() && Lists(tree.nodes) && Indexed(tree.nodes, use)
      requires !HasName(tree.shape, name) && parent == SearchParent(tree.shape, name, null)
      modifies Repr - {records}
      ensures Parts() && Lists(tree.nodes) && Indexed(old(tree.nodes), use) && use == old(use) && ops == old(ops)
      ensures list.links == old(list.links) + [node.link] && tree.nodes == old(tree.nodes) + {node}
      ensures node.name == name && node.link != null && node.link.item == node && node !in old(tree.nodes)
      ensures fresh(Repr - old(Repr)) && fresh(node)
      ensures Entries(Items(old(list.links))) == old(Contents())
    {
      hide *;
      Unpack();
      ghost var links, was := list.links, tree.nodes;
      node := GrowTree(name, parent);
      assert Entries(Items(links)) == old(Contents());
      GrowList(node, was);
    }

    /** Removes the oldest node from the tree and the list. */
    method Evict(ghost was: set<DnsNode>) returns (nf: DnsNode, idx: nat)
      requires Parts() && Lists(tree.nodes) && Indexed(was, use) && was <= tree.nodes && list.links != []
      modifies Repr - {this, records}
      ensures Parts() && Lists(tree.nodes) && Indexed(was, use)
      ensures nf == old(list.links)[0].item && list.links == old(list.links)[1..]
      ensures nf.idx == idx == old(list.links[0].item.idx)
      ensures tree.nodes == old(tree.nodes) - {nf} && Repr == old(Repr)
      ensures Entries(Items(old(list.links))) == old(Entries(Items(list.links)))
    {
      hide *;
      Unpack();
      ghost var links, all := list.links, tree.nodes;
      var nl := list.First();
      nf := nl.item;
      idx := nf.idx;
      ShrinkTree(nf, was);
      assert Entries(Items(links)) == old(Entries(Items(list.links)));
      ShrinkList(nl, was, all);
    }

    /** A miss: the node goes in first, then the oldest one goes out if the cache was full. */
    method Create(name: Name, parent: DnsNode?) returns (idx: nat)
      requires Parts() && Lists(tree.nodes) && Indexed(tree.nodes, use)
      requires |list.links| == use <= max && 1 <= max <= Signed(Not32(mask))
      requires !HasName(tree.shape, name) && parent == SearchParent(tree.shape, name, null)
      modifies Repr
      ensures Held() && fresh(Repr - old(Repr)) && Contents() == Add(old(Contents()), max, name) && ops == old(ops)
      ensures idx == Contents()[|Contents()| - 1].idx
    {
      hide *;
      Unpack();
      ghost var was, n, links, c := tree.nodes, use, list.links, Contents();
      idx := use;
      var node := Enter(name, parent);
      ghost var l: Link<DnsNode> := node.link;
      Unpack();
      ghost var nf: DnsNode? := null;
      if use < max {
        use := use + 1;
      } else {
        AddedEntries(links, l, 0);
        var oldest;
        oldest, idx := Evict(was);
        nf := oldest;
        AddedEntries(links, l, 0);
        assert nf == links[0].item && list.links == links[1..] + [l];
        assert tree.nodes == was - {nf} + {node};
      }
      assert Entries(Items(links)) == c;
      Store(node, idx, was, n, nf);
      assert Entries(Items(links)) == c;
      Added(links, l, if nf == null then 0 else 1);
    }

    lemma Added(links: seq<Link<DnsNode>>, l: Link<DnsNode>, gone: nat)
      requires gone == (if |links| < max then 0 else 1) && gone <= |links|
      requires list.links == links[gone..] + [l]
      requires l.item.idx == if gone == 0 then |links| else Entries(Items(links))[0].idx
      ensures Contents() == Add(Entries(Items(links)), max, l.item.name)
      ensures Contents()[|Contents()| - 1].idx == l.item.idx
    {
      AddedEntries(links, l, gone);
    }

    lemma Hit(node: DnsNode) returns (k: nat)
      requires Held() && node in tree.nodes
      ensures k < |list.links| && list.links[k] == node.link
      ensures Contents()[k] == Entry(node.name, node.idx)
      ensures PosOf(Contents(), node.name) == k && PosOfIdx(Contents(), node.idx) == k
    {
      hide Tree.Valid, List.Valid, Indexed;
      k :| 0 <= k < |list.links| && list.links[k] == node.link;
      ContentsWellFormed();
    }

    lemma Miss(name: Name)
      requires Held() && !HasName(tree.shape, name)
      ensures LruSpec.Find(Contents(), max, name) == Add(Contents(), max, name)
      ensures var r := Add(Contents(), max, name); FoundIdx(Contents(), max, name) == r[|r| - 1].idx
    {
    }

    /** Contents depends on nothing outside Repr. */
    lemma Footprint()
      requires Valid()
      ensures this in Repr && list in Repr
      ensures forall n :: n in Items(list.links) ==> n in Repr
    {
    }

    lemma Opened()
      requires Held()
      ensures Parts() && Lists(tree.nodes) && Indexed(tree.nodes, use)
      ensures |list.links| == use <= max && 1 <= max <= Signed(Not32(mask))
      ensures list.Repr <= Repr && Repr >= {this, list, tree, records}
    {
    }

    method FindIn(name: Name) returns (idx: nat)
      requires Held()
      modifies Repr
      ensures Held() && fresh(Repr - old(Repr)) && ops == old(ops)
      ensures Contents() == LruSpec.Find(old(Contents()), max, name)
      ensures idx == FoundIdx(old(Contents()), max, name)
    {
      hide *;
      Opened();
      Unpack();
      ghost var c := Contents();
      var hit, parent := tree.Search(name);
      assert Contents() == c;
      if hit != null {
        ghost var k := Hit(hit);
        HitFinds(Contents(), max, k);
        idx := hit.idx;
        MoveToTail(hit, k);
        assert Contents() == LruSpec.Find(c, max, name);
      } else {
        Miss(name);
        idx := Create(name, parent);
        assert Contents() == LruSpec.Find(c, max, name);
      }
    }

    method LookupIn(ip: U32) returns (name: Option<Name>)
      requires Held()
      modifies Repr
      ensures Held() && Repr == old(Repr) && ops == old(ops)
      ensures var i := And(ip, Not32(mask));
              && Contents() == LruSpec.Lookup(old(Contents()), i)
              && name == NameAt(old(Contents()), i)
    {
      hide *;
      Opened();
      Unpack();
      ghost var c := Contents();
      var idx := Signed(And(ip, Not32(mask)));
      HostIndex(ip);
      if idx >= max {
        name := None;
        return;
      }
      var node := records[idx];
      if node == null {
        name := None;
        return;
      }
      ghost var k := Hit(node);
      HitFinds(c, max, k);
      name := Some(node.name);
      MoveToTail(node, k);
    }

    method Record(op: Op<Name>)
      requires Held()
      modifies this`ops
      ensures Held() && ops == old(ops) + [op] && Contents() == old(Contents())
    {
      hide Tree.Valid, List.Valid, Indexed, Lists;
      ops := ops + [op];
    }

    /** hev_mapped_dns_find. */
    method Find(name: Name) returns (idx: nat)
      requires Valid()
      modifies Repr
      ensures Valid() && fresh(Repr - old(Repr)) && ops == old(ops) + [FindOp(name)]
      ensures Contents() == LruSpec.Find(old(Contents()), max, name)
      ensures idx == FoundIdx(old(Contents()), max, name)
    {
      hide *;
      Holding();
      idx := FindIn(name);
      Record(FindOp(name));
      assert ops == old(ops) + [FindOp(name)];
      Ran(FindOp(name), old(ops), old(Contents()));
    }

    /** hev_mapped_dns_lookup: the name behind the host part of an address. */
    method Lookup(ip: U32) returns (name: Option<Name>)
      requires Valid()
      modifies Repr
      ensures Valid() && Repr == old(Repr) && ops == old(ops) + [LookupOp(And(ip, Not32(mask)))]
      ensures var i := And(ip, Not32(mask));
              && Contents() == LruSpec.Lookup(old(Contents()), i)
              && name == NameAt(old(Contents()), i)
    {
      hide *;
      Holding();
      name := LookupIn(ip);
      Record(LookupOp(And(ip, Not32(mask))));
      Ran(LookupOp(And(ip, Not32(mask))), old(ops), old(Contents()));
    }

    lemma Holding()
      requires Valid()
      ensures Held() && 1 <= max <= Signed(Not32(mask)) && this in Repr && Contents() == Run([], max, ops)
    {
    }

    lemma Ran(op: Op<Name>, was: seq<Op<Name>>, c: Cache<Name>)
      requires Held() && 1 <= max && ops == was + [op]
      requires c == Run([], max, was)
      requires Contents() == match op case FindOp(n) => LruSpec.Find(c, max, n) case LookupOp(i) => LruSpec.Lookup(c, i)
      ensures Valid()
    {
      assert ops[..|ops| - 1] == was;
    }

    /** What a run from the start leaves in the server is the exact least-recently-used cache of it. */
    lemma HoldsExactLru(n: Name)
      requires Valid()
      ensures n in Names(Contents()) <==> Remembered(Touched(max, ops), max, n)
      ensures
        var ns := Names(Contents());
        forall k :: 0 <= k < |ns| ==> |Younger(Touched(max, ops), ns[k])| == |ns| - k - 1
    {
      hide *;
      Holding();
      ExactLru(max, ops, n);
    }

    /** The masked index is a plain non-negative number, and only indices in use name anything. */
    lemma HostIndex(ip: U32)
      requires Held()
      ensures Signed(And(ip, Not32(mask))) == And(ip, Not32(mask))
      ensures records.Length == max
      ensures var i, c := And(ip, Not32(mask)), Contents();
              && (i >= max || records[i] == null ==> LruSpec.Lookup(c, i) == c && NameAt(c, i) == None)
              && (i < max && records[i] != null ==>
                    && records[i] in tree.nodes && records[i].idx == i
                    && (PosOfIdx(c, i) < |c| ==> NameAt(c, i) == Some(c[PosOfIdx(c, i)].name)))
    {
      ContentsWellFormed();
    }
  }

  function NameAt(c: Cache<Name>, idx: nat): Option<Name> {
    var k := PosOfIdx(c, idx);
    if k < |c| then Some(c[k].name) else None
  }
}
