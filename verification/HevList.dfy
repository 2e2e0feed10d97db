/**
 * The intrusive doubly linked list of hev-list.c, the backbone of the DNS cache's recency order
 * and of the UDP session's datagram pool.
 */
module HevList {

  /** A link; `item` is the structure the C code recovers with container_of. */
  class Link<T> {
    var next: Link?<T>
    var prev: Link?<T>
    const item: T

    constructor (item: T)
      ensures this.item == item && next == null && prev == null
    {
      this.item := item;
      next, prev := null, null;
    }
  }

  ghost predicate Distinct<T>(s: seq<T>) {
    forall i, j :: 0 <= i < j < |s| ==> s[i] != s[j]
  }

  function DropAt<T>(s: seq<T>, k: nat): (r: seq<T>)
    requires k < |s|
    ensures |r| == |s| - 1
  {
    s[..k] + s[k + 1..]
  }

  /** Where the i-th of n elements stood before the k-th was moved to the end. */
  function Before(n: nat, k: nat, i: nat): nat {
    if i < k then i else if i + 1 == n then k else i + 1
  }

  lemma RequeueMembers<T>(s: seq<T>, k: nat)
    requires k < |s|
    ensures forall x :: x in s <==> x in DropAt(s, k) + [s[k]]
    ensures forall i :: 0 <= i < |s| ==> (DropAt(s, k) + [s[k]])[i] == s[Before(|s|, k, i)]
  {
    var r := DropAt(s, k) + [s[k]];
    forall x | x in s ensures x in r {
      var i :| 0 <= i < |s| && s[i] == x;
      assert r[if i < k then i else if i == k then |s| - 1 else i - 1] == x;
    }
  }

  class List<T> {
    var head: Link?<T>
    var tail: Link?<T>
    ghost var links: seq<Link<T>>
    /** The list, its links, and links it once held. */
    ghost var Repr: set<object>

    /** Following next from head, or prev from tail, visits exactly `links`. */
    ghost predicate Valid()
      reads this, Repr
      ensures Valid() ==> this in Repr
    {
      && this in Repr
      && (forall i :: 0 <= i < |links| ==> links[i] in Repr)
      && Distinct(links)
      && head == (if links == [] then null else links[0])
      && tail == (if links == [] then null else links[|links| - 1])
      && (forall i {:trigger links[i].next} :: 0 <= i < |links| ==>
            links[i].next == if i + 1 < |links| then links[i + 1] else null)
      && (forall i {:trigger links[i].prev} :: 0 <= i < |links| ==>
            links[i].prev == if 0 < i then links[i - 1] else null)
    }

    constructor ()
      ensures Valid() && links == [] && fresh(Repr)
    {
      head, tail := null, null;
      links := [];
      Repr := {this};
    }

    method First() returns (n: Link?<T>)
      requires Valid()
      ensures n == if links == [] then null else links[0]
    {
      n := head;
    }

    method AddTail(n: Link<T>)
      requires Valid() && n !in links && this as object != n
      modifies Repr, n
      ensures Valid() && links == old(links) + [n] && Repr == old(Repr) + {n}
    {
      n.prev := tail;
      n.next := null;
      if tail != null {
        tail.next := n;
      } else {
        head := n;
      }
      tail := n;
      links := links + [n];
      Repr := Repr + {n};
    }

    method Del(n: Link<T>, ghost k: nat)
      requires Valid() && k < |links| && links[k] == n
      modifies Repr
      ensures Valid() && links == DropAt(old(links), k) && Repr == old(Repr)
    {
      ghost var was := links;
      assert n.prev == (if 0 < k then was[k - 1] else null);
      assert n.next == (if k + 1 < |was| then was[k + 1] else null);
      if n.prev != null {
        n.prev.next := n.next;
      } else {
        head := n.next;
      }
      if n.next != null {
        n.next.prev := n.prev;
      } else {
        tail := n.prev;
      }
      links := DropAt(links, k);
      forall i | 0 <= i < |links|
        ensures links[i].next == if i + 1 < |links| then links[i + 1] else null
        ensures links[i].prev == if 0 < i then links[i - 1] else null
      {
        assert links[i] == was[if i < k then i else i + 1];
      }
    }

    /** Del followed by AddTail, as every cache hit does. */
    method Requeue(n: Link<T>, ghost k: nat)
      requires Valid() && k < |links| && links[k] == n
      modifies Repr
      ensures Valid() && links == DropAt(old(links), k) + [n] && Repr == old(Repr)
      ensures forall l :: l in links <==> l in old(links)
      ensures forall i {:trigger links[i]} :: 0 <= i < |links| ==> links[i] == old(links[Before(|links|, k, i)])
    {
      RequeueMembers(links, k);
      assert n !in DropAt(links, k);
      Del(n, k);
      AddTail(n);
    }
  }
}
