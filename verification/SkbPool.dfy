/**
 The pool of packet buffers of src/util.c: alloc_skb takes the first buffer of a linked free list or
 makes a new one, free_skb puts a buffer at the front unless it is there already.
 */
module SkbPool {

  class Skb {
    var next: Skb?
    var used: bool

    constructor ()
      ensures next == null
    {
      next, used := null, true;
    }
  }

  /** The link in front of position i of a list. */
  ghost function Link(list: seq<Skb>, i: nat): Skb?
  {
    if i < |list| then list[i] else null
  }

  lemma LinkOfCons(skb: Skb, rest: seq<Skb>)
    ensures Link([skb] + rest, 0) == skb
    ensures forall i: nat :: Link([skb] + rest, i + 1) == Link(rest, i)
  {
  }

  lemma FirstLink(list: seq<Skb>)
    ensures Link(list, 0) == null <==> list == []
    ensures list != [] ==> Link(list, 0) == list[0]
  {
  }

  class Pool {
    var first: Skb?
    /** The free list, front to back, and every buffer made so far. */
    ghost var free: seq<Skb>
    ghost var made: set<Skb>

    /** The nodes of the list are exactly the unused buffers, each once, linked in order. */
    ghost predicate Valid()
      reads this, made
    {
      && (forall i :: 0 <= i < |free| ==> free[i] in made)
      && (forall i, j :: 0 <= i < j < |free| ==> free[i] != free[j])
      && (forall s :: s in made ==> (s.used <==> s !in free))
      && first == Link(free, 0)
      && (forall i :: 0 <= i < |free| ==> free[i].next == Link(free, i + 1))
    }

    /** The buffers handed out and not yet given back. */
    ghost function InUse(): set<Skb>
      reads this
    {
      made - set s | s in free
    }

    constructor ()
      ensures Valid() && free == [] && made == {}
    {
      first := null;
      free, made := [], {};
    }

    /** alloc_skb: the buffer handed out was not in use. */
    method Alloc() returns (skb: Skb)
      requires Valid()
      modifies this, made
      ensures Valid() && skb.used && skb.next == null
      ensures skb !in old(InUse()) && InUse() == old(InUse()) + {skb}
      ensures old(free) == [] ==> fresh(skb) && free == [] && made == old(made) + {skb}
      ensures old(free) != [] ==> skb == old(free)[0] && free == old(free)[1..] && made == old(made)
    {
      hide Link;
      FirstLink(free);
      if first == null {
        skb := new Skb();
        made := made + {skb};
      } else {
        skb := first;
        first := first.next;
        ghost var rest := free[1..];
        assert free == [skb] + rest;
        LinkOfCons(skb, rest);
        assert forall i :: 0 <= i < |rest| ==> rest[i] == free[i + 1];
        free := rest;
      }
      skb.next := null;
      skb.used := true;
    }

    /** free_skb: a buffer in use goes to the front of the list; one that is free already stays put. */
    method Free(skb: Skb)
      requires Valid() && skb in made
      modifies this`first, this`free, skb
      ensures Valid() && made == old(made)
      ensures InUse() == old(InUse()) - {skb}
      ensures skb in old(InUse()) ==> free == [skb] + old(free)
      ensures skb !in old(InUse()) ==> free == old(free) && first == old(first) && skb.next == old(skb.next)
    {
      hide Link;
      if !skb.used {
        return;
      }
      ghost var rest := free;
      FirstLink(rest);
      LinkOfCons(skb, rest);
      if first == null {
        first := skb;
        first.next := null;
      } else {
        skb.next := first;
        first := skb;
      }
      first.used := false;
      free := [skb] + rest;
      forall i | 0 <= i < |free| ensures free[i] in made && free[i].next == Link(free, i + 1) {
        if i > 0 {
          assert free[i] == rest[i - 1];
        }
      }
    }
  }
}
