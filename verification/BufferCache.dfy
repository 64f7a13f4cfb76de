/** The buffer list of kernel/bio.c: a circular doubly linked list, relinked in place, whose order
    is the order of last use, so that bget() recycles the least recently used free buffer. */
module BufferCache {
  import opened Common

  const HEAD := NBUF  // the list head, bcache.head

  datatype Link = Link(next: nat, prev: nat)

  datatype Buf = Buf(dev: nat, blockno: nat, valid: bool, refcnt: nat)

  /** What bget() does: find the block, take over an unused buffer, or panic. */
  datatype BgetResult = Hit(i: nat) | Recycled(i: nat) | PanicNoBuffers

  function Without(s: seq<nat>, k: nat): (r: seq<nat>)
    requires k < |s|
    ensures |r| == |s| - 1 && forall m {:trigger r[m]} | 0 <= m < |r| :: r[m] == if m < k then s[m] else s[m + 1]
  {
    s[..k] + s[k + 1..]
  }

  ghost predicate Distinct(s: seq<nat>) {
    && (forall k | 0 <= k < |s| :: s[k] < NBUF)
    && (forall i, j | 0 <= i < j < |s| :: s[i] != s[j])
  }

  /** The buffer after position `k` of `order`, or the head after the last one. */
  function After(order: seq<nat>, k: nat): nat {
    if k + 1 < |order| then order[k + 1] else HEAD
  }

  function Before(order: seq<nat>, k: nat): nat {
    if 0 < k <= |order| then order[k - 1] else HEAD
  }

  /** The links spell out `order`, from the head round to the head again, in both directions. */
  ghost predicate Linked(links: seq<Link>, order: seq<nat>) {
    && |links| == NBUF + 1
    && Distinct(order)
    && links[HEAD].next == (if |order| > 0 then order[0] else HEAD)
    && links[HEAD].prev == Before(order, |order|)
    && (forall k {:trigger links[order[k]]} | 0 <= k < |order| ::
        links[order[k]] == Link(After(order, k), Before(order, k)))
  }

  function Unlinked(links: seq<Link>, b: nat): (r: seq<Link>)
    requires b < |links| && links[b].next < |links| && links[b].prev < |links|
    ensures |r| == |links|
  {
    var l := links[links[b].next := links[links[b].next].(prev := links[b].prev)];
    l[links[b].prev := l[links[b].prev].(next := links[b].next)]
  }

  function PushedFront(links: seq<Link>, b: nat): seq<Link>
    requires |links| == NBUF + 1 && b < NBUF && links[HEAD].next <= NBUF
  {
    var first := links[HEAD].next;
    var l := links[b := Link(first, HEAD)];
    var m := l[first := l[first].(prev := b)];
    m[HEAD := m[HEAD].(next := b)]
  }

  lemma UnlinkAt(links: seq<Link>, order: seq<nat>, k: nat, m: nat)
    requires Linked(links, order) && k < |order| && m < |order| && m != k
    ensures order[m] < NBUF && order[k] < NBUF
    ensures After(order, k) <= NBUF && Before(order, k) <= NBUF &&
            links[order[k]] == Link(After(order, k), Before(order, k))
    ensures Unlinked(links, order[k])[order[m]]
         == Link(if m + 1 == k then After(order, k) else After(order, m),
                 if m == k + 1 then Before(order, k) else Before(order, m))
  {
    assert links[order[m]] == Link(After(order, m), Before(order, m));
    assert links[order[k]] == Link(After(order, k), Before(order, k));
  }

  lemma UnlinkHead(links: seq<Link>, order: seq<nat>, k: nat)
    requires Linked(links, order) && k < |order|
    ensures order[k] < NBUF && links[order[k]] == Link(After(order, k), Before(order, k))
    ensures After(order, k) <= NBUF && Before(order, k) <= NBUF
    ensures var r, l := Without(order, k), Unlinked(links, order[k]);
            l[HEAD] == Link(if |r| > 0 then r[0] else HEAD, Before(r, |r|))
  {
  }

  lemma WithoutDistinct(order: seq<nat>, k: nat)
    requires Distinct(order) && k < |order|
    ensures Distinct(Without(order, k)) && order[k] !in Without(order, k)
  {
  }

  lemma UnlinkKeeps(links: seq<Link>, order: seq<nat>, k: nat)
    requires Linked(links, order) && k < |order|
    ensures var b := order[k];
            && links[b].next <= NBUF && links[b].prev <= NBUF && b !in Without(order, k)
            && Linked(Unlinked(links, b), Without(order, k))
  {
    hide Unlinked, Distinct;
    UnlinkHead(links, order, k);
    WithoutDistinct(order, k);
    var r, l := Without(order, k), Unlinked(links, order[k]);
    forall m | 0 <= m < |r|
      ensures r[m] < |l| && l[r[m]] == Link(After(r, m), Before(r, m))
    {
      UnlinkAt(links, order, k, if m < k then m else m + 1);
    }
  }

  lemma PushFrontKeeps(links: seq<Link>, order: seq<nat>, b: nat)
    requires Linked(links, order) && b < NBUF && b !in order
    ensures links[HEAD].next <= NBUF
    ensures Linked(PushedFront(links, b), [b] + order)
  {
    var r, l := [b] + order, PushedFront(links, b);
    assert Distinct(r) by { assert forall m | 0 < m < |r| :: r[m] == order[m - 1]; }
    forall m | 0 <= m < |r|
      ensures l[r[m]] == Link(After(r, m), Before(r, m))
    {
      if m > 0 {
        assert links[order[m - 1]] == Link(After(order, m - 1), Before(order, m - 1));
      }
    }
  }

  /** The list runs from the buffer given up last to the one given up longest ago. */
  ghost predicate ByRecency(order: seq<nat>, lastUse: seq<nat>, clock: nat) {
    && |order| == |lastUse| == NBUF
    && Distinct(order)
    && (forall i | 0 <= i < NBUF :: i in order)
    && (forall i | 0 <= i < NBUF :: lastUse[i] < clock)
    && (forall i, j | 0 <= i < j < NBUF :: lastUse[order[i]] > lastUse[order[j]])
  }

  lemma TouchKeepsRecency(order: seq<nat>, lastUse: seq<nat>, clock: nat, k: nat)
    requires ByRecency(order, lastUse, clock) && k < NBUF
    ensures ByRecency([order[k]] + Without(order, k), lastUse[order[k] := clock], clock + 1)
  {
    var r := [order[k]] + Without(order, k);
    forall i | 0 <= i < NBUF
      ensures i in r
    {
      assert i in order;
      var m :| 0 <= m < NBUF && order[m] == i;
      assert r[if m < k then m + 1 else if m == k then 0 else m] == i;
    }
  }

  /** At most one buffer per block; device 0 marks a buffer never assigned. */
  ghost predicate UniqueBlocks(bufs: seq<Buf>) {
    forall i, j | 0 <= i < j < |bufs| ::
        bufs[i].dev == bufs[j].dev && bufs[i].blockno == bufs[j].blockno ==> bufs[i].dev == 0
  }

  lemma SameBlocksUnique(bufs: seq<Buf>, i: nat, n: nat)
    requires UniqueBlocks(bufs) && i < |bufs|
    ensures UniqueBlocks(bufs[i := bufs[i].(refcnt := n)])
  {
  }

  class BCache {
    const links: array<Link>
    const bufs: array<Buf>
    ghost var order: seq<nat>       // the buffers, most recently used first
    ghost var lastUse: seq<nat>     // when each buffer was last given up by its last user
    ghost var clock: nat

    ghost predicate Valid()
      reads this, links, bufs
    {
      && links.Length == NBUF + 1 && bufs.Length == NBUF
      && Linked(links[..], order)
      && ByRecency(order, lastUse, clock)
      && UniqueBlocks(bufs[..])
    }

    /** binit(): link every buffer in at the front. */
    constructor ()
      ensures Valid() && fresh(links) && fresh(bufs)
      ensures forall i | 0 <= i < NBUF :: bufs[i] == Buf(0, 0, false, 0)
    {
      links := new Link[NBUF + 1](i => Link(HEAD, HEAD));
      bufs := new Buf[NBUF](i => Buf(0, 0, false, 0));
      order := [];
      lastUse := seq(NBUF, i => i);
      clock := NBUF;
      new;
      var b := 0;
      while b < NBUF
        invariant 0 <= b <= NBUF
        invariant |order| == b && (forall k | 0 <= k < b :: order[k] == b - 1 - k)
        invariant Linked(links[..], order)
        invariant lastUse == seq(NBUF, i => i) && clock == NBUF
        invariant forall i | 0 <= i < NBUF :: bufs[i] == Buf(0, 0, false, 0)
      {
        PushFrontKeeps(links[..], order, b);
        PushFront(b);
        order := [b] + order;
        b := b + 1;
      }
      InitialRecency(order);
    }

    static lemma InitialRecency(order: seq<nat>)
      requires |order| == NBUF && forall k | 0 <= k < NBUF :: order[k] == NBUF - 1 - k
      ensures ByRecency(order, seq(NBUF, i => i), NBUF)
    {
      forall i | 0 <= i < NBUF
        ensures i in order
      {
        assert order[NBUF - 1 - i] == i;
      }
    }

    method PushFront(b: nat)
      requires links.Length == NBUF + 1 && b < NBUF && links[HEAD].next <= NBUF
      modifies links
      ensures links[..] == PushedFront(old(links[..]), b)
    {
      links[b] := Link(links[HEAD].next, HEAD);
      links[links[HEAD].next] := links[links[HEAD].next].(prev := b);
      links[HEAD] := links[HEAD].(next := b);
    }

    method Unlink(b: nat)
      requires b < links.Length && links[b].next < links.Length && links[b].prev < links.Length
      requires links[b].next != b
      modifies links
      ensures links[..] == Unlinked(old(links[..]), b)
    {
      links[links[b].next] := links[links[b].next].(prev := links[b].prev);
      links[links[b].prev] := links[links[b].prev].(next := links[b].next);
    }

    /** Looks for block `b` of device `d`; failing that, takes over the buffer that has been unused longest. */
    method Bget(d: nat, b: nat) returns (r: BgetResult)
      requires Valid() && d != 0
      modifies bufs
      ensures Valid()
      ensures r.Hit? <==> exists i | 0 <= i < NBUF :: old(bufs[i].dev) == d && old(bufs[i].blockno) == b
      ensures match r
              case Hit(i) =>
                i < NBUF && bufs[..] == old(bufs[..])[i := Buf(d, b, old(bufs[i].valid), old(bufs[i].refcnt) + 1)]
              case Recycled(i) =>
                && i < NBUF && old(bufs[i].refcnt) == 0 && bufs[..] == old(bufs[..])[i := Buf(d, b, false, 1)]
                && forall j | 0 <= j < NBUF && old(bufs[j].refcnt) == 0 :: lastUse[i] <= lastUse[j]
              case PanicNoBuffers =>
                bufs[..] == old(bufs[..]) && forall j | 0 <= j < NBUF :: bufs[j].refcnt > 0
    {
      var i := FindBlock(d, b);
      if i != HEAD {
        bufs[i] := bufs[i].(refcnt := bufs[i].refcnt + 1);
        return Hit(i);
      }
      i := FindUnused();
      if i != HEAD {
        bufs[i] := Buf(d, b, false, 1);
        return Recycled(i);
      }
      return PanicNoBuffers;
    }

    /** The forward scan, from the most recently used buffer on. */
    method FindBlock(d: nat, b: nat) returns (i: nat)
      requires Valid() && d != 0
      ensures i <= NBUF
      ensures i < NBUF ==> bufs[i].dev == d && bufs[i].blockno == b
      ensures i == HEAD ==> forall j | 0 <= j < NBUF :: !(bufs[j].dev == d && bufs[j].blockno == b)
    {
      ghost var k := 0;
      i := links[HEAD].next;
      while i != HEAD
        invariant 0 <= k <= NBUF && i == if k < NBUF then order[k] else HEAD
        invariant forall j | 0 <= j < k :: !(bufs[order[j]].dev == d && bufs[order[j]].blockno == b)
        decreases NBUF - k
      {
        if bufs[i].dev == d && bufs[i].blockno == b {
          return;
        }
        assert links[..][order[k]] == Link(After(order, k), Before(order, k));
        i := links[i].next;
        k := k + 1;
      }
      forall j | 0 <= j < NBUF
        ensures !(bufs[j].dev == d && bufs[j].blockno == b)
      {
        assert j in order;
      }
    }

    /** The backward scan, from the least recently used buffer on. */
    method FindUnused() returns (i: nat)
      requires Valid()
      ensures i <= NBUF
      ensures i < NBUF ==>
              bufs[i].refcnt == 0 &&
              forall j | 0 <= j < NBUF && bufs[j].refcnt == 0 :: lastUse[i] <= lastUse[j]
      ensures i == HEAD ==> forall j | 0 <= j < NBUF :: bufs[j].refcnt > 0
    {
      ghost var k := NBUF;
      i := links[HEAD].prev;
      while i != HEAD
        invariant 0 <= k <= NBUF && i == Before(order, k)
        invariant forall j | k <= j < NBUF :: bufs[order[j]].refcnt > 0
        decreases k
      {
        if bufs[i].refcnt == 0 {
          forall j | 0 <= j < NBUF && bufs[j].refcnt == 0
            ensures lastUse[i] <= lastUse[j]
          {
            assert j in order;
            var m :| 0 <= m < NBUF && order[m] == j;
          }
          return;
        }
        assert links[..][order[k - 1]] == Link(After(order, k - 1), Before(order, k - 1));
        i := links[i].prev;
        k := k - 1;
      }
      forall j | 0 <= j < NBUF
        ensures bufs[j].refcnt > 0
      {
        assert j in order;
      }
    }

    /** Makes buffer `b` the most recently used one. */
    method MoveToFront(b: nat)
      requires Valid() && b < NBUF
      modifies this`order, this`lastUse, this`clock, links
      ensures Valid()
      ensures order[0] == b && lastUse == old(lastUse)[b := old(clock)]
    {
      hide Distinct, UniqueBlocks;
      assert b in order;
      ghost var k :| 0 <= k < NBUF && order[k] == b;
      UnlinkKeeps(links[..], order, k);
      Unlink(b);
      PushFrontKeeps(links[..], Without(order, k), b);
      PushFront(b);
      TouchKeepsRecency(order, lastUse, clock, k);
      order, lastUse, clock := [b] + Without(order, k), lastUse[b := clock], clock + 1;
    }

    /** Drops a reference; when it was the last, the buffer becomes the most recently used one. */
    method Brelse(b: nat)
      requires Valid() && b < NBUF && bufs[b].refcnt > 0
      modifies this`order, this`lastUse, this`clock, links, bufs
      ensures Valid()
      ensures bufs[..] == old(bufs[..])[b := old(bufs[b]).(refcnt := old(bufs[b].refcnt) - 1)]
      ensures if bufs[b].refcnt > 0 then order == old(order) && lastUse == old(lastUse)
              else order[0] == b && lastUse == old(lastUse)[b := old(clock)]
    {
      hide Linked, ByRecency;
      SameBlocksUnique(bufs[..], b, bufs[b].refcnt - 1);
      bufs[b] := bufs[b].(refcnt := bufs[b].refcnt - 1);
      assert bufs[..] == old(bufs[..])[b := old(bufs[b]).(refcnt := old(bufs[b].refcnt) - 1)];
      if bufs[b].refcnt == 0 {
        MoveToFront(b);
      }
    }
  }
}
