/** The allocator of user/umalloc.c: malloc(), free() and morecore() over headers in memory.
    Addresses and sizes are in header units of 16 bytes. */
module Umalloc {
  import opened Common
  import opened Arena

  /** The units malloc() needs for a request: the bytes rounded up, and a header. */
  function Units(nbytes: nat): nat { (nbytes + 15) / 16 + 1 }

  /** A block of Units(nbytes) has room for the bytes after its header, and none to spare. */
  lemma UnitsEnough(nbytes: nat)
    ensures nbytes <= (Units(nbytes) - 1) * 16 < nbytes + 16
  {
  }

  /** The number of units morecore() asks for. */
  function Asked(nunits: nat): nat { if nunits < 4096 then 4096 else nunits }

  /** nu * sizeof(Header), as the 32-bit signed argument of sbrk(). */
  function SbrkArg(nu: nat): int {
    var low := nu * 16 % 0x1_0000_0000;
    if low < 0x8000_0000 then low else low - 0x1_0000_0000
  }

  /** For a 32-bit request, sbrk() is asked for all the units morecore() goes on to use exactly when
      the request is for at most 2^31 - 32 bytes. */
  lemma RequestFits(nbytes: nat)
    requires nbytes < 0x1_0000_0000
    ensures SbrkArg(Asked(Units(nbytes))) == Asked(Units(nbytes)) * 16 <==> nbytes <= 0x7fff_ffe0
  {
    var nu := Asked(Units(nbytes));
    if nu >= 0x1000_0000 {
      assert nu * 16 % 0x1_0000_0000 == nu * 16 - 0x1_0000_0000;
    } else {
      assert nu * 16 % 0x1_0000_0000 == nu * 16;
    }
  }

  /** One byte more, and sbrk() is asked to shrink the heap. */
  lemma RequestTooLarge()
    ensures SbrkArg(Asked(Units(0x7fff_ffe1))) == -0x8000_0000
  {
  }

  /** The units a process has of what it got from sbrk(), after a call that returned `at`: sbrk() grows the
      process by its argument, or shrinks it, unless that would take it below 0, when it stays as it is. */
  function AfterSbrk(obtained: set<nat>, at: nat, arg: int): set<nat> {
    if arg >= 0 then obtained + Span(at, arg / 16)
    else if at * 16 + arg < 0 then obtained
    else set u | u in obtained && u < at + arg / 16
  }

  /** morecore() gets the units it goes on to use exactly when the request is for at most 2^31 - 32 bytes. */
  lemma GrantCovers(nbytes: nat, obtained: set<nat>, at: nat)
    requires nbytes < 0x1_0000_0000 && forall u | u in obtained :: u < at
    ensures var nu := Asked(Units(nbytes));
            && nu > 0 && AfterSbrk(obtained, at, SbrkArg(nu)) <= obtained + Span(at, nu)
            && (obtained + Span(at, nu) <= AfterSbrk(obtained, at, SbrkArg(nu)) <==> nbytes <= 0x7fff_ffe0)
  {
    var nu := Asked(Units(nbytes));
    RequestFits(nbytes);
    ArgSmall(nu);
    hide Units, Asked, SbrkArg;
    var arg := SbrkArg(nu);
    if arg != nu * 16 {
      var lost := at + if arg >= 0 then arg / 16 else 0;
      assert lost in Span(at, nu) && lost !in AfterSbrk(obtained, at, arg);
    }
  }

  lemma ArgSmall(nu: nat)
    requires nu > 0
    ensures SbrkArg(nu) == nu * 16 || SbrkArg(nu) / 16 < nu
  {
  }

  /** An arena as it is when only the units in `obtained` are really there. */
  ghost function Real(s: Arena, obtained: set<nat>): Arena {
    Arena(s.ptr, s.size, s.ring, s.live, map u | u in s.owner && u in obtained :: s.owner[u])
  }

  /** It is a proper arena exactly when all units that its blocks take up are there. */
  lemma RealValid(s: Arena, obtained: set<nat>)
    requires Valid(s)
    ensures Valid(Real(s, obtained)) <==> forall u | u in s.owner :: u in obtained
  {
    var t := Real(s, obtained);
    RealFrame(s, obtained);
    hide Linked, Spaced, Lives, SizeOf, Blocks;
    if Valid(t) {
      forall u | u in s.owner
        ensures u in obtained
      {
        assert Owns(t, s.owner[u]) && s.owner[u] <= u < s.owner[u] + SizeOf(t, s.owner[u]);
        assert u in t.owner;
      }
    }
    if forall u | u in s.owner :: u in obtained {
      assert forall h | h in Blocks(s) :: Owns(s, h) ==> Owns(t, h);
    }
  }

  lemma RealFrame(s: Arena, obtained: set<nat>)
    requires Valid(s)
    ensures var t := Real(s, obtained);
            Linked(t, -1) && Spaced(t) && Lives(t) && Blocks(t) == Blocks(s) && forall h :: SizeOf(t, h) == SizeOf(s, h)
  {
    hide Partitioned;
    var t := Real(s, obtained);
    assert forall h :: SizeOf(t, h) == SizeOf(s, h);
    forall i | 0 <= i < |t.ring|
      ensures t.ring[i] in t.ptr && PtrOf(t, t.ring[i]) == Succ(t.ring, i)
    {
      assert PtrOf(s, s.ring[i]) == Succ(s.ring, i);
    }
    forall i, j | 0 <= i < j < |t.ring|
      ensures Before(t, i, j)
    {
      assert Before(s, i, j);
    }
  }

  /** What is left after malloc() is there exactly when sbrk() was not asked, or asked for enough. */
  lemma Verdict(nbytes: nat, owner: map<nat, nat>, had: set<nat>, t: Arena, obtained: set<nat>, grant: Option<nat>,
                asked: bool)
    requires Valid(t) && nbytes < 0x1_0000_0000 && (forall u :: u in owner <==> u in had)
    requires asked ==> grant.Some? && forall u | u in owner :: u < grant.value
    requires forall u :: u in t.owner <==> u in owner || (asked && u in Span(grant.value, Asked(Units(nbytes))))
    requires obtained == if asked then AfterSbrk(had, grant.value, SbrkArg(Asked(Units(nbytes)))) else had
    ensures Valid(Real(t, obtained)) <==> !asked || nbytes <= 0x7fff_ffe0
    ensures (forall u :: u in t.owner <==> u in obtained) <==> !asked || nbytes <= 0x7fff_ffe0
  {
    hide Valid, Units, Asked, SbrkArg, AfterSbrk, Real;
    RealValid(t, obtained);
    if asked {
      GrantCovers(nbytes, had, grant.value);
      var all := had + Span(grant.value, Asked(Units(nbytes)));
      assert forall u :: u in t.owner <==> u in all;
      assert (forall u | u in t.owner :: u in obtained) <==> all <= obtained;
    }
  }

  lemma RoomHere(s: Arena, i: nat, n: nat)
    requires i < |s.ring| && SizeOf(s, s.ring[i]) >= n
    ensures HasRoom(s, n)
  {
  }

  /** Block sizes fit in the 32-bit size field. */
  lemma SizeFits(s: Arena, h: nat)
    requires Valid(s) && h in Blocks(s) && forall u | u in s.owner :: u < 0x1_0000_0000
    ensures SizeOf(s, h) < 0x1_0000_0000
  {
    hide Linked;
    assert Owns(s, h);
    if h !in s.live {
      var i :| 0 < i < |s.ring| && s.ring[i] == h;
      RingOrder(s, 0, i);
    }
    assert h + SizeOf(s, h) - 1 in s.owner;
  }

  /** The list position after `i`. */
  function After(i: nat, n: nat): nat { if i + 1 < n then i + 1 else 0 }

  lemma AfterIs(s: Arena, i: nat)
    requires Valid(s) && i < |s.ring|
    ensures After(i, |s.ring|) < |s.ring| && s.ring[i] in s.ptr && s.ptr[s.ring[i]] == s.ring[After(i, |s.ring|)]
  {
    assert PtrOf(s, s.ring[i]) == Succ(s.ring, i);
  }

  lemma InRing(s: Arena, i: nat)
    requires Valid(s) && i < |s.ring|
    ensures s.ring[i] in s.size && s.ring[i] >= BASE && (s.size[s.ring[i]] > 0 ==> i > 0)
    ensures forall j | 0 <= j < |s.ring| && j != i :: s.ring[j] != s.ring[i]
  {
    RingDistinct(s, i);
    if i > 0 {
      RingOrder(s, 0, i);
      assert SizeOf(s, s.ring[i]) > 0;
    }
  }

  ghost predicate HasRoom(s: Arena, n: nat) {
    exists i :: 0 <= i < |s.ring| && SizeOf(s, s.ring[i]) >= n
  }

  class Heap {
    var ptr: map<nat, nat>
    var size: map<nat, nat>
    var freep: nat            // 0 before the first malloc()
    ghost var ring: seq<nat>
    ghost var live: set<nat>
    ghost var owner: map<nat, nat>
    ghost var at: nat         // the list position of freep
    ghost var obtained: set<nat>   // the units that sbrk() has really provided

    ghost function State(): Arena
      reads this
    {
      Arena(ptr, size, ring, live, owner)
    }

    /** The headers describe an arena; whether all of it is there is another matter. */
    ghost predicate Ready()
      reads this
    {
      && Valid(State()) && at < |ring| && freep == ring[at]
      && forall u | u in owner :: u < 0x1_0000_0000
    }

    /** The blocks take up exactly the units obtained from sbrk(). */
    ghost predicate Backed()
      reads this
    {
      forall u :: u in owner <==> u in obtained
    }

    /** What malloc() and free() rely on and promise to keep. */
    ghost predicate Consistent()
      reads this
    {
      Backed() && if freep == 0 then live == {} && owner == map[] else Ready()
    }

    constructor ()
      ensures Consistent() && live == {} && owner == map[]
    {
      ptr, size, freep := map[], map[], 0;
      ring, live, owner, at := [], {}, map[], 0;
      obtained := {};
    }

    /** Gives the block at `ap` back. */
    method Free(ap: nat)
      requires Ready() && ap > 0 && ap - 1 in live
      modifies this
      ensures Ready() && live == old(live) - {ap - 1} && freep != 0
      ensures obtained == old(obtained) && forall u :: u in owner <==> u in old(owner)
      ensures forall h | h in live :: SizeOf(State(), h) == SizeOf(old(State()), h)
      ensures HasRoom(State(), SizeOf(old(State()), ap - 1))
    {
      hide Valid, Place;
      ghost var s := State();
      var bp := ap - 1;
      LiveFacts(s, bp);
      ghost var k, j: nat := Place(ring, bp), at;
      var p := freep;
      StopsAt(s, bp, j);
      while !(bp > p && bp < ptr[p])
        invariant State() == s && freep == old(freep) && at == old(at) && obtained == old(obtained)
        invariant j < |ring| && p == ring[j] && p in ptr
        decreases Dist(j, k, |ring|)
      {
        StopsAt(s, bp, j);
        if p >= ptr[p] && (bp > p || bp < ptr[p]) {
          break;
        }
        AfterIs(s, j);
        p := ptr[p];
        j := After(j, |ring|);
        StopsAt(s, bp, j);
      }
      StopsAt(s, bp, j);
      Splice(p, bp, k);
    }

    /** What free() does once it has found `p`, the free block below `bp`. */
    method Splice(p: nat, bp: nat, ghost k: nat)
      requires Ready() && bp in live && ring[0] < bp && k == Place(ring, bp) && p == ring[k]
      modifies this
      ensures Ready() && live == old(live) - {bp} && freep != 0
      ensures obtained == old(obtained) && forall u :: u in owner <==> u in old(owner)
      ensures forall h | h in live :: SizeOf(State(), h) == SizeOf(old(State()), h)
      ensures HasRoom(State(), SizeOf(old(State()), bp))
    {
      hide Place, Valid, JoinUpper, LinkIn, SizeOf;
      ghost var s := State();
      FreeKeeps(s, bp);
      JoinUpperKeeps(s, bp);
      JoinAbove(p, bp, k);
      ghost var m := JoinUpper(s, k, bp);
      PendingFacts(s, k, bp);
      JoinBelow(p, bp, k, m);
      freep := p;
      ghost var t := LinkIn(m, k, bp);
      ring, live, owner, at := t.ring, t.live, t.owner, k;
      assert State() == Freed(s, k, bp);
    }

    /** The first half of Splice: `bp` takes in the block above if they touch. */
    method JoinAbove(p: nat, bp: nat, ghost k: nat)
      requires Valid(State()) && bp in live && ring[0] < bp && k == Place(ring, bp) && p == ring[k]
      modifies `ptr, `size
      ensures ptr == JoinUpper(old(State()), k, bp).ptr && size == JoinUpper(old(State()), k, bp).size
    {
      hide Place, Valid;
      ghost var s := State();
      SpliceFacts(s, k, bp);
      var q := ptr[p];
      if bp + size[bp] == q {
        AfterIs(s, k + 1);
        size := size[bp := size[bp] + size[q]];
        ptr := ptr[bp := ptr[q]];
      } else {
        AfterIs(s, k);
        ptr := ptr[bp := q];
      }
    }

    /** The second half: `bp` becomes part of `p` if they touch, or is linked in after it. */
    method JoinBelow(p: nat, bp: nat, ghost k: nat, ghost m: Arena)
      requires ptr == m.ptr && size == m.size && k < |m.ring| && p == m.ring[k] && p in size && bp in size && bp in ptr
      modifies `ptr, `size
      ensures ptr == LinkIn(m, k, bp).ptr && size == LinkIn(m, k, bp).size
    {
      if p + size[p] == bp {
        size := size[p := size[p] + size[bp]];
        ptr := ptr[p := ptr[bp]];
      } else {
        ptr := ptr[p := bp];
      }
    }

    /** Asks sbrk() for room for `nunits` units; `grant` is the address it returns, if any. The units asked for
        are put on the free list, whether or not they are all there. */
    method Morecore(nunits: nat, grant: Option<nat>) returns (p: nat)
      requires Ready()
      requires grant.Some? ==>
               grant.value > BASE && grant.value + Asked(nunits) <= 0x1_0000_0000 &&
               forall u | u in owner :: u < grant.value
      modifies this
      ensures Ready() && live == old(live) && (p == 0 <==> grant.None?)
      ensures p == 0 ==> State() == old(State()) && freep == old(freep) && obtained == old(obtained)
      ensures p != 0 ==> p == freep && HasRoom(State(), nunits)
      ensures p != 0 ==> forall u :: u in owner <==> u in old(owner) || u in Span(grant.value, Asked(nunits))
      ensures p != 0 ==> obtained == AfterSbrk(old(obtained), grant.value, SbrkArg(Asked(nunits)))
      ensures forall h | h in live :: SizeOf(State(), h) == SizeOf(old(State()), h)
    {
      hide Valid, Place, SizeOf, SbrkArg, AfterSbrk;
      var nu := if nunits < 4096 then 4096 else nunits;
      if grant.None? {
        return 0;
      }
      ghost var s := State();
      var hp := grant.value;
      obtained := AfterSbrk(obtained, hp, SbrkArg(nu));
      GrantKeeps(s, hp, nu);
      size := size[hp := nu];
      live, owner := live + {hp}, owner + map u | u in Span(hp, nu) :: hp;
      ghost var t := State();
      assert t == Granted(s, hp, nu);
      Free(hp + 1);
      assert live == s.live;
      MoreRoom(State(), nu, nunits);
      return freep;
    }

    /** Takes the whole block at `p`, which `prevp` points to, off the list. */
    method TakeWhole(prevp: nat, p: nat, ghost i: nat)
      requires Ready() && i + 1 < |ring| && prevp == ring[i] && p == ring[i + 1]
      modifies this
      ensures Valid(State()) && i < |ring| && ring[i] == prevp && p !in old(live) && live == old(live) + {p}
      ensures obtained == old(obtained) && owner == old(owner) &&
              forall g :: SizeOf(State(), g) == SizeOf(old(State()), g)
    {
      hide Valid, SizeOf;
      ghost var s := State();
      UnlinkKeeps(s, i + 1);
      AfterIs(s, i + 1);
      ptr := ptr[prevp := ptr[p]];
      ring, live := ring[..i + 1] + ring[i + 2..], live + {p};
      assert State() == Unlink(s, i + 1);
    }

    /** Takes the last `nunits` units of the block at `p`. */
    method TakeTail(p: nat, nunits: nat, ghost i: nat) returns (h: nat)
      requires Ready() && 0 < i < |ring| && p == ring[i] && 0 < nunits < SizeOf(State(), p)
      modifies this
      ensures Valid(State()) && ring == old(ring) && h !in old(live) && live == old(live) + {h} &&
              SizeOf(State(), h) == nunits
      ensures obtained == old(obtained) && forall u :: u in owner <==> u in old(owner)
      ensures forall g | g in old(live) :: SizeOf(State(), g) == SizeOf(old(State()), g)
    {
      hide Valid;
      ghost var s := State();
      InRing(s, i);
      SplitKeeps(s, i, nunits);
      size := size[p := size[p] - nunits];
      h := p + size[p];
      size := size[h := nunits];
      live, owner := live + {h}, Relabel(owner, h, h + nunits, h);
      assert State() == Split(s, i, nunits);
      hide SizeOf;
    }

    /** Takes `nunits` units from the block at `p`, which `prevp` points to. */
    method Carve(prevp: nat, p: nat, nunits: nat, ghost i: nat) returns (h: nat)
      requires Ready() && 0 < nunits && i + 1 < |ring| && prevp == ring[i] && p == ring[i + 1] &&
               SizeOf(State(), p) >= nunits
      modifies this
      ensures Ready() && freep != 0 && h !in old(live) && live == old(live) + {h} && SizeOf(State(), h) == nunits
      ensures obtained == old(obtained) && forall u :: u in owner <==> u in old(owner)
      ensures forall g | g in old(live) :: SizeOf(State(), g) == SizeOf(old(State()), g)
    {
      hide Valid, SizeOf;
      InRing(State(), i);
      InRing(State(), i + 1);
      SizeIs(State(), p);
      h := p;
      if size[p] == nunits {
        TakeWhole(prevp, p, i);
      } else {
        h := TakeTail(p, nunits, i + 1);
      }
      freep, at := prevp, i;
    }

    /** Makes `base` the only element of the free list. */
    method Initialise()
      requires Consistent() && freep == 0
      modifies this
      ensures Ready() && freep != 0 && live == {} && owner == map[] && obtained == old(obtained)
      ensures forall n | n > 0 :: !HasRoom(State(), n)
    {
      ptr, size := ptr[BASE := BASE], size[BASE := 0];
      freep := BASE;
      ring, at := [BASE], 0;
    }

    /** A block for `nbytes` bytes, or 0. `grant` is what sbrk() would return, should the free list not do. The
        request is a 32-bit number. When sbrk() grants memory, what is left is a proper arena if and only if
        the request is for at most 2^31 - 32 bytes or the free list had room for it. */
    method Malloc(nbytes: nat, grant: Option<nat>) returns (ap: nat, ghost asked: bool)
      requires Consistent() && nbytes < 0x1_0000_0000
      requires grant.Some? ==>
               grant.value > BASE && grant.value + Asked(Units(nbytes)) <= 0x1_0000_0000 &&
               forall u | u in owner :: u < grant.value
      modifies this
      ensures Ready() && freep != 0
      ensures ap == 0 ==> live == old(live) && asked && grant.None?
      ensures ap != 0 ==>
              ap - 1 !in old(live) && live == old(live) + {ap - 1} &&
              SizeOf(State(), ap - 1) == Units(nbytes)
      ensures forall h | h in old(live) :: SizeOf(State(), h) == SizeOf(old(State()), h)
      ensures asked <==> !(old(freep) != 0 && HasRoom(old(State()), Units(nbytes)))
      ensures forall u :: u in owner <==>
              u in old(owner) || (asked && grant.Some? && u in Span(grant.value, Asked(Units(nbytes))))
      ensures obtained == if asked && grant.Some?
              then AfterSbrk(old(obtained), grant.value, SbrkArg(Asked(Units(nbytes))))
              else old(obtained)
      ensures var fits := nbytes <= 0x7fff_ffe0 || (old(freep) != 0 && HasRoom(old(State()), Units(nbytes)));
              (Valid(Real(State(), obtained)) <==> grant.None? || fits) && (Consistent() <==> grant.None? || fits)
    {
      hide Valid, SizeOf, Dist, After, HasRoom, Scanned, SbrkArg, AfterSbrk, Asked, Span;
      asked := false;
      var nunits := Units(nbytes);
      if freep == 0 {
        Initialise();
      }
      ghost var s, had := State(), obtained;
      var prevp := freep;
      ghost var x: nat := After(at, |ring|);   // the position of p
      AfterIs(s, at);
      FollowsAfter(ring, at);
      NoneScanned(s, at, nunits);
      var p := ptr[prevp];
      ghost var g: nat := 0;
      while true
        invariant Ready() && freep != 0 && live == s.live && x < |ring| && p == ring[x] && Follows(ring, prevp, x)
        invariant forall h | h in live :: SizeOf(State(), h) == SizeOf(s, h)
        invariant !asked ==> State() == s && Scanned(s, at, x, nunits)
        invariant asked ==> grant.Some? && !HasRoom(s, nunits)
        invariant obtained == if asked then AfterSbrk(had, grant.value, SbrkArg(Asked(nunits))) else had
        invariant g < |ring|
        invariant asked ==> SizeOf(State(), ring[g]) >= nunits && Dist(x, g, |ring|) <= Dist(x, at, |ring|)
        invariant asked ==> forall u :: u in owner <==> u in s.owner || u in Span(grant.value, Asked(nunits))
        decreases !asked, Dist(x, at, |ring|)
      {
        ghost var t := State();
        InRing(t, x);
        SizeIs(t, p);
        if size[p] >= nunits {
          RoomHere(t, x, nunits);
          var h := Carve(prevp, p, nunits, x - 1);
          Verdict(nbytes, s.owner, had, State(), obtained, grant, asked);
          return h + 1, asked;
        }
        DistFacts(x, at, |ring|);
        if p == freep {
          DistFacts(x, g, |ring|);
          AllScanned(s, at, nunits);
          p := Morecore(nunits, grant);
          asked := true;
          if p == 0 {
            Verdict(nbytes, s.owner, had, State(), obtained, grant, false);
            return 0, asked;
          }
          g := RoomAt(State(), nunits);
          x := at;
          DistFacts(x, at, |ring|);
          DistFacts(After(x, |ring|), g, |ring|);
        } else {
          DistFacts(x, g, |ring|);
          if !asked {
            ScannedStep(s, at, x, nunits);
          }
        }
        AfterIs(State(), x);
        FollowsAfter(ring, x);
        prevp, x := p, After(x, |ring|);
        p := ptr[p];
      }
    }
  }

  /** `prev` is the block before position `x` of the list. */
  ghost predicate Follows(ring: seq<nat>, prev: nat, x: nat) {
    x < |ring| && prev == if x > 0 then ring[x - 1] else ring[|ring| - 1]
  }

  lemma FollowsAfter(ring: seq<nat>, x: nat)
    requires x < |ring|
    ensures Follows(ring, ring[x], After(x, |ring|))
  {
  }

  lemma DistFacts(x: nat, y: nat, n: nat)
    requires x < n && y < n
    ensures After(x, n) < n && 0 <= Dist(x, y, n) < n && (Dist(x, y, n) == 0 <==> x == y)
    ensures x != y ==> Dist(After(x, n), y, n) == Dist(x, y, n) - 1
    ensures x == y ==> Dist(After(x, n), y, n) == n - 1
  {
  }

  /** From the position after `at` up to `x`, every block is too small. */
  ghost predicate Scanned(s: Arena, at: nat, x: nat, n: nat) {
    forall j: nat | j < |s.ring| && Dist(After(at, |s.ring|), j, |s.ring|) < Dist(After(at, |s.ring|), x, |s.ring|) ::
        SizeOf(s, s.ring[j]) < n
  }

  lemma NoneScanned(s: Arena, at: nat, n: nat)
    requires at < |s.ring|
    ensures Scanned(s, at, After(at, |s.ring|), n)
  {
  }

  lemma ScannedStep(s: Arena, at: nat, x: nat, n: nat)
    requires Scanned(s, at, x, n) && at < |s.ring| && x < |s.ring| && x != at && SizeOf(s, s.ring[x]) < n
    ensures Scanned(s, at, After(x, |s.ring|), n)
  {
  }

  lemma AllScanned(s: Arena, at: nat, n: nat)
    requires at < |s.ring| && Scanned(s, at, at, n) && SizeOf(s, s.ring[at]) < n
    ensures !HasRoom(s, n)
  {
  }

  ghost function RoomAt(s: Arena, n: nat): (g: nat)
    requires HasRoom(s, n)
    ensures g < |s.ring| && SizeOf(s, s.ring[g]) >= n
  {
    var g :| 0 <= g < |s.ring| && SizeOf(s, s.ring[g]) >= n; g
  }

  lemma SizeIs(s: Arena, h: nat)
    requires h in s.size
    ensures SizeOf(s, h) == s.size[h]
  {
  }

  lemma MoreRoom(s: Arena, n: nat, m: nat)
    requires HasRoom(s, n) && m <= n
    ensures HasRoom(s, m)
  {
    var i :| 0 <= i < |s.ring| && SizeOf(s, s.ring[i]) >= n;
    assert SizeOf(s, s.ring[i]) >= m;
  }

  lemma PendingFacts(s: Arena, k: nat, h: nat)
    requires Valid(s) && h in s.live && s.ring[0] < h && k == Place(s.ring, h)
    ensures var m := JoinUpper(s, k, h);
            k < |m.ring| && m.ring[k] == s.ring[k] >= BASE && m.ring[k] in m.size && h in m.size && h in m.ptr
  {
    hide Place;
    SpliceFacts(s, k, h);
    InRing(s, k);
  }

  lemma LiveFacts(s: Arena, h: nat)
    requires Valid(s) && h in s.live
    ensures s.ring != [] && s.ring[0] < h && h !in s.ring && Place(s.ring, h) < |s.ring|
  {
  }

  lemma StopsAt(s: Arena, h: nat, j: nat)
    requires Valid(s) && h in s.live && j < |s.ring| && s.ring[0] < h && h !in s.ring
    ensures s.ring[j] in s.ptr
    ensures var p := s.ring[j]; var q := s.ptr[p];
            (h > p && h < q) || (p >= q && (h > p || h < q)) <==> j == Place(s.ring, h)
  {
    StopsAtPlace(s, h, j);
  }

  /** The tests free() makes on raw headers are the ones on the list. */
  lemma SpliceFacts(s: Arena, k: nat, h: nat)
    requires Valid(s) && h in s.live && s.ring[0] < h && k == Place(s.ring, h)
    ensures k < |s.ring| && h in s.size && s.ring[k] in s.size && s.ring[k] in s.ptr && s.ring[k] != h
    ensures h + s.size[h] == s.ptr[s.ring[k]] <==> Touches(s, k, h)
    ensures Touches(s, k, h) ==> s.ptr[s.ring[k]] == s.ring[k + 1] && s.ring[k + 1] in s.size
  {
    InRing(s, k);
    AfterIs(s, k);
    if k + 1 < |s.ring| {
      InRing(s, k + 1);
    }
    assert SizeOf(s, h) > 0;
  }
}
