/** The free list of user/umalloc.c as values: what it must look like, and what the steps of free() and
    malloc() do to it. Addresses and sizes are in header units of 16 bytes. */
module Arena {
  const BASE := 1   // where the static header `base` lies: below the heap

  /** The headers in memory (`ptr`, `size`), and what they stand for: the free list in address order
      from `base` on, the headers of the blocks handed out, and the block each unit belongs to. */
  datatype Arena = Arena(ptr: map<nat, nat>, size: map<nat, nat>, ring: seq<nat>, live: set<nat>, owner: map<nat, nat>)

  function PtrOf(s: Arena, h: nat): nat { if h in s.ptr then s.ptr[h] else 0 }

  function SizeOf(s: Arena, h: nat): nat { if h in s.size then s.size[h] else 0 }

  function Succ(ring: seq<nat>, i: nat): nat
    requires ring != []
  {
    if i + 1 < |ring| then ring[i + 1] else ring[0]
  }

  // ----- the invariant -----

  /** The list is circular: each block points to the next one up, the last one to `base`. */
  ghost predicate Linked(s: Arena, except: int) {
    && 0 < |s.ring| && s.ring[0] == BASE
    && forall i {:trigger PtrOf(s, s.ring[i])} | 0 <= i < |s.ring| && i != except ::
         s.ring[i] in s.ptr && PtrOf(s, s.ring[i]) == Succ(s.ring, i)
  }

  /** Block `i` of the free list ends below the start of block `j`, with something between them. */
  ghost predicate Before(s: Arena, i: nat, j: nat)
    requires i < |s.ring| && j < |s.ring|
  {
    s.ring[i] + SizeOf(s, s.ring[i]) < s.ring[j]
  }

  /** Free blocks are in address order, disjoint, and never adjacent. */
  ghost predicate Spaced(s: Arena) {
    && 0 < |s.ring| && s.ring[0] == BASE
    && (forall i, j {:trigger Before(s, i, j)} | 0 <= i < j < |s.ring| :: Before(s, i, j))
    && SizeOf(s, BASE) == 0 && BASE in s.size
    && (forall i | 0 < i < |s.ring| :: SizeOf(s, s.ring[i]) > 0)
  }

  ghost predicate Lives(s: Arena) {
    && (forall h | h in s.live :: h > BASE && SizeOf(s, h) > 0)
    && (forall i | 0 <= i < |s.ring| :: s.ring[i] !in s.live)
  }

  /** Every unit of a block belongs to it. */
  ghost predicate Owns(s: Arena, h: nat) {
    forall u | h <= u < h + SizeOf(s, h) :: u in s.owner && s.owner[u] == h
  }

  ghost function Frees(ring: seq<nat>): set<nat> { set i | 0 < i < |ring| :: ring[i] }

  /** The blocks: handed out, or on the free list. */
  ghost function Blocks(s: Arena): set<nat> { s.live + Frees(s.ring) }

  /** The units obtained are exactly those of the blocks `b`, each in one of them. */
  ghost predicate Parts(s: Arena, b: set<nat>) {
    && (forall h | h in b :: Owns(s, h))
    && (forall u | u in s.owner :: s.owner[u] in b && s.owner[u] <= u < s.owner[u] + SizeOf(s, s.owner[u]))
  }

  ghost predicate Partitioned(s: Arena) {
    Parts(s, Blocks(s))
  }

  ghost predicate Valid(s: Arena) {
    Linked(s, -1) && Spaced(s) && Lives(s) && Partitioned(s)
  }

  /** No two blocks, live or free, overlap. */
  lemma NoOverlap(s: Arena, g: nat, h: nat)
    requires Valid(s) && g in Blocks(s) && h in Blocks(s) && g != h
    ensures g + SizeOf(s, g) <= h || h + SizeOf(s, h) <= g
  {
    hide Linked, Spaced;
    assert Owns(s, g) && Owns(s, h);
    if g < h {
      assert h in s.owner && s.owner[h] == h by { OwnHeader(s, h); }
    } else {
      assert g in s.owner && s.owner[g] == g by { OwnHeader(s, g); }
    }
  }

  // ----- finding the place of a block -----

  /** The last list position below `h`. */
  ghost function Place(ring: seq<nat>, h: nat): (k: nat)
    requires ring != [] && ring[0] < h
    ensures k < |ring| && ring[k] < h && (k + 1 < |ring| ==> h <= ring[k + 1])
  {
    if |ring| == 1 || h <= ring[1] then 0 else Place(ring[1..], h) + 1
  }

  /** How many links from position `i` to position `j`. */
  function Dist(i: nat, j: nat, n: nat): int { if i <= j then j - i else j + n - i }

  /** The two stopping tests of free()'s loop hold at the place of the block and nowhere else. */
  lemma StopsAtPlace(s: Arena, h: nat, j: nat)
    requires Linked(s, -1) && Spaced(s) && h > BASE && j < |s.ring| && h !in s.ring
    ensures s.ring[j] in s.ptr
    ensures var p := s.ring[j]; var q := PtrOf(s, p);
            (h > p && h < q) || (p >= q && (h > p || h < q)) <==> j == Place(s.ring, h)
  {
    var k := Place(s.ring, h);
    assert PtrOf(s, s.ring[j]) == Succ(s.ring, j);
    if j < k {
      assert s.ring[j + 1] <= s.ring[k] by { if j + 1 < k { assert Before(s, j + 1, k); } }
    } else if k < j {
      assert s.ring[k + 1] <= s.ring[j] by { if k + 1 < j { assert Before(s, k + 1, j); } }
    }
    if j + 1 < |s.ring| {
      assert Before(s, j, j + 1);
    }
    if 0 < j {
      assert Before(s, 0, j);
    }
  }

  /** A live block lies in the gap after its place. */
  lemma InGap(s: Arena, h: nat)
    requires Valid(s) && h in s.live
    ensures h !in s.ring
    ensures var k := Place(s.ring, h);
            && s.ring[k] + SizeOf(s, s.ring[k]) <= h
            && (k + 1 < |s.ring| ==> h + SizeOf(s, h) <= s.ring[k + 1])
  {
    var k := Place(s.ring, h);
    assert h in Blocks(s) && Owns(s, h) && s.owner[h] == h;
    if k > 0 {
      assert s.ring[k] in Blocks(s) && Owns(s, s.ring[k]);
    }
    if k + 1 < |s.ring| {
      assert s.ring[k + 1] in Blocks(s) && Owns(s, s.ring[k + 1]) && s.owner[s.ring[k + 1]] == s.ring[k + 1];
    }
  }

  // ----- free(): joining the block above -----

  function Relabel(owner: map<nat, nat>, lo: nat, hi: nat, h: nat): map<nat, nat> {
    map u | u in owner :: if lo <= u < hi then h else owner[u]
  }

  predicate Touches(s: Arena, k: nat, h: nat)
    requires k < |s.ring|
  {
    k + 1 < |s.ring| && h + SizeOf(s, h) == s.ring[k + 1]
  }

  /** Block `h` takes in the free block above it if they touch, and points to what comes next. */
  function JoinUpper(s: Arena, k: nat, h: nat): Arena
    requires k < |s.ring|
  {
    if Touches(s, k, h) then
      var q := s.ring[k + 1];
      Arena(s.ptr[h := Succ(s.ring, k + 1)], s.size[h := SizeOf(s, h) + SizeOf(s, q)],
          s.ring[..k + 1] + s.ring[k + 2..], s.live,
            Relabel(s.owner, q, q + SizeOf(s, q), h))
    else Arena(s.ptr[h := Succ(s.ring, k)], s.size, s.ring, s.live, s.owner)
  }

  /** Block `h` is about to be linked in at position `k`. */
  ghost predicate Pending(s: Arena, k: nat, h: nat) {
    && Linked(s, k) && Spaced(s) && Lives(s) && Partitioned(s)
    && k < |s.ring| && h in s.live && h in s.ptr && s.ptr[h] == Succ(s.ring, k)
    && s.ring[k] + SizeOf(s, s.ring[k]) <= h
    && (k + 1 < |s.ring| ==> h + SizeOf(s, h) < s.ring[k + 1])
  }

  /** `t` is `r` without its element `j`. */
  ghost predicate Removed(r: seq<nat>, t: seq<nat>, j: nat) {
    && j < |r| && |t| == |r| - 1
    && forall i {:trigger t[i]} | 0 <= i < |t| :: t[i] == if i < j then r[i] else r[i + 1]
  }

  lemma SuccRemoved(r: seq<nat>, t: seq<nat>, j: nat, i: nat)
    requires Removed(r, t, j) && 0 < j && i < |t| && i != j - 1
    ensures Succ(t, i) == Succ(r, if i < j then i else i + 1)
  {
  }

  lemma LinkedRemoved(s: Arena, t: Arena, j: nat)
    requires Linked(s, -1) && Removed(s.ring, t.ring, j) && 0 < j
    requires forall i | 0 <= i < |t.ring| && i != j - 1 ::
             t.ring[i] in s.ptr ==> t.ring[i] in t.ptr && PtrOf(t, t.ring[i]) == PtrOf(s, t.ring[i])
    ensures Linked(t, j - 1)
  {
    hide PtrOf, Succ;
    forall i | 0 <= i < |t.ring| && i != j - 1
      ensures t.ring[i] in t.ptr && PtrOf(t, t.ring[i]) == Succ(t.ring, i)
    {
      SuccRemoved(s.ring, t.ring, j, i);
      assert PtrOf(s, s.ring[if i < j then i else i + 1]) == Succ(s.ring, if i < j then i else i + 1);
    }
  }

  lemma SpacedRemoved(s: Arena, t: Arena, j: nat)
    requires Spaced(s) && Removed(s.ring, t.ring, j) && 0 < j && BASE in t.size
    requires forall i | 0 <= i < |t.ring| :: SizeOf(t, t.ring[i]) == SizeOf(s, t.ring[i])
    ensures Spaced(t)
  {
    hide SizeOf;
    forall i, l | 0 <= i < l < |t.ring|
      ensures Before(t, i, l)
    {
      assert Before(s, if i < j then i else i + 1, if l < j then l else l + 1);
    }
    assert t.ring[0] == BASE;
  }

  /** What joining the touching block above changes. */
  lemma JoinUpperFacts(s: Arena, k: nat, h: nat)
    requires Valid(s) && h in s.live && k < |s.ring| && Touches(s, k, h)
    ensures var t, q := JoinUpper(s, k, h), s.ring[k + 1];
            && Removed(s.ring, t.ring, k + 1) && t.live == s.live && q !in t.ring && h !in s.ring && BASE in t.size
            && (forall g | g != h ::
                SizeOf(t, g) == SizeOf(s, g) && PtrOf(t, g) == PtrOf(s, g) && (g in t.ptr <==> g in s.ptr))
            && SizeOf(t, h) == SizeOf(s, h) + SizeOf(s, q)
            && h in t.ptr && PtrOf(t, h) == Succ(s.ring, k + 1)
            && (forall u :: u in t.owner <==> u in s.owner)
            && forall u | u in t.owner :: t.owner[u] == if q <= u < q + SizeOf(s, q) then h else s.owner[u]
  {
    var t, q := JoinUpper(s, k, h), s.ring[k + 1];
    assert Removed(s.ring, t.ring, k + 1);
    forall i | 0 <= i < |t.ring|
      ensures t.ring[i] != q
    {
      var j := if i <= k then i else i + 1;
      if j <= k {
        assert Before(s, j, k + 1);
      } else {
        assert Before(s, k + 1, j);
      }
    }
  }

  lemma JoinUpperRing(s: Arena, k: nat, h: nat)
    requires Valid(s) && h in s.live && k < |s.ring| && Touches(s, k, h)
    ensures var t := JoinUpper(s, k, h); Linked(t, k) && Spaced(t) && Lives(t)
  {
    var t := JoinUpper(s, k, h);
    JoinUpperFacts(s, k, h);
    hide JoinUpper, SizeOf, PtrOf, Succ, Partitioned;
    LinkedRemoved(s, t, k + 1);
    SpacedRemoved(s, t, k + 1);
    hide Spaced, Linked;
  }

  /** Block `lo` takes in block `hi`, which begins where it ends. */
  lemma MergedParts(s: Arena, b: set<nat>, t: Arena, lo: nat, hi: nat)
    requires Parts(s, b) && lo in b && hi in b && lo != hi && lo + SizeOf(s, lo) == hi
    requires SizeOf(t, lo) == SizeOf(s, lo) + SizeOf(s, hi) &&
             forall g | g in b && g != lo && g != hi :: SizeOf(t, g) == SizeOf(s, g)
    requires forall u :: u in t.owner <==> u in s.owner
    requires forall u | u in s.owner :: t.owner[u] == if hi <= u < hi + SizeOf(s, hi) then lo else s.owner[u]
    ensures Parts(t, b - {hi})
  {
    hide SizeOf;
    assert Owns(s, lo) && Owns(s, hi);
    forall g | g in b && g != hi
      ensures Owns(t, g)
    {
      assert Owns(s, g);
    }
  }

  lemma FreesRemoved(r: seq<nat>, t: seq<nat>, j: nat)
    requires Removed(r, t, j) && 0 < j && r[j] !in t
    ensures Frees(t) == Frees(r) - {r[j]} && Frees(r) == Frees(t) + {r[j]}
  {
    forall i | 0 < i < |r| && i != j
      ensures r[i] in Frees(t)
    {
      assert t[if i < j then i else i - 1] == r[i];
    }
  }

  lemma JoinUpperParts(s: Arena, k: nat, h: nat)
    requires Valid(s) && h in s.live && k < |s.ring| && Touches(s, k, h)
    ensures Partitioned(JoinUpper(s, k, h))
  {
    hide JoinUpper, PtrOf, Succ, Linked, Spaced, Parts;
    var t, q := JoinUpper(s, k, h), s.ring[k + 1];
    JoinUpperFacts(s, k, h);
    FreesRemoved(s.ring, t.ring, k + 1);
    assert Blocks(t) == Blocks(s) - {q};
    hide SizeOf, Blocks;
    MergedParts(s, Blocks(s), t, h, q);
  }

  /** Only the links depend on the pointers. */
  lemma PartsFrame(s: Arena, t: Arena)
    requires Lives(s) && Partitioned(s) && t.ring == s.ring && t.live == s.live && t.owner == s.owner
    requires forall g :: SizeOf(t, g) == SizeOf(s, g)
    ensures Lives(t) && Partitioned(t)
  {
    hide SizeOf;
    assert Blocks(t) == Blocks(s);
    forall g | g in Blocks(s)
      ensures Owns(t, g)
    {
      assert Owns(s, g);
    }
  }

  lemma SpacedFrame(s: Arena, t: Arena)
    requires Spaced(s) && t.ring == s.ring && BASE in t.size && forall g :: SizeOf(t, g) == SizeOf(s, g)
    ensures Spaced(t)
  {
    hide SizeOf;
    forall i, j | 0 <= i < j < |t.ring|
      ensures Before(t, i, j)
    {
      assert Before(s, i, j);
    }
  }

  lemma NotTouching(s: Arena, k: nat, h: nat)
    requires Valid(s) && h in s.live && k < |s.ring| && !Touches(s, k, h)
    ensures var t := JoinUpper(s, k, h);
            && Linked(t, k) && Spaced(t) && Lives(t) && Partitioned(t)
            && (forall g :: SizeOf(t, g) == SizeOf(s, g)) && h in t.ptr && PtrOf(t, h) == Succ(s.ring, k)
  {
    var t := JoinUpper(s, k, h);
    assert forall g :: SizeOf(t, g) == SizeOf(s, g);
    assert forall i | 0 <= i < |s.ring| :: s.ring[i] != h;
    PartsFrame(s, t);
    SpacedFrame(s, t);
    assert Linked(t, k) by {
      assert forall g | g != h :: PtrOf(t, g) == PtrOf(s, g) && (g in t.ptr <==> g in s.ptr);
      hide PtrOf, SizeOf, Partitioned, Spaced, Lives;
    }
    hide Linked, Partitioned, Lives, PtrOf;
  }

  lemma JoinUpperKeeps(s: Arena, h: nat)
    requires Valid(s) && h in s.live
    ensures Pending(JoinUpper(s, Place(s.ring, h), h), Place(s.ring, h), h)
  {
    var k := Place(s.ring, h);
    var t := JoinUpper(s, k, h);
    InGap(s, h);
    if Touches(s, k, h) {
      JoinUpperRing(s, k, h);
      JoinUpperParts(s, k, h);
      JoinUpperFacts(s, k, h);
      if k + 1 < |t.ring| {
        assert Before(s, k + 1, k + 2);
      }
      hide JoinUpper, Place, Linked, Spaced, Lives, Partitioned, SizeOf;
      assert t.ring[k] == s.ring[k] && (k + 1 < |t.ring| ==> t.ring[k + 1] == s.ring[k + 2]);
      assert Succ(t.ring, k) == Succ(s.ring, k + 1);
    } else {
      NotTouching(s, k, h);
      assert t.ring == s.ring && t.live == s.live;
      hide JoinUpper, Place, Linked, Spaced, Lives, Partitioned, SizeOf;
    }
  }

  // ----- free(): joining the block below, or linking in -----

  predicate Adjoins(s: Arena, k: nat, h: nat)
    requires k < |s.ring|
  {
    s.ring[k] + SizeOf(s, s.ring[k]) == h
  }

  /** The pending block `h` becomes part of the free block below it if they touch,
      and a free block of its own otherwise. */
  function LinkIn(s: Arena, k: nat, h: nat): Arena
    requires k < |s.ring|
  {
    var p := s.ring[k];
    if Adjoins(s, k, h) then
      Arena(s.ptr[p := PtrOf(s, h)], s.size[p := SizeOf(s, p) + SizeOf(s, h)], s.ring, s.live - {h},
          Relabel(s.owner, h, h + SizeOf(s, h), p))
    else Arena(s.ptr[p := h], s.size, s.ring[..k + 1] + [h] + s.ring[k + 1..], s.live - {h}, s.owner)
  }

  lemma LowerFacts(s: Arena, k: nat, h: nat)
    requires Pending(s, k, h) && Adjoins(s, k, h)
    ensures 0 < k && h !in s.ring
    ensures var t, p := LinkIn(s, k, h), s.ring[k];
            && t.ring == s.ring && t.live == s.live - {h} && BASE in t.size
            && (forall g | g != p ::
                SizeOf(t, g) == SizeOf(s, g) && PtrOf(t, g) == PtrOf(s, g) && (g in t.ptr <==> g in s.ptr))
            && SizeOf(t, p) == SizeOf(s, p) + SizeOf(s, h)
            && p in t.ptr && PtrOf(t, p) == Succ(s.ring, k)
            && (forall u :: u in t.owner <==> u in s.owner)
            && forall u | u in s.owner :: t.owner[u] == if h <= u < h + SizeOf(s, h) then p else s.owner[u]
  {
    hide Parts, Linked;
  }

  lemma RingOrder(s: Arena, i: nat, j: nat)
    requires Spaced(s) && i < j < |s.ring|
    ensures s.ring[i] < s.ring[j]
  {
    assert Before(s, i, j);
  }

  /** Free blocks are different blocks. */
  lemma RingDistinct(s: Arena, k: nat)
    requires Spaced(s) && k < |s.ring|
    ensures forall i | 0 <= i < |s.ring| && i != k :: s.ring[i] != s.ring[k]
  {
    forall i | 0 <= i < |s.ring| && i != k
      ensures s.ring[i] != s.ring[k]
    {
      if i < k {
        RingOrder(s, i, k);
      } else {
        RingOrder(s, k, i);
      }
    }
  }

  lemma LowerLinked(s: Arena, k: nat, h: nat)
    requires Pending(s, k, h) && Adjoins(s, k, h)
    ensures Linked(LinkIn(s, k, h), -1)
  {
    LowerFacts(s, k, h);
    RingDistinct(s, k);
    hide LinkIn, SizeOf, PtrOf, Succ, Partitioned, Spaced, Lives;
  }

  lemma LowerSpaced(s: Arena, k: nat, h: nat)
    requires Pending(s, k, h) && Adjoins(s, k, h)
    ensures var t := LinkIn(s, k, h); Spaced(t) && Lives(t)
  {
    hide LinkIn, SizeOf, PtrOf, Succ, Partitioned, Linked;
    var t := LinkIn(s, k, h);
    LowerFacts(s, k, h);
    RingDistinct(s, k);
    forall i, j | 0 <= i < j < |t.ring|
      ensures Before(t, i, j)
    {
      assert Before(s, i, j);
      if i == k && k + 1 < j {
        assert Before(s, k + 1, j);
      }
    }
    hide Before;
  }

  lemma LowerParts(s: Arena, k: nat, h: nat)
    requires Pending(s, k, h) && Adjoins(s, k, h)
    ensures Partitioned(LinkIn(s, k, h))
  {
    var t := LinkIn(s, k, h);
    LowerFacts(s, k, h);
    assert Frees(s.ring) == Frees(t.ring) && h !in Frees(s.ring);
    assert Blocks(t) == Blocks(s) - {h} && s.ring[k] in Frees(s.ring);
    hide LinkIn, SizeOf, PtrOf, Succ, Linked, Spaced, Blocks, Parts;
    MergedParts(s, Blocks(s), t, s.ring[k], h);
  }

  lemma LinkedInserted(s: Arena, t: Arena, k: nat, h: nat)
    requires Linked(s, k) && Removed(t.ring, s.ring, k + 1) && t.ring[k + 1] == h && k < |s.ring|
    requires t.ptr == s.ptr[s.ring[k] := h] && h in s.ptr && PtrOf(s, h) == Succ(s.ring, k) && h !in s.ring
    requires forall i | 0 <= i < |s.ring| && i != k :: s.ring[i] != s.ring[k]
    ensures Linked(t, -1)
  {
    assert forall g | g != s.ring[k] :: PtrOf(t, g) == PtrOf(s, g) && (g in t.ptr <==> g in s.ptr);
    assert PtrOf(t, s.ring[k]) == h;
    assert s.ring[k] == t.ring[k] && s.ring[0] == t.ring[0];
    hide PtrOf;
    forall i | 0 <= i < |t.ring|
      ensures t.ring[i] in t.ptr && PtrOf(t, t.ring[i]) == Succ(t.ring, i)
    {
      if i < k {
        assert s.ring[i] == t.ring[i] && s.ring[i + 1] == t.ring[i + 1];
        assert PtrOf(s, s.ring[i]) == Succ(s.ring, i);
      } else if i > k + 1 {
        assert s.ring[i - 1] == t.ring[i];
        assert PtrOf(s, s.ring[i - 1]) == Succ(s.ring, i - 1);
        if i < |s.ring| {
          assert s.ring[i] == t.ring[i + 1];
        }
      } else if i == k + 1 && i < |s.ring| {
        assert s.ring[i] == t.ring[i + 1];
      }
    }
  }

  lemma SpacedInserted(s: Arena, t: Arena, k: nat, h: nat)
    requires Spaced(s) && Removed(t.ring, s.ring, k + 1) && t.ring[k + 1] == h && k < |s.ring| && t.size == s.size &&
             SizeOf(s, h) > 0
    requires s.ring[k] + SizeOf(s, s.ring[k]) < h && (k + 1 < |s.ring| ==> h + SizeOf(s, h) < s.ring[k + 1])
    ensures Spaced(t)
  {
    assert forall g :: SizeOf(t, g) == SizeOf(s, g);
    hide SizeOf;
    assert t.ring[0] == s.ring[0];
    forall i | 0 <= i < |t.ring| && i != k + 1
      ensures t.ring[i] == s.ring[if i <= k then i else i - 1]
    {
      assert s.ring[if i <= k then i else i - 1] == t.ring[i];
    }
    forall i, j | 0 <= i < j < |t.ring|
      ensures Before(t, i, j)
    {
      if i == k + 1 {
        if j > k + 2 {
          assert Before(s, k + 1, j - 1);
        }
      } else if j == k + 1 {
        if i < k {
          assert Before(s, i, k);
        }
      } else {
        assert Before(s, if i <= k then i else i - 1, if j <= k then j else j - 1);
      }
    }
  }

  lemma InsertFacts(s: Arena, k: nat, h: nat)
    requires Pending(s, k, h) && !Adjoins(s, k, h)
    ensures var t := LinkIn(s, k, h);
            && h !in s.ring && Removed(t.ring, s.ring, k + 1) && t.ring[k + 1] == h && t.live == s.live - {h}
            && t.size == s.size && t.ptr == s.ptr[s.ring[k] := h] && t.owner == s.owner
            && Blocks(t) == Blocks(s)
  {
    var t := LinkIn(s, k, h);
    hide Linked, Spaced, Partitioned, SizeOf;
    assert Removed(t.ring, s.ring, k + 1) && t.ring[k + 1] == h;
    FreesRemoved(t.ring, s.ring, k + 1);
  }

  /** Whose block a unit is does not depend on where the block is kept. */
  lemma SameParts(s: Arena, t: Arena, b: set<nat>)
    requires Parts(s, b) && t.owner == s.owner && forall g | g in b :: SizeOf(t, g) == SizeOf(s, g)
    ensures Parts(t, b)
  {
    hide SizeOf;
    forall g | g in b
      ensures Owns(t, g)
    {
      assert Owns(s, g);
    }
  }

  lemma InsertKeeps(s: Arena, k: nat, h: nat)
    requires Pending(s, k, h) && !Adjoins(s, k, h)
    ensures Valid(LinkIn(s, k, h))
  {
    hide LinkIn, Blocks, Parts;
    var t := LinkIn(s, k, h);
    InsertFacts(s, k, h);
    RingDistinct(s, k);
    assert forall g :: SizeOf(t, g) == SizeOf(s, g);
    assert s.ring[k] + SizeOf(s, s.ring[k]) < h && SizeOf(s, h) > 0;
    hide SizeOf, Adjoins;
    LinkedInserted(s, t, k, h);
    SpacedInserted(s, t, k, h);
    SameParts(s, t, Blocks(s));
    hide Linked, Spaced;
    forall i | 0 <= i < |t.ring|
      ensures t.ring[i] !in t.live
    {
      if i != k + 1 {
        assert s.ring[if i <= k then i else i - 1] == t.ring[i];
      }
    }
  }

  lemma JoinUpperFrame(s: Arena, k: nat, h: nat)
    requires Valid(s) && h in s.live && k < |s.ring|
    ensures var t := JoinUpper(s, k, h);
            && t.live == s.live && k < |t.ring| && t.ring[k] == s.ring[k] && SizeOf(t, h) >= SizeOf(s, h)
            && (forall u :: u in t.owner <==> u in s.owner) && forall g | g != h :: SizeOf(t, g) == SizeOf(s, g)
  {
    if Touches(s, k, h) {
      JoinUpperFacts(s, k, h);
    }
  }

  lemma LinkInKeeps(s: Arena, k: nat, h: nat)
    requires Pending(s, k, h)
    ensures var t := LinkIn(s, k, h);
            && Valid(t) && t.live == s.live - {h} && k < |t.ring| && t.ring[k] == s.ring[k]
            && (forall u :: u in t.owner <==> u in s.owner)
            && (forall g | g in t.live :: SizeOf(t, g) == SizeOf(s, g))
            && exists i :: 0 <= i < |t.ring| && SizeOf(t, t.ring[i]) >= SizeOf(s, h)
  {
    var t := LinkIn(s, k, h);
    if Adjoins(s, k, h) {
      LowerFacts(s, k, h);
      LowerLinked(s, k, h);
      LowerSpaced(s, k, h);
      LowerParts(s, k, h);
      hide Linked, Spaced, Partitioned, LinkIn, SizeOf;
      assert SizeOf(t, t.ring[k]) >= SizeOf(s, h);
    } else {
      InsertFacts(s, k, h);
      InsertKeeps(s, k, h);
      assert forall g :: SizeOf(t, g) == SizeOf(s, g);
      hide Linked, Spaced, Partitioned, LinkIn, SizeOf;
      assert s.ring[k] == t.ring[k];
      assert SizeOf(t, t.ring[k + 1]) >= SizeOf(s, h);
    }
  }

  /** free() of the block at `h`. */
  function Freed(s: Arena, k: nat, h: nat): Arena
    requires k < |s.ring|
  {
    LinkIn(JoinUpper(s, k, h), k, h)
  }

  /** free() keeps the list in order and coalesced and every unit accounted for, gives up exactly the
      block freed, touches no other block's header, and leaves a free block at least as large. */
  lemma FreeKeeps(s: Arena, h: nat)
    requires Valid(s) && h in s.live
    ensures var k := Place(s.ring, h); var t := Freed(s, k, h);
            && Valid(t) && t.live == s.live - {h} && k < |t.ring| && t.ring[k] == s.ring[k]
            && (forall u :: u in t.owner <==> u in s.owner)
            && (forall g | g in t.live :: SizeOf(t, g) == SizeOf(s, g))
            && exists i :: 0 <= i < |t.ring| && SizeOf(t, t.ring[i]) >= SizeOf(s, h)
  {
    var k := Place(s.ring, h);
    var m := JoinUpper(s, k, h);
    var t := LinkIn(m, k, h);
    InGap(s, h);
    JoinUpperKeeps(s, h);
    JoinUpperFrame(s, k, h);
    hide Valid, JoinUpper, SizeOf, Place;
    LinkInKeeps(m, k, h);
  }

  // ----- malloc(): taking a block -----

  /** Takes free block `i` off the list as it is. */
  function Unlink(s: Arena, i: nat): Arena
    requires 0 < i < |s.ring|
  {
    Arena(s.ptr[s.ring[i - 1] := Succ(s.ring, i)], s.size, s.ring[..i] + s.ring[i + 1..], s.live + {s.ring[i]}, s.owner)
  }

  lemma UnlinkLinked(s: Arena, i: nat)
    requires Linked(s, -1) && Spaced(s) && 0 < i < |s.ring|
    ensures Linked(Unlink(s, i), -1)
  {
    var t := Unlink(s, i);
    assert Removed(s.ring, t.ring, i);
    RingDistinct(s, i - 1);
    assert forall g | g != s.ring[i - 1] :: PtrOf(t, g) == PtrOf(s, g) && (g in t.ptr <==> g in s.ptr);
    assert t.ring[i - 1] == s.ring[i - 1] && PtrOf(t, t.ring[i - 1]) == Succ(s.ring, i) == Succ(t.ring, i - 1);
    hide PtrOf, Succ, Spaced, Unlink;
    forall j | 0 <= j < |t.ring| && j != i - 1
      ensures t.ring[j] != s.ring[i - 1]
    {
      assert t.ring[j] == s.ring[if j < i then j else j + 1];
    }
    LinkedRemoved(s, t, i);
  }

  /** Taking a whole block moves it from the free list to the live blocks. */
  lemma UnlinkKeeps(s: Arena, i: nat)
    requires Valid(s) && 0 < i < |s.ring|
    ensures var t := Unlink(s, i);
            Valid(t) && t.ring[i - 1] == s.ring[i - 1] && s.ring[i] !in s.live &&
            forall g :: SizeOf(t, g) == SizeOf(s, g)
  {
    var t := Unlink(s, i);
    UnlinkLinked(s, i);
    RingDistinct(s, i);
    RingOrder(s, 0, i);
    assert Removed(s.ring, t.ring, i);
    assert forall g :: SizeOf(t, g) == SizeOf(s, g);
    SpacedRemoved(s, t, i);
    forall j | 0 <= j < |t.ring|
      ensures t.ring[j] != s.ring[i] && t.ring[j] !in s.live
    {
      assert t.ring[j] == s.ring[if j < i then j else j + 1];
    }
    FreesRemoved(s.ring, t.ring, i);
    assert Blocks(t) == Blocks(s);
    hide Linked, Blocks, SizeOf, Unlink;
    SameParts(s, t, Blocks(s));
    hide Parts, Spaced;
  }

  /** Cuts the last `n` units off free block `i`. */
  function Split(s: Arena, i: nat, n: nat): Arena
    requires 0 < i < |s.ring| && 0 < n < SizeOf(s, s.ring[i])
  {
    var p := s.ring[i];
    var h := p + SizeOf(s, p) - n;
    Arena(s.ptr, s.size[p := SizeOf(s, p) - n][h := n], s.ring, s.live + {h}, Relabel(s.owner, h, h + n, h))
  }

  /** Block `lo` gives up its last units, which become block `hi`. */
  lemma SplitParts(s: Arena, b: set<nat>, t: Arena, lo: nat, hi: nat)
    requires Parts(s, b) && lo in b && hi !in b && lo < hi < lo + SizeOf(s, lo)
    requires SizeOf(t, lo) == hi - lo && SizeOf(t, hi) == lo + SizeOf(s, lo) - hi &&
             forall g | g in b && g != lo :: SizeOf(t, g) == SizeOf(s, g)
    requires forall u :: u in t.owner <==> u in s.owner
    requires forall u | u in s.owner :: t.owner[u] == if hi <= u < lo + SizeOf(s, lo) then hi else s.owner[u]
    ensures Parts(t, b + {hi})
  {
    hide SizeOf;
    assert Owns(s, lo);
    forall g | g in b + {hi}
      ensures Owns(t, g)
    {
      if g != hi {
        assert Owns(s, g);
      }
    }
  }

  lemma OwnHeader(s: Arena, g: nat)
    requires Valid(s) && g in Blocks(s)
    ensures g in s.owner && s.owner[g] == g
  {
    hide Linked;
    assert Owns(s, g);
  }

  lemma SplitFresh(s: Arena, i: nat, n: nat)
    requires Valid(s) && 0 < i < |s.ring| && 0 < n < SizeOf(s, s.ring[i])
    ensures var h := s.ring[i] + SizeOf(s, s.ring[i]) - n; h !in s.live && h !in s.ring && h > BASE
  {
    var h := s.ring[i] + SizeOf(s, s.ring[i]) - n;
    RingOrder(s, 0, i);
    assert s.ring[i] in Blocks(s) && Owns(s, s.ring[i]) && s.owner[h] == s.ring[i];
    hide Linked, Spaced, Partitioned;
    if h in Blocks(s) {
      OwnHeader(s, h);
    }
    assert h !in Blocks(s);
    forall j | 0 < j < |s.ring|
      ensures s.ring[j] != h
    {
      assert s.ring[j] in Frees(s.ring);
    }
  }

  lemma LinkedFrame(s: Arena, t: Arena)
    requires Linked(s, -1) && t.ptr == s.ptr && t.ring == s.ring
    ensures Linked(t, -1)
  {
    forall i | 0 <= i < |t.ring|
      ensures t.ring[i] in t.ptr && PtrOf(t, t.ring[i]) == Succ(t.ring, i)
    {
      assert PtrOf(s, s.ring[i]) == Succ(s.ring, i);
    }
  }

  lemma SplitSpaced(s: Arena, i: nat, n: nat)
    requires Valid(s) && 0 < i < |s.ring| && 0 < n < SizeOf(s, s.ring[i])
    ensures var t := Split(s, i, n); Linked(t, -1) && Spaced(t) && Lives(t)
  {
    var t := Split(s, i, n);
    SplitFresh(s, i, n);
    RingDistinct(s, i);
    assert forall g | g != s.ring[i] && g !in t.live - s.live :: SizeOf(t, g) == SizeOf(s, g);
    hide Partitioned;
    LinkedFrame(s, t);
    hide Linked;
    forall j, l | 0 <= j < l < |t.ring|
      ensures Before(t, j, l)
    {
      assert Before(s, j, l);
    }
  }

  lemma SplitKeeps(s: Arena, i: nat, n: nat)
    requires Valid(s) && 0 < i < |s.ring| && 0 < n < SizeOf(s, s.ring[i])
    ensures var t := Split(s, i, n); var h := s.ring[i] + SizeOf(s, s.ring[i]) - n;
            && Valid(t) && h !in s.live && t.live == s.live + {h} && SizeOf(t, h) == n
            && (forall u :: u in t.owner <==> u in s.owner) && forall g | g in s.live :: SizeOf(t, g) == SizeOf(s, g)
  {
    var t, h := Split(s, i, n), s.ring[i] + SizeOf(s, s.ring[i]) - n;
    SplitSpaced(s, i, n);
    SplitFresh(s, i, n);
    assert forall g | g != s.ring[i] && g != h :: SizeOf(t, g) == SizeOf(s, g);
    assert SizeOf(t, h) == n && SizeOf(t, s.ring[i]) == SizeOf(s, s.ring[i]) - n;
    assert Blocks(t) == Blocks(s) + {h} && s.ring[i] in Blocks(s) && h !in Blocks(s);
    hide SizeOf, Linked, Spaced, Blocks;
    SplitParts(s, Blocks(s), t, s.ring[i], h);
    hide Parts;
  }

  // ----- morecore(): new units -----

  function Span(at: nat, n: nat): (r: set<nat>)
    ensures forall u :: u in r <==> at <= u < at + n
  {
    if n == 0 then {} else Span(at, n - 1) + {at + n - 1}
  }

  /** The units `at`..`at + n` come from sbrk() as one block. */
  function Granted(s: Arena, at: nat, n: nat): Arena {
    Arena(s.ptr, s.size[at := n], s.ring, s.live + {at}, s.owner + map u | u in Span(at, n) :: at)
  }

  lemma GrantParts(s: Arena, b: set<nat>, t: Arena, at: nat, n: nat)
    requires Parts(s, b) && at !in b && SizeOf(t, at) == n && forall g | g in b :: SizeOf(t, g) == SizeOf(s, g)
    requires forall u | u in s.owner :: u < at
    requires forall u :: u in t.owner <==> u in s.owner || at <= u < at + n
    requires forall u | u in t.owner :: t.owner[u] == if at <= u < at + n then at else s.owner[u]
    ensures Parts(t, b + {at})
  {
    hide SizeOf;
    forall g | g in b + {at}
      ensures Owns(t, g)
    {
      if g != at {
        assert Owns(s, g);
      }
    }
  }

  lemma GrantFresh(s: Arena, at: nat)
    requires Valid(s) && at > BASE && forall u | u in s.owner :: u < at
    ensures at !in s.live && at !in s.ring
  {
    hide Partitioned;
    if at in Blocks(s) {
      OwnHeader(s, at);
    }
    assert at !in Blocks(s);
    forall j | 0 < j < |s.ring|
      ensures s.ring[j] != at
    {
      assert s.ring[j] in Frees(s.ring);
    }
  }

  lemma GrantKeeps(s: Arena, at: nat, n: nat)
    requires Valid(s) && at > BASE && n > 0 && forall u | u in s.owner :: u < at
    ensures var t := Granted(s, at, n);
            Valid(t) && at !in s.live && SizeOf(t, at) == n && forall g | g in s.live :: SizeOf(t, g) == SizeOf(s, g)
  {
    var t := Granted(s, at, n);
    GrantFresh(s, at);
    assert forall g | g != at :: SizeOf(t, g) == SizeOf(s, g);
    LinkedFrame(s, t);
    assert Blocks(t) == Blocks(s) + {at} && at !in Blocks(s);
    hide SizeOf, Linked, Blocks;
    GrantParts(s, Blocks(s), t, at, n);
    hide Parts;
    forall i, j | 0 <= i < j < |t.ring|
      ensures Before(t, i, j)
    {
      assert Before(s, i, j);
    }
  }
}
