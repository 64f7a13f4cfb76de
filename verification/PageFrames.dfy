/** What whole operations on page tables do, as relations between memory before and after, and how
    the effects of their steps add up. */
module PageFrames {
  import opened Common
  import opened PageModel

  const MAXVA := MAXVPN * PGSIZE
  const TRAPFRAME := TRAPFRAME_VPN * PGSIZE
  const TRAMPOLINE := TRAPFRAME + PGSIZE

  /** The index into a level-`level` table for a virtual address. */
  function Px(level: nat, va: nat): nat {
    (if level == 0 then va / 0x1000 else if level == 1 then va / 0x20_0000 else va / 0x4000_0000) % 512
  }

  /** The level-`level` table on the way to virtual page `v`. */
  function Path(r: nat, v: nat, level: nat): Key {
    Key(r, level, if level == 0 then v / 512 else if level == 1 then v / 0x4_0000 else 0)
  }

  lemma PathStep(r: nat, va: nat, level: nat)
    requires va < MAXVA && 0 < level <= 2
    ensures Child(Path(r, va / PGSIZE, level), Px(level, va)) == Path(r, va / PGSIZE, level - 1)
    ensures Parent(Path(r, va / PGSIZE, level - 1)) == Path(r, va / PGSIZE, level)
    ensures Path(r, va / PGSIZE, level - 1).prefix % 512 == Px(level, va)
    ensures Path(r, va / PGSIZE, level - 1).prefix < Width(level - 1)
  {
    assert va / 0x20_0000 == va / PGSIZE / 512 && va / 0x4000_0000 == va / PGSIZE / 0x4_0000;
  }

  /** Nothing is mapped differently; pages went at most from the free list to page tables. */
  ghost predicate Quiet(s: Memory, t: Memory, r: nat) {
    SameMaps(s, t) && OnlyTables(s, t, r) && SameData(s, t)
  }

  lemma QuietTransitive(s: Memory, t: Memory, u: Memory, r: nat)
    requires Quiet(s, t, r) && Quiet(t, u, r)
    ensures Quiet(s, u, r)
  {
    hide Pte;
  }

  lemma QuietReflexive(s: Memory, r: nat)
    ensures Quiet(s, s, r)
  {
    hide Pte;
  }

  /** Turning a page just taken from the free list into a table is quiet. */
  lemma AddTableQuiet(s: Memory, w: Memory, k: Key, p: nat)
    requires Shaped(s) && Shaped(w) && TablesOwned(w) && Parent(k) in w.tbl && p < |s.owner| && s.owner[p] == Free
    requires w.mem == s.mem && w.owner == s.owner[p := Held] && SameMaps(s, w) && SameMaps(w, AddTable(w, k, p))
    ensures Quiet(s, AddTable(w, k, p), k.root)
  {
    hide Pte;
  }

  lemma TopOfPath(s: Memory, r: nat, v: nat)
    requires Valid(s) && Key(r, 2, 0) in s.tbl
    ensures Path(r, v, 2) in s.tbl && s.tbl[Path(r, v, 2)] == r != 0
  {
  }

  lemma PathClosed(s: Memory, r: nat, va: nat, level: nat)
    requires Valid(s) && va < MAXVA && level <= 2
    ensures LeafKey(r, va / PGSIZE) in s.tbl ==> Path(r, va / PGSIZE, level) in s.tbl
  {
    hide Links, Leaves, Users, Chain, TablesOwned;
    if LeafKey(r, va / PGSIZE) in s.tbl {
      LeafRoot(s, r, va / PGSIZE);
    }
  }

  ghost predicate Full(s: Memory) {
    forall p | 0 <= p < |s.owner| :: s.owner[p] != Free
  }

  /** Virtual pages v..v+m of `r` now map physical pages p..p+m; nothing else is mapped differently. */
  ghost predicate MapsRange(s: Memory, t: Memory, r: nat, v: nat, p: nat, perm: nat, m: nat) {
    forall q: nat, w: nat {:trigger Pte(t, q, w)} ::
      Pte(t, q, w) == if q == r && v <= w < v + m then MakePte(p + (w - v), perm) else Pte(s, q, w)
  }

  /** ... and those that are user pages belong to the mapping. */
  ghost predicate OwnsRange(s: Memory, t: Memory, r: nat, v: nat, p: nat, m: nat) {
    && |t.owner| == |s.owner|
    && forall x | 0 <= x < |s.owner| ::
         if p <= x < p + m && v + (x - p) < TRAPFRAME_VPN then t.owner[x] == User(r, v + (x - p))
         else t.owner[x] == s.owner[x] || (s.owner[x] == Free && TableOf(t.owner[x], r))
  }

  lemma MakePteLeaf(p: nat, perm: nat)
    requires 2 <= perm < 1024
    ensures IsLeaf(MakePte(p, perm)) && MakePte(p, perm) / 1024 == p
  {
    var e, half := MakePte(p, perm), p * 512;
    assert e == 2 * half + (if perm % 2 == 0 then perm + 1 else perm);
    assert e % 2 == 1;
    assert e % 1024 == if perm % 2 == 0 then perm + 1 else perm;
  }

  lemma RangeEmpty(s: Memory, t: Memory, r: nat, v: nat, p: nat, perm: nat)
    requires Quiet(s, t, r)
    ensures MapsRange(s, t, r, v, p, perm, 0) && OwnsRange(s, t, r, v, p, 0) && SameData(s, t)
  {
    hide Pte, MakePte;
  }

  lemma QuietPte(s: Memory, t: Memory, r: nat, v: nat)
    requires SameMaps(s, t)
    ensures Pte(t, r, v) == Pte(s, r, v)
  {
  }

  lemma RangeAt(s: Memory, t: Memory, r: nat, v: nat, p: nat, perm: nat, m: nat, w: nat)
    requires MapsRange(s, t, r, v, p, perm, m)
    ensures Pte(t, r, w) == if v <= w < v + m then MakePte(p + (w - v), perm) else Pte(s, r, w)
  {
    hide Pte, MakePte;
  }

  lemma RangeOne(s: Memory, t: Memory, r: nat, v: nat, p: nat, perm: nat)
    requires Quiet(s, t, r) && Shaped(t) && TablesOwned(t) && LeafKey(r, v) in t.tbl && 2 <= perm < 1024
    requires v < TRAPFRAME_VPN ==> p < |t.owner| && t.owner[p] == Held
    ensures var u := AddLeaf(t, r, v, MakePte(p, perm));
            MapsRange(s, u, r, v, p, perm, 1) && OwnsRange(s, u, r, v, p, 1) && SameData(s, u)
  {
    MakePteLeaf(p, perm);
    SetPteMaps(t, r, v, MakePte(p, perm), Mapped(t.owner, p, r, v));
    hide Pte, MakePte;
  }

  lemma MapsAppend(s: Memory, t: Memory, u: Memory, r: nat, v: nat, p: nat, perm: nat, m: nat, d: nat)
    requires MapsRange(s, t, r, v, p, perm, m) && MapsRange(t, u, r, v + m, p + m, perm, d)
    ensures MapsRange(s, u, r, v, p, perm, m + d)
  {
    hide Pte, MakePte;
  }

  lemma OwnsAppend(s: Memory, t: Memory, u: Memory, r: nat, v: nat, p: nat, m: nat, d: nat)
    requires OwnsRange(s, t, r, v, p, m) && OwnsRange(t, u, r, v + m, p + m, d)
    ensures OwnsRange(s, u, r, v, p, m + d)
  {
  }

  /** Data pages keep their contents over two steps if they stay data pages in between. */
  lemma SameDataTransitive(s: Memory, t: Memory, u: Memory)
    requires SameData(s, t) && SameData(t, u)
    requires forall x | 0 <= x < |s.owner| && Data(s.owner[x]) && Data(u.owner[x]) :: Data(t.owner[x])
    ensures SameData(s, u)
  {
  }

  /** Virtual pages v..v+n of `r` are not mapped any more; nothing else is mapped differently. */
  ghost predicate UnmapsRange(s: Memory, t: Memory, r: nat, v: nat, n: int) {
    forall q: nat, w: nat {:trigger Pte(t, q, w)} ::
        Pte(t, q, w) == if q == r && v <= w < v + n then 0 else Pte(s, q, w)
  }

  predicate MappedIn(u: Use, r: nat, v: nat, n: int) { u.User? && u.root == r && v <= u.vpn < v + n }

  /** The user pages mapped there, and only those, pass to `to`. */
  ghost predicate ReleasesRange(s: Memory, t: Memory, r: nat, v: nat, n: int, to: Use) {
    && |t.owner| == |s.owner|
    && forall x | 0 <= x < |s.owner| :: t.owner[x] == if MappedIn(s.owner[x], r, v, n) then to else s.owner[x]
  }

  lemma UnmapAppend(s: Memory, t: Memory, u: Memory, r: nat, v: nat, m: nat, d: nat, to: Use)
    requires UnmapsRange(s, t, r, v, m) && UnmapsRange(t, u, r, v + m, d)
    requires ReleasesRange(s, t, r, v, m, to) && ReleasesRange(t, u, r, v + m, d, to) && !to.User?
    ensures UnmapsRange(s, u, r, v, m + d) && ReleasesRange(s, u, r, v, m + d, to)
  {
    hide Pte;
  }

  lemma UnmapNone(s: Memory, r: nat, v: nat, to: Use)
    ensures UnmapsRange(s, s, r, v, 0) && ReleasesRange(s, s, r, v, 0, to) && SameData(s, s)
  {
    hide Pte;
  }

  lemma Unmapped0(s: Memory, r: nat, v: nat, to: Use)
    requires Valid(s) && Pte(s, r, v) == 0
    ensures UnmapsRange(s, s, r, v, 1) && ReleasesRange(s, s, r, v, 1, to) && SameData(s, s)
  {
    hide Pte;
  }

  lemma UserOrSystem(s: Memory, r: nat, v: nat)
    requires Valid(s) && v < MAXVPN && Pte(s, r, v) != 0
    ensures v < TRAPFRAME_VPN ==> Pte(s, r, v) / 1024 < |s.owner| && s.owner[Pte(s, r, v) / 1024] == User(r, v)
    ensures forall x | 0 <= x < |s.owner| && MappedIn(s.owner[x], r, v, 1) ::
            x == Pte(s, r, v) / 1024 && v < TRAPFRAME_VPN
  {
    hide Pte;
  }

  lemma LeafSlot(s: Memory, r: nat, va: nat)
    requires Valid(s) && va < MAXVA && LeafKey(r, va / PGSIZE) in s.tbl
    ensures Px(0, va) == va / PGSIZE % 512
    ensures s.tbl[LeafKey(r, va / PGSIZE)] < |s.mem| && |s.mem[s.tbl[LeafKey(r, va / PGSIZE)]]| == 512
    ensures var e := s.mem[s.tbl[LeafKey(r, va / PGSIZE)]][Px(0, va)];
            e == Pte(s, r, va / PGSIZE) && (e == 0 || IsLeaf(e))
  {
    LeafWord(s, r, va / PGSIZE);
    hide Pte, IsLeaf, Users, Chain, Links;
  }

  lemma AbsentPte(s: Memory, r: nat, v: nat)
    requires LeafKey(r, v) !in s.tbl
    ensures Pte(s, r, v) == 0
  {
  }

  lemma HasTable(s: Memory, r: nat, v: nat)
    requires Pte(s, r, v) != 0
    ensures LeafKey(r, v) in s.tbl
  {
  }

  lemma LeafReleased(s: Memory, r: nat, v: nat)
    requires Valid(s) && v < MAXVPN && LeafKey(r, v) in s.tbl && Pte(s, r, v) != 0
    ensures var t := RemoveLeaf(s, r, v);
            UnmapsRange(s, t, r, v, 1) && ReleasesRange(s, t, r, v, 1, Held) && SameData(s, t)
  {
    RemoveLeafKeeps(s, r, v);
    UserOrSystem(s, r, v);
    hide Pte, Links, TreeShape, Rooted, Chain, Leaves, Users;
  }

  lemma ReleasedFree(s: Memory, t: Memory, u: Memory, r: nat, v: nat, p: nat)
    requires UnmapsRange(s, t, r, v, 1) && ReleasesRange(s, t, r, v, 1, Held) && SameData(s, t)
    requires p < |s.owner| && |s.mem| == |s.owner| && s.owner[p] == User(r, v)
    requires forall x | 0 <= x < |s.owner| && s.owner[x] == User(r, v) :: x == p
    requires SameMaps(t, u) && u.owner == t.owner[p := Free] && |u.mem| == |t.mem| &&
             forall q | 0 <= q < |t.mem| && q != p :: u.mem[q] == t.mem[q]
    ensures UnmapsRange(s, u, r, v, 1) && ReleasesRange(s, u, r, v, 1, Free) && SameData(s, u)
  {
    hide Pte;
  }

  lemma UserOf(s: Memory, r: nat, v: nat)
    requires Valid(s) && v < TRAPFRAME_VPN && Pte(s, r, v) != 0
    ensures Pte(s, r, v) / 1024 < |s.owner| && s.owner[Pte(s, r, v) / 1024] == User(r, v)
    ensures forall x | 0 <= x < |s.owner| && s.owner[x] == User(r, v) :: x == Pte(s, r, v) / 1024
  {
    hide Pte;
  }

  function RoundUp(x: nat): nat { Pages(x) * PGSIZE }

  lemma PagesFit(x: nat)
    requires x <= TRAPFRAME
    ensures RoundUp(x) <= TRAPFRAME && Pages(x) <= TRAPFRAME_VPN && RoundUp(x) / PGSIZE == Pages(x)
  {
  }

  /** Fresh user pages are mapped at lo..hi of `r` with permission bits `perm`; no other mapping and no
      other user page changed, and no page was lost to anything but page tables. */
  ghost predicate Grown(s: Memory, t: Memory, r: nat, lo: nat, hi: nat, perm: nat) {
    && (forall q: nat, w: nat {:trigger Pte(t, q, w)} ::
          if q == r && lo <= w < hi then Pte(t, q, w) % 1024 == perm && Pte(t, q, w) != 0
              else Pte(t, q, w) == Pte(s, q, w))
    && |t.owner| == |s.owner|
    && (forall x | 0 <= x < |s.owner| ::
          t.owner[x] == s.owner[x] ||
              (s.owner[x] == Free && (TableOf(t.owner[x], r) || MappedIn(t.owner[x], r, lo, hi - lo))))
    && SameData(s, t)
  }

  /** Taking a page and mapping it grows the space by one page. */
  lemma GrownStep(s: Memory, t: Memory, u: Memory, z: Memory, r: nat, lo: nat, hi: nat, perm: nat, p: nat)
    requires Grown(s, t, r, lo, hi, MakePte(0, perm)) && lo <= hi < TRAPFRAME_VPN && 2 <= perm < 1024
    requires SameMaps(t, u) && p < |t.owner| && t.owner[p] == Free && u.owner == t.owner[p := Held] && SameData(t, u)
    requires MapsRange(u, z, r, hi, p, perm, 1) && OwnsRange(u, z, r, hi, p, 1) && SameData(u, z)
    ensures Grown(s, z, r, lo, hi + 1, MakePte(0, perm))
  {
    MakePteBits(p, perm);
    hide Pte, MakePte;
  }

  lemma MakePteBits(p: nat, perm: nat)
    requires 2 <= perm < 1024
    ensures MakePte(p, perm) % 1024 == MakePte(0, perm) && MakePte(p, perm) != 0
  {
    var e, f := MakePte(p, perm), MakePte(0, perm);
    assert e == 1024 * p + f && f < 1024;
  }

  /** Growing and then unmapping what was added leaves all data pages where they were. */
  lemma GrownUndone(s: Memory, t: Memory, u: Memory, r: nat, lo: nat, hi: nat, perm: nat)
    requires Users(s) && Grown(s, t, r, lo, hi, perm) && lo <= hi && forall w: nat | lo <= w < hi :: Pte(s, r, w) == 0
    requires UnmapsRange(t, u, r, lo, hi - lo) && ReleasesRange(t, u, r, lo, hi - lo, Free) && SameData(t, u)
    ensures Quiet(s, u, r)
  {
    hide Pte;
  }

  lemma GrownFailed(s: Memory, t: Memory, u: Memory, z: Memory, y: Memory, r: nat, lo: nat, hi: nat, perm: nat, p: nat)
    requires Grown(s, t, r, lo, hi, perm) && SameMaps(t, u) && p < |t.owner| && t.owner[p] == Free &&
             u.owner == t.owner[p := Held] && SameData(t, u)
    requires SameMaps(u, z) && OnlyTables(u, z, r) && SameData(u, z)
    requires SameMaps(z, y) && y.owner == z.owner[p := Free] && |y.mem| == |z.mem| == |z.owner|
    requires forall q | 0 <= q < |z.mem| && q != p :: y.mem[q] == z.mem[q]
    ensures Grown(s, y, r, lo, hi, perm)
  {
    hide Pte;
  }

  lemma PagesMonotone(x: nat, y: nat)
    requires x <= y
    ensures Pages(x) <= Pages(y)
  {
  }

  lemma RoundedUp(x: nat)
    ensures RoundUp(x) % PGSIZE == 0 && RoundUp(x) / PGSIZE == Pages(x)
  {
  }

  /** The pages of one address space below the trapframe are all different. */
  lemma {:induction false} PagesMapped(t: Memory, r: nat, lo: nat, hi: nat) returns (used: set<nat>)
    requires Valid(t) && lo <= hi <= TRAPFRAME_VPN
    requires forall w: nat {:trigger Pte(t, r, w)} | lo <= w < hi :: Pte(t, r, w) != 0
    ensures |used| == hi - lo
    ensures forall x | x in used ::
              x < |t.owner| && t.owner[x].User? && t.owner[x].root == r && lo <= t.owner[x].vpn < hi
    decreases hi
  {
    hide Pte, Valid;
    if lo == hi {
      return {};
    }
    used := PagesMapped(t, r, lo, hi - 1);
    UserOf(t, r, hi - 1);
    used := used + {Pte(t, r, hi - 1) / 1024};
  }

  lemma {:induction false} AtMost(used: set<nat>, n: nat)
    requires forall x | x in used :: x < n
    ensures |used| <= n
  {
    if n > 0 {
      AtMost(used - {n - 1}, n - 1);
      CardinalityLe(used, used - {n - 1} + {n - 1});
    } else {
      assert used == {};
    }
  }

  /** Memory bounds how far an address space has grown. */
  lemma GrownSizes(s: Memory, t: Memory, r: nat, lo: nat, hi: nat, perm: nat)
    requires Valid(s) && Valid(t) && Grown(s, t, r, lo, hi, perm) && lo <= hi
    ensures hi <= TRAPFRAME_VPN ==> hi - lo <= |s.mem|
  {
    hide Pte, Links, TreeShape, Rooted, Chain, Leaves, Users, TablesOwned;
    if hi <= TRAPFRAME_VPN {
      var used := PagesMapped(t, r, lo, hi);
      AtMost(used, |t.owner|);
    }
  }

  lemma PagesAbove(a: nat, y: nat)
    requires a % PGSIZE == 0 && a < y
    ensures a / PGSIZE + 1 <= Pages(y)
  {
  }

  lemma PagesExact(a: nat)
    requires a % PGSIZE == 0
    ensures Pages(a) == a / PGSIZE
  {
  }

  lemma PagesReached(a: nat, y: nat)
    requires a % PGSIZE == 0 && a >= y && a / PGSIZE <= Pages(y)
    ensures a / PGSIZE == Pages(y)
  {
  }

  lemma KeepGrown(s: Memory, t: Memory, u: Memory, r: nat, lo: nat, hi: nat, perm: nat)
    requires Grown(s, t, r, lo, hi, perm) && SameMaps(t, u) && u.owner == t.owner && u.mem == t.mem
    ensures Grown(s, u, r, lo, hi, perm)
  {
    hide Pte;
  }

  lemma GrownNone(s: Memory, r: nat, lo: nat, perm: nat)
    ensures Grown(s, s, r, lo, lo, perm)
  {
    hide Pte;
  }

  lemma GrownEmpty(s: Memory, t: Memory, r: nat, lo: nat, perm: nat)
    requires Grown(s, t, r, lo, lo, perm)
    ensures Quiet(s, t, r)
  {
    hide Pte;
  }

  lemma GrownAt(s: Memory, t: Memory, r: nat, lo: nat, hi: nat, perm: nat, w: nat)
    requires Grown(s, t, r, lo, hi, perm) && w >= hi
    ensures Pte(t, r, w) == Pte(s, r, w)
  {
    hide Pte;
  }

  lemma ValidUsers(s: Memory)
    requires Valid(s)
    ensures Users(s)
  {
  }

  lemma Taken(s: Memory, t: Memory, p: nat)
    requires p < |s.owner| && s.owner[p] == Free && t.owner == s.owner[p := Held] && t.mem == s.mem
    ensures SameData(s, t)
  {
  }

  lemma Filled(s: Memory, t: Memory, u: Memory, p: nat, data: Page)
    requires SameMaps(s, t) && SameMaps(t, u) && p < |s.owner| == |s.mem| && s.owner[p] == Free &&
             t.owner == s.owner[p := Held]
    requires t.mem == s.mem && u.owner == t.owner && u.mem == t.mem[p := data]
    ensures SameMaps(s, u) && SameData(s, u)
  {
    hide Pte;
  }

  lemma RangeQuiet(s: Memory, t: Memory, r: nat, v: nat, p: nat, perm: nat)
    requires MapsRange(s, t, r, v, p, perm, 0) && OwnsRange(s, t, r, v, p, 0)
    ensures SameMaps(s, t) && OnlyTables(s, t, r)
  {
    hide Pte;
  }

  lemma DataAt(s: Memory, t: Memory, p: nat)
    requires SameData(s, t) && p < |s.owner| && p < |s.mem| && Data(s.owner[p]) && Data(t.owner[p])
    ensures t.mem[p] == s.mem[p]
  {
  }

  /** Virtual page `w` of `dst` is a copy of the one of `src`: absent, or with the same bits and contents. */
  ghost predicate CopyOf(s: Memory, t: Memory, src: nat, dst: nat, w: nat) {
    var e, f := Pte(s, src, w), Pte(t, dst, w);
    if e == 0 then f == 0
    else
      f != 0 && f % 1024 == e % 1024 && e / 1024 < |s.mem| && f / 1024 < |t.mem| &&
      t.mem[f / 1024] == s.mem[e / 1024]
  }

  /** The first `hi` virtual pages of `src` have been copied to `dst`, and nothing else happened but
      that free pages became tables and copies. */
  ghost predicate Copied(s: Memory, t: Memory, src: nat, dst: nat, hi: nat) {
    && (forall q: nat, w: nat {:trigger Pte(t, q, w)} | !(q == dst && w < hi) :: Pte(t, q, w) == Pte(s, q, w))
    && (forall w: nat {:trigger CopyOf(s, t, src, dst, w)} | w < hi :: CopyOf(s, t, src, dst, w))
    && |t.owner| == |s.owner|
    && (forall x | 0 <= x < |s.owner| ::
          t.owner[x] == s.owner[x] ||
              (s.owner[x] == Free && (TableOf(t.owner[x], dst) || MappedIn(t.owner[x], dst, 0, hi))))
    && SameData(s, t)
  }

  lemma CopiedNone(s: Memory, src: nat, dst: nat)
    ensures Copied(s, s, src, dst, 0)
  {
    hide Pte;
  }

  lemma CopiedPte(s: Memory, t: Memory, src: nat, dst: nat, hi: nat, q: nat, w: nat)
    requires Copied(s, t, src, dst, hi) && !(q == dst && w < hi)
    ensures Pte(t, q, w) == Pte(s, q, w)
  {
    hide Pte;
  }

  lemma LeafBit(e: nat)
    requires e == 0 || IsLeaf(e)
    ensures e % 2 == 0 <==> e == 0
    ensures e != 0 ==> 2 <= e % 1024
  {
  }

  lemma SourceKept(s: Memory, t: Memory, src: nat, dst: nat, hi: nat, e: nat)
    requires Copied(s, t, src, dst, hi) && src != dst && e / 1024 < |t.owner| && t.owner[e / 1024] == User(src, hi) &&
             |s.mem| == |s.owner|
    ensures e / 1024 < |s.mem| && e / 1024 < |t.mem| && t.mem[e / 1024] == s.mem[e / 1024]
  {
    hide Pte;
  }

  lemma CopiedSkip(s: Memory, t: Memory, src: nat, dst: nat, hi: nat)
    requires Copied(s, t, src, dst, hi) && src != dst && Pte(s, src, hi) == 0 && Pte(s, dst, hi) == 0
    ensures Copied(s, t, src, dst, hi + 1)
  {
    hide Pte;
  }

  /** What was copied stays a copy while other pages are taken and mapped. */
  lemma StillCopy(s: Memory, t: Memory, z: Memory, src: nat, dst: nat, w: nat)
    requires CopyOf(s, t, src, dst, w) && Pte(z, dst, w) == Pte(t, dst, w) && SameData(t, z) && |t.mem| == |t.owner|
    requires Pte(t, dst, w) != 0 ==>
             Pte(t, dst, w) / 1024 < |t.owner| && Data(t.owner[Pte(t, dst, w) / 1024]) &&
             Data(z.owner[Pte(t, dst, w) / 1024])
    ensures CopyOf(s, z, src, dst, w)
  {
    hide Pte;
  }

  lemma CopiedOwners(s: Memory, t: Memory, u: Memory, z: Memory, src: nat, dst: nat, hi: nat, p: nat)
    requires Copied(s, t, src, dst, hi) && p < |t.owner| && t.owner[p] == Free && u.owner == t.owner[p := Held] &&
             SameData(t, u)
    requires hi < TRAPFRAME_VPN && OwnsRange(u, z, dst, hi, p, 1) && SameData(u, z)
    ensures |z.owner| == |s.owner| && SameData(s, z) && SameData(t, z)
    ensures forall x | 0 <= x < |s.owner| ::
              z.owner[x] == s.owner[x] ||
                  (s.owner[x] == Free && (TableOf(z.owner[x], dst) || MappedIn(z.owner[x], dst, 0, hi + 1)))
    ensures forall x | 0 <= x < |s.owner| && Data(t.owner[x]) :: Data(z.owner[x])
  {
    hide Pte, CopyOf;
  }

  lemma NewCopy(s: Memory, z: Memory, src: nat, dst: nat, w: nat, p: nat, e: nat)
    requires e == Pte(s, src, w) && IsLeaf(e) && e / 1024 < |s.mem| && Pte(z, dst, w) == MakePte(p, e % 1024)
    requires p < |z.mem| && z.mem[p] == s.mem[e / 1024]
    ensures CopyOf(s, z, src, dst, w)
  {
    hide Pte;
    MakePteLeaf(p, e % 1024);
    MakePteBits(p, e % 1024);
    assert MakePte(0, e % 1024) == e % 1024;
  }

  lemma CopyStepPtes(t: Memory, u: Memory, z: Memory, dst: nat, hi: nat, p: nat, e: nat)
    requires SameMaps(t, u) && MapsRange(u, z, dst, hi, p, e % 1024, 1)
    ensures forall q: nat, w: nat {:trigger Pte(z, q, w)} ::
              Pte(z, q, w) == if q == dst && w == hi then MakePte(p, e % 1024) else Pte(t, q, w)
  {
    hide Pte, MakePte;
  }

  /** A data page that stays one is still found through its mapping. */
  lemma CopiedOwned(t: Memory, z: Memory, dst: nat, w: nat)
    requires Valid(t) && w < TRAPFRAME_VPN && |z.owner| == |t.owner|
    requires forall x | 0 <= x < |t.owner| && Data(t.owner[x]) :: Data(z.owner[x])
    ensures |t.mem| == |t.owner|
    ensures Pte(t, dst, w) != 0 ==>
            Pte(t, dst, w) / 1024 < |t.owner| && Data(t.owner[Pte(t, dst, w) / 1024]) &&
            Data(z.owner[Pte(t, dst, w) / 1024])
  {
    hide Pte, Users, Chain, Links, TreeShape, Rooted, TablesOwned, IsLeaf;
  }

  lemma CopiedStep(s: Memory, t: Memory, u: Memory, z: Memory, src: nat, dst: nat, hi: nat, p: nat, e: nat)
    requires Copied(s, t, src, dst, hi) && src != dst && hi < TRAPFRAME_VPN && Valid(t)
    requires e == Pte(s, src, hi) && IsLeaf(e) && e / 1024 < |s.mem|
    requires SameMaps(t, u) && p < |t.owner| && t.owner[p] == Free && u.owner == t.owner[p := Held] && SameData(t, u)
    requires MapsRange(u, z, dst, hi, p, e % 1024, 1) && OwnsRange(u, z, dst, hi, p, 1) && SameData(u, z)
    requires p < |z.mem| && z.mem[p] == s.mem[e / 1024]
    ensures Copied(s, z, src, dst, hi + 1)
  {
    hide Pte, MakePte, Users, Chain, Links, TreeShape, Rooted, TablesOwned, SameData, OwnsRange, IsLeaf;
    CopiedOwners(s, t, u, z, src, dst, hi, p);
    CopyStepPtes(t, u, z, dst, hi, p, e);
    NewCopy(s, z, src, dst, hi, p, e);
    forall w: nat | w < hi
      ensures CopyOf(s, z, src, dst, w)
    {
      assert CopyOf(s, t, src, dst, w);
      CopiedOwned(t, z, dst, w);
      StillCopy(s, t, z, src, dst, w);
    }
    hide CopyOf;
  }

  lemma CopiedFailed(s: Memory, t: Memory, u: Memory, z: Memory, y: Memory, src: nat, dst: nat, hi: nat, p: nat)
    requires Copied(s, t, src, dst, hi) && SameMaps(t, u) && p < |t.owner| && t.owner[p] == Free &&
             u.owner == t.owner[p := Held] && SameData(t, u)
    requires SameMaps(u, z) && OnlyTables(u, z, dst) && SameData(u, z)
    requires SameMaps(z, y) && y.owner == z.owner[p := Free] && |y.mem| == |z.mem| == |z.owner|
    requires forall q | 0 <= q < |z.mem| && q != p :: y.mem[q] == z.mem[q]
    ensures Spread(s, y, dst, hi)
  {
    hide Pte, CopyOf;
  }

  /** What Copied says of mappings and owners alone. */
  ghost predicate Spread(s: Memory, t: Memory, dst: nat, hi: nat) {
    && (forall q: nat, w: nat {:trigger Pte(t, q, w)} | !(q == dst && w < hi) :: Pte(t, q, w) == Pte(s, q, w))
    && |t.owner| == |s.owner|
    && (forall x | 0 <= x < |s.owner| ::
          t.owner[x] == s.owner[x] ||
              (s.owner[x] == Free && (TableOf(t.owner[x], dst) || MappedIn(t.owner[x], dst, 0, hi))))
    && SameData(s, t)
  }

  lemma SpreadUndone(s: Memory, t: Memory, u: Memory, dst: nat, hi: nat)
    requires Users(s) && Spread(s, t, dst, hi) && forall w: nat | w < hi :: Pte(s, dst, w) == 0
    requires UnmapsRange(t, u, dst, 0, hi) && ReleasesRange(t, u, dst, 0, hi, Free) && SameData(t, u)
    ensures Quiet(s, u, dst)
  {
    hide Pte;
  }

  lemma SpreadSame(s: Memory, t: Memory, u: Memory, src: nat, dst: nat, hi: nat)
    requires Copied(s, t, src, dst, hi) && SameMaps(t, u) && u.owner == t.owner && u.mem == t.mem
    ensures Spread(s, u, dst, hi)
  {
    hide Pte, CopyOf;
  }

  // ----- tearing page tables down -----

  /** The table at level `l` (or the table itself) above table `c`. */
  function Up(c: Key, l: nat): Key {
    if c.level >= l then c else Parent(Up(c, l - 1))
  }

  /** The tables at or below `k`. */
  ghost function Subtree(tbl: map<Key, nat>, k: Key): set<Key> {
    set c | c in tbl && c.level <= k.level && Up(c, k.level) == k
  }

  /** The tables below the first `i` entries of `k`. */
  ghost function Branches(tbl: map<Key, nat>, k: Key, i: nat): set<Key> {
    set c | c in tbl && c.level < k.level && Up(c, k.level) == k && Up(c, k.level - 1).prefix % 512 < i
  }

  lemma UpLevel(c: Key, l: nat)
    requires c.level <= l
    ensures Up(c, l).level == l
  {
  }

  lemma BranchesNext(tbl: map<Key, nat>, k: Key, i: nat)
    requires k.level > 0 && i < 512
    ensures Branches(tbl, k, i) + Subtree(tbl - Branches(tbl, k, i), Child(k, i)) == Branches(tbl, k, i + 1)
    ensures Child(k, i) !in Branches(tbl, k, i)
  {
    forall c | c in tbl && c.level < k.level
      ensures Up(c, k.level - 1) == Child(k, i) <==> Up(c, k.level) == k && Up(c, k.level - 1).prefix % 512 == i
    {
      UpLevel(c, k.level - 1);
      ChildOf(k, i, Up(c, k.level - 1));
    }
    hide Up;
    assert forall c | c in Branches(tbl, k, i + 1) ::
           c in Branches(tbl, k, i) || c in Subtree(tbl - Branches(tbl, k, i), Child(k, i));
  }

  lemma BranchesEmpty(tbl: map<Key, nat>, k: Key, i: nat)
    requires k.level == 0 || i == 0
    ensures Branches(tbl, k, i) == {}
  {
  }

  lemma BranchesAll(tbl: map<Key, nat>, k: Key)
    requires k in tbl
    ensures Branches(tbl, k, 512) + {k} == Subtree(tbl, k) && k !in Branches(tbl, k, 512)
  {
    forall c | c in Subtree(tbl, k)
      ensures c in Branches(tbl, k, 512) + {k}
    {
      UpLevel(c, k.level);
    }
  }

  /** The tables `gone`, and nothing else, are free again; no mapping and no data changed. */
  ghost predicate Freed(s: Memory, t: Memory, gone: set<Key>) {
    && t.tbl == s.tbl - gone
    && |t.owner| == |s.owner|
    && (forall x | 0 <= x < |s.owner| ::
        t.owner[x] == if s.owner[x].Table? && s.owner[x].key in gone then Free else s.owner[x])
    && SameMaps(s, t) && SameData(s, t)
  }

  lemma FreedNone(s: Memory, t: Memory)
    requires t.tbl == s.tbl && t.owner == s.owner && SameMaps(s, t) && SameData(s, t)
    ensures Freed(s, t, {})
  {
    hide Pte;
  }

  lemma FreedAppend(s: Memory, t: Memory, u: Memory, g: set<Key>, h: set<Key>)
    requires Freed(s, t, g) && Freed(t, u, h)
    ensures Freed(s, u, g + h)
  {
    hide Pte;
    assert s.tbl - g - h == s.tbl - (g + h);
  }

  lemma SlotCleared(s: Memory, k: Key)
    requires Good(s) && s.dangling == {k} && k !in s.tbl && Parent(k) in s.tbl && k.level < 2
    ensures Freed(s, ClearSlot(s, k), {})
  {
    ClearSlotKeeps(s, k);
    hide Pte, Links, Leaves, Users, Chain, TreeShape, Rooted;
    assert s.owner[s.tbl[Parent(k)]].Table?;
    FreedNone(s, ClearSlot(s, k));
  }

  lemma TableFreed(s: Memory, t: Memory, u: Memory, k: Key)
    requires Valid(s) && k in s.tbl && t == DropTable(s, k) && SameMaps(s, t)
    requires SameMaps(t, u) && u.tbl == t.tbl && u.owner == t.owner[s.tbl[k] := Free] && |u.mem| == |t.mem|
    requires forall q | 0 <= q < |t.mem| && q != s.tbl[k] :: u.mem[q] == t.mem[q]
    ensures Freed(s, u, {k})
  {
    hide Pte, Links, Leaves, Users, Chain, TreeShape, Rooted;
  }

  /** An entry of a table of `r` when `r` maps nothing: 0, or a pointer to a table. */
  lemma EmptyEntry(s: Memory, k: Key, i: nat)
    requires Valid(s) && k in s.tbl && i < 512 && forall v: nat :: Pte(s, k.root, v) == 0
    ensures s.tbl[k] < |s.mem| && |s.mem[s.tbl[k]]| == 512 && Entry(s, k, i) == s.mem[s.tbl[k]][i]
    ensures k.level == 0 || Child(k, i) !in s.tbl ==> Entry(s, k, i) == 0
    ensures k.level > 0 && Child(k, i) in s.tbl ==> Entry(s, k, i) == s.tbl[Child(k, i)] * 1024 + 1
  {
    if k.level == 0 {
      var v := k.prefix * 512 + i;
      assert Pte(s, k.root, v) == 0 && LeafKey(k.root, v) == k && v % 512 == i;
    }
  }

  lemma TableEntryBits(p: nat)
    ensures (p * 1024 + 1) % 2 == 1 && (p * 1024 + 1) / 2 % 8 == 0 && (p * 1024 + 1) / 1024 == p
  {
    EntryBits(p);
    var e, o := p * 1024 + 1, p * 64;
    assert e / 2 == p * 512 && p * 512 == 8 * o;
  }

  lemma MapsNothing(s: Memory, t: Memory, r: nat)
    requires SameMaps(s, t) && forall v: nat :: Pte(s, r, v) == 0
    ensures forall v: nat :: Pte(t, r, v) == 0
  {
    hide Pte;
  }

  lemma FreedMaps(s: Memory, t: Memory, gone: set<Key>, r: nat)
    requires Freed(s, t, gone) && forall v: nat :: Pte(s, r, v) == 0
    ensures (forall v: nat :: Pte(t, r, v) == 0) && t.tbl == s.tbl - gone
  {
    hide Pte;
  }

  lemma NoSubtree(s: Memory, c: Key)
    requires Valid(s) && c !in s.tbl && c.level <= 2
    ensures Subtree(s.tbl, c) == {}
  {
    forall d | d in s.tbl && d.level <= c.level
      ensures Up(d, c.level) in s.tbl
    {
      UpIn(s, d, c.level);
    }
  }

  lemma UpIn(s: Memory, d: Key, l: nat)
    requires Rooted(s) && d in s.tbl && d.level <= l <= 2
    ensures Up(d, l) in s.tbl
  {
    if d.level < l {
      UpIn(s, d, l - 1);
      UpLevel(d, l - 1);
    }
  }

  /** Below a freed table nothing is left; the table above is. */
  lemma FreedTable(s: Memory, t: Memory, c: Key, k: Key)
    requires Freed(s, t, Subtree(s.tbl, c)) && k in s.tbl && c.level < k.level && k == Parent(c)
    ensures k in t.tbl && t.tbl[k] == s.tbl[k] && c !in t.tbl
  {
  }

  lemma SameSelf(s: Memory)
    ensures SameMaps(s, s) && SameData(s, s)
  {
  }

  lemma AllZero(s: Memory, t: Memory, k: Key)
    requires Valid(t) && k in t.tbl && k in s.tbl && Freed(s, t, Branches(s.tbl, k, 512)) &&
             forall v: nat :: Pte(s, k.root, v) == 0
    ensures t.tbl[k] < |t.owner| && forall i | 0 <= i < 512 :: Entry(t, k, i) == 0
  {
    FreedMaps(s, t, Branches(s.tbl, k, 512), k.root);
    assert t.tbl[k] < |t.owner|;
    hide Pte, Entry, Valid, Freed;
    forall i: nat | i < 512
      ensures Entry(t, k, i) == 0
    {
      EmptyEntry(t, k, i);
      if k.level > 0 {
        ChildOf(k, i, Child(k, i));
        assert Up(Child(k, i), k.level) == Parent(Child(k, i)) == k;
      }
    }
  }

  lemma MappedNothing(s: Memory, t: Memory, r: nat)
    requires SameMaps(s, t) && forall v: nat :: Pte(t, r, v) == 0
    ensures forall v: nat :: Pte(s, r, v) == 0
  {
    hide Pte;
    forall v: nat
      ensures Pte(s, r, v) == 0
    {
      assert Pte(t, r, v) == 0;
    }
  }

  /** Everything page table `r` had is free again, and nothing else has changed. */
  ghost predicate Released(s: Memory, t: Memory, r: nat) {
    && |t.owner| == |s.owner|
    && (forall x | 0 <= x < |s.owner| ::
          t.owner[x] == if (s.owner[x].User? && s.owner[x].root == r) || TableOf(s.owner[x], r) then Free
                        else s.owner[x])
    && (forall k | k in t.tbl :: k.root != r)
    && (forall q: nat, v: nat {:trigger Pte(t, q, v)} | q != r :: Pte(t, q, v) == Pte(s, q, v))
    && SameData(s, t)
  }

  lemma UpRoot(c: Key)
    requires c.level <= 2 && c.prefix < Width(c.level)
    ensures Up(c, 2) == Key(c.root, 2, 0)
  {
    if c.level < 2 {
      assert Up(c, 2) == Parent(Up(c, 1));
      if c.level == 0 {
        assert Up(c, 1) == Parent(Up(c, 0)) == Key(c.root, 1, c.prefix / 512);
      }
    }
  }

  /** The tables of `r` are those below its root. */
  lemma RootSubtree(s: Memory, r: nat)
    requires TreeShape(s)
    ensures forall c | c in s.tbl :: c in Subtree(s.tbl, Key(r, 2, 0)) <==> c.root == r
  {
    hide Up, Width;
    forall c | c in s.tbl
      ensures Up(c, 2) == Key(c.root, 2, 0)
    {
      UpRoot(c);
    }
  }

  /** Once nothing is mapped from `n` up, the pages released below `n` are all that `r` had. */
  lemma ReleasesAll(s: Memory, t: Memory, r: nat, n: nat)
    requires Users(s) && ReleasesRange(s, t, r, 0, n, Free) && forall v: nat | v >= n :: Pte(s, r, v) == 0
    ensures forall x | 0 <= x < |s.owner| ::
            t.owner[x] == if s.owner[x].User? && s.owner[x].root == r then Free else s.owner[x]
  {
    hide Pte;
  }

  lemma ReleasedData(s: Memory, t: Memory, u: Memory)
    requires SameData(s, t) && SameData(t, u) && |t.owner| == |s.owner|
    requires forall x | 0 <= x < |s.owner| :: t.owner[x] == s.owner[x] || t.owner[x] == Free
    requires forall x | 0 <= x < |s.owner| :: u.owner[x] == t.owner[x] || u.owner[x] == Free
    ensures SameData(s, u)
  {
  }

  lemma AllReleased(s: Memory, t: Memory, u: Memory, r: nat, n: nat)
    requires Valid(s) && UnmapsRange(s, t, r, 0, n) && ReleasesRange(s, t, r, 0, n, Free) && SameData(s, t) &&
             t.tbl == s.tbl
    requires Freed(t, u, Subtree(t.tbl, Key(r, 2, 0))) && forall v: nat | v >= n :: Pte(s, r, v) == 0
    ensures Released(s, u, r)
  {
    hide Pte, Links, Leaves, Chain, Rooted, Subtree, Users, SameData, TreeShape;
    RootSubtree(s, r);
    ReleasesAll(s, t, r, n);
    ReleasedData(s, t, u);
  }

  lemma EmptiedRange(s: Memory, t: Memory, r: nat, n: nat)
    requires UnmapsRange(s, t, r, 0, n) && forall v: nat | v >= n :: Pte(s, r, v) == 0
    ensures forall v: nat :: Pte(t, r, v) == 0
  {
    hide Pte;
  }

  /** Nothing is mapped above `n` but the trapframe and the trampoline. */
  ghost predicate UserBelow(s: Memory, r: nat, n: nat) {
    forall v: nat {:trigger Pte(s, r, v)} | v >= n && v != TRAPFRAME_VPN && v != TRAPFRAME_VPN + 1 :: Pte(s, r, v) == 0
  }

  /** Unmapping a page above user memory gives up no page. */
  lemma SystemUnmapped(s: Memory, t: Memory, r: nat, v: nat)
    requires Users(s) && v >= TRAPFRAME_VPN && ReleasesRange(s, t, r, v, 1, Held)
    ensures t.owner == s.owner
  {
    hide Pte;
  }

  lemma SystemReleased(s: Memory, t: Memory, u: Memory, z: Memory, r: nat)
    requires t.owner == s.owner && u.owner == s.owner && Released(u, z, r) && SameData(s, t) && SameData(t, u)
    requires UnmapsRange(s, t, r, TRAPFRAME_VPN + 1, 1) && UnmapsRange(t, u, r, TRAPFRAME_VPN, 1)
    ensures Released(s, z, r)
  {
    hide Pte;
  }

  lemma SystemEmptied(s: Memory, t: Memory, u: Memory, r: nat, n: nat)
    requires UserBelow(s, r, n)
    requires UnmapsRange(s, t, r, TRAPFRAME_VPN + 1, 1) && UnmapsRange(t, u, r, TRAPFRAME_VPN, 1)
    ensures forall v: nat | v >= n :: Pte(u, r, v) == 0
  {
    hide Pte;
  }

  lemma SameMapsTransitive(s: Memory, t: Memory, u: Memory)
    requires SameMaps(s, t) && SameMaps(t, u)
    ensures SameMaps(s, u)
  {
    hide Pte;
  }

  /** Page table `r` maps the trampoline and (if m > 0) the trapframe; no other mapping differs. */
  ghost predicate MapsSystem(s: Memory, t: Memory, r: nat, trampoline: nat, trapframe: nat, m: nat) {
    forall q: nat, v: nat {:trigger Pte(t, q, v)} ::
      Pte(t, q, v) == if q == r && v == TRAPFRAME_VPN + 1 then MakePte(trampoline, 0xa)
                      else if q == r && v == TRAPFRAME_VPN && m > 0 then MakePte(trapframe, 6)
                      else Pte(s, q, v)
  }

  lemma MapsSystemly(s: Memory, t: Memory, u: Memory, z: Memory, r: nat, trampoline: nat, trapframe: nat, m: nat)
    requires SameMaps(s, t) && m <= 1
    requires MapsRange(t, u, r, TRAPFRAME_VPN + 1, trampoline, 0xa, 1) &&
             MapsRange(u, z, r, TRAPFRAME_VPN, trapframe, 6, m)
    ensures MapsSystem(s, z, r, trampoline, trapframe, m)
  {
    hide Pte, MakePte;
  }

  /** A page table `r` has been made out of pages that were free, and maps no user page. */
  ghost predicate Building(s: Memory, t: Memory, r: nat) {
    && r < |s.owner| && s.owner[r] == Free && OnlyTables(s, t, r)
    && (forall q: nat, v: nat {:trigger Pte(t, q, v)} | q != r :: Pte(t, q, v) == Pte(s, q, v))
  }

  lemma BuildingStarts(s: Memory, t: Memory, r: nat)
    requires r < |s.owner| && s.owner[r] == Free && SameMaps(s, t) && t.owner == s.owner[r := Table(Key(r, 2, 0))]
    ensures Building(s, t, r)
  {
    hide Pte;
  }

  lemma BuildingMaps(s: Memory, t: Memory, u: Memory, r: nat, v: nat, p: nat, perm: nat, m: nat)
    requires Building(s, t, r) && MapsRange(t, u, r, v, p, perm, m) && OwnsRange(t, u, r, v, p, m) && v >= TRAPFRAME_VPN
    ensures Building(s, u, r)
  {
    hide Pte, MakePte;
  }

  lemma BuildingUnmaps(s: Memory, t: Memory, u: Memory, r: nat, v: nat)
    requires Building(s, t, r) && UnmapsRange(t, u, r, v, 1) && u.owner == t.owner
    ensures Building(s, u, r)
  {
    hide Pte;
  }

  lemma NoneMapped(s: Memory, t: Memory, r: nat, v: nat, p: nat, perm: nat)
    requires MapsRange(s, t, r, v, p, perm, 0) && forall w: nat :: Pte(s, r, w) == 0
    ensures forall w: nat :: Pte(t, r, w) == 0
  {
    hide Pte, MakePte;
  }

  lemma SystemGone(s: Memory, t: Memory, u: Memory, r: nat, trampoline: nat, trapframe: nat)
    requires MapsSystem(s, t, r, trampoline, trapframe, 0) && UnmapsRange(t, u, r, TRAPFRAME_VPN + 1, 1) &&
             forall w: nat :: Pte(s, r, w) == 0
    ensures forall w: nat :: Pte(u, r, w) == 0
  {
    hide Pte, MakePte;
  }

  /** Where there was no page table, none has tables or user pages. */
  lemma NotYetUsed(s: Memory, r: nat)
    requires Valid(s) && r < |s.owner| && s.owner[r] == Free && forall v: nat :: Pte(s, r, v) == 0
    ensures forall x | 0 <= x < |s.owner| :: !TableOf(s.owner[x], r) && !(s.owner[x].User? && s.owner[x].root == r)
  {
    hide Pte, Links, Leaves, Chain;
    forall x | 0 <= x < |s.owner|
      ensures !TableOf(s.owner[x], r)
    {
      if s.owner[x].Table? {
        RootSubtree(s, r);
        UpIn(s, s.owner[x].key, 2);
      }
    }
  }

  /** A page table made from free pages and given up again leaves every page where it was. */
  lemma RootUndone(s: Memory, t: Memory, u: Memory, r: nat)
    requires Valid(s) && Building(s, t, r) && Released(t, u, r) && Valid(u) && forall v: nat :: Pte(s, r, v) == 0
    ensures u.owner == s.owner && SameMaps(s, u)
  {
    NotYetUsed(s, r);
    NoRoot(u, r);
    hide Pte, Valid;
  }

  ghost predicate HeldAt(owner: seq<Use>, x: nat) { x < |owner| && owner[x] == Held }
}
