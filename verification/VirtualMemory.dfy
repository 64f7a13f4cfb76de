/** kernel/kalloc.c and the page-table operations of kernel/vm.c and kernel/proc.c, updating memory in place. */
module VirtualMemory {
  import opened Common
  import opened PageModel
  import opened PageFrames

  class Vm {
    var mem: seq<Page>
    var freelist: nat
    ghost var free: seq<nat>
    ghost var pos: seq<nat>
    ghost var owner: seq<Use>
    ghost var tbl: map<Key, nat>
    ghost var dangling: set<Key>
    ghost var refused: nat   // how often kalloc() has found the free list empty

    ghost function State(): Memory
      reads this
    {
      Memory(mem, freelist, free, pos, owner, tbl, dangling)
    }

    /** Memory of `n` pages of which those from `first` on are for the allocator; none is on the free list yet. */
    constructor (n: nat, first: nat)
      requires 0 < first <= n
      ensures Valid(State()) && tbl == map[] && |owner| == n
      ensures forall p | 0 <= p < n :: owner[p] == if p < first then Reserved else Held
    {
      mem := seq(n, p => ZeroPage());
      freelist := 0;
      free, pos := [], seq(n, p => 0);
      owner := seq(n, p => if p < first then Reserved else Held);
      tbl, dangling, refused := map[], {}, 0;
    }

    /** Puts the pages that lie wholly within `lo`..`hi` on the free list. */
    method Freerange(lo: nat, hi: nat)
      requires Good(State()) && forall p: nat | Pages(lo) <= p < hi / PGSIZE :: HeldAt(owner, p)
      modifies this
      ensures Good(State()) && SameMaps(old(State()), State()) && tbl == old(tbl) && dangling == old(dangling) &&
              |owner| == |old(owner)|
      ensures forall p | 0 <= p < |owner| :: owner[p] == if Pages(lo) <= p < hi / PGSIZE then Free else old(owner)[p]
      ensures refused == old(refused)
    {
      hide Good, SameMaps, Pages;
      ghost var s, first := State(), Pages(lo);
      SameSelf(s);
      PagesExact(RoundUp(lo));
      var a := RoundUp(lo);
      while a + PGSIZE <= hi
        invariant refused == old(refused)
        invariant a % PGSIZE == 0 && first <= a / PGSIZE && (a / PGSIZE == first || a <= hi)
        invariant Good(State()) && SameMaps(s, State()) && tbl == s.tbl && dangling == s.dangling &&
                  |owner| == |s.owner|
        invariant forall p | 0 <= p < |owner| :: owner[p] == if first <= p < a / PGSIZE then Free else s.owner[p]
      {
        ghost var t := State();
        assert HeldAt(s.owner, a / PGSIZE);
        Kfree(a / PGSIZE);
        SameMapsTransitive(s, t, State());
        a := a + PGSIZE;
      }
    }

    /** Takes a page off the free list; 0 if there is none. */
    method Kalloc() returns (p: nat)
      requires Good(State())
      modifies this
      ensures Good(State()) && SameMaps(old(State()), State())
      ensures mem == old(mem) && tbl == old(tbl) && dangling == old(dangling)
      ensures p == 0 ==> owner == old(owner) && Full(State())
      ensures p != 0 ==> p < |owner| && old(owner)[p] == Free && owner == old(owner)[p := Held]
      ensures refused == old(refused) + if p == 0 then 1 else 0
    {
      hide Entry, Pte, Links, Leaves, Users, TreeShape, Rooted, TablesOwned;
      ghost var s := State();
      p := freelist;
      if p != 0 {
        TakeKeeps(s);
        freelist := mem[p][0];
        free, owner := free[..|free| - 1], owner[p := Held];
        assert State() == Take(s);
      } else {
        refused := refused + 1;
      }
    }

    /** Puts a page back on the free list. */
    method Kfree(p: nat)
      requires Good(State()) && p < |owner| && owner[p] == Held
      modifies this
      ensures Good(State()) && SameMaps(old(State()), State())
      ensures tbl == old(tbl) && dangling == old(dangling) && owner == old(owner)[p := Free]
      ensures |mem| == |old(mem)| && forall q | 0 <= q < |mem| && q != p :: mem[q] == old(mem)[q]
      ensures refused == old(refused)
    {
      hide Entry, Pte, Links, Leaves, Users, TreeShape, Rooted, TablesOwned, Chain;
      ghost var s := State();
      GiveKeeps(s, p);
      mem := mem[p := Put(mem[p], 0, freelist)];
      freelist := p;
      free, pos, owner := free + [p], pos[p := |free|], owner[p := Free];
      assert State() == Give(s, p);
    }

    /** One turn of walk()'s loop: from the table `t` of level `level` to the next one down. */
    method Descend(root: nat, va: nat, level: nat, t: nat, alloc: bool) returns (u: nat)
      requires Valid(State()) && va < MAXVA && 0 < level <= 2
      requires Path(root, va / PGSIZE, level) in tbl && tbl[Path(root, va / PGSIZE, level)] == t
      modifies this
      ensures Valid(State()) && Quiet(old(State()), State(), root)
      ensures u != 0 ==> Path(root, va / PGSIZE, level - 1) in tbl && tbl[Path(root, va / PGSIZE, level - 1)] == u
      ensures !alloc || Path(root, va / PGSIZE, level - 1) in old(tbl) ==> State() == old(State())
      ensures u == 0 ==> Path(root, va / PGSIZE, level - 1) !in tbl && (alloc ==> Full(State()))
      ensures forall k | k in old(tbl) :: k in tbl && tbl[k] == old(tbl)[k]
      ensures refused == old(refused) + if alloc && u == 0 then 1 else 0
    {
      hide Entry, Pte, Leaves, Users, Chain, Links, TreeShape, Rooted, SameMaps;
      ghost var s, k := State(), Path(root, va / PGSIZE, level - 1);
      PathStep(root, va, level);
      StepDown(s, Path(root, va / PGSIZE, level), Px(level, va));
      var e := mem[t][Px(level, va)];
      assert e % 2 == 1 <==> k in tbl;
      if e % 2 == 1 {
        QuietReflexive(s, root);
        return e / 1024;
      }
      if !alloc {
        QuietReflexive(s, root);
        return 0;
      }
      var p := Kalloc();
      if p == 0 {
        return 0;
      }
      ghost var w := State();
      AddTableKeeps(w, k, p);
      AddTableQuiet(s, w, k, p);
      mem := mem[p := ZeroPage()];
      mem := mem[t := Put(mem[t], Px(level, va), p * 1024 + 1)];
      owner, tbl := owner[p := Table(k)], tbl[k := p];
      assert State() == AddTable(w, k, p);
      hide Quiet;
      return p;
    }

    /** The page-table page that holds the entry for `va` (entry Px(0, va) of it); 0 if there is none.
        With `alloc`, tables on the way are created, which maps nothing. */
    method Walk(root: nat, va: nat, alloc: bool) returns (t: nat)
      requires Valid(State()) && va < MAXVA && Key(root, 2, 0) in tbl
      modifies this
      ensures Valid(State()) && Quiet(old(State()), State(), root)
      ensures t != 0 ==> LeafKey(root, va / PGSIZE) in tbl && tbl[LeafKey(root, va / PGSIZE)] == t
      ensures !alloc || LeafKey(root, va / PGSIZE) in old(tbl) ==> State() == old(State())
      ensures t == 0 ==> LeafKey(root, va / PGSIZE) !in tbl && (alloc ==> Full(State()))
      ensures forall k | k in old(tbl) :: k in tbl && tbl[k] == old(tbl)[k]
      ensures refused == old(refused) + if alloc && t == 0 then 1 else 0
    {
      hide Valid, Quiet, Full;
      ghost var s := State();
      TopOfPath(s, root, va / PGSIZE);
      QuietReflexive(s, root);
      t := root;
      var level := 2;
      while level > 0
        invariant refused == old(refused)
        invariant 0 <= level <= 2 && Valid(State()) && Quiet(s, State(), root)
        invariant Path(root, va / PGSIZE, level) in tbl && tbl[Path(root, va / PGSIZE, level)] == t != 0
        invariant !alloc || LeafKey(root, va / PGSIZE) in s.tbl ==> State() == s
        invariant forall k | k in s.tbl :: k in tbl && tbl[k] == s.tbl[k]
      {
        ghost var w := State();
        PathClosed(w, root, va, level - 1);
        t := Descend(root, va, level, t, alloc);
        QuietTransitive(s, w, State(), root);
        if t == 0 {
          PathClosed(State(), root, va, level - 1);
          return;
        }
        level := level - 1;
      }
    }

    /** One turn of mappages()'s loop: maps the page at `a` to the one at `x`. */
    method MapOne(root: nat, a: nat, x: nat, perm: nat) returns (ok: bool)
      requires Valid(State()) && Key(root, 2, 0) in tbl && a < MAXVA && 2 <= perm < 1024
      requires Pte(State(), root, a / PGSIZE) == 0
      requires a / PGSIZE < TRAPFRAME_VPN ==> x / PGSIZE < |owner| && owner[x / PGSIZE] == Held
      modifies this
      ensures Valid(State()) && (forall k | k in old(tbl) :: k in tbl) && (!ok ==> Full(State()))
      ensures MapsRange(old(State()), State(), root, a / PGSIZE, x / PGSIZE, perm, if ok then 1 else 0)
      ensures OwnsRange(old(State()), State(), root, a / PGSIZE, x / PGSIZE, if ok then 1 else 0)
      ensures SameData(old(State()), State())
      ensures refused == old(refused) + if ok then 0 else 1
    {
      hide Pte, Full, SameMaps, MapsRange, OwnsRange, SameData, Leaves, Users, Links, TreeShape, Rooted, Chain, MakePte;
      hide IsLeaf;
      ghost var s, v, p := State(), a / PGSIZE, x / PGSIZE;
      var t := Walk(root, a, true);
      ghost var u := State();
      if t == 0 {
        RangeEmpty(s, u, root, v, p, perm);
        return false;
      }
      QuietPte(s, u, root, v);
      MakePteLeaf(p, perm);
      AddLeafKeeps(u, root, v, MakePte(p, perm));
      RangeOne(s, u, root, v, p, perm);
      mem := mem[t := Put(mem[t], Px(0, a), MakePte(x / PGSIZE, perm))];
      owner := Mapped(owner, p, root, v);
      assert State() == AddLeaf(u, root, v, MakePte(p, perm));
      return true;
    }

    /** Maps `size` bytes at `va` to physical memory at `pa`. On -1, no page was left for a table, and
        only the first `m` pages have been mapped. */
    method Mappages(root: nat, va: nat, size: nat, pa: nat, perm: nat) returns (r: int, ghost m: nat)
      requires Valid(State()) && Key(root, 2, 0) in tbl
      requires va % PGSIZE == 0 && size % PGSIZE == 0 && size > 0 && va + size <= MAXVA && 2 <= perm < 1024
      requires forall w: nat | va / PGSIZE <= w < va / PGSIZE + size / PGSIZE :: Pte(State(), root, w) == 0
      requires forall x: nat | pa / PGSIZE <= x < pa / PGSIZE + size / PGSIZE &&
               va / PGSIZE + (x - pa / PGSIZE) < TRAPFRAME_VPN ::
                 HeldAt(owner, x)
      modifies this
      ensures Valid(State()) && m <= size / PGSIZE && forall k | k in old(tbl) :: k in tbl
      ensures r == if m == size / PGSIZE then 0 else -1
      ensures r != 0 ==> Full(State())
      ensures MapsRange(old(State()), State(), root, va / PGSIZE, pa / PGSIZE, perm, m)
      ensures OwnsRange(old(State()), State(), root, va / PGSIZE, pa / PGSIZE, m)
      ensures SameData(old(State()), State())
      ensures refused == old(refused) + if r == 0 then 0 else 1
    {
      hide Valid, Full, SameData, Pte, Quiet, MapsRange, MakePte;
      ghost var s := State();
      ghost var v, p, n := va / PGSIZE, pa / PGSIZE, size / PGSIZE;
      QuietReflexive(s, root);
      RangeEmpty(s, s, root, v, p, perm);
      var a, x, last := va, pa, va + size - PGSIZE;
      m := 0;
      while true
        invariant refused == old(refused)
        invariant m < n && a == va + m * PGSIZE && x == pa + m * PGSIZE
        invariant Valid(State()) && (forall k | k in s.tbl :: k in tbl)
        invariant MapsRange(s, State(), root, v, p, perm, m) && OwnsRange(s, State(), root, v, p, m) &&
                  SameData(s, State())
        decreases n - m
      {
        ghost var t := State();
        assert a / PGSIZE == v + m && x / PGSIZE == p + m;
        RangeAt(s, t, root, v, p, perm, m, v + m);
        assert v + m < TRAPFRAME_VPN ==> HeldAt(s.owner, p + m);
        var ok := MapOne(root, a, x, perm);
        ghost var d := if ok then 1 else 0;
        MapsAppend(s, t, State(), root, v, p, perm, m, d);
        OwnsAppend(s, t, State(), root, v, p, m, d);
        SameDataTransitive(s, t, State());
        m := m + d;
        if !ok {
          return -1, m;
        }
        if a == last {
          break;
        }
        a := a + PGSIZE;
        x := x + PGSIZE;
      }
      return 0, m;
    }

    /** One turn of uvmunmap()'s loop. (The source frees the page before it clears the entry; the two
        stores are to different pages.) */
    method UnmapOne(root: nat, a: nat, doFree: bool)
      requires Valid(State()) && Key(root, 2, 0) in tbl && a < MAXVA
      requires doFree ==> a / PGSIZE < TRAPFRAME_VPN
      modifies this
      ensures Valid(State()) && tbl == old(tbl)
      ensures UnmapsRange(old(State()), State(), root, a / PGSIZE, 1)
      ensures ReleasesRange(old(State()), State(), root, a / PGSIZE, 1, if doFree then Free else Held)
      ensures SameData(old(State()), State())
      ensures refused == old(refused)
    {
      hide Pte, SameMaps, UnmapsRange, ReleasesRange, SameData, Links, TreeShape, Rooted, Chain, Leaves, Users;
      hide TablesOwned, Quiet, Full;
      ghost var s, v := State(), a / PGSIZE;
      var t := Walk(root, a, false);
      hide Path, Px;
      if t == 0 {
        AbsentPte(s, root, v);
        Unmapped0(s, root, v, if doFree then Free else Held);
        return;
      }
      LeafSlot(s, root, a);
      var e := mem[t][Px(0, a)];
      if e % 2 == 0 {
        Unmapped0(s, root, v, if doFree then Free else Held);
        return;
      }
      assert IsLeaf(e);
      RemoveLeafKeeps(s, root, v);
      LeafReleased(s, root, v);
      mem := mem[t := Put(mem[t], Px(0, a), 0)];
      owner := Unmapped(owner, e / 1024, v);
      assert State() == RemoveLeaf(s, root, v);
      if doFree {
        UserOf(s, root, v);
        ghost var u := State();
        Kfree(e / 1024);
        ReleasedFree(s, u, State(), root, v, e / 1024);
      }
    }

    /** Removes the mappings of `npages` pages at `va`, those that exist, and frees the pages if `doFree`. */
    method Uvmunmap(root: nat, va: nat, npages: nat, doFree: bool)
      requires Valid(State()) && Key(root, 2, 0) in tbl && va % PGSIZE == 0 && va + npages * PGSIZE <= MAXVA
      requires doFree ==> va + npages * PGSIZE <= TRAPFRAME
      modifies this
      ensures Valid(State()) && tbl == old(tbl)
      ensures UnmapsRange(old(State()), State(), root, va / PGSIZE, npages)
      ensures ReleasesRange(old(State()), State(), root, va / PGSIZE, npages, if doFree then Free else Held)
      ensures SameData(old(State()), State())
      ensures refused == old(refused)
    {
      hide Pte, SameMaps, UnmapsRange, Valid;
      ghost var s, v, to, m := State(), va / PGSIZE, if doFree then Free else Held, 0;
      UnmapNone(s, root, v, to);
      var a := va;
      while a < va + npages * PGSIZE
        invariant refused == old(refused)
        invariant 0 <= m <= npages && a == va + m * PGSIZE
        invariant Valid(State()) && tbl == s.tbl
        invariant UnmapsRange(s, State(), root, v, m) && ReleasesRange(s, State(), root, v, m, to) &&
                  SameData(s, State())
        decreases npages - m
      {
        ghost var t := State();
        assert a / PGSIZE == v + m;
        UnmapOne(root, a, doFree);
        UnmapAppend(s, t, State(), root, v, m, 1, to);
        SameDataTransitive(s, t, State());
        a := a + PGSIZE;
        m := m + 1;
      }
    }

    /** Shrinks user memory from `oldsz` to `newsz` bytes, freeing the pages above. */
    method Uvmdealloc(root: nat, oldsz: nat, newsz: nat) returns (sz: nat)
      requires Valid(State()) && Key(root, 2, 0) in tbl && (newsz < oldsz ==> oldsz <= TRAPFRAME)
      modifies this
      ensures Valid(State()) && tbl == old(tbl) && sz == if newsz < oldsz then newsz else oldsz
      ensures UnmapsRange(old(State()), State(), root, Pages(sz), Pages(oldsz) - Pages(sz))
      ensures ReleasesRange(old(State()), State(), root, Pages(sz), Pages(oldsz) - Pages(sz), Free)
      ensures SameData(old(State()), State())
      ensures refused == old(refused)
    {
      hide Pte, UnmapsRange, ReleasesRange, SameData, Valid, Pages;
      UnmapNone(State(), root, Pages(newsz), Free);
      UnmapNone(State(), root, Pages(oldsz), Free);
      if newsz >= oldsz {
        return oldsz;
      }
      PagesFit(oldsz);
      PagesFit(newsz);
      PagesMonotone(newsz, oldsz);
      if RoundUp(newsz) < RoundUp(oldsz) {
        var npages := (RoundUp(oldsz) - RoundUp(newsz)) / PGSIZE;
        assert npages == Pages(oldsz) - Pages(newsz);
        Uvmunmap(root, RoundUp(newsz), npages, true);
      }
      return newsz;
    }

    /** One turn of uvmalloc()'s and vmfault()'s work: takes a page and maps it at `a`.
        On failure the page is given back. */
    method AddPage(root: nat, a: nat, perm: nat, zero: bool, ghost s: Memory, ghost lo: nat) returns (p: nat)
      requires Valid(State()) && Key(root, 2, 0) in tbl && a % PGSIZE == 0 && a < TRAPFRAME && 2 <= perm < 1024
      requires lo <= a / PGSIZE && Grown(s, State(), root, lo, a / PGSIZE, MakePte(0, perm)) &&
               Pte(State(), root, a / PGSIZE) == 0
      modifies this
      ensures Valid(State()) && Key(root, 2, 0) in tbl
      ensures p == 0 ==> Grown(s, State(), root, lo, a / PGSIZE, MakePte(0, perm))
      ensures p != 0 ==> Grown(s, State(), root, lo, a / PGSIZE + 1, MakePte(0, perm))
      ensures p != 0 ==>
              p < |mem| && Pte(State(), root, a / PGSIZE) == MakePte(p, perm) &&
              (zero ==> mem[p] == ZeroPage())
      ensures refused == old(refused) + if p == 0 then 1 else 0
    {
      hide Pte, Grown, SameMaps, MapsRange, SameData, MakePte, Links, Leaves, Users, Chain, TreeShape, Rooted;
      hide TablesOwned;
      ghost var t := State();
      p := Kalloc();
      if p == 0 {
        KeepGrown(s, t, State(), root, lo, a / PGSIZE, MakePte(0, perm));
        return;
      }
      Taken(t, State(), p);
      if zero {
        FillKeeps(State(), p, ZeroPage());
        ghost var w := State();
        mem := mem[p := ZeroPage()];
        assert State() == Fill(w, p, ZeroPage());
        Filled(t, w, State(), p, ZeroPage());
      }
      ghost var u := State();
      QuietPte(t, u, root, a / PGSIZE);
      assert HeldAt(owner, p) && p * PGSIZE / PGSIZE == p;
      var r;
      ghost var m;
      r, m := Mappages(root, a, PGSIZE, p * PGSIZE, perm);
      ghost var z := State();
      if r != 0 {
        RangeQuiet(u, z, root, a / PGSIZE, p, perm);
        Kfree(p);
        GrownFailed(s, t, u, z, State(), root, lo, a / PGSIZE, MakePte(0, perm), p);
        return 0;
      }
      RangeAt(u, z, root, a / PGSIZE, p, perm, 1, a / PGSIZE);
      GrownStep(s, t, u, z, root, lo, a / PGSIZE, perm, p);
      DataAt(u, z, p);
    }

    /** Grows user memory from `oldsz` to `newsz` bytes. When memory runs out, 0, and every data page is given back.
        That is so for every `newsz` past the trapframe if memory cannot fill the space up to there. */
    method Uvmalloc(root: nat, oldsz: nat, newsz: nat, xperm: nat) returns (sz: nat)
      requires Valid(State()) && Key(root, 2, 0) in tbl && xperm in {0, 4, 8, 12}
      requires newsz <= TRAPFRAME || Pages(oldsz) + |mem| < TRAPFRAME_VPN
      requires forall w: nat | Pages(oldsz) <= w < Pages(newsz) && w < TRAPFRAME_VPN :: Pte(State(), root, w) == 0
      modifies this
      ensures Valid(State()) && Key(root, 2, 0) in tbl
      ensures newsz < oldsz ==> sz == oldsz && State() == old(State())
      ensures newsz >= oldsz ==> sz == newsz || sz == 0
      ensures newsz >= oldsz && sz == newsz > 0 ==>
              Grown(old(State()), State(), root, Pages(oldsz), Pages(newsz), 0x13 + xperm)
      ensures newsz >= oldsz && sz == 0 < newsz ==> Quiet(old(State()), State(), root)
      ensures newsz > TRAPFRAME && newsz >= oldsz ==> sz == 0
      ensures refused == old(refused) + if newsz >= oldsz && sz == 0 < newsz then 1 else 0
    {
      hide Pte, Grown, SameMaps, SameData, OnlyTables, Valid, Pages;
      ghost var s, lo := State(), Pages(oldsz);
      if newsz < oldsz {
        return oldsz;
      }
      RoundedUp(oldsz);
      PagesMonotone(oldsz, newsz);
      var base := RoundUp(oldsz);
      GrownNone(s, root, lo, 0x13 + xperm);
      var a := base;
      while a < newsz
        invariant refused == old(refused)
        invariant a % PGSIZE == 0 && lo <= a / PGSIZE <= Pages(newsz) && (a / PGSIZE <= TRAPFRAME_VPN || a == base)
        invariant Valid(State()) && Key(root, 2, 0) in tbl
        invariant Grown(s, State(), root, lo, a / PGSIZE, 0x13 + xperm)
      {
        PagesAbove(a, newsz);
        if newsz <= TRAPFRAME {
          PagesFit(newsz);
        } else {
          GrownSizes(s, State(), root, lo, a / PGSIZE, 0x13 + xperm);
        }
        GrownAt(s, State(), root, lo, a / PGSIZE, 0x13 + xperm, a / PGSIZE);
        assert MakePte(0, 0x12 + xperm) == 0x13 + xperm;
        var p := AddPage(root, a, 0x12 + xperm, false, s, lo);
        if p == 0 {
          ghost var t := State();
          PagesFit(a);
          PagesExact(a);
          PagesExact(base);
          var ignore := Uvmdealloc(root, a, base);
          ValidUsers(s);
          GrownUndone(s, t, State(), root, lo, a / PGSIZE, 0x13 + xperm);
          return 0;
        }
        a := a + PGSIZE;
      }
      PagesReached(a, newsz);
      return newsz;
    }

    /** One turn of uvmcopy()'s loop: copies the page at `i`, if there is one. */
    method CopyPage(src: nat, dst: nat, i: nat, ghost s: Memory) returns (ok: bool)
      requires Valid(State()) && Valid(s) && Key(src, 2, 0) in tbl && Key(dst, 2, 0) in tbl && src != dst
      requires i % PGSIZE == 0 && i < TRAPFRAME && Copied(s, State(), src, dst, i / PGSIZE) &&
               Pte(s, dst, i / PGSIZE) == 0
      modifies this
      ensures Valid(State()) && Key(src, 2, 0) in tbl && Key(dst, 2, 0) in tbl
      ensures ok ==> Copied(s, State(), src, dst, i / PGSIZE + 1)
      ensures !ok ==> Spread(s, State(), dst, i / PGSIZE)
      ensures refused == old(refused) + if ok then 0 else 1
    {
      hide Pte, Copied, Spread, SameMaps, MapsRange, SameData, MakePte, Links, Leaves, Users, Chain, TreeShape, Rooted;
      hide TablesOwned, Quiet, IsLeaf;
      ghost var t, v := State(), i / PGSIZE;
      CopiedPte(s, t, src, dst, v, src, v);
      CopiedPte(s, t, src, dst, v, dst, v);
      var table := Walk(src, i, false);
      if table == 0 {
        AbsentPte(t, src, v);
        CopiedSkip(s, t, src, dst, v);
        return true;
      }
      LeafSlot(t, src, i);
      var e := mem[table][Px(0, i)];
      LeafBit(e);
      if e % 2 == 0 {
        CopiedSkip(s, t, src, dst, v);
        return true;
      }
      UserOf(t, src, v);
      SourceKept(s, t, src, dst, v, e);
      var p := Kalloc();
      if p == 0 {
        SpreadSame(s, t, State(), src, dst, v);
        return false;
      }
      ghost var w := State();
      FillKeeps(w, p, mem[e / 1024]);
      mem := mem[p := mem[e / 1024]];
      ghost var u := State();
      assert u == Fill(w, p, t.mem[e / 1024]);
      Filled(t, w, u, p, t.mem[e / 1024]);
      QuietPte(t, u, dst, v);
      assert HeldAt(owner, p) && p * PGSIZE / PGSIZE == p;
      var r;
      ghost var m;
      r, m := Mappages(dst, i, PGSIZE, p * PGSIZE, e % 1024);
      ghost var z := State();
      if r != 0 {
        RangeQuiet(u, z, dst, v, p, e % 1024);
        Kfree(p);
        CopiedFailed(s, t, u, z, State(), src, dst, v, p);
        return false;
      }
      DataAt(u, z, p);
      CopiedStep(s, t, u, z, src, dst, v, p, e);
      return true;
    }

    /** Copies the pages of `src` below `end`, at most up to the trapframe, to `dst`. On failure, every page taken
        for data is given back. */
    method CopyBelow(src: nat, dst: nat, end: nat) returns (ok: bool)
      requires Valid(State()) && Key(src, 2, 0) in tbl && Key(dst, 2, 0) in tbl && src != dst && end <= TRAPFRAME
      requires forall w: nat | w < Pages(end) :: Pte(State(), dst, w) == 0
      modifies this
      ensures Valid(State()) && Key(src, 2, 0) in tbl && Key(dst, 2, 0) in tbl
      ensures ok ==> Copied(old(State()), State(), src, dst, Pages(end))
      ensures !ok ==> Quiet(old(State()), State(), dst)
      ensures refused == old(refused) + if ok then 0 else 1
    {
      hide Pte, Copied, Spread, Quiet, Valid, Pages;
      ghost var s := State();
      CopiedNone(s, src, dst);
      var i := 0;
      while i < end
        invariant refused == old(refused)
        invariant i % PGSIZE == 0 && i / PGSIZE <= Pages(end)
        invariant Valid(State()) && Key(src, 2, 0) in tbl && Key(dst, 2, 0) in tbl
        invariant Copied(s, State(), src, dst, i / PGSIZE)
      {
        PagesAbove(i, end);
        ok := CopyPage(src, dst, i, s);
        if !ok {
          CopyUndone(dst, i / PGSIZE, s);
          return;
        }
        i := i + PGSIZE;
      }
      PagesReached(i, end);
      ok := true;
    }

    /** Gives up a copy of the first `n` pages. */
    method CopyUndone(dst: nat, n: nat, ghost s: Memory)
      requires Valid(State()) && Valid(s) && Key(dst, 2, 0) in tbl && n <= TRAPFRAME_VPN && Spread(s, State(), dst, n)
      requires forall w: nat | w < n :: Pte(s, dst, w) == 0
      modifies this
      ensures Valid(State()) && Quiet(s, State(), dst) && refused == old(refused)
      ensures forall k | k in old(tbl) :: k in tbl
    {
      hide Pte, Spread, Quiet, Valid;
      ghost var t := State();
      Uvmunmap(dst, 0, n, true);
      ValidUsers(s);
      SpreadUndone(s, t, State(), dst, n);
    }

    /** Copies the first `sz` bytes of user memory of `src` to `dst`. On -1, every page taken for data is given
        back. A size past the trapframe makes it copy that page too, which `dst` has already: unless memory runs
        out before, mappages() panics. */
    method Uvmcopy(src: nat, dst: nat, sz: nat) returns (r: int, panic: bool)
      requires Valid(State()) && Key(src, 2, 0) in tbl && Key(dst, 2, 0) in tbl && src != dst
      requires forall w: nat | w < Pages(sz) && w < TRAPFRAME_VPN :: Pte(State(), dst, w) == 0
      requires sz > TRAPFRAME ==> Pte(State(), src, TRAPFRAME_VPN) != 0 && Pte(State(), dst, TRAPFRAME_VPN) != 0
      modifies this
      ensures Valid(State()) && Key(src, 2, 0) in tbl && Key(dst, 2, 0) in tbl && (r == 0 || r == -1)
      ensures panic <==> sz > TRAPFRAME && refused == old(refused)
      ensures r == 0 <==> sz <= TRAPFRAME && refused == old(refused)
      ensures r == 0 ==> Copied(old(State()), State(), src, dst, Pages(sz))
      ensures r == -1 && !panic ==> Quiet(old(State()), State(), dst) && refused == old(refused) + 1
    {
      hide Pte, Copied, Spread, Quiet, Valid, Pages, SameMaps;
      ghost var s := State();
      PagesExact(TRAPFRAME);
      PagesMonotone(if sz <= TRAPFRAME then sz else TRAPFRAME, sz);
      PagesFit(if sz <= TRAPFRAME then sz else TRAPFRAME);
      var ok := CopyBelow(src, dst, if sz <= TRAPFRAME then sz else TRAPFRAME);
      if !ok || sz <= TRAPFRAME {
        return if ok then 0 else -1, false;
      }
      panic := CopyTrapframe(src, dst, s);
      return -1, panic;
    }

    /** The turn of uvmcopy()'s loop that comes to the trapframe, which both page tables have. */
    method CopyTrapframe(src: nat, dst: nat, ghost s: Memory) returns (panic: bool)
      requires Valid(State()) && Valid(s) && Key(src, 2, 0) in tbl && Key(dst, 2, 0) in tbl && src != dst
      requires Copied(s, State(), src, dst, TRAPFRAME_VPN)
      requires Pte(s, src, TRAPFRAME_VPN) != 0 && Pte(s, dst, TRAPFRAME_VPN) != 0
      requires forall w: nat | w < TRAPFRAME_VPN :: Pte(s, dst, w) == 0
      modifies this
      ensures Valid(State()) && Key(src, 2, 0) in tbl && Key(dst, 2, 0) in tbl
      ensures panic <==> refused == old(refused)
      ensures !panic ==> Quiet(s, State(), dst) && refused == old(refused) + 1
    {
      hide Pte, Copied, Spread, Quiet, Good, SameMaps, IsLeaf, Px;
      ghost var t := State();
      CopiedPte(s, t, src, dst, TRAPFRAME_VPN, src, TRAPFRAME_VPN);
      CopiedPte(s, t, src, dst, TRAPFRAME_VPN, dst, TRAPFRAME_VPN);
      HasTable(t, src, TRAPFRAME_VPN);
      HasTable(t, dst, TRAPFRAME_VPN);
      LeafSlot(t, dst, TRAPFRAME);
      var table := Walk(src, TRAPFRAME, false);
      var p := Kalloc();
      if p == 0 {
        SpreadSame(s, t, State(), src, dst, TRAPFRAME_VPN);
        CopyUndone(dst, TRAPFRAME_VPN, s);
        return false;
      }
      table := Walk(dst, TRAPFRAME, true);
      var e := mem[table][Px(0, TRAPFRAME)];
      LeafBit(e);
      panic := e % 2 == 1;
    }

    /** One turn of freewalk()'s loop: frees the subtree under entry `i`. */
    method FreeBranch(t: nat, ghost k: Key, i: nat, ghost s: Memory)
      requires Valid(State()) && k in tbl && tbl[k] == t && i < 512 && k.level <= 2
      requires (forall v: nat :: Pte(s, k.root, v) == 0) && Freed(s, State(), Branches(s.tbl, k, i))
      modifies this
      ensures Valid(State()) && k in tbl && tbl[k] == t && Freed(s, State(), Branches(s.tbl, k, i + 1))
      ensures refused == old(refused)
      decreases k.level, 0
    {
      hide Pte, Valid, Freed, SameMaps, Subtree, Branches;
      ghost var b, gone := State(), Branches(s.tbl, k, i);
      FreedMaps(s, b, gone, k.root);
      EmptyEntry(b, k, i);
      var e := mem[t][i];
      if k.level > 0 {
        BranchesNext(s.tbl, k, i);
        if Child(k, i) in tbl {
          TableEntryBits(tbl[Child(k, i)]);
        } else {
          NoSubtree(b, Child(k, i));
          assert gone + {} == gone;
        }
      } else {
        BranchesEmpty(s.tbl, k, i);
        BranchesEmpty(s.tbl, k, i + 1);
      }
      if e % 2 == 1 && e / 2 % 8 == 0 {
        ghost var c := Child(k, i);
        Freewalk(e / 1024, c);
        ghost var u := State();
        FreedTable(b, u, c, k);
        ClearSlotKeeps(u, c);
        SlotCleared(u, c);
        mem := mem[t := Put(mem[t], i, 0)];
        dangling := {};
        assert State() == ClearSlot(u, c);
        FreedAppend(b, u, State(), Subtree(b.tbl, c), {});
        assert Subtree(b.tbl, c) + {} == Subtree(b.tbl, c);
        FreedAppend(s, b, State(), gone, Subtree(b.tbl, c));
      } else {
        assert e % 2 == 0;
      }
    }

    /** Frees the page-table page `t`, which is table `k`, and all tables below it. The mappings must be gone. */
    method Freewalk(t: nat, ghost k: Key)
      requires Valid(State()) && k in tbl && tbl[k] == t && k.level <= 2 &&
               forall v: nat :: Pte(State(), k.root, v) == 0
      modifies this
      ensures Good(State()) && dangling == (if k.level < 2 then {k} else {})
      ensures Freed(old(State()), State(), Subtree(old(tbl), k))
      ensures refused == old(refused)
      decreases k.level
    {
      hide Pte, Valid, Good, Freed, SameMaps, Subtree, Branches;
      ghost var s := State();
      SameSelf(s);
      FreedNone(s, s);
      BranchesEmpty(s.tbl, k, 0);
      var i := 0;
      while i < 512
        invariant refused == old(refused)
        invariant 0 <= i <= 512 && Valid(State()) && k in tbl && tbl[k] == t
        invariant Freed(s, State(), Branches(s.tbl, k, i))
      {
        FreeBranch(t, k, i, s);
        i := i + 1;
      }
      ghost var b := State();
      AllZero(s, b, k);
      BranchesAll(s.tbl, k);
      DropTableKeeps(b, k);
      owner := owner[t := Held];
      tbl := tbl - {k};
      dangling := if k.level < 2 then {k} else {};
      ghost var d := State();
      assert d == DropTable(b, k);
      Kfree(t);
      TableFreed(b, d, State(), k);
      FreedAppend(s, b, State(), Branches(s.tbl, k, 512), {k});
    }

    /** Frees user memory of `sz` bytes, then the page table. */
    method Uvmfree(root: nat, sz: nat)
      requires Valid(State()) && Key(root, 2, 0) in tbl && sz <= TRAPFRAME
      requires forall v: nat | v >= Pages(sz) :: Pte(State(), root, v) == 0
      modifies this
      ensures Valid(State()) && Released(old(State()), State(), root)
      ensures refused == old(refused)
    {
      hide Pte, Good, Freed, SameMaps, Subtree, UnmapsRange, ReleasesRange, SameData, Pages, Released;
      ghost var s := State();
      PagesFit(sz);
      PagesExact(0);
      UnmapNone(s, root, 0, Free);
      if sz > 0 {
        Uvmunmap(root, 0, RoundUp(sz) / PGSIZE, true);
      }
      ghost var t := State();
      EmptiedRange(s, t, root, Pages(sz));
      TopOfPath(t, root, 0);
      Freewalk(root, Key(root, 2, 0));
      AllReleased(s, t, State(), root, Pages(sz));
    }

    /** Frees a process's page table and user memory: every page that was a table or a user page of
        `root` is put on the free list, once, and no other page is. */
    method ProcFreepagetable(root: nat, sz: nat)
      requires Valid(State()) && Key(root, 2, 0) in tbl && sz <= TRAPFRAME && UserBelow(State(), root, Pages(sz))
      modifies this
      ensures Valid(State()) && Released(old(State()), State(), root)
      ensures refused == old(refused)
    {
      hide Pte, Valid, UnmapsRange, ReleasesRange, SameData, Pages, Released, UserBelow;
      ghost var s := State();
      Uvmunmap(root, TRAMPOLINE, 1, false);
      ghost var t := State();
      Uvmunmap(root, TRAPFRAME, 1, false);
      ghost var u := State();
      ValidUsers(s);
      ValidUsers(t);
      SystemUnmapped(s, t, root, TRAPFRAME_VPN + 1);
      SystemUnmapped(t, u, root, TRAPFRAME_VPN);
      SystemEmptied(s, t, u, root, Pages(sz));
      Uvmfree(root, sz);
      SystemReleased(s, t, u, State(), root);
    }

    /** Maps a zeroed page at `va` if it lies below `sz` and nothing is mapped there; returns its physical
        address, or 0 with every data page given back. */
    method Vmfault(root: nat, va: nat, sz: nat) returns (pa: nat)
      requires Valid(State()) && Key(root, 2, 0) in tbl && sz <= TRAPFRAME
      modifies this
      ensures Valid(State()) && Key(root, 2, 0) in tbl
      ensures pa != 0 <==> va < sz && old(Pte(State(), root, va / PGSIZE)) == 0 && refused == old(refused)
      ensures pa == 0 ==> Quiet(old(State()), State(), root)
      ensures pa != 0 ==> Grown(old(State()), State(), root, va / PGSIZE, va / PGSIZE + 1, 0x17)
      ensures pa != 0 ==>
              pa / PGSIZE < |mem| && mem[pa / PGSIZE] == ZeroPage() &&
              Pte(State(), root, va / PGSIZE) == MakePte(pa / PGSIZE, 0x16)
    {
      hide Pte, Valid, Quiet, Grown;
      ghost var s := State();
      QuietReflexive(s, root);
      if va >= sz {
        return 0;
      }
      var a := va / PGSIZE * PGSIZE;
      assert a / PGSIZE == va / PGSIZE;
      var t := Walk(root, a, false);
      if t != 0 {
        LeafSlot(s, root, a);
        LeafBit(mem[t][Px(0, a)]);
        if mem[t][Px(0, a)] % 2 == 1 {
          return 0;
        }
      } else {
        AbsentPte(s, root, a / PGSIZE);
      }
      GrownNone(s, root, a / PGSIZE, 0x17);
      var p := AddPage(root, a, 0x16, true, s, a / PGSIZE);
      if p == 0 {
        GrownEmpty(s, State(), root, a / PGSIZE, 0x17);
        return 0;
      }
      return p * PGSIZE;
    }

    /** uvmcreate(): an empty page table, or 0. */
    method NewPagetable() returns (p: nat)
      requires Valid(State())
      modifies this
      ensures Valid(State()) && SameMaps(old(State()), State()) && SameData(old(State()), State())
      ensures p == 0 ==> owner == old(owner)
      ensures p != 0 ==> p < |old(owner)| && old(owner)[p] == Free && owner == old(owner)[p := Table(Key(p, 2, 0))]
      ensures p != 0 ==> Key(p, 2, 0) in tbl && forall v: nat :: Pte(old(State()), p, v) == 0
      ensures refused == old(refused) + if p == 0 then 1 else 0
    {
      hide Pte, SameMaps, TablesOwned, Users, Leaves, Links, Chain, Rooted, TreeShape;
      ghost var s := State();
      p := Kalloc();
      if p == 0 {
        return;
      }
      ghost var w := State();
      NewRootKeeps(w, p);
      MappedNothing(s, w, p);
      mem := mem[p := ZeroPage()];
      owner, tbl := owner[p := Table(Key(p, 2, 0))], tbl[Key(p, 2, 0) := p];
      assert State() == NewRoot(w, p);
      SameMapsTransitive(s, w, State());
    }

    /** A page table with nothing mapped but the trampoline and the trapframe; 0, with every page given
        back, when memory runs out. */
    method ProcPagetable(trampoline: nat, trapframe: nat) returns (root: nat)
      requires Valid(State())
      modifies this
      ensures Valid(State())
      ensures root == 0 ==> owner == old(owner) && SameMaps(old(State()), State())
      ensures root != 0 ==>
              root < |old(owner)| && old(owner)[root] == Free && Key(root, 2, 0) in tbl &&
              OnlyTables(old(State()), State(), root)
      ensures root != 0 ==> MapsSystem(old(State()), State(), root, trampoline / PGSIZE, trapframe / PGSIZE, 1)
      ensures root != 0 ==> forall v: nat :: Pte(old(State()), root, v) == 0
      ensures refused == old(refused) + if root == 0 then 1 else 0
    {
      hide Pte, Valid, SameMaps, MapsRange, OwnsRange, SameData, Released, UnmapsRange, ReleasesRange, Pages, MakePte;
      hide MapsSystem, OnlyTables;
      ghost var s := State();
      root := NewPagetable();
      if root == 0 {
        return;
      }
      ghost var t := State();
      BuildingStarts(s, t, root);
      MapsNothing(s, t, root);
      PagesExact(0);
      var r;
      ghost var m;
      r, m := Mappages(root, TRAMPOLINE, PGSIZE, trampoline, 0xa);
      ghost var u := State();
      BuildingMaps(s, t, u, root, TRAPFRAME_VPN + 1, trampoline / PGSIZE, 0xa, m);
      if r < 0 {
        NoneMapped(t, u, root, TRAPFRAME_VPN + 1, trampoline / PGSIZE, 0xa);
        Uvmfree(root, 0);
        RootUndone(s, u, State(), root);
        return 0;
      }
      RangeAt(t, u, root, TRAPFRAME_VPN + 1, trampoline / PGSIZE, 0xa, 1, TRAPFRAME_VPN);
      r, m := Mappages(root, TRAPFRAME, PGSIZE, trapframe, 6);
      ghost var z := State();
      BuildingMaps(s, u, z, root, TRAPFRAME_VPN, trapframe / PGSIZE, 6, m);
      MapsSystemly(s, t, u, z, root, trampoline / PGSIZE, trapframe / PGSIZE, m);
      if r < 0 {
        Uvmunmap(root, TRAMPOLINE, 1, false);
        ghost var y := State();
        ValidUsers(z);
        SystemUnmapped(z, y, root, TRAPFRAME_VPN + 1);
        BuildingUnmaps(s, z, y, root, TRAPFRAME_VPN + 1);
        SystemGone(s, z, y, root, trampoline / PGSIZE, trapframe / PGSIZE);
        Uvmfree(root, 0);
        RootUndone(s, y, State(), root);
        return 0;
      }
    }
  }

  // ----- how a process gets a size past the trapframe -----

  /** The size of a process after sys_sbrk() has lazily granted `n` bytes: only a sum that wraps is refused. */
  function SbrkLazy(sz: nat, n: nat): Option<nat> {
    if (sz + n) % 0x1_0000_0000_0000_0000 < sz then None else Some(sz + n)
  }

  /** The size after `k` such calls. */
  function SbrkCalls(sz: nat, n: nat, k: nat): Option<nat> {
    if k == 0 then Some(sz)
    else
      var z := SbrkCalls(sz, n, k - 1);
      if z.None? then None else SbrkLazy(z.value, n)
  }

  lemma {:induction false} SbrkSums(sz: nat, n: nat, k: nat)
    requires sz + k * n < 0x1_0000_0000_0000_0000
    ensures SbrkCalls(sz, n, k) == Some(sz + k * n)
  {
    if k > 0 {
      assert (k - 1) * n + n == k * n;
      SbrkSums(sz, n, k - 1);
    }
  }

  /** No size is out of reach of lazy calls for as much as an int holds, and from nothing it takes 128 of them to
      get past the trapframe, from where on uvmcopy() cannot succeed. */
  lemma PastTrapframe(k: nat)
    requires k <= 0x1_0000_0000
    ensures var z := SbrkCalls(0, 0x7fff_ffff, k);
            z.Some? && z.value == k * 0x7fff_ffff && (z.value > TRAPFRAME <==> k >= 128)
  {
    SbrkSums(0, 0x7fff_ffff, k);
  }
}
