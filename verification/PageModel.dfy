/** Physical memory, the free page list of kernel/kalloc.c and the three-level page tables of
    kernel/vm.c (Sv39, section 4.4 of the RISC-V Privileged Architecture) as values: what each
    single step does to them, and what it keeps. */
module PageModel {
  const MAXVPN := 0x400_0000          // MAXVA / PGSIZE
  const TRAPFRAME_VPN := MAXVPN - 2   // user mappings lie below; the trampoline is above

  /** A page of memory: 512 words of 64 bits. */
  type Page = seq<nat>

  /** A page-table page by its place: the level-`level` table of `root` that covers the virtual
      page numbers whose quotient by 512^(level+1) is `prefix`. */
  datatype Key = Key(root: nat, level: nat, prefix: nat)

  /** What a physical page is used for: `Held` pages belong to whoever called kalloc(), and
      `Reserved` ones were never given to the allocator. */
  datatype Use = Free | Table(key: Key) | User(root: nat, vpn: nat) | Held | Reserved

  /** Physical pages by page number, with the head of the free list (0 for none) and who has what.
      `free` is the free list, last page first to go, `pos` the place of each page in it, `tbl` the
      page of each table, and `dangling` the tables that have been freed while the entry pointing
      to them is still there. */
  datatype Memory = Memory(mem: seq<Page>, freelist: nat, free: seq<nat>, pos: seq<nat>, owner: seq<Use>,
                           tbl: map<Key, nat>, dangling: set<Key>)

  function Parent(k: Key): Key { Key(k.root, k.level + 1, k.prefix / 512) }

  function Child(k: Key, i: nat): Key
    requires k.level > 0
  {
    Key(k.root, k.level - 1, k.prefix * 512 + i)
  }

  function ZeroPage(): (z: Page)
    ensures |z| == 512 && forall i | 0 <= i < 512 :: z[i] == 0
  {
    seq(512, i => 0)
  }

  function Put(page: Page, i: nat, e: nat): Page
    requires i < |page|
  {
    page[i := e]
  }

  /** PA2PTE(pa) | perm | PTE_V, for the page number of pa. */
  function MakePte(p: nat, perm: nat): nat { p * 1024 + if perm % 2 == 0 then perm + 1 else perm }

  predicate IsLeaf(e: nat) { e % 2 == 1 && e % 1024 != 1 }

  /** Word `i` of table `k`; 0 if there is no such table. */
  function Entry(s: Memory, k: Key, i: int): nat {
    if k in s.tbl && s.tbl[k] < |s.mem| && 0 <= i < |s.mem[s.tbl[k]]| then s.mem[s.tbl[k]][i] else 0
  }

  function LeafKey(r: nat, v: nat): Key { Key(r, 0, v / 512) }

  /** What the page table at `r` holds for virtual page `v`; 0 if nothing. */
  function Pte(s: Memory, r: nat, v: nat): nat { Entry(s, LeafKey(r, v), v % 512) }

  // ----- the invariant -----

  ghost predicate Shaped(s: Memory) {
    && 0 < |s.mem| == |s.owner| == |s.pos| && s.owner[0] == Reserved
    && forall p | 0 <= p < |s.mem| :: |s.mem[p]| == 512
  }

  ghost predicate TablesOwned(s: Memory) {
    && (forall k | k in s.tbl :: s.tbl[k] < |s.owner| && s.owner[s.tbl[k]] == Table(k))
    && (forall p | 0 <= p < |s.owner| && s.owner[p].Table? :: s.owner[p].key in s.tbl && s.tbl[s.owner[p].key] == p)
  }

  function Width(level: nat): nat { if level == 0 then 0x2_0000 else if level == 1 then 256 else 1 }

  ghost predicate TreeShape(s: Memory) {
    forall k | k in s.tbl :: k.level <= 2 && k.prefix < Width(k.level) && (k.level == 2 ==> s.tbl[k] == k.root)
  }

  ghost predicate Rooted(s: Memory) {
    forall k | k in s.tbl && k.level < 2 :: Parent(k) in s.tbl
  }

  /** Each upper-level entry points to exactly the table below it, with only the valid bit set, or is 0. */
  ghost predicate Links(s: Memory) {
    forall k, i {:trigger Entry(s, k, i)} | k in s.tbl && k.level > 0 && 0 <= i < 512 && Child(k, i) !in s.dangling ::
      Entry(s, k, i) == if Child(k, i) in s.tbl then s.tbl[Child(k, i)] * 1024 + 1 else 0
  }

  /** A lowest-level entry is 0 or a leaf, and a leaf below the trapframe owns its page. */
  ghost predicate Leaves(s: Memory) {
    forall r: nat, v: nat {:trigger Pte(s, r, v)} | v < MAXVPN && Pte(s, r, v) != 0 ::
      && IsLeaf(Pte(s, r, v))
      && (v < TRAPFRAME_VPN ==> Pte(s, r, v) / 1024 < |s.owner| && s.owner[Pte(s, r, v) / 1024] == User(r, v))
  }

  /** A user page is mapped where its owner says. */
  ghost predicate Users(s: Memory) {
    forall p | 0 <= p < |s.owner| && s.owner[p].User? ::
      && s.owner[p].vpn < TRAPFRAME_VPN
      && Pte(s, s.owner[p].root, s.owner[p].vpn) != 0
      && Pte(s, s.owner[p].root, s.owner[p].vpn) / 1024 == p
  }

  function Below(free: seq<nat>, i: nat): nat { if 0 < i <= |free| then free[i - 1] else 0 }

  /** The free pages, each once, linked through their first words. */
  ghost predicate Chain(s: Memory) {
    && s.freelist == Below(s.free, |s.free|)
    && (forall i {:trigger s.free[i]} | 0 <= i < |s.free| ::
          s.free[i] < |s.owner| && s.free[i] < |s.pos| && s.owner[s.free[i]] == Free && s.pos[s.free[i]] == i)
    && (forall i {:trigger s.mem[s.free[i]]} | 0 <= i < |s.free| ::
          s.free[i] < |s.mem| && |s.mem[s.free[i]]| > 0 && s.mem[s.free[i]][0] == Below(s.free, i))
    && (forall p {:trigger s.owner[p]} | 0 <= p < |s.owner| && p < |s.pos| && s.owner[p] == Free ::
          s.pos[p] < |s.free| && s.free[s.pos[p]] == p)
  }

  ghost predicate Good(s: Memory) {
    Shaped(s) && TablesOwned(s) && TreeShape(s) && Rooted(s) && Links(s) && Leaves(s) && Users(s) && Chain(s)
  }

  ghost predicate Valid(s: Memory) {
    Good(s) && s.dangling == {}
  }

  // ----- frames -----

  /** No page table maps anything differently. */
  ghost predicate SameMaps(s: Memory, t: Memory) {
    forall r: nat, v: nat {:trigger Pte(t, r, v)} :: Pte(t, r, v) == Pte(s, r, v)
  }

  predicate TableOf(u: Use, r: nat) { u.Table? && u.key.root == r }

  /** Pages changed hands only from the free list to the tables of `r`. */
  ghost predicate OnlyTables(s: Memory, t: Memory, r: nat) {
    && |t.owner| == |s.owner|
    && forall p | 0 <= p < |s.owner| :: t.owner[p] == s.owner[p] || (s.owner[p] == Free && TableOf(t.owner[p], r))
  }

  predicate Data(u: Use) { u.User? || u == Held }

  /** Pages that stayed with a user or a holder keep their contents. */
  ghost predicate SameData(s: Memory, t: Memory) {
    && |t.owner| == |s.owner| && |t.mem| == |s.mem|
    && forall p | 0 <= p < |s.owner| && p < |s.mem| && Data(s.owner[p]) && Data(t.owner[p]) :: t.mem[p] == s.mem[p]
  }

  // ----- kalloc and kfree -----

  function Take(s: Memory): Memory
    requires Shaped(s) && Chain(s) && s.free != []
  {
    var n := |s.free| - 1;
    Memory(s.mem, Below(s.free, n), s.free[..n], s.pos, s.owner[s.free[n] := Held], s.tbl, s.dangling)
  }

  lemma TakeChain(s: Memory)
    requires Shaped(s) && Chain(s) && s.free != []
    ensures Chain(Take(s)) && s.freelist == s.free[|s.free| - 1]
    ensures s.freelist < |s.owner| && s.owner[s.freelist] == Free && s.mem[s.freelist][0] == Take(s).freelist
  {
    assert s.mem[s.free[|s.free| - 1]][0] == Below(s.free, |s.free| - 1);
  }

  /** Tables and mappings do not depend on anything else. */
  lemma StructureFrame(s: Memory, t: Memory)
    requires TablesOwned(s) && TreeShape(s) && Rooted(s) && Links(s) && Leaves(s) && Users(s)
    requires t.tbl == s.tbl && t.dangling == s.dangling && |t.owner| == |s.owner|
    requires forall k, i {:trigger Entry(t, k, i)} :: Entry(t, k, i) == Entry(s, k, i)
    requires forall p | 0 <= p < |s.owner| :: t.owner[p] == s.owner[p] || t.owner[p] == Free || t.owner[p] == Held
    requires forall p | 0 <= p < |s.owner| && (s.owner[p].Table? || s.owner[p].User?) :: t.owner[p] == s.owner[p]
    ensures TablesOwned(t) && TreeShape(t) && Rooted(t) && Links(t) && Leaves(t) && Users(t) && SameMaps(s, t)
  {
    hide Entry;
    assert forall r: nat, v: nat {:trigger Pte(t, r, v)} :: Pte(t, r, v) == Pte(s, r, v);
    hide Pte;
  }

  /** Only the state of the page taken changes. */
  lemma TakeKeeps(s: Memory)
    requires Good(s) && s.free != []
    ensures Good(Take(s)) && SameMaps(s, Take(s))
    ensures s.freelist == s.free[|s.free| - 1] < |s.owner| && s.owner[s.freelist] == Free &&
            s.mem[s.freelist][0] == Take(s).freelist
  {
    var t := Take(s);
    TakeChain(s);
    assert forall k, i {:trigger Entry(t, k, i)} :: Entry(t, k, i) == Entry(s, k, i);
    hide Chain, TablesOwned, TreeShape, Rooted, Links, Leaves, Users, Entry;
    StructureFrame(s, t);
  }

  function Give(s: Memory, p: nat): Memory
    requires Shaped(s) && p < |s.mem|
  {
    Memory(s.mem[p := Put(s.mem[p], 0, s.freelist)], p, s.free + [p], s.pos[p := |s.free|], s.owner[p := Free], s.tbl,
        s.dangling)
  }

  lemma GiveChain(s: Memory, p: nat)
    requires Shaped(s) && Chain(s) && p < |s.owner| && s.owner[p] == Held
    ensures Chain(Give(s, p))
  {
    var t := Give(s, p);
    forall i | 0 <= i < |t.free|
      ensures t.mem[t.free[i]][0] == Below(t.free, i)
    {
      if i < |s.free| {
        assert s.free[i] != p && t.free[i] == s.free[i];
        assert s.mem[s.free[i]][0] == Below(s.free, i);
      }
    }
  }

  lemma GiveKeeps(s: Memory, p: nat)
    requires Good(s) && p < |s.owner| && s.owner[p] == Held
    ensures Good(Give(s, p)) && SameMaps(s, Give(s, p))
  {
    var t := Give(s, p);
    GiveChain(s, p);
    assert forall k, i {:trigger Entry(t, k, i)} :: Entry(t, k, i) == Entry(s, k, i);
    hide Chain, TablesOwned, TreeShape, Rooted, Links, Leaves, Users, Entry;
    StructureFrame(s, t);
  }

  // ----- page-table pages -----

  function Store(mem: seq<Page>, q: nat, i: nat, e: nat): seq<Page>
    requires q < |mem| && i < |mem[q]|
  {
    mem[q := Put(mem[q], i, e)]
  }

  /** Different tables are different pages, so one store changes one entry. */
  lemma StoreEntries(s: Memory, t: Memory, k: Key, i: nat, e: nat)
    requires Shaped(s) && TablesOwned(s) && k in s.tbl && i < 512
    requires t.tbl == s.tbl && t.mem == Store(s.mem, s.tbl[k], i, e)
    ensures forall l, j {:trigger Entry(t, l, j)} :: Entry(t, l, j) == if l == k && j == i then e else Entry(s, l, j)
  {
    forall l, j
      ensures Entry(t, l, j) == if l == k && j == i then e else Entry(s, l, j)
    {
      if l in s.tbl && l != k {
        assert s.tbl[l] != s.tbl[k];
      }
    }
  }

  /** Puts the held page `p` to use as a fresh table under the entry of its parent. */
  function AddTable(s: Memory, k: Key, p: nat): Memory
    requires Shaped(s) && TablesOwned(s) && Parent(k) in s.tbl && p < |s.mem|
  {
    Memory(Store(s.mem[p := ZeroPage()], s.tbl[Parent(k)], k.prefix % 512, p * 1024 + 1), s.freelist, s.free, s.pos,
           s.owner[p := Table(k)], s.tbl[k := p], s.dangling)
  }

  lemma AddTableEntries(s: Memory, k: Key, p: nat)
    requires Shaped(s) && TablesOwned(s) && Parent(k) in s.tbl && k !in s.tbl && p < |s.owner| && s.owner[p] == Held
    ensures var t := AddTable(s, k, p);
            && (forall l, j {:trigger Entry(t, l, j)} :: Entry(t, l, j) ==
                 if l == k then 0 else if l == Parent(k) && j == k.prefix % 512 then p * 1024 + 1 else Entry(s, l, j))
            && (forall q | 0 <= q < |s.mem| && q != p && q != s.tbl[Parent(k)] :: t.mem[q] == s.mem[q])
  {
    var t := AddTable(s, k, p);
    forall l, j
      ensures Entry(t, l, j) == if l == k then 0 else if l == Parent(k) && j == k.prefix % 512 then p * 1024 + 1
              else Entry(s, l, j)
    {
      if l in s.tbl {
        assert s.tbl[l] != p;
        if l != Parent(k) {
          assert s.tbl[l] != s.tbl[Parent(k)];
        }
      }
    }
  }

  /** The slot of a child names the child. */
  lemma ChildOf(k: Key, i: nat, c: Key)
    requires k.level > 0 && i < 512
    ensures Child(k, i) == c <==> k == Parent(c) && i == c.prefix % 512
  {
  }

  lemma AddTableLinks(s: Memory, k: Key, p: nat)
    requires Shaped(s) && TablesOwned(s) && TreeShape(s) && Rooted(s) && Links(s) && s.dangling == {}
    requires k.level < 2 && Parent(k) in s.tbl && k !in s.tbl && p < |s.owner| && s.owner[p] == Held
    ensures Links(AddTable(s, k, p))
  {
    var t := AddTable(s, k, p);
    AddTableEntries(s, k, p);
    hide Entry;
    forall l, i | l in t.tbl && l.level > 0 && 0 <= i < 512
      ensures Entry(t, l, i) == if Child(l, i) in t.tbl then t.tbl[Child(l, i)] * 1024 + 1 else 0
    {
      ChildOf(l, i, k);
      if l == k {
        assert Child(l, i) != k && Parent(Child(l, i)) == k;
        assert Child(l, i) !in s.tbl;
      } else {
        assert Entry(s, l, i) == if Child(l, i) in s.tbl then s.tbl[Child(l, i)] * 1024 + 1 else 0;
      }
    }
  }

  lemma NoEntry(s: Memory, k: Key, i: int)
    requires k !in s.tbl
    ensures Entry(s, k, i) == 0
  {
  }

  lemma AddTableMaps(s: Memory, k: Key, p: nat)
    requires Shaped(s) && TablesOwned(s) && Parent(k) in s.tbl && k !in s.tbl && p < |s.owner| && s.owner[p] == Held
    ensures SameMaps(s, AddTable(s, k, p))
  {
    var t := AddTable(s, k, p);
    AddTableEntries(s, k, p);
    hide Entry;
    forall r: nat, v: nat
      ensures Pte(t, r, v) == Pte(s, r, v)
    {
      if LeafKey(r, v) == k {
        NoEntry(s, k, v % 512);
      }
    }
  }

  lemma AddTableChain(s: Memory, k: Key, p: nat)
    requires Shaped(s) && TablesOwned(s) && Chain(s) && Parent(k) in s.tbl && k !in s.tbl && p < |s.owner| &&
             s.owner[p] == Held
    ensures Chain(AddTable(s, k, p))
  {
    var t := AddTable(s, k, p);
    AddTableEntries(s, k, p);
    hide Entry, Put, Below;
  }

  /** Mappings are right as long as neither they nor the user pages change. */
  lemma LeavesFrame(s: Memory, t: Memory)
    requires Leaves(s) && Users(s) && SameMaps(s, t) && |t.owner| == |s.owner|
    requires forall p | 0 <= p < |s.owner| && (s.owner[p].User? || t.owner[p].User?) :: t.owner[p] == s.owner[p]
    ensures Leaves(t) && Users(t)
  {
    hide Pte;
  }

  lemma AddTableShape(s: Memory, k: Key, p: nat)
    requires Shaped(s) && TablesOwned(s) && TreeShape(s) && Rooted(s)
    requires k.level < 2 && k.prefix < Width(k.level) && Parent(k) in s.tbl && k !in s.tbl && p < |s.owner| &&
             s.owner[p] == Held
    ensures var t := AddTable(s, k, p); Shaped(t) && TablesOwned(t) && TreeShape(t) && Rooted(t)
  {
    AddTableOwned(s, k, p);
    hide TablesOwned;
  }

  lemma AddTableOwned(s: Memory, k: Key, p: nat)
    requires Shaped(s) && TablesOwned(s) && Parent(k) in s.tbl && k !in s.tbl && p < |s.owner| && s.owner[p] == Held
    ensures TablesOwned(AddTable(s, k, p))
  {
  }

  lemma AddTableKeeps(s: Memory, k: Key, p: nat)
    requires Valid(s) && k.level < 2 && k.prefix < Width(k.level) && Parent(k) in s.tbl && k !in s.tbl
    requires p < |s.owner| && s.owner[p] == Held
    ensures Valid(AddTable(s, k, p)) && SameMaps(s, AddTable(s, k, p))
  {
    AddTableLinks(s, k, p);
    AddTableChain(s, k, p);
    AddTableMaps(s, k, p);
    AddTableShape(s, k, p);
    hide Pte, Links, Chain, Entry, Users, Leaves, TreeShape, Rooted, SameMaps;
    LeavesFrame(s, AddTable(s, k, p));
  }

  /** Puts the held page `p` to use as an empty page table. */
  function NewRoot(s: Memory, p: nat): Memory
    requires p < |s.mem| && p < |s.owner|
  {
    var k := Key(p, 2, 0);
    Memory(s.mem[p := ZeroPage()], s.freelist, s.free, s.pos, s.owner[p := Table(k)], s.tbl[k := p], s.dangling)
  }

  lemma NewRootEntries(s: Memory, p: nat)
    requires Shaped(s) && TablesOwned(s) && TreeShape(s) && p < |s.owner| && s.owner[p] == Held
    ensures Key(p, 2, 0) !in s.tbl
    ensures var t := NewRoot(s, p);
            forall l, j {:trigger Entry(t, l, j)} :: Entry(t, l, j) == if l == Key(p, 2, 0) then 0 else Entry(s, l, j)
  {
  }

  lemma NewRootShape(s: Memory, p: nat)
    requires Shaped(s) && TablesOwned(s) && TreeShape(s) && Rooted(s) && Chain(s) && p < |s.owner| &&
             s.owner[p] == Held && Key(p, 2, 0) !in s.tbl
    ensures var t := NewRoot(s, p); Shaped(t) && TablesOwned(t) && TreeShape(t) && Rooted(t) && Chain(t)
  {
    NewRootTables(s, p);
    NewRootChain(s, p);
    hide TablesOwned, TreeShape, Rooted, Chain;
  }

  lemma NewRootTables(s: Memory, p: nat)
    requires Shaped(s) && TablesOwned(s) && TreeShape(s) && Rooted(s) && p < |s.owner| && s.owner[p] == Held &&
             Key(p, 2, 0) !in s.tbl
    ensures var t := NewRoot(s, p); TablesOwned(t) && TreeShape(t) && Rooted(t)
  {
  }

  lemma NewRootChain(s: Memory, p: nat)
    requires Shaped(s) && Chain(s) && p < |s.owner| && s.owner[p] == Held
    ensures Chain(NewRoot(s, p))
  {
    hide Below;
  }

  lemma LeafRoot(s: Memory, r: nat, v: nat)
    requires TreeShape(s) && Rooted(s) && LeafKey(r, v) in s.tbl
    ensures Key(r, 2, 0) in s.tbl && Key(r, 1, v / 0x4_0000) in s.tbl
  {
    assert Parent(LeafKey(r, v)) == Key(r, 1, v / 0x4_0000) && Parent(Parent(LeafKey(r, v))) == Key(r, 2, 0);
  }

  /** A page that is not a page table maps nothing. */
  lemma NoRoot(s: Memory, p: nat)
    requires TreeShape(s) && Rooted(s) && Key(p, 2, 0) !in s.tbl
    ensures forall v: nat {:trigger Pte(s, p, v)} :: Pte(s, p, v) == 0
  {
    forall v: nat
      ensures Pte(s, p, v) == 0
    {
      if LeafKey(p, v) in s.tbl {
        LeafRoot(s, p, v);
      }
    }
  }

  lemma NewRootLinks(s: Memory, p: nat)
    requires Valid(s) && p < |s.owner| && s.owner[p] == Held && Key(p, 2, 0) !in s.tbl
    ensures Links(NewRoot(s, p))
  {
    var t, k := NewRoot(s, p), Key(p, 2, 0);
    NewRootEntries(s, p);
    hide Entry, Chain, TreeShape, Leaves, Users, Shaped, TablesOwned;
    forall l, i | l in t.tbl && l.level > 0 && 0 <= i < 512
      ensures Entry(t, l, i) == if Child(l, i) in t.tbl then t.tbl[Child(l, i)] * 1024 + 1 else 0
    {
      ChildOf(l, i, Child(l, i));
      if l == k {
        assert Parent(Child(l, i)) == k;
      } else {
        assert Entry(s, l, i) == if Child(l, i) in s.tbl then s.tbl[Child(l, i)] * 1024 + 1 else 0;
      }
    }
  }

  lemma NewRootKeeps(s: Memory, p: nat)
    requires Valid(s) && p < |s.owner| && s.owner[p] == Held
    ensures Valid(NewRoot(s, p)) && SameMaps(s, NewRoot(s, p))
    ensures forall v: nat {:trigger Pte(s, p, v)} :: Pte(s, p, v) == 0
  {
    var t := NewRoot(s, p);
    NewRootEntries(s, p);
    NoRoot(s, p);
    NewRootShape(s, p);
    NewRootLinks(s, p);
    hide Entry, Chain, TreeShape, Rooted, Links, TablesOwned;
    assert SameMaps(s, t);
    hide Pte, SameMaps, Users, Leaves;
    LeavesFrame(s, t);
  }

  // ----- leaf entries -----

  /** Stores `e` as the entry for virtual page `v`; `owner` says who has what from then on. */
  function SetPte(s: Memory, r: nat, v: nat, e: nat, owner: seq<Use>): Memory
    requires Shaped(s) && TablesOwned(s) && LeafKey(r, v) in s.tbl
  {
    Memory(Store(s.mem, s.tbl[LeafKey(r, v)], v % 512, e), s.freelist, s.free, s.pos, owner, s.tbl, s.dangling)
  }

  /** Distinct virtual pages use distinct entries: storing one leaves all others as they were. */
  lemma SetPteMaps(s: Memory, r: nat, v: nat, e: nat, owner: seq<Use>)
    requires Shaped(s) && TablesOwned(s) && LeafKey(r, v) in s.tbl
    ensures var t := SetPte(s, r, v, e, owner);
            forall q: nat, w: nat {:trigger Pte(t, q, w)} ::
                Pte(t, q, w) == if q == r && w == v then e else Pte(s, q, w)
  {
    var t := SetPte(s, r, v, e, owner);
    StoreEntries(s, t, LeafKey(r, v), v % 512, e);
    hide Entry;
    forall q: nat, w: nat
      ensures Pte(t, q, w) == if q == r && w == v then e else Pte(s, q, w)
    {
      assert LeafKey(q, w) == LeafKey(r, v) && w % 512 == v % 512 ==> q == r && w == v;
    }
  }

  lemma SetPteChain(s: Memory, r: nat, v: nat, e: nat, owner: seq<Use>)
    requires Shaped(s) && TablesOwned(s) && Chain(s) && LeafKey(r, v) in s.tbl && |owner| == |s.owner|
    requires forall p | 0 <= p < |owner| && (s.owner[p] == Free || owner[p] == Free) :: owner[p] == s.owner[p]
    ensures Chain(SetPte(s, r, v, e, owner))
  {
    hide Below;
  }

  /** What a leaf store leaves intact when only holders and users of pages change. */
  lemma SetPteFrame(s: Memory, r: nat, v: nat, e: nat, owner: seq<Use>)
    requires Good(s) && LeafKey(r, v) in s.tbl && |owner| == |s.owner|
    requires forall p | 0 <= p < |owner| && (!Data(s.owner[p]) || !Data(owner[p])) :: owner[p] == s.owner[p]
    ensures var t := SetPte(s, r, v, e, owner);
            Shaped(t) && TablesOwned(t) && TreeShape(t) && Rooted(t) && Links(t) && Chain(t)
  {
    hide Entry, Leaves, Users;
    var t := SetPte(s, r, v, e, owner);
    StoreEntries(s, t, LeafKey(r, v), v % 512, e);
    SetPteChain(s, r, v, e, owner);
    hide Chain;
    forall l, i | l in t.tbl && l.level > 0 && 0 <= i < 512 && Child(l, i) !in t.dangling
      ensures Entry(t, l, i) == if Child(l, i) in t.tbl then t.tbl[Child(l, i)] * 1024 + 1 else 0
    {
      assert l != LeafKey(r, v);
      assert Entry(t, l, i) == Entry(s, l, i);
    }
  }

  /** The owners once page `p` is mapped at `v`, if that is a user page. */
  function Mapped(owner: seq<Use>, p: nat, r: nat, v: nat): seq<Use> {
    if v < TRAPFRAME_VPN && p < |owner| then owner[p := User(r, v)] else owner
  }

  function Unmapped(owner: seq<Use>, p: nat, v: nat): seq<Use> {
    if v < TRAPFRAME_VPN && p < |owner| then owner[p := Held] else owner
  }

  function AddLeaf(s: Memory, r: nat, v: nat, e: nat): Memory
    requires Shaped(s) && TablesOwned(s) && LeafKey(r, v) in s.tbl
  {
    SetPte(s, r, v, e, Mapped(s.owner, e / 1024, r, v))
  }

  lemma LeafAdded(s: Memory, t: Memory, r: nat, v: nat, e: nat)
    requires Leaves(s) && Users(s) && v < MAXVPN && Pte(s, r, v) == 0 && IsLeaf(e)
    requires v < TRAPFRAME_VPN ==> e / 1024 < |s.owner| && s.owner[e / 1024] == Held
    requires t.owner == Mapped(s.owner, e / 1024, r, v)
    requires forall q: nat, w: nat {:trigger Pte(t, q, w)} ::
             Pte(t, q, w) == if q == r && w == v then e else Pte(s, q, w)
    ensures Leaves(t) && Users(t)
  {
    hide Pte;
  }

  /** Mapping an unmapped page changes the map there and nowhere else. */
  lemma AddLeafKeeps(s: Memory, r: nat, v: nat, e: nat)
    requires Valid(s) && v < MAXVPN && LeafKey(r, v) in s.tbl && Pte(s, r, v) == 0 && IsLeaf(e)
    requires v < TRAPFRAME_VPN ==> e / 1024 < |s.owner| && s.owner[e / 1024] == Held
    ensures var t := AddLeaf(s, r, v, e);
            && Valid(t)
            && forall q: nat, w: nat {:trigger Pte(t, q, w)} ::
               Pte(t, q, w) == if q == r && w == v then e else Pte(s, q, w)
  {
    SetPteMaps(s, r, v, e, Mapped(s.owner, e / 1024, r, v));
    hide Pte, Chain, Links, TablesOwned, TreeShape, Rooted, Store, Shaped, Leaves, Users;
    SetPteFrame(s, r, v, e, Mapped(s.owner, e / 1024, r, v));
    LeafAdded(s, AddLeaf(s, r, v, e), r, v, e);
  }

  function RemoveLeaf(s: Memory, r: nat, v: nat): Memory
    requires Shaped(s) && TablesOwned(s) && LeafKey(r, v) in s.tbl
  {
    SetPte(s, r, v, 0, Unmapped(s.owner, Pte(s, r, v) / 1024, v))
  }

  lemma LeafRemoved(s: Memory, t: Memory, r: nat, v: nat)
    requires Leaves(s) && Users(s) && v < MAXVPN && Pte(s, r, v) != 0
    requires t.owner == Unmapped(s.owner, Pte(s, r, v) / 1024, v)
    requires forall q: nat, w: nat {:trigger Pte(t, q, w)} ::
             Pte(t, q, w) == if q == r && w == v then 0 else Pte(s, q, w)
    ensures Leaves(t) && Users(t)
  {
    hide Pte;
  }

  /** Unmapping a page changes the map there and nowhere else, and leaves the page with the caller. */
  lemma RemoveLeafKeeps(s: Memory, r: nat, v: nat)
    requires Valid(s) && v < MAXVPN && LeafKey(r, v) in s.tbl && Pte(s, r, v) != 0
    ensures var t := RemoveLeaf(s, r, v);
            && Valid(t)
            && (v < TRAPFRAME_VPN ==> Pte(s, r, v) / 1024 < |t.owner| && t.owner[Pte(s, r, v) / 1024] == Held)
            && forall q: nat, w: nat {:trigger Pte(t, q, w)} ::
               Pte(t, q, w) == if q == r && w == v then 0 else Pte(s, q, w)
  {
    SetPteMaps(s, r, v, 0, Unmapped(s.owner, Pte(s, r, v) / 1024, v));
    hide Pte, Chain, Links, TablesOwned, TreeShape, Rooted, Store, Shaped, Users;
    assert v < TRAPFRAME_VPN ==> s.owner[Pte(s, r, v) / 1024] == User(r, v);
    hide Leaves;
    SetPteFrame(s, r, v, 0, Unmapped(s.owner, Pte(s, r, v) / 1024, v));
    LeafRemoved(s, RemoveLeaf(s, r, v), r, v);
  }

  /** Overwrites the contents of a page in use for data. */
  function Fill(s: Memory, p: nat, data: Page): Memory
    requires p < |s.mem|
  {
    Memory(s.mem[p := data], s.freelist, s.free, s.pos, s.owner, s.tbl, s.dangling)
  }

  lemma FillKeeps(s: Memory, p: nat, data: Page)
    requires Valid(s) && p < |s.owner| && Data(s.owner[p]) && |data| == 512
    ensures Valid(Fill(s, p, data)) && SameMaps(s, Fill(s, p, data))
  {
    hide Chain, TablesOwned, TreeShape, Rooted, Links, Leaves, Users, Entry;
    FillEntries(s, p, data);
    FillChain(s, p, data);
    StructureFrame(s, Fill(s, p, data));
  }

  lemma FillEntries(s: Memory, p: nat, data: Page)
    requires TablesOwned(s) && p < |s.owner| && p < |s.mem| && Data(s.owner[p])
    ensures var t := Fill(s, p, data); forall k, i {:trigger Entry(t, k, i)} :: Entry(t, k, i) == Entry(s, k, i)
  {
  }

  lemma FillChain(s: Memory, p: nat, data: Page)
    requires Chain(s) && p < |s.owner| && p < |s.mem| && Data(s.owner[p])
    ensures Chain(Fill(s, p, data))
  {
    hide Below;
    var t := Fill(s, p, data);
    forall i | 0 <= i < |t.free|
      ensures t.free[i] < |t.mem| && |t.mem[t.free[i]]| > 0 && t.mem[t.free[i]][0] == Below(t.free, i)
    {
      assert s.free[i] != p && s.mem[s.free[i]][0] == Below(s.free, i);
    }
  }

  // ----- tearing down -----

  /** Table `k` stops being a table; its page is left with the caller and its parent's entry dangles. */
  function DropTable(s: Memory, k: Key): Memory
    requires k in s.tbl && s.tbl[k] < |s.owner|
  {
    Memory(s.mem, s.freelist, s.free, s.pos, s.owner[s.tbl[k] := Held], s.tbl - {k}, if k.level < 2 then {k} else {})
  }

  lemma ChildLinked(s: Memory, c: Key)
    requires Links(s) && s.dangling == {} && c in s.tbl && Parent(c) in s.tbl
    ensures Entry(s, Parent(c), c.prefix % 512) == s.tbl[c] * 1024 + 1
  {
    hide Entry;
    ChildOf(Parent(c), c.prefix % 512, c);
    assert Entry(s, Parent(c), c.prefix % 512) ==
           if Child(Parent(c), c.prefix % 512) in s.tbl then s.tbl[Child(Parent(c), c.prefix % 512)] * 1024 + 1 else 0;
  }

  lemma DropTableChain(s: Memory, k: Key)
    requires Shaped(s) && TablesOwned(s) && Chain(s) && k in s.tbl
    ensures var t := DropTable(s, k); Shaped(t) && TablesOwned(t) && Chain(t)
  {
    hide Below;
  }

  lemma DropTableShape(s: Memory, k: Key)
    requires Valid(s) && k in s.tbl && forall i | 0 <= i < 512 :: Entry(s, k, i) == 0
    ensures var t := DropTable(s, k); Shaped(t) && TablesOwned(t) && TreeShape(t) && Rooted(t) && Chain(t)
  {
    var t := DropTable(s, k);
    DropTableChain(s, k);
    hide Entry, Leaves, Users, Chain, Shaped, TablesOwned, Links;
    forall l | l in t.tbl && l.level < 2
      ensures Parent(l) in t.tbl
    {
      if Parent(l) == k {
        ChildLinked(s, l);
      }
    }
  }

  lemma DropTableEntries(s: Memory, k: Key)
    requires k in s.tbl && s.tbl[k] < |s.owner|
    ensures var t := DropTable(s, k);
            forall l, j {:trigger Entry(t, l, j)} :: Entry(t, l, j) == if l == k then 0 else Entry(s, l, j)
  {
  }

  lemma DropTableLinks(s: Memory, k: Key)
    requires TablesOwned(s) && TreeShape(s) && Links(s) && s.dangling == {} && k in s.tbl
    ensures Links(DropTable(s, k))
  {
    hide Entry;
    var t := DropTable(s, k);
    DropTableEntries(s, k);
    forall l, i | l in t.tbl && l.level > 0 && 0 <= i < 512 && Child(l, i) !in t.dangling
      ensures Entry(t, l, i) == if Child(l, i) in t.tbl then t.tbl[Child(l, i)] * 1024 + 1 else 0
    {
      assert Entry(s, l, i) == if Child(l, i) in s.tbl then s.tbl[Child(l, i)] * 1024 + 1 else 0;
      assert Child(l, i) != k;
    }
  }

  lemma DropTableKeeps(s: Memory, k: Key)
    requires Valid(s) && k in s.tbl && forall i | 0 <= i < 512 :: Entry(s, k, i) == 0
    ensures var t := DropTable(s, k); Good(t) && SameMaps(s, t)
  {
    var t := DropTable(s, k);
    hide Entry, Chain, TreeShape, Rooted, Links, Leaves, Users;
    DropTableShape(s, k);
    DropTableLinks(s, k);
    DropTableEntries(s, k);
    assert SameMaps(s, t);
    LeavesFrame(s, t);
  }

  /** Clears the entry that pointed to the freed table `k`. */
  function ClearSlot(s: Memory, k: Key): Memory
    requires Shaped(s) && TablesOwned(s) && Parent(k) in s.tbl
  {
    Memory(Store(s.mem, s.tbl[Parent(k)], k.prefix % 512, 0), s.freelist, s.free, s.pos, s.owner, s.tbl, {})
  }

  lemma ClearSlotChain(s: Memory, k: Key)
    requires Shaped(s) && TablesOwned(s) && Chain(s) && Parent(k) in s.tbl
    ensures Chain(ClearSlot(s, k))
  {
    hide Below;
  }

  lemma ClearSlotKeeps(s: Memory, k: Key)
    requires Good(s) && s.dangling == {k} && k !in s.tbl && Parent(k) in s.tbl && k.level < 2
    ensures Valid(ClearSlot(s, k)) && SameMaps(s, ClearSlot(s, k))
    ensures var t := ClearSlot(s, k);
            forall l, j {:trigger Entry(t, l, j)} ::
                Entry(t, l, j) == if l == Parent(k) && j == k.prefix % 512 then 0 else Entry(s, l, j)
  {
    hide Entry, Chain, Leaves, Users, Links;
    var t := ClearSlot(s, k);
    StoreEntries(s, t, Parent(k), k.prefix % 512, 0);
    ClearSlotChain(s, k);
    ClearSlotLinks(s, k);
    assert SameMaps(s, t);
    LeavesFrame(s, t);
  }

  lemma ClearSlotLinks(s: Memory, k: Key)
    requires Shaped(s) && TablesOwned(s) && Links(s) && s.dangling == {k} && k !in s.tbl && Parent(k) in s.tbl &&
             k.level < 2
    ensures Links(ClearSlot(s, k))
  {
    hide Entry, Put;
    var t := ClearSlot(s, k);
    StoreEntries(s, t, Parent(k), k.prefix % 512, 0);
    forall l, i | l in t.tbl && l.level > 0 && 0 <= i < 512
      ensures Entry(t, l, i) == if Child(l, i) in t.tbl then t.tbl[Child(l, i)] * 1024 + 1 else 0
    {
      ChildOf(l, i, k);
      assert Child(l, i) != k ==> Entry(t, l, i) == Entry(s, l, i);
    }
  }

  // ----- the hardware's view -----

  function Word(mem: seq<Page>, p: nat, i: nat): nat {
    if p < |mem| && i < |mem[p]| then mem[p][i] else 0
  }

  /** The three-level walk over raw memory, following valid entries from page `r`. */
  function Translate(mem: seq<Page>, r: nat, v: nat): nat {
    var upper := Word(mem, r, v / 0x4_0000 % 512);
    if upper % 2 == 0 then 0
    else
      var middle := Word(mem, upper / 1024, v / 512 % 512);
      if middle % 2 == 0 then 0 else Word(mem, middle / 1024, v % 512)
  }

  lemma OddMod(h: nat)
    ensures (2 * h + 1) % 2 == 1
  {
  }

  lemma EntryBits(p: nat)
    ensures (p * 1024 + 1) % 2 == 1 && (p * 1024 + 1) / 1024 == p
  {
    var half, e := p * 512, p * 1024 + 1;
    assert e == 2 * half + 1;
    assert e % 2 == 1 by { OddMod(half); }
  }

  /** An upper-level entry is valid exactly when there is a table below, and then points to it. */
  lemma StepDown(s: Memory, k: Key, i: nat)
    requires Valid(s) && k in s.tbl && k.level > 0 && i < 512
    ensures s.tbl[k] < |s.mem| && |s.mem[s.tbl[k]]| == 512
    ensures var e := Word(s.mem, s.tbl[k], i);
            (e % 2 == 1 <==> Child(k, i) in s.tbl) && (Child(k, i) in s.tbl ==> e / 1024 == s.tbl[Child(k, i)])
  {
    assert Entry(s, k, i) == if Child(k, i) in s.tbl then s.tbl[Child(k, i)] * 1024 + 1 else 0;
    if Child(k, i) in s.tbl {
      EntryBits(s.tbl[Child(k, i)]);
    }
  }

  lemma LeafWord(s: Memory, r: nat, v: nat)
    requires Valid(s) && LeafKey(r, v) in s.tbl
    ensures Word(s.mem, s.tbl[LeafKey(r, v)], v % 512) == Pte(s, r, v)
  {
  }

  lemma LeafAbsent(s: Memory, r: nat, v: nat)
    requires Valid(s) && Key(r, 1, v / 0x4_0000) !in s.tbl
    ensures LeafKey(r, v) !in s.tbl
  {
    if LeafKey(r, v) in s.tbl {
      LeafRoot(s, r, v);
    }
  }

  /** Translation through memory gives exactly the mapping. */
  lemma TranslateIsPte(s: Memory, r: nat, v: nat)
    requires Valid(s) && Key(r, 2, 0) in s.tbl && v < MAXVPN
    ensures Translate(s.mem, r, v) == Pte(s, r, v)
  {
    var top, mid := Key(r, 2, 0), Key(r, 1, v / 0x4_0000);
    hide Good;
    assert Child(top, v / 0x4_0000 % 512) == mid && Child(mid, v / 512 % 512) == LeafKey(r, v);
    StepDown(s, top, v / 0x4_0000 % 512);
    if mid in s.tbl {
      StepDown(s, mid, v / 512 % 512);
      if LeafKey(r, v) in s.tbl {
        LeafWord(s, r, v);
      }
    } else {
      LeafAbsent(s, r, v);
    }
  }
}
