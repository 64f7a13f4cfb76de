/** Which blocks a series of writes to a file logs, told from the state before the first of them, and so
    whether they fit the log. */
module LogPlan {
  import opened Common
  import opened Blocks
  import opened FsModel
  import opened FileWrites
  import opened LogBudget

  // ----- what there is and what is needed -----

  /** The free blocks, lowest first. */
  function FreeBlocks(u: seq<bool>): seq<nat> {
    if u == [] then []
    else
      var last := |u| - 1;
      FreeBlocks(u[..last]) + if u[last] then [] else [last]
  }

  lemma {:induction false} FreeSorted(u: seq<bool>)
    ensures forall j | 0 <= j < |FreeBlocks(u)| :: FreeBlocks(u)[j] < |u| && !u[FreeBlocks(u)[j]]
    ensures forall j, k | 0 <= j < k < |FreeBlocks(u)| :: FreeBlocks(u)[j] < FreeBlocks(u)[k]
    ensures forall b | 0 <= b < |u| && !u[b] :: b in FreeBlocks(u)
  {
    if u != [] {
      FreeSorted(u[..|u| - 1]);
    }
  }

  lemma FreeFirst(u: seq<bool>, m: nat)
    requires m <= |FreeBlocks(u)|
    ensures FirstFree(u, FreeBlocks(u)[..m])
  {
    FreeSorted(u);
    var all, f := FreeBlocks(u), FreeBlocks(u)[..m];
    forall j | 0 <= j < m
      ensures all[j] in f
    {
      assert f[j] == all[j];
    }
    forall b | 0 <= b < |u| && !u[b] && b !in f
      ensures forall j | 0 <= j < |f| :: f[j] < b
    {
      var k :| 0 <= k < |all| && all[k] == b;
    }
  }

  /** How many of the file blocks `lo` to `hi` are not there. */
  function Missing(n: Inode, b: seq<Block>, lo: nat, hi: nat): nat {
    if hi <= lo then 0 else Missing(n, b, lo, hi - 1) + if AddrAt(n, b, hi - 1) == 0 then 1 else 0
  }

  /** How many blocks it takes to have them all: one for each that is missing, and the indirect block. */
  function Need(n: Inode, b: seq<Block>, lo: nat, hi: nat): nat {
    Missing(n, b, lo, hi) + if lo < hi && NDIRECT < hi && AddrAt(n, b, INDIRECT) == 0 then 1 else 0
  }

  lemma {:induction false} NeedMonotone(n: Inode, b: seq<Block>, lo: nat, mid: nat, hi: nat)
    requires lo <= mid <= hi
    ensures Need(n, b, lo, mid) <= Need(n, b, lo, hi)
  {
    hide AddrAt;
    if mid < hi {
      NeedMonotone(n, b, lo, mid, hi - 1);
    }
  }

  /** How far towards `hi` writing from `lo` on gets with `free` blocks left. */
  function Reach(n: Inode, b: seq<Block>, free: nat, lo: nat, hi: nat): (r: nat)
    requires lo <= hi
    ensures lo <= r <= hi && (lo < r ==> Need(n, b, lo, r) <= free)
  {
    if hi == lo || Need(n, b, lo, hi) <= free then hi else Reach(n, b, free, lo, hi - 1)
  }

  lemma {:induction false} ReachIs(n: Inode, b: seq<Block>, free: nat, lo: nat, mid: nat, hi: nat)
    requires lo <= mid <= hi && Need(n, b, lo, mid) <= free && (mid < hi ==> Need(n, b, lo, mid + 1) > free)
    ensures Reach(n, b, free, lo, hi) == mid
  {
    hide AddrAt, Need;
    if mid < hi {
      NeedMonotone(n, b, lo, mid + 1, hi);
      ReachIs(n, b, free, lo, mid, hi - 1);
    }
  }

  lemma {:induction false} ReachAtLeast(n: Inode, b: seq<Block>, free: nat, lo: nat, mid: nat, hi: nat)
    requires lo <= mid <= hi && Need(n, b, lo, mid) <= free
    ensures mid <= Reach(n, b, free, lo, hi)
  {
    hide AddrAt, Need;
    if mid < hi {
      ReachAtLeast(n, b, free, lo, mid, hi - 1);
    }
  }

  // ----- the plan -----

  /** The blocks that those of the file blocks `lo` to `hi` have that are there. */
  ghost function Had(n: Inode, b: seq<Block>, lo: nat, hi: nat): set<nat> {
    set k | lo <= k < hi && AddrAt(n, b, k) != 0 :: AddrAt(n, b, k) as nat
  }

  /** An entry of the indirect block will be filled. */
  ghost predicate Entered(n: Inode, b: seq<Block>, lo: nat, hi: nat) {
    exists k {:trigger AddrAt(n, b, k)} :: lo <= k < hi && NDIRECT <= k && AddrAt(n, b, k) == 0
  }

  /** The indirect block that is there, if an entry of it will be filled. */
  ghost function Indirect(n: Inode, b: seq<Block>, lo: nat, hi: nat): set<nat> {
    if Entered(n, b, lo, hi) && AddrAt(n, b, INDIRECT) != 0 then {AddrAt(n, b, INDIRECT) as nat} else {}
  }

  /** The free blocks that will be taken. */
  ghost function Takes(s: Fs, i: nat, lo: nat, hi: nat): seq<nat>
    requires i < |s.inodes|
  {
    FreeBlocks(s.used)[..Min(Need(s.inodes[i], s.blocks, lo, hi), |FreeBlocks(s.used)|)]
  }

  /** What writing all of the file blocks `lo` to `hi` of inode `i`, as far as the disk has room, logs besides
      the inode: those that are there, the blocks taken and their free-map blocks, and the indirect block. */
  ghost function Plan(bmapstart: nat, s: Fs, i: nat, lo: nat, hi: nat): set<nat>
    requires i < |s.inodes| && lo <= hi
  {
    var reach := Reach(s.inodes[i], s.blocks, |FreeBlocks(s.used)|, lo, hi);
    var f := Members(Takes(s, i, lo, hi));
    Had(s.inodes[i], s.blocks, lo, reach) + f + Bitmaps(bmapstart, f) + Indirect(s.inodes[i], s.blocks, lo, reach)
  }

  /** The blocks that file blocks `lo` to `hi` have now, of those that were missing. */
  ghost function NewSlots(n: Inode, b: seq<Block>, m: Inode, c: seq<Block>, lo: nat, hi: nat): set<nat> {
    set k | lo <= k < hi && AddrAt(n, b, k) == 0 :: AddrAt(m, c, k) as nat
  }

  lemma NewSlotsNext(n: Inode, b: seq<Block>, m: Inode, c: seq<Block>, lo: nat, hi: nat)
    requires lo <= hi
    ensures NewSlots(n, b, m, c, lo, hi + 1) ==
            NewSlots(n, b, m, c, lo, hi) + if AddrAt(n, b, hi) == 0 then {AddrAt(m, c, hi) as nat} else {}
  {
    hide AddrAt;
    forall x | x in NewSlots(n, b, m, c, lo, hi)
      ensures x in NewSlots(n, b, m, c, lo, hi + 1)
    {
      var k :| lo <= k < hi && AddrAt(n, b, k) == 0 && AddrAt(m, c, k) as nat == x;
      assert lo <= k < hi + 1;
    }
  }

  ghost predicate AllThere(n: Inode, b: seq<Block>, lo: nat, hi: nat) {
    forall k {:trigger AddrAt(n, b, k)} | lo <= k < hi :: AddrAt(n, b, k) != 0
  }

  /** The new blocks are all different, and none is the indirect block. */
  lemma {:induction false} NewSlotsSize(s: Fs, t: Fs, i: nat, lo: nat, hi: nat)
    requires Owned(t) && i < |s.inodes| == |t.inodes| && lo <= hi <= MAXFILE
    requires AllThere(t.inodes[i], t.blocks, lo, hi)
    ensures |NewSlots(s.inodes[i], s.blocks, t.inodes[i], t.blocks, lo, hi)| ==
            Missing(s.inodes[i], s.blocks, lo, hi)
    ensures AddrAt(t.inodes[i], t.blocks, INDIRECT) as nat !in
            NewSlots(s.inodes[i], s.blocks, t.inodes[i], t.blocks, lo, hi)
    decreases hi
  {
    hide AddrAt, OwnersPoint, PointersOwn, BitsMatch;
    var n, b, m, c := s.inodes[i], s.blocks, t.inodes[i], t.blocks;
    if lo < hi {
      NewSlotsSize(s, t, i, lo, hi - 1);
      NewSlotsNext(n, b, m, c, lo, hi - 1);
      Unshared(t, i, hi - 1);
      assert AddrAt(m, c, hi - 1) as nat !in NewSlots(n, b, m, c, lo, hi - 1);
    } else {
      assert NewSlots(n, b, m, c, lo, hi) == {};
    }
  }

  /** From `s` to `t`, file blocks `lo` to `hi` have been filled; the next one is missing if `stuck`. */
  ghost predicate Extends(s: Fs, t: Fs, i: nat, lo: nat, hi: nat, stuck: bool) {
    && i < |s.inodes| == |t.inodes| && Owned(s) && Owned(t) && OthersSame(s, t, i)
    && lo <= hi <= MAXFILE && AllThere(t.inodes[i], t.blocks, lo, hi)
    && Grew(s, t, i, lo, if stuck then hi + 1 else hi)
    && (stuck ==> AddrAt(t.inodes[i], t.blocks, hi) == 0)
    && (!stuck ==> lo < hi)
  }

  /** The indirect block is new. */
  ghost predicate IndirectNew(s: Fs, t: Fs, i: nat)
    requires i < |s.inodes| == |t.inodes|
  {
    AddrAt(s.inodes[i], s.blocks, INDIRECT) == 0 != AddrAt(t.inodes[i], t.blocks, INDIRECT)
  }

  ghost function NewIndirect(s: Fs, t: Fs, i: nat): set<nat>
    requires i < |s.inodes| == |t.inodes|
  {
    if IndirectNew(s, t, i) then {AddrAt(t.inodes[i], t.blocks, INDIRECT) as nat} else {}
  }

  /** The blocks newly in use are those of the slots filled, and the indirect block. */
  lemma FreshIs(s: Fs, t: Fs, i: nat, lo: nat, hi: nat, stuck: bool)
    requires Extends(s, t, i, lo, hi, stuck)
    ensures Fresh(s.used, t.used) ==
            NewSlots(s.inodes[i], s.blocks, t.inodes[i], t.blocks, lo, hi) + NewIndirect(s, t, i)
    ensures |Fresh(s.used, t.used)| ==
            Missing(s.inodes[i], s.blocks, lo, hi) + if IndirectNew(s, t, i) then 1 else 0
  {
    hide AddrAt, Owned, OthersSame, Grew, Fresh;
    var end := if stuck then hi + 1 else hi;
    var slots := NewSlots(s.inodes[i], s.blocks, t.inodes[i], t.blocks, lo, hi);
    forall b | b in Fresh(s.used, t.used)
      ensures b in slots + NewIndirect(s, t, i)
    {
      FreshSlot(s, t, i, lo, end, b);
      FreshNotZero(s, t);
      var k := t.owner[b].k;
      assert k != INDIRECT ==> lo <= k < hi && AddrAt(s.inodes[i], s.blocks, k) == 0;
    }
    forall b | b in slots
      ensures b in Fresh(s.used, t.used)
    {
      var k :| lo <= k < hi && AddrAt(s.inodes[i], s.blocks, k) == 0 && AddrAt(t.inodes[i], t.blocks, k) as nat == b;
      SlotFresh(s, t, i, lo, end, k);
    }
    if IndirectNew(s, t, i) {
      SlotFresh(s, t, i, lo, end, INDIRECT);
    }
    NewSlotsSize(s, t, i, lo, hi);
  }

  /** When the indirect block is new. */
  lemma IndirectNeeded(s: Fs, t: Fs, i: nat, lo: nat, hi: nat, stuck: bool)
    requires Extends(s, t, i, lo, hi, stuck)
    ensures lo < hi && NDIRECT < hi && AddrAt(s.inodes[i], s.blocks, INDIRECT) == 0 ==> IndirectNew(s, t, i)
    ensures IndirectNew(s, t, i) ==>
            NDIRECT < (if stuck then hi + 1 else hi) && AddrAt(s.inodes[i], s.blocks, INDIRECT) == 0
    ensures stuck ==> AddrAt(s.inodes[i], s.blocks, hi) == 0
  {
    hide AddrAt, Owned, OthersSame, LowestFirst;
    var end := if stuck then hi + 1 else hi;
    assert Filled(s, t, i, INDIRECT, lo, end);
    if stuck {
      assert hi <= INDIRECT && Filled(s, t, i, hi, lo, end);
    }
    if lo < hi && NDIRECT < hi {
      EntryHasIndirect(t.inodes[i], t.blocks, hi - 1);
    }
  }

  lemma FreshFree(u: seq<bool>, v: seq<bool>)
    requires |u| == |v|
    ensures Fresh(u, v) <= Members(FreeBlocks(u)) && |Fresh(u, v)| <= |FreeBlocks(u)|
    ensures (forall b | 0 <= b < |v| :: v[b]) ==>
            Fresh(u, v) == Members(FreeBlocks(u)) && |Fresh(u, v)| == |FreeBlocks(u)|
  {
    FreeSorted(u);
    MembersSize(FreeBlocks(u));
    CardinalityLe(Fresh(u, v), Members(FreeBlocks(u)));
    if forall b | 0 <= b < |v| :: v[b] {
      assert Fresh(u, v) == Members(FreeBlocks(u));
    }
  }

  /** What was needed is what was taken, and writing got as far as it could. */
  lemma Whence(s: Fs, t: Fs, i: nat, lo: nat, hi: nat, stuck: bool, end: nat)
    requires Extends(s, t, i, lo, hi, stuck) && hi <= end && (hi < end <==> stuck)
    requires stuck ==> forall b | 0 <= b < |t.used| :: t.used[b]
    ensures Reach(s.inodes[i], s.blocks, |FreeBlocks(s.used)|, lo, end) == hi
    ensures Members(Takes(s, i, lo, end)) == Fresh(s.used, t.used)
    ensures Need(s.inodes[i], s.blocks, lo, end) <= |FreeBlocks(s.used)| <==> !stuck
  {
    hide AddrAt, Owned, OthersSame, LowestFirst, Fresh, FreeBlocks, Members, AllThere;
    var n, b, free := s.inodes[i], s.blocks, FreeBlocks(s.used);
    FreshIs(s, t, i, lo, hi, stuck);
    IndirectNeeded(s, t, i, lo, hi, stuck);
    FreshFree(s.used, t.used);
    if stuck {
      NeedMonotone(n, b, lo, hi + 1, end);
      assert Takes(s, i, lo, end) == free;
    } else {
      FreeFirst(s.used, Need(n, b, lo, end));
      ExactlyFirst(s.used, t.used, free[..Need(n, b, lo, end)]);
    }
    ReachIs(n, b, |free|, lo, hi, end);
  }

  lemma EntriesEntered(s: Fs, t: Fs, i: nat, lo: nat, hi: nat, stuck: bool)
    requires Extends(s, t, i, lo, hi, stuck)
    ensures EntriesChanged(s.inodes[i], s.blocks, t.inodes[i], t.blocks) <==> Entered(s.inodes[i], s.blocks, lo, hi)
    ensures Entered(s.inodes[i], s.blocks, lo, hi) ==> AddrAt(t.inodes[i], t.blocks, INDIRECT) != 0
    ensures AddrAt(s.inodes[i], s.blocks, INDIRECT) != 0 ==>
            AddrAt(t.inodes[i], t.blocks, INDIRECT) == AddrAt(s.inodes[i], s.blocks, INDIRECT)
  {
    hide AddrAt, Owned, OthersSame, LowestFirst;
    var n, b, m, c := s.inodes[i], s.blocks, t.inodes[i], t.blocks;
    var end := if stuck then hi + 1 else hi;
    assert Filled(s, t, i, INDIRECT, lo, end);
    if EntriesChanged(n, b, m, c) {
      var k :| NDIRECT <= k < MAXFILE && AddrAt(m, c, k) != AddrAt(n, b, k);
      assert Filled(s, t, i, k, lo, end);
      assert lo <= k < hi;
    }
    if Entered(n, b, lo, hi) {
      var k :| lo <= k < hi && NDIRECT <= k && AddrAt(n, b, k) == 0;
      assert AddrAt(m, c, k) != 0;
      EntryHasIndirect(m, c, k);
    }
  }

  lemma SlotsSplit(s: Fs, t: Fs, i: nat, lo: nat, hi: nat, stuck: bool)
    requires Extends(s, t, i, lo, hi, stuck)
    ensures Slots(t.inodes[i], t.blocks, lo, hi) ==
            Had(s.inodes[i], s.blocks, lo, hi) + NewSlots(s.inodes[i], s.blocks, t.inodes[i], t.blocks, lo, hi)
  {
    hide AddrAt, Owned, OthersSame, LowestFirst;
    var n, b, m, c := s.inodes[i], s.blocks, t.inodes[i], t.blocks;
    var end := if stuck then hi + 1 else hi;
    forall k | lo <= k < hi
      ensures AddrAt(n, b, k) != 0 ==> AddrAt(m, c, k) == AddrAt(n, b, k)
    {
      assert Filled(s, t, i, k, lo, end);
    }
    var all, had, got := Slots(m, c, lo, hi), Had(n, b, lo, hi), NewSlots(n, b, m, c, lo, hi);
    forall x | x in all
      ensures x in had + got
    {
      var k :| lo <= k < hi && AddrAt(m, c, k) as nat == x;
      assert AddrAt(n, b, k) != 0 ==> AddrAt(n, b, k) as nat == x;
    }
    forall x | x in had
      ensures x in all
    {
      var k :| lo <= k < hi && AddrAt(n, b, k) != 0 && AddrAt(n, b, k) as nat == x;
      assert AddrAt(m, c, k) as nat == x;
    }
  }

  /** What was logged is what was planned. */
  lemma PlanExact(bmapstart: nat, s: Fs, t: Fs, i: nat, lo: nat, hi: nat, stuck: bool, end: nat)
    requires Extends(s, t, i, lo, hi, stuck) && hi <= end && (hi < end <==> stuck)
    requires stuck ==> forall b | 0 <= b < |t.used| :: t.used[b]
    ensures Reach(s.inodes[i], s.blocks, |FreeBlocks(s.used)|, lo, end) == hi
    ensures Need(s.inodes[i], s.blocks, lo, end) <= |FreeBlocks(s.used)| <==> !stuck
    ensures Slots(t.inodes[i], t.blocks, lo, hi) + Taken(bmapstart, s, t, i) == Plan(bmapstart, s, i, lo, end)
  {
    hide AddrAt, Owned, OthersSame, Grew, Fresh, Members, Takes, Slots, Had, NewSlots, Bitmaps, AllThere, Reach, Need;
    hide EntriesChanged, Entered;
    Whence(s, t, i, lo, hi, stuck, end);
    FreshIs(s, t, i, lo, hi, stuck);
    EntriesEntered(s, t, i, lo, hi, stuck);
    SlotsSplit(s, t, i, lo, hi, stuck);
  }

  // ----- how large the plan is -----

  lemma HadNext(n: Inode, b: seq<Block>, lo: nat, hi: nat)
    requires lo <= hi
    ensures Had(n, b, lo, hi + 1) ==
            Had(n, b, lo, hi) + if AddrAt(n, b, hi) != 0 then {AddrAt(n, b, hi) as nat} else {}
  {
    hide AddrAt;
    forall x | x in Had(n, b, lo, hi)
      ensures x in Had(n, b, lo, hi + 1)
    {
      var k :| lo <= k < hi && AddrAt(n, b, k) != 0 && AddrAt(n, b, k) as nat == x;
      assert lo <= k < hi + 1;
    }
  }

  lemma {:induction false} HadSize(s: Fs, i: nat, lo: nat, hi: nat)
    requires Owned(s) && i < |s.inodes| && lo <= hi <= MAXFILE
    ensures |Had(s.inodes[i], s.blocks, lo, hi)| == hi - lo - Missing(s.inodes[i], s.blocks, lo, hi)
    ensures forall b | b in Had(s.inodes[i], s.blocks, lo, hi) :: s.meta <= b < |s.used| && s.used[b]
    decreases hi
  {
    hide AddrAt, OwnersPoint, PointersOwn, BitsMatch;
    var n, b := s.inodes[i], s.blocks;
    if lo < hi {
      HadSize(s, i, lo, hi - 1);
      HadNext(n, b, lo, hi - 1);
      if AddrAt(n, b, hi - 1) != 0 {
        Unshared(s, i, hi - 1);
        InUse(s, i, hi - 1);
        assert AddrAt(n, b, hi - 1) as nat !in Had(n, b, lo, hi - 1);
      }
    } else {
      assert Had(n, b, lo, hi) == {};
    }
  }

  lemma InUse(s: Fs, i: nat, k: nat)
    requires Owned(s) && i < |s.inodes| && k <= INDIRECT && AddrAt(s.inodes[i], s.blocks, k) != 0
    ensures s.meta <= AddrAt(s.inodes[i], s.blocks, k) < |s.used| && s.used[AddrAt(s.inodes[i], s.blocks, k)]
  {
    hide AddrAt;
  }

  /** The blocks to be taken are free ones, as many as are needed or there are. */
  lemma TakesSize(s: Fs, i: nat, lo: nat, hi: nat)
    requires i < |s.inodes|
    ensures |Members(Takes(s, i, lo, hi))| == Min(Need(s.inodes[i], s.blocks, lo, hi), |FreeBlocks(s.used)|)
    ensures forall b | b in Members(Takes(s, i, lo, hi)) :: b < |s.used| && !s.used[b]
  {
    hide AddrAt;
    FreeSorted(s.used);
    MembersSize(Takes(s, i, lo, hi));
  }

  /** At least one block is logged for every file block written. */
  lemma PlanLarge(bmapstart: nat, s: Fs, i: nat, lo: nat, hi: nat)
    requires Owned(s) && i < |s.inodes| && lo <= hi <= MAXFILE
    ensures Reach(s.inodes[i], s.blocks, |FreeBlocks(s.used)|, lo, hi) - lo <= |Plan(bmapstart, s, i, lo, hi)|
  {
    hide AddrAt, Owned, Had, Members, Takes, Bitmaps, Indirect;
    var n, b, free := s.inodes[i], s.blocks, |FreeBlocks(s.used)|;
    var reach := Reach(n, b, free, lo, hi);
    HadSize(s, i, lo, reach);
    TakesSize(s, i, lo, hi);
    NeedMonotone(n, b, lo, reach, hi);
    var had, f := Had(n, b, lo, reach), Members(Takes(s, i, lo, hi));
    assert had !! f;
    assert |had + f| == |had| + |f|;
    CardinalityLe(had + f, Plan(bmapstart, s, i, lo, hi));
  }

  /** The inode is not in it. */
  lemma PlanOutside(bmapstart: nat, s: Fs, i: nat, lo: nat, hi: nat)
    requires Owned(s) && i < |s.inodes| && lo <= hi <= MAXFILE && bmapstart <= s.meta
    ensures forall b | b in Plan(bmapstart, s, i, lo, hi) :: bmapstart <= b
  {
    hide AddrAt, Had, Members, Takes, OwnersPoint, PointersOwn;
    var n, b, free := s.inodes[i], s.blocks, |FreeBlocks(s.used)|;
    var reach := Reach(n, b, free, lo, hi);
    HadSize(s, i, lo, reach);
    TakesSize(s, i, lo, hi);
    if AddrAt(n, b, INDIRECT) != 0 {
      Unshared(s, i, INDIRECT);
    }
  }

  lemma HadWithin(n: Inode, b: seq<Block>, lo: nat, mid: nat, hi: nat)
    requires lo <= mid <= hi
    ensures Had(n, b, lo, mid) <= Had(n, b, lo, hi) && Indirect(n, b, lo, mid) <= Indirect(n, b, lo, hi)
  {
    hide AddrAt;
    forall x | x in Had(n, b, lo, mid)
      ensures x in Had(n, b, lo, hi)
    {
      var k :| lo <= k < mid && AddrAt(n, b, k) != 0 && AddrAt(n, b, k) as nat == x;
      assert lo <= k < hi;
    }
    if Entered(n, b, lo, mid) {
      var k :| lo <= k < mid && NDIRECT <= k && AddrAt(n, b, k) == 0;
      assert lo <= k < hi;
    }
  }

  /** Writing further logs all that, and more. */
  lemma PlanMonotone(bmapstart: nat, s: Fs, i: nat, lo: nat, mid: nat, hi: nat)
    requires i < |s.inodes| && lo <= mid <= hi
    requires Need(s.inodes[i], s.blocks, lo, mid) <= |FreeBlocks(s.used)|
    ensures mid <= Reach(s.inodes[i], s.blocks, |FreeBlocks(s.used)|, lo, hi)
    ensures Plan(bmapstart, s, i, lo, mid) <= Plan(bmapstart, s, i, lo, hi)
  {
    hide AddrAt, Had, Bitmaps, Indirect, Need, FreeBlocks, Members;
    var n, b, free := s.inodes[i], s.blocks, FreeBlocks(s.used);
    var reach := Reach(n, b, |free|, lo, hi);
    ReachAtLeast(n, b, |free|, lo, mid, hi);
    HadWithin(n, b, lo, mid, reach);
    NeedMonotone(n, b, lo, mid, hi);
    var f, g := Takes(s, i, lo, mid), Takes(s, i, lo, hi);
    assert f == g[..|f|];
    MembersPrefix(f, g);
    BitmapsUnion(bmapstart, Members(f), Members(g) - Members(f));
    assert Members(f) + (Members(g) - Members(f)) == Members(g);
  }

  lemma MembersPrefix(f: seq<nat>, g: seq<nat>)
    requires f <= g
    ensures Members(f) <= Members(g)
  {
  }

  // ----- a series of writes -----

  /** Where a series of writes to a file began: in state `s`, with `before` in the log, at offset `off` of
      contents `c`. */
  datatype Series = Series(s: Fs, before: set<nat>, off: nat, c: seq<Byte>)

  /** `w` bytes have been written, up to state `t`. */
  ghost predicate Whole(k: Series, t: Fs, i: nat, w: nat) {
    && i < |k.s.inodes| == |t.inodes| && Owned(k.s) && Owned(t) && OthersSame(k.s, t, i)
    && Grew(k.s, t, i, k.off / BSIZE, k.off / BSIZE + Span(k.off, w))
    && Reached(t.inodes[i], t.blocks, k.off, w) && (w > 0 ==> k.off + w <= MAXFILE * BSIZE)
  }

  ghost predicate Full(used: seq<bool>) { forall b | 0 <= b < |used| :: used[b] }

  /** `w` bytes have been written, up to state `t`, and for the next one there is no block. */
  ghost predicate Stuck(k: Series, t: Fs, i: nat, w: nat) {
    && i < |k.s.inodes| == |t.inodes| && Owned(k.s) && Owned(t) && OthersSame(k.s, t, i)
    && Grew(k.s, t, i, k.off / BSIZE, k.off / BSIZE + Span(k.off, w + 1))
    && Reached(t.inodes[i], t.blocks, k.off, w) && k.off + w < MAXFILE * BSIZE
    && AddrAt(t.inodes[i], t.blocks, (k.off + w) / BSIZE) == 0 && Full(t.used)
  }

  /** What the series has logged, with the inode if `again`. */
  ghost function SeriesLogs(k: Series, bmapstart: nat, inodeBlock: nat, t: Fs, i: nat, w: nat, again: bool): set<nat>
    requires i < |k.s.inodes| == |t.inodes|
  {
    k.before + CopyLogs(bmapstart, k.s, t, i, k.off, w) + if again then {inodeBlock} else {}
  }

  lemma SpanJoin(off: nat, n: nat, m: nat)
    ensures off / BSIZE <= (off + n) / BSIZE <= off / BSIZE + Span(off, n)
    ensures m > 0 ==> (off + n) / BSIZE + Span(off + n, m) == off / BSIZE + Span(off, n + m)
    ensures Span(off + n, 0) == 0
  {
  }

  /** Blocks that are there stay where they are. */
  lemma KeptSlots(s: Fs, t: Fs, i: nat, lo: nat, hi: nat, off: nat, n: nat)
    requires Grew(s, t, i, lo, hi) && Reached(s.inodes[i], s.blocks, off, n) && off / BSIZE + Span(off, n) <= MAXFILE
    ensures Reached(t.inodes[i], t.blocks, off, n)
    ensures forall k {:trigger AddrAt(t.inodes[i], t.blocks, k)} | off / BSIZE <= k < off / BSIZE + Span(off, n) ::
              AddrAt(t.inodes[i], t.blocks, k) == AddrAt(s.inodes[i], s.blocks, k)
  {
    hide AddrAt, LowestFirst;
    forall k | off / BSIZE <= k < off / BSIZE + Span(off, n)
      ensures AddrAt(t.inodes[i], t.blocks, k) == AddrAt(s.inodes[i], s.blocks, k) != 0
    {
      assert Filled(s, t, i, k, lo, hi);
    }
  }

  lemma {:induction false} SlotsUnion(n: Inode, b: seq<Block>, lo: nat, mid: nat, hi: nat, end: nat)
    requires lo <= mid <= hi <= end
    ensures Slots(n, b, lo, hi) + Slots(n, b, mid, end) == Slots(n, b, lo, end)
    decreases end
  {
    hide AddrAt;
    if hi < end {
      SlotsUnion(n, b, lo, mid, hi, end - 1);
      SlotsNext(n, b, lo, end - 1);
      SlotsNext(n, b, mid, end - 1);
    } else {
      LateSlots(n, b, lo, mid - lo, end);
    }
  }

  /** Two writes after each other, the first whole: what they log together. */
  lemma JoinWrites(bmapstart: nat, s: Fs, t: Fs, u: Fs, i: nat, off: nat, n: nat, r: nat, z: nat)
    requires Grew(s, t, i, off / BSIZE, off / BSIZE + Span(off, n)) && Reached(t.inodes[i], t.blocks, off, n)
    requires Grew(t, u, i, (off + n) / BSIZE, (off + n) / BSIZE + Span(off + n, z))
    requires Reached(u.inodes[i], u.blocks, off + n, r) && r <= z && z > 0 && off + n + z <= MAXFILE * BSIZE
    ensures Grew(s, u, i, off / BSIZE, off / BSIZE + Span(off, n + z))
    ensures Reached(u.inodes[i], u.blocks, off, n + r)
    ensures CopyLogs(bmapstart, s, u, i, off, n + r) ==
            CopyLogs(bmapstart, s, t, i, off, n) + CopyLogs(bmapstart, t, u, i, off + n, r)
  {
    hide AddrAt, Grew, Taken, Slots;
    var lo, at, mid, end := off / BSIZE, (off + n) / BSIZE, off / BSIZE + Span(off, n), off / BSIZE + Span(off, n + z);
    SpanJoin(off, n, z);
    SpanJoin(off, n, r);
    GrewSizes(s, t, i, lo, mid);
    GrewSizes(t, u, i, at, end);
    SpanMonotone(off, n, n + z);
    KeptSlots(t, u, i, at, end, off, n);
    SlotsSame(t.inodes[i], t.blocks, u.inodes[i], u.blocks, lo, mid);
    GrewWider(s, t, i, lo, mid, lo, end);
    GrewWider(t, u, i, at, end, lo, end);
    GrewTransitive(s, t, u, i, lo, end);
    TakenAdds(bmapstart, s, t, u, i, lo, end);
    if r > 0 {
      SpanMonotone(off, n, n + r);
      SlotsUnion(u.inodes[i], u.blocks, lo, at, mid, lo + Span(off, n + r));
    } else {
      NoSlots(u.inodes[i], u.blocks, at);
    }
  }

  lemma NoSlots(n: Inode, b: seq<Block>, at: nat)
    ensures Slots(n, b, at, at) == {}
  {
  }

  /** The next write of the series, of `data`, which wrote `r` bytes. */
  lemma NextWrite(k: Series, bmapstart: nat, inodeBlock: nat, t: Fs, u: Fs, i: nat, n: nat, data: seq<Byte>, r: nat)
    requires Whole(k, t, i, n) && data != [] && r <= |data| && k.off + n + |data| <= MAXFILE * BSIZE
    requires Owned(u) && OthersSame(t, u, i) && Reached(u.inodes[i], u.blocks, k.off + n, r)
    requires var at := k.off + n; Grew(t, u, i, at / BSIZE, at / BSIZE + Span(at, Min(r + 1, |data|)))
    requires r < |data| ==> Stopped(u, i, k.off + n, |data|, r, |data|)
    ensures if r == |data| then Whole(k, u, i, n + r) else Stuck(k, u, i, n + r)
    ensures CopyLogs(bmapstart, k.s, u, i, k.off, n + r) ==
            CopyLogs(bmapstart, k.s, t, i, k.off, n) + CopyLogs(bmapstart, t, u, i, k.off + n, r)
  {
    hide AddrAt, Owned, OthersSame, Grew, CopyLogs, Reached, Span;
    OthersTransitive(k.s, t, u, i);
    OthersCount(t, u, i);
    JoinWrites(bmapstart, k.s, t, u, i, k.off, n, r, Min(r + 1, |data|));
  }

  // ----- whether the series fits the log -----

  /** How much of `size` bytes at `off` a file can hold. */
  function Capped(off: nat, size: nat): nat { Max(0, Min(size, MAXFILE * BSIZE - off)) }

  /** Writing `size` bytes at `off` of inode `i`, with `before` in the log, will find the log full. If it is done
      in more than one write, the inode is in the log when the last one comes to it (`again`). */
  ghost predicate TooBig(bmapstart: nat, inodeBlock: nat, s: Fs, i: nat, before: set<nat>, off: nat, size: nat,
                         again: bool)
    requires i < |s.inodes|
  {
    var lo, hi := off / BSIZE, off / BSIZE + Span(off, Capped(off, size));
    var inode := if again && lo < Reach(s.inodes[i], s.blocks, |FreeBlocks(s.used)|, lo, hi) then {inodeBlock} else {};
    |before + Plan(bmapstart, s, i, lo, hi) + inode| >= LOGBLOCKS
  }

  /** There are blocks enough for it. */
  ghost predicate Room(s: Fs, i: nat, off: nat, size: nat)
    requires i < |s.inodes|
  {
    var lo, hi := off / BSIZE, off / BSIZE + Span(off, Capped(off, size));
    Need(s.inodes[i], s.blocks, lo, hi) <= |FreeBlocks(s.used)|
  }

  lemma WholePlan(k: Series, bmapstart: nat, t: Fs, i: nat, w: nat)
    requires Whole(k, t, i, w) && w > 0
    ensures var lo, hi := k.off / BSIZE, k.off / BSIZE + Span(k.off, w);
            && Need(k.s.inodes[i], k.s.blocks, lo, hi) <= |FreeBlocks(k.s.used)| && lo < hi <= MAXFILE
            && Reach(k.s.inodes[i], k.s.blocks, |FreeBlocks(k.s.used)|, lo, hi) == hi
            && CopyLogs(bmapstart, k.s, t, i, k.off, w) == Plan(bmapstart, k.s, i, lo, hi)
  {
    hide AddrAt, Owned, OthersSame, Grew, Plan, Need, Reach, Taken, Slots, FreeBlocks;
    var lo, hi := k.off / BSIZE, k.off / BSIZE + Span(k.off, w);
    assert Extends(k.s, t, i, lo, hi, false);
    PlanExact(bmapstart, k.s, t, i, lo, hi, false, hi);
  }

  lemma StuckPlan(k: Series, bmapstart: nat, t: Fs, i: nat, w: nat, size: nat)
    requires Stuck(k, t, i, w) && w < size && k.off + size <= MAXFILE * BSIZE
    ensures var lo, hi := k.off / BSIZE, k.off / BSIZE + Span(k.off, size);
            && Need(k.s.inodes[i], k.s.blocks, lo, hi) > |FreeBlocks(k.s.used)|
            && Reach(k.s.inodes[i], k.s.blocks, |FreeBlocks(k.s.used)|, lo, hi) == lo + Span(k.off, w)
            && CopyLogs(bmapstart, k.s, t, i, k.off, w) == Plan(bmapstart, k.s, i, lo, hi)
  {
    hide AddrAt, Owned, OthersSame, Grew, Plan, Need, Reach, Taken, Slots, FreeBlocks;
    var lo, mid, hi := k.off / BSIZE, k.off / BSIZE + Span(k.off, w), k.off / BSIZE + Span(k.off, size);
    StuckAt(k, t, i, w);
    SpanMonotone(k.off, w + 1, size);
    assert Extends(k.s, t, i, lo, mid, true);
    PlanExact(bmapstart, k.s, t, i, lo, mid, true, hi);
  }

  /** A series gets stuck at a block boundary, or at its start. */
  lemma StuckAt(k: Series, t: Fs, i: nat, w: nat)
    requires Stuck(k, t, i, w)
    ensures (k.off + w) / BSIZE == k.off / BSIZE + Span(k.off, w) < MAXFILE && Span(k.off, w + 1) == Span(k.off, w) + 1
    ensures AddrAt(t.inodes[i], t.blocks, k.off / BSIZE + Span(k.off, w)) == 0
  {
    hide AddrAt, Owned, OthersSame, Grew;
    var at := (k.off + w) / BSIZE;
    assert !(k.off / BSIZE <= at < k.off / BSIZE + Span(k.off, w));
    SpanJoin(k.off, w, 1);
  }

  /** A series that was written whole fits the log if every write of it did, and there was room for it. */
  lemma WholeFits(k: Series, bmapstart: nat, inodeBlock: nat, t: Fs, i: nat, w: nat, again: bool)
    requires Whole(k, t, i, w) && w > 0
    ensures Room(k.s, i, k.off, w)
    ensures |SeriesLogs(k, bmapstart, inodeBlock, t, i, w, again)| >= LOGBLOCKS <==>
            TooBig(bmapstart, inodeBlock, k.s, i, k.before, k.off, w, again)
  {
    hide AddrAt, Owned, OthersSame, Grew, Plan, Need, Reach, CopyLogs, FreeBlocks, Span;
    assert Capped(k.off, w) == w;
    WholePlan(k, bmapstart, t, i, w);
  }

  /** One that got stuck found the log full if and only if that was to be expected. */
  lemma StuckFits(k: Series, bmapstart: nat, inodeBlock: nat, t: Fs, i: nat, w: nat, size: nat, again: bool)
    requires Stuck(k, t, i, w) && w < Capped(k.off, size)
    ensures !Room(k.s, i, k.off, size)
    ensures |SeriesLogs(k, bmapstart, inodeBlock, t, i, w, again && w > 0)| >= LOGBLOCKS <==>
            TooBig(bmapstart, inodeBlock, k.s, i, k.before, k.off, size, again)
  {
    hide AddrAt, Owned, OthersSame, Grew, Plan, Need, Reach, CopyLogs, FreeBlocks;
    StuckPlan(k, bmapstart, t, i, w, Capped(k.off, size));
  }

  /** One that has found the log full would only have logged more. */
  lemma WholeOverruns(k: Series, bmapstart: nat, inodeBlock: nat, t: Fs, i: nat, w: nat, size: nat, again: bool,
                      ever: bool)
    requires Whole(k, t, i, w) && 0 < w <= Capped(k.off, size) && (again ==> ever)
    requires |SeriesLogs(k, bmapstart, inodeBlock, t, i, w, again)| >= LOGBLOCKS
    ensures TooBig(bmapstart, inodeBlock, k.s, i, k.before, k.off, size, ever)
  {
    hide AddrAt, Owned, OthersSame, Grew, Plan, Need, Reach, CopyLogs, FreeBlocks, Span;
    WholePlan(k, bmapstart, t, i, w);
    var lo, mid, hi := k.off / BSIZE, k.off / BSIZE + Span(k.off, w), k.off / BSIZE + Span(k.off, Capped(k.off, size));
    SpanMonotone(k.off, w, Capped(k.off, size));
    PlanMonotone(bmapstart, k.s, i, lo, mid, hi);
    var inode := if ever then {inodeBlock} else {};
    CardinalityLe(SeriesLogs(k, bmapstart, inodeBlock, t, i, w, again),
                  k.before + Plan(bmapstart, k.s, i, lo, hi) + inode);
  }

  /** Writing `n` blocks logs more than `n`, if there are blocks for them: each of them, and the inode. */
  lemma LogsMore(bmapstart: nat, inodeBlock: nat, s: Fs, i: nat, size: nat, n: nat)
    requires Owned(s) && i < |s.inodes| && inodeBlock < bmapstart <= s.meta && 0 < n <= MAXFILE
    requires size > (n - 1) * BSIZE && Need(s.inodes[i], s.blocks, 0, n) <= |FreeBlocks(s.used)|
    ensures var hi := Span(0, Capped(0, size));
            && Reach(s.inodes[i], s.blocks, |FreeBlocks(s.used)|, 0, hi) >= n
            && |Plan(bmapstart, s, i, 0, hi) + {inodeBlock}| > n
  {
    hide AddrAt, Owned, Plan, Need, FreeBlocks;
    var hi := Span(0, Capped(0, size));
    assert n <= hi <= MAXFILE;
    ReachAtLeast(s.inodes[i], s.blocks, |FreeBlocks(s.used)|, 0, n, hi);
    PlanLarge(bmapstart, s, i, 0, hi);
    PlanOutside(bmapstart, s, i, 0, hi);
    var plan := Plan(bmapstart, s, i, 0, hi);
    assert |plan + {inodeBlock}| == |plan| + 1;
  }

  /** Writing 29 blocks in several writes is always too much, if there are blocks for them: with the inode, they
      are as many as the log holds. */
  lemma AlwaysTooBig(bmapstart: nat, inodeBlock: nat, s: Fs, i: nat, before: set<nat>, size: nat)
    requires Owned(s) && i < |s.inodes| && inodeBlock < bmapstart <= s.meta
    requires size > (LOGBLOCKS - 2) * BSIZE && Need(s.inodes[i], s.blocks, 0, LOGBLOCKS - 1) <= |FreeBlocks(s.used)|
    ensures TooBig(bmapstart, inodeBlock, s, i, before, 0, size, true)
  {
    hide AddrAt, Owned, Plan, Need, FreeBlocks, Reach;
    LogsMore(bmapstart, inodeBlock, s, i, size, LOGBLOCKS - 1);
    var plan := Plan(bmapstart, s, i, 0, Span(0, Capped(0, size)));
    CardinalityLe(plan + {inodeBlock}, before + plan + {inodeBlock});
  }

  lemma {:induction false} NeedAtMost(n: Inode, b: seq<Block>, lo: nat, hi: nat)
    requires lo <= hi
    ensures Missing(n, b, lo, hi) <= hi - lo && Need(n, b, lo, hi) <= hi - lo + 1
    decreases hi
  {
    hide AddrAt;
    if lo < hi {
      NeedAtMost(n, b, lo, hi - 1);
    }
  }

  /** For a file that has no blocks yet it is a matter of counting: what is in the log, the inode, the free-map
      blocks of the blocks to be taken, and those blocks. */
  lemma EmptyFile(bmapstart: nat, inodeBlock: nat, s: Fs, i: nat, before: set<nat>, size: nat)
    requires Owned(s) && i < |s.inodes| && inodeBlock < bmapstart && bmapstart + (|s.used| + BPB - 1) / BPB <= s.meta
    requires (forall k {:trigger AddrAt(s.inodes[i], s.blocks, k)} :: AddrAt(s.inodes[i], s.blocks, k) == 0)
    requires (forall b | b in before && b < |s.used| :: s.used[b]) && size > 0 && Room(s, i, 0, size)
    ensures var hi := Span(0, Capped(0, size));
            var maps := Bitmaps(bmapstart, Members(Takes(s, i, 0, hi)));
            TooBig(bmapstart, inodeBlock, s, i, before, 0, size, true) <==>
              |before + {inodeBlock} + maps| + hi + (if hi > NDIRECT then 1 else 0) >= LOGBLOCKS
  {
    hide AddrAt, PointersOwn, OwnersPoint, Members, Takes, FreeBlocks, Bitmaps;
    var n, b, hi := s.inodes[i], s.blocks, Span(0, Capped(0, size));
    AllMissing(n, b, hi);
    var f := Members(Takes(s, i, 0, hi));
    var maps := Bitmaps(bmapstart, f);
    TakesSize(s, i, 0, hi);
    BitmapsBelow(bmapstart, f, |s.used|, s.meta);
    ReachAtLeast(n, b, |FreeBlocks(s.used)|, 0, hi, hi);
    assert before + {inodeBlock} + maps !! f;
    assert before + Plan(bmapstart, s, i, 0, hi) + {inodeBlock} == before + {inodeBlock} + maps + f;
    assert |before + {inodeBlock} + maps + f| == |before + {inodeBlock} + maps| + |f|;
  }

  lemma {:induction false} AllMissing(n: Inode, b: seq<Block>, hi: nat)
    requires forall k {:trigger AddrAt(n, b, k)} :: AddrAt(n, b, k) == 0
    ensures Missing(n, b, 0, hi) == hi && Had(n, b, 0, hi) == {} && Indirect(n, b, 0, hi) == {}
    ensures Need(n, b, 0, hi) == hi + if hi > NDIRECT then 1 else 0
  {
    hide AddrAt;
    if hi > 0 {
      AllMissing(n, b, hi - 1);
    }
  }
}
