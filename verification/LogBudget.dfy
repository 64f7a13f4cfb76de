/** The blocks a write passes to log_write(): exactly which they are, how many they can be, and why
    kernel/file.c cuts writes into chunks of three blocks. */
module LogBudget {
  import opened Common
  import opened Blocks
  import opened FsModel
  import opened FileWrites

  // ----- what a write changes -----

  /** The blocks in use in `v` that were free in `u`. */
  ghost function Fresh(u: seq<bool>, v: seq<bool>): set<nat> {
    set b | 0 <= b < |u| && b < |v| && v[b] && !u[b]
  }

  /** The blocks that file blocks `lo` to `hi` of an inode point to. */
  ghost function Slots(n: Inode, b: seq<Block>, lo: nat, hi: nat): set<nat> {
    set k | lo <= k < hi :: AddrAt(n, b, k) as nat
  }

  /** Blocks were taken lowest first: none below one that was taken is left free. */
  ghost predicate LowestFirst(u: seq<bool>, v: seq<bool>) {
    forall b, c | b in Fresh(u, v) && 0 <= c < b && c < |v| :: v[c]
  }

  /** Slot `k` may be filled by mapping file blocks `lo` to `hi`. */
  predicate InRange(k: nat, lo: nat, hi: nat) {
    lo <= k < hi || (k == INDIRECT && NDIRECT < hi)
  }

  /** Slot `k` of inode `i` is as it was, or has been filled. */
  ghost predicate Filled(s: Fs, t: Fs, i: nat, k: nat, lo: nat, hi: nat)
    requires i < |s.inodes| == |t.inodes|
  {
    || AddrAt(t.inodes[i], t.blocks, k) == AddrAt(s.inodes[i], s.blocks, k)
    || (AddrAt(s.inodes[i], s.blocks, k) == 0 && InRange(k, lo, hi))
  }

  /** Inode `i` got blocks for some of its file blocks `lo` to `hi`, and nothing was taken from it. */
  ghost predicate Grew(s: Fs, t: Fs, i: nat, lo: nat, hi: nat) {
    && i < |s.inodes| == |t.inodes| && |t.used| == |s.used| && t.meta == s.meta
    && (forall b | 0 <= b < |s.used| && s.used[b] :: t.used[b])
    && LowestFirst(s.used, t.used)
    && (forall k: nat {:trigger AddrAt(t.inodes[i], t.blocks, k)} | k <= INDIRECT :: Filled(s, t, i, k, lo, hi))
  }

  lemma GrewSizes(s: Fs, t: Fs, i: nat, lo: nat, hi: nat)
    requires Grew(s, t, i, lo, hi)
    ensures i < |s.inodes| == |t.inodes| && |t.used| == |s.used|
  {
  }

  lemma GrewReflexive(s: Fs, i: nat, lo: nat, hi: nat)
    requires i < |s.inodes|
    ensures Grew(s, s, i, lo, hi)
  {
    hide AddrAt;
    assert Fresh(s.used, s.used) == {};
    assert LowestFirst(s.used, s.used);
    forall k: nat | k <= INDIRECT
      ensures Filled(s, s, i, k, lo, hi)
    {
    }
  }

  lemma FreshAdds(u: seq<bool>, v: seq<bool>, w: seq<bool>)
    requires |u| == |v| == |w| && (forall b | 0 <= b < |u| && u[b] :: v[b]) && (forall b | 0 <= b < |v| && v[b] :: w[b])
    ensures Fresh(u, w) == Fresh(u, v) + Fresh(v, w)
    ensures LowestFirst(u, v) && LowestFirst(v, w) ==> LowestFirst(u, w)
  {
    forall b
      ensures b in Fresh(u, w) <==> b in Fresh(u, v) || b in Fresh(v, w)
    {
    }
  }

  lemma GrewTransitive(s: Fs, t: Fs, u: Fs, i: nat, lo: nat, hi: nat)
    requires Grew(s, t, i, lo, hi) && Grew(t, u, i, lo, hi)
    ensures Grew(s, u, i, lo, hi) && Fresh(s.used, u.used) == Fresh(s.used, t.used) + Fresh(t.used, u.used)
  {
    hide AddrAt, LowestFirst;
    FreshAdds(s.used, t.used, u.used);
    forall k: nat | k <= INDIRECT
      ensures Filled(s, u, i, k, lo, hi)
    {
      assert Filled(s, t, i, k, lo, hi) && Filled(t, u, i, k, lo, hi);
    }
  }

  lemma GrewWider(s: Fs, t: Fs, i: nat, lo: nat, hi: nat, first: nat, last: nat)
    requires Grew(s, t, i, lo, hi) && first <= lo && hi <= last
    ensures Grew(s, t, i, first, last)
  {
    hide AddrAt;
    forall m: nat | m <= INDIRECT
      ensures Filled(s, t, i, m, first, last)
    {
      assert Filled(s, t, i, m, lo, hi);
    }
  }

  // ----- what is logged -----

  function BitmapBlock(bmapstart: nat, b: nat): nat { b / BPB + bmapstart }

  /** The free-map blocks that hold the bits of the blocks in `a`. */
  function Bitmaps(bmapstart: nat, a: set<nat>): set<nat> {
    set b | b in a :: BitmapBlock(bmapstart, b)
  }

  /** An entry of the inode's indirect block has been filled. */
  ghost predicate EntriesChanged(n: Inode, b: seq<Block>, m: Inode, c: seq<Block>) {
    exists k {:trigger AddrAt(m, c, k)} :: NDIRECT <= k < MAXFILE && AddrAt(m, c, k) != AddrAt(n, b, k)
  }

  ghost function IndirectLogged(s: Fs, t: Fs, i: nat): set<nat>
    requires i < |s.inodes| == |t.inodes|
  {
    if EntriesChanged(s.inodes[i], s.blocks, t.inodes[i], t.blocks)
    then {AddrAt(t.inodes[i], t.blocks, INDIRECT) as nat} else {}
  }

  /** What bmap() logs in going from `s` to `t`: the blocks it takes, which it zeroes, their free-map
      blocks, and the indirect block when an entry was filled. */
  ghost function Taken(bmapstart: nat, s: Fs, t: Fs, i: nat): set<nat>
    requires i < |s.inodes| == |t.inodes|
  {
    Fresh(s.used, t.used) + Bitmaps(bmapstart, Fresh(s.used, t.used)) + IndirectLogged(s, t, i)
  }

  lemma BitmapsUnion(bmapstart: nat, a: set<nat>, b: set<nat>)
    ensures Bitmaps(bmapstart, a + b) == Bitmaps(bmapstart, a) + Bitmaps(bmapstart, b)
  {
    forall y | y in Bitmaps(bmapstart, a)
      ensures y in Bitmaps(bmapstart, a + b)
    {
      var x :| x in a && BitmapBlock(bmapstart, x) == y;
      assert x in a + b;
    }
    forall y | y in Bitmaps(bmapstart, b)
      ensures y in Bitmaps(bmapstart, a + b)
    {
      var x :| x in b && BitmapBlock(bmapstart, x) == y;
      assert x in a + b;
    }
  }

  lemma BitmapsOne(bmapstart: nat, a: nat)
    ensures Bitmaps(bmapstart, {}) == {} && Bitmaps(bmapstart, {a}) == {BitmapBlock(bmapstart, a)}
  {
    assert a in {a};
  }

  /** An inode with a filled entry has an indirect block. */
  lemma EntryHasIndirect(n: Inode, b: seq<Block>, k: nat)
    requires NDIRECT <= k < MAXFILE && AddrAt(n, b, k) != 0
    ensures AddrAt(n, b, INDIRECT) != 0
  {
  }

  lemma IndirectAdds(s: Fs, t: Fs, u: Fs, i: nat, lo: nat, hi: nat)
    requires Grew(s, t, i, lo, hi) && Grew(t, u, i, lo, hi)
    ensures IndirectLogged(s, u, i) == IndirectLogged(s, t, i) + IndirectLogged(t, u, i)
  {
    hide AddrAt, LowestFirst;
    assert Filled(t, u, i, INDIRECT, lo, hi);
    if k :| NDIRECT <= k < MAXFILE && AddrAt(t.inodes[i], t.blocks, k) != AddrAt(s.inodes[i], s.blocks, k) {
      assert Filled(s, t, i, k, lo, hi) && Filled(t, u, i, k, lo, hi);
      EntryHasIndirect(t.inodes[i], t.blocks, k);
      assert AddrAt(u.inodes[i], u.blocks, k) != AddrAt(s.inodes[i], s.blocks, k);
    }
    if k :| NDIRECT <= k < MAXFILE && AddrAt(u.inodes[i], u.blocks, k) != AddrAt(t.inodes[i], t.blocks, k) {
      assert Filled(s, t, i, k, lo, hi) && Filled(t, u, i, k, lo, hi);
      assert AddrAt(u.inodes[i], u.blocks, k) != AddrAt(s.inodes[i], s.blocks, k);
    }
    if k :| NDIRECT <= k < MAXFILE && AddrAt(u.inodes[i], u.blocks, k) != AddrAt(s.inodes[i], s.blocks, k) {
      assert AddrAt(u.inodes[i], u.blocks, k) != AddrAt(t.inodes[i], t.blocks, k) ||
             AddrAt(t.inodes[i], t.blocks, k) != AddrAt(s.inodes[i], s.blocks, k);
    }
  }

  /** What two steps log is what each logs. */
  lemma TakenAdds(bmapstart: nat, s: Fs, t: Fs, u: Fs, i: nat, lo: nat, hi: nat)
    requires Grew(s, t, i, lo, hi) && Grew(t, u, i, lo, hi)
    ensures Taken(bmapstart, s, u, i) == Taken(bmapstart, s, t, i) + Taken(bmapstart, t, u, i)
  {
    hide Bitmaps, Fresh, IndirectLogged;
    GrewTransitive(s, t, u, i, lo, hi);
    IndirectAdds(s, t, u, i, lo, hi);
    hide Grew;
    BitmapsUnion(bmapstart, Fresh(s.used, t.used), Fresh(t.used, u.used));
  }

  lemma TakenNone(bmapstart: nat, s: Fs, i: nat)
    requires i < |s.inodes|
    ensures Taken(bmapstart, s, s, i) == {}
  {
    hide AddrAt;
    assert Fresh(s.used, s.used) == {};
  }

  /** Only blocks in use and pointers matter. */
  lemma TakenSame(bmapstart: nat, s: Fs, t: Fs, u: Fs, i: nat)
    requires i < |s.inodes| == |t.inodes| == |u.inodes| && u.used == t.used
    requires forall k {:trigger AddrAt(u.inodes[i], u.blocks, k)} ::
             AddrAt(u.inodes[i], u.blocks, k) == AddrAt(t.inodes[i], t.blocks, k)
    ensures Taken(bmapstart, s, u, i) == Taken(bmapstart, s, t, i)
  {
    hide AddrAt, Bitmaps, Fresh;
    var n, m, k := s.inodes[i], t.inodes[i], u.inodes[i];
    if EntriesChanged(n, s.blocks, m, t.blocks) {
      var e :| NDIRECT <= e < MAXFILE && AddrAt(m, t.blocks, e) != AddrAt(n, s.blocks, e);
      assert AddrAt(k, u.blocks, e) != AddrAt(n, s.blocks, e);
    }
  }

  lemma GrewSame(s: Fs, t: Fs, u: Fs, i: nat, lo: nat, hi: nat)
    requires Grew(s, t, i, lo, hi) && |u.inodes| == |t.inodes| && u.used == t.used && u.meta == t.meta
    requires forall k {:trigger AddrAt(u.inodes[i], u.blocks, k)} ::
             AddrAt(u.inodes[i], u.blocks, k) == AddrAt(t.inodes[i], t.blocks, k)
    ensures Grew(s, u, i, lo, hi)
  {
    hide AddrAt, LowestFirst;
    forall k: nat | k <= INDIRECT
      ensures Filled(s, u, i, k, lo, hi)
    {
      assert Filled(s, t, i, k, lo, hi);
    }
  }

  lemma SlotsSame(n: Inode, b: seq<Block>, m: Inode, c: seq<Block>, lo: nat, hi: nat)
    requires forall k {:trigger AddrAt(m, c, k)} | lo <= k < hi :: AddrAt(m, c, k) == AddrAt(n, b, k)
    ensures Slots(m, c, lo, hi) == Slots(n, b, lo, hi)
  {
    hide AddrAt;
    forall x
      ensures x in Slots(m, c, lo, hi) <==> x in Slots(n, b, lo, hi)
    {
      if x in Slots(m, c, lo, hi) {
        var k :| lo <= k < hi && AddrAt(m, c, k) as nat == x;
        assert AddrAt(n, b, k) as nat == x;
      }
      if x in Slots(n, b, lo, hi) {
        var k :| lo <= k < hi && AddrAt(n, b, k) as nat == x;
        assert AddrAt(m, c, k) as nat == x;
      }
    }
  }

  lemma SlotsNext(n: Inode, b: seq<Block>, lo: nat, hi: nat)
    requires lo <= hi
    ensures Slots(n, b, lo, hi + 1) == Slots(n, b, lo, hi) + {AddrAt(n, b, hi) as nat}
  {
    hide AddrAt;
    var more, all := Slots(n, b, lo, hi) + {AddrAt(n, b, hi) as nat}, Slots(n, b, lo, hi + 1);
    forall x | x in all
      ensures x in more
    {
      var k :| lo <= k < hi + 1 && AddrAt(n, b, k) as nat == x;
    }
    forall x | x in more
      ensures x in all
    {
      if x in Slots(n, b, lo, hi) {
        var k :| lo <= k < hi && AddrAt(n, b, k) as nat == x;
        assert lo <= k < hi + 1;
      }
    }
  }

  /** Every block that changed is in `logged`. */
  ghost predicate Covers(s: Fs, t: Fs, logged: set<nat>) {
    |t.blocks| == |s.blocks| && forall b | 0 <= b < |s.blocks| && t.blocks[b] != s.blocks[b] :: b in logged
  }

  lemma CoversAdds(s: Fs, t: Fs, u: Fs, a: set<nat>, b: set<nat>)
    requires Covers(s, t, a) && Covers(t, u, b)
    ensures Covers(s, u, a + b)
  {
  }

  /** Attaching a block as bmap() does: what it logs, and that the file reads as before. */
  lemma AttachedTakes(bmapstart: nat, s: Fs, t: Fs, i: nat, k: nat, a: Word, bn: nat)
    requires Attached(s, t, i, k, a) && a < |s.used| && !s.used[a] && t.used == s.used[a := true] &&
             t.meta == s.meta && a != 0
    requires (forall b | 0 <= b < a :: s.used[b]) && bn < MAXFILE && (k == bn || (k == INDIRECT && NDIRECT <= bn))
    ensures Grew(s, t, i, bn, bn + 1)
    ensures Taken(bmapstart, s, t, i) ==
            {a as nat, BitmapBlock(bmapstart, a)} +
                if NDIRECT <= k < MAXFILE then {AddrAt(t.inodes[i], t.blocks, INDIRECT) as nat} else {}
  {
    hide AddrAt, ByteAt, OthersSame, Bitmaps;
    assert Fresh(s.used, t.used) == {a as nat};
    BitmapsOne(bmapstart, a);
    var hi := bn + 1;
    forall m: nat | m <= INDIRECT
      ensures Filled(s, t, i, m, bn, hi)
    {
      assert AddrAt(t.inodes[i], t.blocks, m) == if m == k then a else AddrAt(s.inodes[i], s.blocks, m);
    }
    if NDIRECT <= k < MAXFILE {
      assert AddrAt(t.inodes[i], t.blocks, k) != AddrAt(s.inodes[i], s.blocks, k);
    }
  }

  /** The file reads as before. */
  ghost predicate SameBytes(n: Inode, b: seq<Block>, m: Inode, c: seq<Block>) {
    forall x {:trigger ByteAt(m, c, x)} :: ByteAt(m, c, x) == ByteAt(n, b, x)
  }

  lemma AttachedSame(s: Fs, t: Fs, i: nat, k: nat, a: Word)
    requires Attached(s, t, i, k, a)
    ensures i < |s.inodes| == |t.inodes| && OthersSame(s, t, i) &&
            SameBytes(s.inodes[i], s.blocks, t.inodes[i], t.blocks)
    ensures k <= INDIRECT && AddrAt(t.inodes[i], t.blocks, k) == a
  {
    hide AddrAt, ByteAt, OthersSame;
  }

  lemma SameBytesAdds(s: Fs, t: Fs, u: Fs, i: nat)
    requires i < |s.inodes| == |t.inodes| == |u.inodes|
    requires SameBytes(s.inodes[i], s.blocks, t.inodes[i], t.blocks) &&
             SameBytes(t.inodes[i], t.blocks, u.inodes[i], u.blocks)
    ensures SameBytes(s.inodes[i], s.blocks, u.inodes[i], u.blocks)
  {
    hide ByteAt;
  }

  lemma NothingTaken(bmapstart: nat, s: Fs, i: nat, bn: nat)
    requires i < |s.inodes|
    ensures Grew(s, s, i, bn, bn + 1) && Taken(bmapstart, s, s, i) == {} && OthersSame(s, s, i)
    ensures SameBytes(s.inodes[i], s.blocks, s.inodes[i], s.blocks) && Covers(s, s, {})
  {
    hide ByteAt, Taken, Grew, OthersSame;
    GrewReflexive(s, i, bn, bn + 1);
    TakenNone(bmapstart, s, i);
    OthersReflexive(s, i);
  }

  lemma CoversOne(s: Fs, t: Fs, a: nat)
    requires |t.blocks| == |s.blocks| && forall b | 0 <= b < |s.blocks| && b != a :: t.blocks[b] == s.blocks[b]
    ensures Covers(s, t, {a})
  {
  }

  lemma CoversMore(s: Fs, t: Fs, u: Fs, logs: set<nat>, x: nat)
    requires Covers(s, t, logs) && u.blocks == t.blocks
    ensures Covers(s, u, logs + {x})
  {
  }

  // ----- which slots the new blocks went to -----

  lemma OthersAddrs(s: Fs, t: Fs, i: nat)
    requires OthersSame(s, t, i)
    ensures |t.inodes| == |s.inodes|
    ensures forall j, m {:trigger AddrAt(t.inodes[j], t.blocks, m)} | 0 <= j < |t.inodes| && j != i ::
              AddrAt(t.inodes[j], t.blocks, m) == AddrAt(s.inodes[j], s.blocks, m)
  {
    hide AddrAt, ByteAt;
    forall j, m | 0 <= j < |t.inodes| && j != i
      ensures AddrAt(t.inodes[j], t.blocks, m) == AddrAt(s.inodes[j], s.blocks, m)
    {
      assert SameFile(s.inodes[j], s.blocks, t.inodes[j], t.blocks);
    }
  }

  lemma PointsUsed(s: Fs)
    requires Owned(s)
    ensures forall j: nat, k: nat {:trigger AddrAt(s.inodes[j], s.blocks, k)} | j < |s.inodes| && k <= INDIRECT &&
            AddrAt(s.inodes[j], s.blocks, k) != 0 ::
              s.meta <= AddrAt(s.inodes[j], s.blocks, k) < |s.used| && s.used[AddrAt(s.inodes[j], s.blocks, k)]
  {
    hide AddrAt;
  }

  /** A block newly in use fills a slot of the inode that was empty. */
  lemma FreshSlot(s: Fs, t: Fs, i: nat, lo: nat, hi: nat, b: nat)
    requires Owned(s) && Owned(t) && OthersSame(s, t, i) && Grew(s, t, i, lo, hi) && b in Fresh(s.used, t.used)
    ensures b in t.owner && t.owner[b].k <= INDIRECT && InRange(t.owner[b].k, lo, hi)
    ensures AddrAt(t.inodes[i], t.blocks, t.owner[b].k) == b && AddrAt(s.inodes[i], s.blocks, t.owner[b].k) == 0
  {
    hide AddrAt, LowestFirst, OthersSame;
    OthersAddrs(s, t, i);
    PointsUsed(s);
    var o := t.owner[b];
    assert AddrAt(t.inodes[o.inum], t.blocks, o.k) == b;
    assert Filled(s, t, i, o.k, lo, hi);
  }

  /** A block in use stays with its slot. */
  lemma KeptPointer(s: Fs, t: Fs, i: nat, lo: nat, hi: nat, b: nat)
    requires Owned(s) && OthersSame(s, t, i) && Grew(s, t, i, lo, hi) && s.meta <= b < |s.used| && s.used[b]
    ensures b in s.owner && s.owner[b].inum < |s.inodes| && s.owner[b].k <= INDIRECT
    ensures AddrAt(s.inodes[s.owner[b].inum], s.blocks, s.owner[b].k) == b ==
            AddrAt(t.inodes[s.owner[b].inum], t.blocks, s.owner[b].k)
  {
    hide AddrAt, LowestFirst, OthersSame;
    OthersAddrs(s, t, i);
    var o := s.owner[b];
    assert AddrAt(s.inodes[o.inum], s.blocks, o.k) == b != 0;
    assert o.inum == i ==> Filled(s, t, i, o.k, lo, hi);
  }

  /** A filled slot points to a block newly in use. */
  lemma SlotFresh(s: Fs, t: Fs, i: nat, lo: nat, hi: nat, k: nat)
    requires Owned(s) && Owned(t) && OthersSame(s, t, i) && Grew(s, t, i, lo, hi) && k <= INDIRECT
    requires AddrAt(s.inodes[i], s.blocks, k) == 0 != AddrAt(t.inodes[i], t.blocks, k)
    ensures AddrAt(t.inodes[i], t.blocks, k) as nat in Fresh(s.used, t.used)
  {
    hide AddrAt, ByteAt, LowestFirst, OthersSame;
    var b := AddrAt(t.inodes[i], t.blocks, k);
    PointsUsed(t);
    if s.used[b] {
      KeptPointer(s, t, i, lo, hi, b);
      Unshared(t, i, k);
      assert false;
    }
  }

  // ----- the bound -----

  lemma {:induction false} BitmapsBound(bmapstart: nat, a: set<nat>)
    ensures |Bitmaps(bmapstart, a)| <= |a|
    decreases |a|
  {
    if a != {} {
      var x :| x in a;
      BitmapsBound(bmapstart, a - {x});
      BitmapsUnion(bmapstart, a - {x}, {x});
      BitmapsOne(bmapstart, x);
      assert a == (a - {x}) + {x};
    } else {
      BitmapsOne(bmapstart, 0);
    }
  }

  lemma {:induction false} SlotsBound(n: Inode, b: seq<Block>, lo: nat, hi: nat)
    requires lo <= hi
    ensures |Slots(n, b, lo, hi)| <= hi - lo
    decreases hi
  {
    hide AddrAt;
    if lo < hi {
      SlotsBound(n, b, lo, hi - 1);
      SlotsNext(n, b, lo, hi - 1);
    } else {
      assert Slots(n, b, lo, hi) == {};
    }
  }

  /** The number of file blocks that `n` bytes at `off` touch. */
  function Span(off: nat, n: nat): nat {
    if n == 0 then 0 else (off + n - 1) / BSIZE - off / BSIZE + 1
  }

  /** Bytes written before the first block boundary go to a block the file already has. */
  function Partial(off: nat): nat { if off % BSIZE != 0 then 1 else 0 }

  /** Worst case of a write: every touched block, a free-map block for every new one, the indirect
      block and its free-map block, and the inode. */
  function WriteCost(off: nat, n: nat): nat {
    if n == 0 then 3 else Span(off, n) + (Span(off, n) - Partial(off)) + 3
  }

  /** What the loop of a write logs when it has copied `m` bytes: the blocks it copied into, and what bmap() logs. */
  ghost function CopyLogs(bmapstart: nat, s: Fs, t: Fs, i: nat, off: nat, m: nat): set<nat>
    requires i < |s.inodes| == |t.inodes|
  {
    Slots(t.inodes[i], t.blocks, off / BSIZE, off / BSIZE + Span(off, m)) + Taken(bmapstart, s, t, i)
  }

  /** What the whole write logs: that, and the inode. */
  ghost function WriteLogs(bmapstart: nat, inodeBlock: nat, s: Fs, t: Fs, i: nat, off: nat, m: nat): set<nat>
    requires i < |s.inodes| == |t.inodes|
  {
    CopyLogs(bmapstart, s, t, i, off, m) + {inodeBlock}
  }

  lemma SpanMonotone(off: nat, m: nat, n: nat)
    requires m <= n
    ensures Span(off, m) <= Span(off, n)
  {
  }

  lemma SlotsWithin(n: Inode, b: seq<Block>, lo: nat, mid: nat, hi: nat)
    requires lo <= mid <= hi
    ensures Slots(n, b, lo, mid) <= Slots(n, b, lo, hi)
  {
    hide AddrAt;
  }

  /** New blocks: at most one per touched block that was not there, and the indirect block. */
  lemma FreshBound(s: Fs, t: Fs, i: nat, lo: nat, hi: nat, had: nat)
    requires Owned(s) && Owned(t) && OthersSame(s, t, i) && Grew(s, t, i, lo, hi) && lo + had <= hi
    requires forall k {:trigger AddrAt(s.inodes[i], s.blocks, k)} | lo <= k < lo + had ::
             AddrAt(s.inodes[i], s.blocks, k) != 0
    ensures Fresh(s.used, t.used) <= Slots(t.inodes[i], t.blocks, lo + had, hi) +
            {AddrAt(t.inodes[i], t.blocks, INDIRECT) as nat}
  {
    hide AddrAt, Owned, OthersSame, Grew, Fresh;
    GrewSizes(s, t, i, lo, hi);
    forall b | b in Fresh(s.used, t.used)
      ensures b in Slots(t.inodes[i], t.blocks, lo + had, hi) + {AddrAt(t.inodes[i], t.blocks, INDIRECT) as nat}
    {
      FreshSlot(s, t, i, lo, hi, b);
      var k := t.owner[b].k;
      if k != INDIRECT {
        assert lo + had <= k < hi && AddrAt(t.inodes[i], t.blocks, k) as nat == b;
      }
    }
  }

  /** A write to a file that is mapped up to its size logs no more than its worst case. */
  lemma LogsBound(bmapstart: nat, inodeBlock: nat, s: Fs, t: Fs, i: nat, off: nat, n: nat, m: nat)
    requires Owned(s) && Owned(t) && OthersSame(s, t, i) && Grew(s, t, i, off / BSIZE, off / BSIZE + Span(off, n))
    requires Mapped(s.inodes[i], s.blocks) && off <= s.inodes[i].size && off + n <= MAXFILE * BSIZE && m <= n
    ensures |WriteLogs(bmapstart, inodeBlock, s, t, i, off, m)| <= WriteCost(off, n)
  {
    hide AddrAt, Owned, OthersSame, Grew, Fresh, Bitmaps, Slots, IndirectLogged, Partial, Mapped;
    var lo, hi, had := off / BSIZE, off / BSIZE + Span(off, n), if n == 0 then 0 else Partial(off);
    GrewSizes(s, t, i, lo, hi);
    var ind := AddrAt(t.inodes[i], t.blocks, INDIRECT) as nat;
    var got, all := Fresh(s.used, t.used), Slots(t.inodes[i], t.blocks, lo, hi);
    StartMapped(s.inodes[i], s.blocks, off, n);
    FreshBound(s, t, i, lo, hi, had);
    SlotsBound(t.inodes[i], t.blocks, lo + had, hi);
    SlotsBound(t.inodes[i], t.blocks, lo, hi);
    CardinalityLe(got, Slots(t.inodes[i], t.blocks, lo + had, hi) + {ind});
    BitmapsBound(bmapstart, got);
    WithinMost(bmapstart, inodeBlock, s, t, i, off, n, m);
    var most := all + {ind} + Bitmaps(bmapstart, got) + {inodeBlock};
    CardinalityLe(WriteLogs(bmapstart, inodeBlock, s, t, i, off, m), most);
  }

  /** The blocks before the first block boundary are there already. */
  lemma StartMapped(n: Inode, b: seq<Block>, off: nat, z: nat)
    requires Mapped(n, b) && off <= n.size && off + z <= MAXFILE * BSIZE
    ensures var had := if z == 0 then 0 else Partial(off);
            && had <= Span(off, z)
            && forall k {:trigger AddrAt(n, b, k)} | off / BSIZE <= k < off / BSIZE + had :: AddrAt(n, b, k) != 0
  {
    hide AddrAt;
  }

  lemma WithinMost(bmapstart: nat, inodeBlock: nat, s: Fs, t: Fs, i: nat, off: nat, n: nat, m: nat)
    requires i < |s.inodes| == |t.inodes| && m <= n
    requires Fresh(s.used, t.used) <=
             Slots(t.inodes[i], t.blocks, off / BSIZE + (if n == 0 then 0 else Partial(off)),
                 off / BSIZE + Span(off, n)) + {AddrAt(t.inodes[i], t.blocks, INDIRECT) as nat}
    requires (if n == 0 then 0 else Partial(off)) <= Span(off, n)
    ensures WriteLogs(bmapstart, inodeBlock, s, t, i, off, m) <=
            Slots(t.inodes[i], t.blocks, off / BSIZE, off / BSIZE + Span(off, n)) +
                {AddrAt(t.inodes[i], t.blocks, INDIRECT) as nat} +
            Bitmaps(bmapstart, Fresh(s.used, t.used)) + {inodeBlock}
  {
    hide AddrAt, Fresh, Bitmaps, Slots, IndirectLogged, Span, Partial;
    SpanMonotone(off, m, n);
    SlotsWithin(t.inodes[i], t.blocks, off / BSIZE, off / BSIZE + Span(off, m), off / BSIZE + Span(off, n));
    LateSlots(t.inodes[i], t.blocks, off / BSIZE, if n == 0 then 0 else Partial(off), off / BSIZE + Span(off, n));
    IndirectSmall(s, t, i);
  }

  lemma LateSlots(n: Inode, b: seq<Block>, lo: nat, had: nat, hi: nat)
    requires lo + had <= hi
    ensures Slots(n, b, lo + had, hi) <= Slots(n, b, lo, hi)
  {
    hide AddrAt;
  }

  lemma IndirectSmall(s: Fs, t: Fs, i: nat)
    requires i < |s.inodes| == |t.inodes|
    ensures IndirectLogged(s, t, i) <= {AddrAt(t.inodes[i], t.blocks, INDIRECT) as nat}
  {
  }

  // ----- the loop of writei() -----

  /** writei() gave up after `tot` of `n` bytes: the next piece is not all readable, or the next block is
      missing and the disk is full. */
  ghost predicate Stopped(t: Fs, i: nat, off: nat, n: nat, tot: nat, readable: nat) {
    || tot + Min(n - tot, BSIZE - (off + tot) % BSIZE) > readable
    || (i < |t.inodes| && AddrAt(t.inodes[i], t.blocks, (off + tot) / BSIZE) == 0 &&
       forall b | 0 <= b < |t.used| :: t.used[b])
  }

  lemma StoppedHere(t: Fs, i: nat, off: nat, n: nat, tot: nat, readable: nat)
    requires i < |t.inodes|
    requires tot + Min(n - tot, BSIZE - (off + tot) % BSIZE) <= readable ==>
               AddrAt(t.inodes[i], t.blocks, (off + tot) / BSIZE) == 0 && forall b | 0 <= b < |t.used| :: t.used[b]
    ensures Stopped(t, i, off, n, tot, readable)
  {
    hide AddrAt;
  }

  lemma StoppedSame(t: Fs, u: Fs, i: nat, off: nat, n: nat, tot: nat, readable: nat)
    requires i < |t.inodes| == |u.inodes| && u.used == t.used
    requires forall k {:trigger AddrAt(u.inodes[i], u.blocks, k)} ::
             AddrAt(u.inodes[i], u.blocks, k) == AddrAt(t.inodes[i], t.blocks, k)
    ensures Stopped(u, i, off, n, tot, readable) == Stopped(t, i, off, n, tot, readable)
  {
    hide AddrAt;
  }

  /** How many bytes a copy from user space that failed has left in the block it was for: those that could be
      read, `readable` in all, of the piece after the first `tot`. */
  ghost function Spill(t: Fs, i: nat, off: nat, n: nat, tot: nat, readable: nat): (q: nat)
    ensures tot <= n ==> tot + q <= n
  {
    if i < |t.inodes| && tot < n && AddrAt(t.inodes[i], t.blocks, (off + tot) / BSIZE) != 0 &&
       tot < readable < tot + Min(n - tot, BSIZE - (off + tot) % BSIZE)
    then readable - tot else 0
  }

  /** That block, which has changed and is not logged. */
  ghost function SpillBlock(t: Fs, i: nat, off: nat, n: nat, tot: nat, readable: nat): set<nat> {
    if Spill(t, i, off, n, tot, readable) > 0 then {AddrAt(t.inodes[i], t.blocks, (off + tot) / BSIZE) as nat} else {}
  }

  /** Nothing spills from data that can all be read, nor when it has all been written. */
  lemma NoSpill(t: Fs, i: nat, off: nat, n: nat, tot: nat, readable: nat)
    ensures readable >= n || tot >= n || tot >= readable ==>
              Spill(t, i, off, n, tot, readable) == 0 && SpillBlock(t, i, off, n, tot, readable) == {}
  {
    hide AddrAt;
  }

  lemma NothingSpilt(t: Fs, i: nat, off: nat, n: nat, tot: nat, readable: nat)
    requires i < |t.inodes| ==> AddrAt(t.inodes[i], t.blocks, (off + tot) / BSIZE) == 0
    ensures Spill(t, i, off, n, tot, readable) == 0 && SpillBlock(t, i, off, n, tot, readable) == {}
  {
    hide AddrAt;
  }

  /** What spills from a chunk is all that could be read, and only a chunk that comes short spills. */
  lemma SpillRead(t: Fs, i: nat, off: nat, n: nat, k: nat, r: int, readable: nat)
    requires k < n && -1 <= r
    ensures r >= 0 && Spill(t, i, off + k, Min(n - k, CHUNK), r, Max(readable - k, 0)) > 0 ==>
              r < Min(n - k, CHUNK) && readable < n &&
              k + r + Spill(t, i, off + k, Min(n - k, CHUNK), r, Max(readable - k, 0)) == readable
  {
    hide AddrAt;
  }

  lemma SpillSame(t: Fs, u: Fs, i: nat, off: nat, n: nat, tot: nat, readable: nat)
    requires |t.inodes| == |u.inodes| && i < |t.inodes|
    requires forall k {:trigger AddrAt(u.inodes[i], u.blocks, k)} ::
             AddrAt(u.inodes[i], u.blocks, k) == AddrAt(t.inodes[i], t.blocks, k)
    ensures Spill(u, i, off, n, tot, readable) == Spill(t, i, off, n, tot, readable)
    ensures SpillBlock(u, i, off, n, tot, readable) == SpillBlock(t, i, off, n, tot, readable)
  {
    hide AddrAt;
  }

  /** The file blocks that the first `tot` bytes at `off` touch are all there. */
  ghost predicate Reached(n: Inode, b: seq<Block>, off: nat, tot: nat) {
    forall k {:trigger AddrAt(n, b, k)} | off / BSIZE <= k < off / BSIZE + Span(off, tot) :: AddrAt(n, b, k) != 0
  }

  lemma ReachedSame(n: Inode, b: seq<Block>, m: Inode, c: seq<Block>, off: nat, tot: nat)
    requires Reached(n, b, off, tot) && forall k {:trigger AddrAt(m, c, k)} :: AddrAt(m, c, k) == AddrAt(n, b, k)
    ensures Reached(m, c, off, tot)
  {
    hide AddrAt;
  }

  lemma NothingCopied(bmapstart: nat, s: Fs, i: nat, off: nat)
    requires i < |s.inodes|
    ensures Span(off, 0) == 0 && Reached(s.inodes[i], s.blocks, off, 0)
    ensures CopyLogs(bmapstart, s, s, i, off, 0) == {} && Covers(s, s, CopyLogs(bmapstart, s, s, i, off, 0))
  {
    hide AddrAt, Taken;
    TakenNone(bmapstart, s, i);
  }

  /** Between turns, the loop stands at a block boundary or at its start. */
  predicate AtBlock(off: nat, n: nat, tot: nat) {
    tot <= n && (0 < tot < n ==> (off + tot) % BSIZE == 0)
  }

  lemma InSpan(off: nat, n: nat, tot: nat)
    requires AtBlock(off, n, tot) && tot < n
    ensures off / BSIZE <= (off + tot) / BSIZE < off / BSIZE + Span(off, n)
    ensures Span(off, tot) == (off + tot) / BSIZE - off / BSIZE
  {
  }

  lemma NextBlock(off: nat, n: nat, tot: nat)
    requires AtBlock(off, n, tot) && tot < n
    ensures var m := Min(n - tot, BSIZE - (off + tot) % BSIZE);
            m > 0 && AtBlock(off, n, tot + m) && Span(off, tot + m) == Span(off, tot + 1) == Span(off, tot) + 1
  {
  }

  /** One turn of the loop adds one file block, and moves none. */
  lemma SlotsTurn(s: Fs, t: Fs, i: nat, off: nat, n: nat, tot: nat, m: nat)
    requires AtBlock(off, n, tot) && tot < n && off + n <= MAXFILE * BSIZE
    requires Grew(s, t, i, (off + tot) / BSIZE, (off + tot) / BSIZE + 1) && Reached(s.inodes[i], s.blocks, off, tot)
    requires m == 0 || (m == Min(n - tot, BSIZE - (off + tot) % BSIZE) &&
             AddrAt(t.inodes[i], t.blocks, (off + tot) / BSIZE) != 0)
    ensures Reached(t.inodes[i], t.blocks, off, tot + m)
    ensures var lo := off / BSIZE;
            Slots(t.inodes[i], t.blocks, lo, lo + Span(off, tot + m)) ==
            Slots(s.inodes[i], s.blocks, lo, lo + Span(off, tot)) +
                if m > 0 then {AddrAt(t.inodes[i], t.blocks, (off + tot) / BSIZE) as nat} else {}
  {
    hide AddrAt, LowestFirst, Slots;
    var lo, bn := off / BSIZE, (off + tot) / BSIZE;
    InSpan(off, n, tot);
    forall k | lo <= k < lo + Span(off, tot)
      ensures AddrAt(t.inodes[i], t.blocks, k) == AddrAt(s.inodes[i], s.blocks, k)
    {
      assert Filled(s, t, i, k, bn, bn + 1);
    }
    SlotsSame(s.inodes[i], s.blocks, t.inodes[i], t.blocks, lo, lo + Span(off, tot));
    if m > 0 {
      NextBlock(off, n, tot);
      SlotsNext(t.inodes[i], t.blocks, lo, lo + Span(off, tot));
    }
  }

  /** A copy that fails leaves bytes behind exactly when the data cannot be read from the middle of a block on. */
  lemma SpillWhen(t: Fs, i: nat, off: nat, n: nat, tot: nat, readable: nat)
    requires AtBlock(off, n, tot) && tot <= readable < n && i < |t.inodes|
    requires AddrAt(t.inodes[i], t.blocks, (off + tot) / BSIZE) != 0
    requires tot + Min(n - tot, BSIZE - (off + tot) % BSIZE) > readable
    ensures Spill(t, i, off, n, tot, readable) > 0 <==> readable > 0 && (off + readable) % BSIZE != 0
  {
    hide AddrAt;
    assert off + tot == BSIZE * ((off + tot) / BSIZE) + (off + tot) % BSIZE;
  }

  /** What one more turn of the loop, from `u` to `v`, adds to what has been logged since `s`. */
  lemma CopyTurn(bmapstart: nat, s: Fs, u: Fs, v: Fs, i: nat, off: nat, n: nat, tot: nat, m: nat, addr: Word,
                 spill: set<nat>)
    requires AtBlock(off, n, tot) && tot < n && off + n <= MAXFILE * BSIZE
    requires Grew(s, u, i, off / BSIZE, off / BSIZE + Span(off, tot)) && Reached(u.inodes[i], u.blocks, off, tot)
    requires Grew(u, v, i, (off + tot) / BSIZE, (off + tot) / BSIZE + 1)
    requires addr == AddrAt(v.inodes[i], v.blocks, (off + tot) / BSIZE)
    requires m == 0 || (m == Min(n - tot, BSIZE - (off + tot) % BSIZE) && addr != 0)
    requires Covers(s, u, CopyLogs(bmapstart, s, u, i, off, tot))
    requires Covers(u, v, Taken(bmapstart, u, v, i) + (if m > 0 then {addr as nat} else {}) + spill)
    ensures AtBlock(off, n, tot + m) && Reached(v.inodes[i], v.blocks, off, tot + m)
    ensures Grew(s, v, i, off / BSIZE, off / BSIZE + Span(off, tot + 1))
    ensures m > 0 ==> Span(off, tot + m) == Span(off, tot + 1)
    ensures CopyLogs(bmapstart, s, v, i, off, tot + m) ==
            CopyLogs(bmapstart, s, u, i, off, tot) + Taken(bmapstart, u, v, i) + if m > 0 then {addr as nat} else {}
    ensures Covers(s, v, CopyLogs(bmapstart, s, v, i, off, tot + m) + spill)
  {
    hide AddrAt, Grew, Taken, Slots, Reached, Covers, Span;
    var lo, bn := off / BSIZE, (off + tot) / BSIZE;
    InSpan(off, n, tot);
    NextBlock(off, n, tot);
    GrewSizes(s, u, i, lo, bn);
    GrewSizes(u, v, i, bn, bn + 1);
    GrewWider(s, u, i, lo, bn, lo, bn + 1);
    SlotsTurn(u, v, i, off, n, tot, m);
    GrewWider(u, v, i, bn, bn + 1, lo, bn + 1);
    GrewTransitive(s, u, v, i, lo, bn + 1);
    TakenAdds(bmapstart, s, u, v, i, lo, bn + 1);
    var more := Taken(bmapstart, u, v, i) + if m > 0 then {addr as nat} else {};
    CoversAdds(s, u, v, CopyLogs(bmapstart, s, u, i, off, tot), more + spill);
    assert CopyLogs(bmapstart, s, u, i, off, tot) + more == CopyLogs(bmapstart, s, v, i, off, tot + m);
    assert CopyLogs(bmapstart, s, u, i, off, tot) + (more + spill) ==
           CopyLogs(bmapstart, s, v, i, off, tot + m) + spill;
  }

  /** The loop has come from `s` to `t`, with `tot` bytes of `src` copied. */
  ghost predicate Copying(bmapstart: nat, s: Fs, t: Fs, i: nat, off: nat, src: seq<Byte>, tot: nat) {
    && i < |s.inodes| == |t.inodes| && Owned(t) && OthersSame(s, t, i) && AtBlock(off, |src|, tot)
    && Grew(s, t, i, off / BSIZE, off / BSIZE + Span(off, tot))
    && t.inodes[i] == WithAddrs(s.inodes[i], t.inodes[i].addrs)
    && Bytes(s.inodes[i], s.blocks, t.inodes[i], t.blocks, off, src, tot)
    && Reached(t.inodes[i], t.blocks, off, tot) && Covers(s, t, CopyLogs(bmapstart, s, t, i, off, tot))
  }

  lemma CopyingStarts(bmapstart: nat, s: Fs, i: nat, off: nat, src: seq<Byte>)
    requires Owned(s) && i < |s.inodes|
    ensures Copying(bmapstart, s, s, i, off, src, 0) && CopyLogs(bmapstart, s, s, i, off, 0) == {}
  {
    hide AddrAt, ByteAt, Owned, OthersSame, Grew, Bytes, Covers, CopyLogs, Reached;
    OthersReflexive(s, i);
    GrewReflexive(s, i, off / BSIZE, off / BSIZE);
    BytesStart(s.inodes[i], s.blocks, off, src);
    NothingCopied(bmapstart, s, i, off);
  }

  lemma CopyingOn(bmapstart: nat, s: Fs, u: Fs, v: Fs, i: nat, off: nat, src: seq<Byte>, tot: nat, m: nat, addr: Word,
                  readable: nat)
    requires Copying(bmapstart, s, u, i, off, src, tot) && tot < |src| && off + |src| <= MAXFILE * BSIZE
    requires Owned(v) && OthersSame(u, v, i) && Grew(u, v, i, (off + tot) / BSIZE, (off + tot) / BSIZE + 1)
    requires |v.inodes| == |u.inodes| && v.inodes[i] == WithAddrs(u.inodes[i], v.inodes[i].addrs)
    requires addr == AddrAt(v.inodes[i], v.blocks, (off + tot) / BSIZE)
    requires m == 0 || (m == Min(|src| - tot, BSIZE - (off + tot) % BSIZE) && addr != 0)
    requires var q := if m > 0 then 0 else Spill(v, i, off, |src|, tot, readable);
             Bytes(s.inodes[i], s.blocks, v.inodes[i], v.blocks, off, src, tot + m + q)
    requires var spill := if m > 0 then {} else SpillBlock(v, i, off, |src|, tot, readable);
             Covers(u, v, Taken(bmapstart, u, v, i) + (if m > 0 then {addr as nat} else {}) + spill)
    ensures m > 0 ==> Copying(bmapstart, s, v, i, off, src, tot + m)
    ensures m == 0 ==> Copied(bmapstart, s, v, i, off, src, tot, readable)
    ensures CopyLogs(bmapstart, s, v, i, off, tot + m) ==
            CopyLogs(bmapstart, s, u, i, off, tot) + Taken(bmapstart, u, v, i) + if m > 0 then {addr as nat} else {}
  {
    hide AddrAt, ByteAt, Owned, OthersSame, Grew, Bytes, Covers, CopyLogs, Reached, Taken, Span, Spill, SpillBlock;
    OthersTransitive(s, u, v, i);
    var spill := if m > 0 then {} else SpillBlock(v, i, off, |src|, tot, readable);
    CopyTurn(bmapstart, s, u, v, i, off, |src|, tot, m, addr, spill);
    assert CopyLogs(bmapstart, s, v, i, off, tot + m) + {} == CopyLogs(bmapstart, s, v, i, off, tot + m);
  }

  /** The loop has ended: it may have mapped one more block than it copied into. */
  ghost predicate Copied(bmapstart: nat, s: Fs, t: Fs, i: nat, off: nat, src: seq<Byte>, tot: nat, readable: nat) {
    && i < |s.inodes| == |t.inodes| && Owned(t) && OthersSame(s, t, i) && AtBlock(off, |src|, tot)
    && Grew(s, t, i, off / BSIZE, off / BSIZE + Span(off, Min(tot + 1, |src|)))
    && t.inodes[i] == WithAddrs(s.inodes[i], t.inodes[i].addrs)
    && Bytes(s.inodes[i], s.blocks, t.inodes[i], t.blocks, off, src, tot + Spill(t, i, off, |src|, tot, readable))
    && Reached(t.inodes[i], t.blocks, off, tot)
    && Covers(s, t, CopyLogs(bmapstart, s, t, i, off, tot) + SpillBlock(t, i, off, |src|, tot, readable))
  }

  lemma CopyingEnds(bmapstart: nat, s: Fs, t: Fs, i: nat, off: nat, src: seq<Byte>, readable: nat)
    requires Copying(bmapstart, s, t, i, off, src, |src|)
    ensures Copied(bmapstart, s, t, i, off, src, |src|, readable)
  {
    hide AddrAt, ByteAt, Owned, OthersSame, Grew, Bytes, CopyLogs, Reached, Span;
    NoSpill(t, i, off, |src|, |src|, readable);
    assert CopyLogs(bmapstart, s, t, i, off, |src|) + {} == CopyLogs(bmapstart, s, t, i, off, |src|);
  }

  /** A file mapped up to its size stays so. */
  lemma MappedAfter(s: Fs, t: Fs, i: nat, off: nat, n: nat, tot: nat)
    requires Grew(s, t, i, off / BSIZE, off / BSIZE + Span(off, n)) && Mapped(s.inodes[i], s.blocks) &&
             Reached(t.inodes[i], t.blocks, off, tot)
    requires off <= s.inodes[i].size && off + tot <= MAXFILE * BSIZE &&
             t.inodes[i].size == Max(s.inodes[i].size, off + tot)
    ensures Mapped(t.inodes[i], t.blocks)
  {
    hide AddrAt, LowestFirst;
    forall bn | 0 <= bn < MAXFILE && bn * BSIZE < t.inodes[i].size
      ensures AddrAt(t.inodes[i], t.blocks, bn) != 0
    {
      if bn * BSIZE < s.inodes[i].size {
        assert Filled(s, t, i, bn, off / BSIZE, off / BSIZE + Span(off, n));
      } else {
        assert off / BSIZE <= bn < off / BSIZE + Span(off, tot);
      }
    }
  }

  lemma AllMappedAt(s: Fs, i: nat)
    requires AllMapped(s) && i < |s.inodes|
    ensures Mapped(s.inodes[i], s.blocks)
  {
  }

  /** log_write() may have found the log full, with `logged` in it by now. */
  ghost predicate Watch(was: bool, now: bool, logged: set<nat>) {
    (was ==> now) && (now ==> was || |logged| >= LOGBLOCKS)
  }

  lemma WatchStart(now: bool, logged: set<nat>)
    ensures Watch(now, now, logged)
  {
  }

  lemma WatchOn(was: bool, mid: bool, now: bool, some: set<nat>, more: set<nat>)
    requires Watch(was, mid, some) && Watch(mid, now, more) && some <= more
    ensures Watch(was, now, more)
  {
    CardinalityLe(some, more);
  }

  lemma LogsAdded(base: set<nat>, logs: set<nat>)
    ensures |base + logs - base| <= |logs|
  {
    CardinalityLe(base + logs - base, logs);
  }

  /** An inode with an entry has a pointer to its indirect block. */
  lemma EntryPointer(n: Inode, b: seq<Block>, bn: nat)
    requires |n.addrs| == NDIRECT + 1 && NDIRECT <= bn < MAXFILE && AddrAt(n, b, bn) != 0
    ensures n.addrs[NDIRECT] != 0
  {
  }

  /** The end of writei(): the inode covers what was written up to `end`. */
  function Ended(u: Fs, i: nat, end: nat): Fs
    requires i < |u.inodes|
  {
    WithInode(u, i, Resized(u.inodes[i], Max(u.inodes[i].size, end)))
  }

  /** What the loop of writei() has done and logged, once the size is set and the inode is logged. */
  lemma WriteDone(bmapstart: nat, inodeBlock: nat, s: Fs, u: Fs, i: nat, off: nat, src: seq<Byte>, tot: nat,
                  readable: nat)
    requires Owned(s) && Copied(bmapstart, s, u, i, off, src, tot, readable) && off <= s.inodes[i].size
    requires off + |src| <= MAXFILE * BSIZE
    ensures var v := Ended(u, i, off + tot);
            && Owned(v) && OthersSame(s, v, i)
            && Grew(s, v, i, off / BSIZE, off / BSIZE + Span(off, Min(tot + 1, |src|)))
            && Content(v.inodes[i], v.blocks) ==
               Spilled(Content(s.inodes[i], s.blocks), off, src, tot, Spill(v, i, off, |src|, tot, readable))
            && Reached(v.inodes[i], v.blocks, off, tot)
            && Stopped(v, i, off, |src|, tot, readable) == Stopped(u, i, off, |src|, tot, readable)
            && CopyLogs(bmapstart, s, v, i, off, tot) == CopyLogs(bmapstart, s, u, i, off, tot)
            && Covers(s, v, WriteLogs(bmapstart, inodeBlock, s, v, i, off, tot) +
                            SpillBlock(v, i, off, |src|, tot, readable))
            && (AllMapped(s) ==>
                AllMapped(v) && |WriteLogs(bmapstart, inodeBlock, s, v, i, off, tot)| <= WriteCost(off, |src|))
  {
    hide AddrAt, ByteAt, Owned, OthersSame, AllMapped, Mapped, Content, Spilled, Taken, Bytes, Grew, Slots, Covers;
    hide Span, Stopped, Reached, WriteCost, Spill, SpillBlock;
    var lo, hi := off / BSIZE, off / BSIZE + Span(off, |src|);
    var end := off / BSIZE + Span(off, Min(tot + 1, |src|));
    GrewSizes(s, u, i, lo, end);
    var q, spill := Spill(u, i, off, |src|, tot, readable), SpillBlock(u, i, off, |src|, tot, readable);
    FinishWrite(s, u, i, off, src, tot, q);
    var v := Ended(u, i, off + tot);
    GrewSame(s, u, v, i, lo, end);
    SpanMonotone(off, Min(tot + 1, |src|), |src|);
    GrewWider(s, v, i, lo, end, lo, hi);
    TakenSame(bmapstart, s, u, v, i);
    SlotsSame(u.inodes[i], u.blocks, v.inodes[i], v.blocks, lo, lo + Span(off, tot));
    ReachedSame(u.inodes[i], u.blocks, v.inodes[i], v.blocks, off, tot);
    StoppedSame(u, v, i, off, |src|, tot, readable);
    SpillSame(u, v, i, off, |src|, tot, readable);
    CoversMore(s, u, v, CopyLogs(bmapstart, s, u, i, off, tot) + spill, inodeBlock);
    assert CopyLogs(bmapstart, s, u, i, off, tot) + spill + {inodeBlock} ==
           WriteLogs(bmapstart, inodeBlock, s, v, i, off, tot) + spill;
    if AllMapped(s) {
      AllMappedAt(s, i);
      MappedAfter(s, v, i, off, |src|, tot);
      OthersMapped(s, v, i);
      LogsBound(bmapstart, inodeBlock, s, v, i, off, |src|, tot);
    }
  }

  /** The chunk size of filewrite(). */
  const CHUNK := (MAXOPBLOCKS - 1 - 1 - 2) / 2 * BSIZE

  /** Every chunk filewrite() issues stays within the log budget of one operation. */
  lemma ChunkFits(off: nat, n: nat)
    requires n <= CHUNK
    ensures WriteCost(off, n) <= MAXOPBLOCKS
  {
  }

  /** Nor does it come near the end of the log. */
  lemma ChunkQuiet(bmapstart: nat, inodeBlock: nat, s: Fs, t: Fs, i: nat, off: nat, m: nat)
    requires i < |s.inodes| == |t.inodes| && |WriteLogs(bmapstart, inodeBlock, s, t, i, off, m)| <= MAXOPBLOCKS
    ensures |{} + CopyLogs(bmapstart, s, t, i, off, m)| < LOGBLOCKS
  {
    hide CopyLogs;
    var logs := CopyLogs(bmapstart, s, t, i, off, m);
    CardinalityLe({} + logs, logs + {inodeBlock});
  }

  // ----- the transactions of filewrite() -----

  /** Everything that changed is in `logged`: blocks, bits of the free map, and the inode. */
  ghost predicate Logged(s: Fs, t: Fs, i: nat, bmapstart: nat, inodeBlock: nat, logged: set<nat>) {
    && i < |s.inodes| == |t.inodes| && |t.used| == |s.used| && Covers(s, t, logged)
    && (forall b | 0 <= b < |s.used| && t.used[b] != s.used[b] :: BitmapBlock(bmapstart, b) in logged)
    && (t.inodes[i] != s.inodes[i] ==> inodeBlock in logged)
  }

  lemma NoneLogged(s: Fs, i: nat, bmapstart: nat, inodeBlock: nat)
    requires i < |s.inodes|
    ensures Logged(s, s, i, bmapstart, inodeBlock, {})
  {
  }

  lemma LoggedAdds(s: Fs, t: Fs, u: Fs, i: nat, bmapstart: nat, inodeBlock: nat, a: set<nat>, b: set<nat>)
    requires Logged(s, t, i, bmapstart, inodeBlock, a) && Logged(t, u, i, bmapstart, inodeBlock, b)
    ensures Logged(s, u, i, bmapstart, inodeBlock, a + b)
  {
    CoversAdds(s, t, u, a, b);
    hide Covers;
  }

  lemma StepLogged(bmapstart: nat, inodeBlock: nat, s: Fs, t: Fs, i: nat, off: nat, n: nat, m: nat, spill: set<nat>)
    requires Grew(s, t, i, off / BSIZE, off / BSIZE + Span(off, n))
    requires Covers(s, t, WriteLogs(bmapstart, inodeBlock, s, t, i, off, m) + spill)
    ensures Logged(s, t, i, bmapstart, inodeBlock, WriteLogs(bmapstart, inodeBlock, s, t, i, off, m) + spill)
  {
    hide AddrAt, Covers, Slots, LowestFirst, IndirectLogged;
    forall b | 0 <= b < |s.used| && t.used[b] != s.used[b]
      ensures BitmapBlock(bmapstart, b) in Taken(bmapstart, s, t, i)
    {
      assert b in Fresh(s.used, t.used);
    }
  }

  /** What a write of `n` bytes of `src` from `k` on, of which it wrote `r`, is as a chunk of filewrite(). */
  lemma ChunkDone(bmapstart: nat, inodeBlock: nat, s: Fs, t: Fs, i: nat, off: nat, src: seq<Byte>, k: nat, n: nat,
                  r: nat, q: nat, c: seq<Byte>, spill: set<nat>)
    requires k + n <= |src| && r + q <= n <= CHUNK && off <= |c| && i < |s.inodes| == |t.inodes|
    requires Grew(s, t, i, (off + k) / BSIZE, (off + k) / BSIZE + Span(off + k, Min(r + 1, n)))
    requires Covers(s, t, WriteLogs(bmapstart, inodeBlock, s, t, i, off + k, r) + spill)
    requires Content(s.inodes[i], s.blocks) == Sofar(c, off, src, k, 0) && off + k <= s.inodes[i].size
    requires Content(t.inodes[i], t.blocks) == Spilled(Content(s.inodes[i], s.blocks), off + k, src[k..k + n], r, q)
    ensures Content(t.inodes[i], t.blocks) == Sofar(c, off, src, k + r, q)
    ensures Grew(s, t, i, (off + k) / BSIZE, (off + k) / BSIZE + Span(off + k, n))
    ensures var logs := WriteLogs(bmapstart, inodeBlock, s, t, i, off + k, r);
            && Logged(s, t, i, bmapstart, inodeBlock, logs + spill)
            && (|logs| <= WriteCost(off + k, n) ==>
                |logs| <= MAXOPBLOCKS && |{} + CopyLogs(bmapstart, s, t, i, off + k, r)| < LOGBLOCKS)
  {
    hide AddrAt, ByteAt, Grew, Covers, WriteLogs, CopyLogs, Span, WriteCost, Sofar, Spilled, Content, Logged;
    var lo := (off + k) / BSIZE;
    ContentSize(s.inodes[i], s.blocks);
    SofarStep(c, off, src, k, n, r, q);
    SpanMonotone(off + k, Min(r + 1, n), n);
    GrewWider(s, t, i, lo, lo + Span(off + k, Min(r + 1, n)), lo, lo + Span(off + k, n));
    StepLogged(bmapstart, inodeBlock, s, t, i, off + k, n, r, spill);
    ChunkFits(off + k, n);
    if |WriteLogs(bmapstart, inodeBlock, s, t, i, off + k, r)| <= WriteCost(off + k, n) {
      ChunkQuiet(bmapstart, inodeBlock, s, t, i, off + k, r);
    }
  }

  ghost function Union(ops: seq<set<nat>>): set<nat> {
    if ops == [] then {} else Union(ops[..|ops| - 1]) + ops[|ops| - 1]
  }

  lemma UnionAdds(ops: seq<set<nat>>, more: set<nat>)
    ensures Union(ops + [more]) == Union(ops) + more
  {
    assert (ops + [more])[..|ops|] == ops;
  }

  /** filewrite() uses `t` transactions to write `w` of `n` bytes: a full chunk each, one for the rest, and
      one that fails or comes short. */
  predicate Turns(n: nat, w: nat, t: nat) {
    if w == n then w <= t * CHUNK < w + CHUNK else w < t * CHUNK <= w + CHUNK
  }

  lemma TurnsNone()
    ensures Turns(0, 0, 0)
  {
  }

  lemma TurnsStep(n: nat, k: nat, t: nat, r: int)
    requires k == t * CHUNK < n && -1 <= r <= Min(n - k, CHUNK)
    ensures r < Min(n - k, CHUNK) || k + r == n ==> Turns(n, k + Max(r, 0), t + 1)
    ensures r == Min(n - k, CHUNK) && k + r < n ==> k + r == (t + 1) * CHUNK
  {
  }

  /** Transactions that logged `ops` have taken the file system from `s` to `t`, with `w` bytes of `src` written and
      `q` more spilt into the block in `smeared`. */
  ghost predicate Chunks(bmapstart: nat, inodeBlock: nat, s: Fs, t: Fs, i: nat, off: nat, src: seq<Byte>, w: nat,
                         q: nat, ops: seq<set<nat>>, smeared: set<nat>) {
    && i < |s.inodes| == |t.inodes| && |t.used| == |s.used| && OthersSame(s, t, i) && w + q <= |src|
    && (w > 0 ==> off <= s.inodes[i].size)
    && Content(t.inodes[i], t.blocks) == Sofar(Content(s.inodes[i], s.blocks), off, src, w, q)
    && (forall k | 0 <= k < |ops| :: |ops[k]| <= MAXOPBLOCKS)
    && Logged(s, t, i, bmapstart, inodeBlock, Union(ops) + smeared)
  }

  lemma ChunksStart(bmapstart: nat, inodeBlock: nat, s: Fs, i: nat, off: nat, src: seq<Byte>)
    requires i < |s.inodes|
    ensures Chunks(bmapstart, inodeBlock, s, s, i, off, src, 0, 0, [], {})
  {
    hide AddrAt, ByteAt, OthersSame, Sofar, Logged;
    OthersReflexive(s, i);
    SofarStarts(Content(s.inodes[i], s.blocks), off, src);
    NoneLogged(s, i, bmapstart, inodeBlock);
    assert Union([]) + {} == {};
  }

  lemma ChunksMean(bmapstart: nat, inodeBlock: nat, s: Fs, t: Fs, i: nat, off: nat, src: seq<Byte>, w: nat, q: nat,
                   ops: seq<set<nat>>, smeared: set<nat>)
    requires Chunks(bmapstart, inodeBlock, s, t, i, off, src, w, q, ops, smeared)
    ensures i < |s.inodes| == |t.inodes| && |t.used| == |s.used| && OthersSame(s, t, i) && w + q <= |src|
    ensures w > 0 ==> off <= s.inodes[i].size
    ensures Content(t.inodes[i], t.blocks) == Sofar(Content(s.inodes[i], s.blocks), off, src, w, q)
    ensures forall k | 0 <= k < |ops| :: |ops[k]| <= MAXOPBLOCKS
    ensures Logged(s, t, i, bmapstart, inodeBlock, Union(ops) + smeared)
  {
    hide AddrAt, ByteAt, OthersSame, Sofar, Logged, Union, Content;
  }

  lemma ChunksOn(bmapstart: nat, inodeBlock: nat, s: Fs, t: Fs, u: Fs, i: nat, off: nat, src: seq<Byte>, k: nat, r: nat,
                 q: nat, ops: seq<set<nat>>, logs: set<nat>, smeared: set<nat>)
    requires Chunks(bmapstart, inodeBlock, s, t, i, off, src, k, 0, ops, {})
    requires |u.inodes| == |t.inodes| && |u.used| == |t.used| && OthersSame(t, u, i) && k + r + q <= |src|
    requires r > 0 ==> off <= s.inodes[i].size
    requires Content(u.inodes[i], u.blocks) == Sofar(Content(s.inodes[i], s.blocks), off, src, k + r, q)
    requires |logs| <= MAXOPBLOCKS && Logged(t, u, i, bmapstart, inodeBlock, logs + smeared)
    ensures Chunks(bmapstart, inodeBlock, s, u, i, off, src, k + r, q, ops + [logs], smeared)
  {
    hide AddrAt, ByteAt, OthersSame, Sofar, Logged, Union, Content;
    OthersTransitive(s, t, u, i);
    LoggedAdds(s, t, u, i, bmapstart, inodeBlock, Union(ops) + {}, logs + smeared);
    UnionAdds(ops, logs);
    assert Union(ops) + {} + (logs + smeared) == Union(ops + [logs]) + smeared;
  }

  /** A chunk comes short only when the source is not readable or the disk is full. */
  lemma StoppedWhy(t: Fs, i: nat, off: nat, n: nat, k: nat, r: nat, readable: nat)
    requires k < n && r < Min(n - k, CHUNK) && Stopped(t, i, off + k, Min(n - k, CHUNK), r, Max(readable - k, 0))
    ensures readable < n || forall b | 0 <= b < |t.used| :: t.used[b]
  {
    hide AddrAt;
  }

  // ----- the bound is attained, and it needs files mapped up to their size -----

  /** `f` lists the lowest-numbered free blocks. */
  ghost predicate FirstFree(u: seq<bool>, f: seq<nat>) {
    && (forall j | 0 <= j < |f| :: f[j] < |u| && !u[f[j]])
    && (forall j, k | 0 <= j < k < |f| :: f[j] < f[k])
    && (forall b | 0 <= b < |u| && !u[b] && b !in f :: forall j | 0 <= j < |f| :: f[j] < b)
  }

  /** No two of the blocks have their bits in the same free-map block. */
  ghost predicate SpreadOut(f: seq<nat>) {
    forall j, k | 0 <= j < k < |f| :: f[j] / BPB != f[k] / BPB
  }

  ghost function Members(f: seq<nat>): set<nat> { set x | x in f }

  lemma {:induction false} MembersSize(f: seq<nat>)
    requires forall j, k | 0 <= j < k < |f| :: f[j] < f[k]
    ensures |Members(f)| == |f|
  {
    if f != [] {
      var last := |f| - 1;
      MembersSize(f[..last]);
      assert Members(f) == Members(f[..last]) + {f[last]};
    }
  }

  /** Taking as many blocks as `f` has takes exactly those. */
  lemma FirstTaken(u: seq<bool>, v: seq<bool>, f: seq<nat>)
    requires |u| == |v| && LowestFirst(u, v) && FirstFree(u, f) && |Fresh(u, v)| <= |f|
    ensures Fresh(u, v) <= Members(f)
  {
    MembersSize(f);
    if b :| b in Fresh(u, v) && b !in f {
      assert Members(f) + {b} <= Fresh(u, v);
      CardinalityLe(Members(f) + {b}, Fresh(u, v));
      assert false;
    }
  }

  lemma {:induction false} SpreadBitmaps(bmapstart: nat, f: seq<nat>)
    requires SpreadOut(f)
    ensures |Bitmaps(bmapstart, Members(f))| == |f|
  {
    if f == [] {
      BitmapsOne(bmapstart, 0);
      assert Members(f) == {};
    } else {
      var last := |f| - 1;
      SpreadBitmaps(bmapstart, f[..last]);
      assert Members(f) == Members(f[..last]) + {f[last]};
      BitmapsUnion(bmapstart, Members(f[..last]), {f[last]});
      BitmapsOne(bmapstart, f[last]);
      assert BitmapBlock(bmapstart, f[last]) !in Bitmaps(bmapstart, Members(f[..last]));
    }
  }

  /** Mapped file blocks all lie in different disk blocks, none of them the indirect block. */
  lemma {:induction false} SlotsDistinct(t: Fs, i: nat, lo: nat, hi: nat)
    requires Owned(t) && i < |t.inodes| && lo <= hi <= MAXFILE
    requires forall k {:trigger AddrAt(t.inodes[i], t.blocks, k)} | lo <= k < hi ::
             AddrAt(t.inodes[i], t.blocks, k) != 0
    ensures |Slots(t.inodes[i], t.blocks, lo, hi)| == hi - lo
    ensures forall b | b in Slots(t.inodes[i], t.blocks, lo, hi) :: t.meta <= b
    ensures AddrAt(t.inodes[i], t.blocks, INDIRECT) as nat !in Slots(t.inodes[i], t.blocks, lo, hi)
    decreases hi
  {
    hide AddrAt, OwnersPoint, PointersOwn, BitsMatch;
    if lo < hi {
      SlotsDistinct(t, i, lo, hi - 1);
      SlotsNext(t.inodes[i], t.blocks, lo, hi - 1);
      Unshared(t, i, hi - 1);
      assert AddrAt(t.inodes[i], t.blocks, hi - 1) as nat !in Slots(t.inodes[i], t.blocks, lo, hi - 1);
    } else {
      assert Slots(t.inodes[i], t.blocks, lo, hi) == {};
    }
  }

  /** A write that filled every slot of lo to hi that was empty took one block for each, and the indirect
      block: `had` slots from `lo` on were there before, and nothing behind the indirect pointer was. */
  lemma AllFresh(s: Fs, t: Fs, i: nat, lo: nat, had: nat, hi: nat)
    requires Owned(s) && Owned(t) && OthersSame(s, t, i) && Grew(s, t, i, lo, hi) && lo + had <= NDIRECT < hi <= MAXFILE
    requires AddrAt(s.inodes[i], s.blocks, INDIRECT) == 0
    requires forall k {:trigger AddrAt(s.inodes[i], s.blocks, k)} | lo <= k < NDIRECT ::
             AddrAt(s.inodes[i], s.blocks, k) != 0 <==> k < lo + had
    requires forall k {:trigger AddrAt(t.inodes[i], t.blocks, k)} | lo <= k < hi ::
             AddrAt(t.inodes[i], t.blocks, k) != 0
    ensures Fresh(s.used, t.used) ==
            Slots(t.inodes[i], t.blocks, lo + had, hi) + {AddrAt(t.inodes[i], t.blocks, INDIRECT) as nat}
  {
    hide AddrAt, Owned, OthersSame, Grew, Fresh;
    GrewSizes(s, t, i, lo, hi);
    FreshBound(s, t, i, lo, hi, had);
    EntryHasIndirect(t.inodes[i], t.blocks, NDIRECT);
    SlotFresh(s, t, i, lo, hi, INDIRECT);
    forall b | b in Slots(t.inodes[i], t.blocks, lo + had, hi)
      ensures b in Fresh(s.used, t.used)
    {
      var k :| lo + had <= k < hi && AddrAt(t.inodes[i], t.blocks, k) as nat == b;
      NoEntries(s.inodes[i], s.blocks, k);
      SlotFresh(s, t, i, lo, hi, k);
    }
  }

  /** Without an indirect block there are no entries. */
  lemma NoEntries(n: Inode, b: seq<Block>, k: nat)
    requires AddrAt(n, b, INDIRECT) == 0
    ensures NDIRECT <= k < MAXFILE ==> AddrAt(n, b, k) == 0
  {
  }

  /** How much of the disk the inodes and the free map take, as mkfs lays it out: inode blocks, free map, data. */
  predicate LaidOut(inodestart: nat, inodes: nat, bmapstart: nat, blocks: nat, meta: nat) {
    inodestart + (inodes + IPB - 1) / IPB <= bmapstart && bmapstart + (blocks + BPB - 1) / BPB <= meta
  }

  lemma MetaBlocks(inodestart: nat, inodes: nat, bmapstart: nat, blocks: nat, meta: nat)
    requires LaidOut(inodestart, inodes, bmapstart, blocks, meta)
    ensures forall i: nat | i < inodes :: i / IPB + inodestart < bmapstart
    ensures bmapstart + (blocks + BPB - 1) / BPB <= meta
  {
  }

  lemma LastMapped(s: Fs, i: nat)
    requires AllMapped(s) && i < |s.inodes| && s.inodes[i].size == LAST * BSIZE + 1
    ensures AddrAt(s.inodes[i], s.blocks, LAST) != 0
  {
    hide AddrAt;
    assert Mapped(s.inodes[i], s.blocks);
  }

  lemma BitmapsBelow(bmapstart: nat, a: set<nat>, blocks: nat, meta: nat)
    requires (forall b | b in a :: b < blocks) && bmapstart + (blocks + BPB - 1) / BPB <= meta
    ensures forall y | y in Bitmaps(bmapstart, a) :: bmapstart <= y < meta
  {
  }

  lemma Sizes(a: set<nat>, x: nat, b: set<nat>, y: nat)
    requires x !in a && a + {x} !! b && y !in a + {x} + b
    ensures |a + {x} + b + {y}| == |a| + |b| + 2
  {
    assert |a + {x} + b| == |a + {x}| + |b|;
  }

  /** The file block in which filewrite()'s worst case starts: the last direct one. */
  const LAST := NDIRECT - 1

  /** The blocks a full chunk can need: for each touched block that was not there, and the indirect block. */
  function Needs(mapped: bool): nat { if mapped then 4 else 5 }

  /** A full chunk that starts inside the last direct block of a file without an indirect block, and takes
      blocks whose bits all lie in different free-map blocks, logs 6 blocks besides those free-map blocks:
      10 in all if the last direct block is there, as it is when files are mapped up to their size, and 11
      if it is not. */
  lemma FullChunkLogs(bmapstart: nat, inodeBlock: nat, s: Fs, t: Fs, i: nat, f: seq<nat>)
    requires Owned(s) && Owned(t) && OthersSame(s, t, i) && Grew(s, t, i, LAST, LAST + 4)
    requires AddrAt(s.inodes[i], s.blocks, INDIRECT) == 0
    requires forall k {:trigger AddrAt(t.inodes[i], t.blocks, k)} | LAST <= k < LAST + 4 ::
             AddrAt(t.inodes[i], t.blocks, k) != 0
    requires FirstFree(s.used, f) && SpreadOut(f) && |f| == Needs(AddrAt(s.inodes[i], s.blocks, LAST) != 0)
    requires inodeBlock < bmapstart && bmapstart + (|s.used| + BPB - 1) / BPB <= s.meta
    ensures |WriteLogs(bmapstart, inodeBlock, s, t, i, LAST * BSIZE + 1, CHUNK)| == 6 + |f|
  {
    hide AddrAt, Owned, OthersSame, Fresh, Bitmaps, Slots, LowestFirst, FirstFree, SpreadOut, Members;
    var had := if AddrAt(s.inodes[i], s.blocks, LAST) != 0 then 1 else 0;
    var all, ind := Slots(t.inodes[i], t.blocks, LAST, LAST + 4), AddrAt(t.inodes[i], t.blocks, INDIRECT) as nat;
    AllFresh(s, t, i, LAST, had, LAST + 4);
    SlotsDistinct(t, i, LAST, LAST + 4);
    SlotsDistinct(t, i, LAST + had, LAST + 4);
    ExactlyFirst(s.used, t.used, f);
    SpreadBitmaps(bmapstart, f);
    var maps := Bitmaps(bmapstart, Members(f));
    FirstBelow(s.used, f);
    BitmapsBelow(bmapstart, Members(f), |s.used|, s.meta);
    IndirectAbove(t, i);
    LateSlots(t.inodes[i], t.blocks, LAST, had, LAST + 4);
    EntryFilled(s, t, i);
    Sizes(all, ind, maps, inodeBlock);
    assert Span(LAST * BSIZE + 1, CHUNK) == 4;
    assert WriteLogs(bmapstart, inodeBlock, s, t, i, LAST * BSIZE + 1, CHUNK) == all + {ind} + maps + {inodeBlock};
  }

  lemma ExactlyFirst(u: seq<bool>, v: seq<bool>, f: seq<nat>)
    requires |u| == |v| && LowestFirst(u, v) && FirstFree(u, f) && |Fresh(u, v)| == |f|
    ensures Fresh(u, v) == Members(f)
  {
    FirstTaken(u, v, f);
    MembersSize(f);
    hide Fresh, Members, FirstFree;
    SameSize(Fresh(u, v), Members(f));
  }

  lemma SameSize(a: set<nat>, b: set<nat>)
    requires a <= b && |a| == |b|
    ensures a == b
  {
    assert b == a + (b - a);
    assert |b| == |a| + |b - a|;
  }

  lemma FirstBelow(u: seq<bool>, f: seq<nat>)
    requires FirstFree(u, f)
    ensures forall b | b in Members(f) :: b < |u|
  {
  }

  lemma IndirectAbove(t: Fs, i: nat)
    requires Owned(t) && i < |t.inodes| && AddrAt(t.inodes[i], t.blocks, NDIRECT) != 0
    ensures t.meta <= AddrAt(t.inodes[i], t.blocks, INDIRECT)
  {
    hide AddrAt;
    EntryHasIndirect(t.inodes[i], t.blocks, NDIRECT);
  }

  lemma EntryFilled(s: Fs, t: Fs, i: nat)
    requires i < |s.inodes| == |t.inodes|
    requires AddrAt(s.inodes[i], s.blocks, INDIRECT) == 0 && AddrAt(t.inodes[i], t.blocks, NDIRECT) != 0
    ensures IndirectLogged(s, t, i) == {AddrAt(t.inodes[i], t.blocks, INDIRECT) as nat}
  {
    hide AddrAt;
    NoEntries(s.inodes[i], s.blocks, NDIRECT);
  }

  /** Such a chunk does not run out of blocks: while a touched block is missing, some block is free. */
  lemma FullChunkRoom(s: Fs, t: Fs, i: nat, f: seq<nat>, k: nat)
    requires Owned(s) && Owned(t) && OthersSame(s, t, i) && Grew(s, t, i, LAST, LAST + 4)
    requires AddrAt(s.inodes[i], s.blocks, INDIRECT) == 0
    requires LAST <= k < LAST + 4 && AddrAt(t.inodes[i], t.blocks, k) == 0
    requires FirstFree(s.used, f) && |f| == Needs(AddrAt(s.inodes[i], s.blocks, LAST) != 0)
    ensures exists b | 0 <= b < |t.used| :: !t.used[b]
  {
    hide AddrAt, Owned, OthersSame, LowestFirst;
    var had := if AddrAt(s.inodes[i], s.blocks, LAST) != 0 then 1 else 0;
    assert Filled(s, t, i, LAST, LAST, LAST + 4);
    assert LAST + had <= k;
    FreshBound(s, t, i, LAST, LAST + 4, had);
    var late, ind := Slots(t.inodes[i], t.blocks, LAST + had, LAST + 4), AddrAt(t.inodes[i], t.blocks, INDIRECT) as nat;
    assert 0 in late;
    SlotsBound(t.inodes[i], t.blocks, LAST + had, LAST + 4);
    FreshNotZero(s, t);
    CardinalityLe(Fresh(s.used, t.used), late - {0} + {ind});
    MembersSize(f);
    if Members(f) <= Fresh(s.used, t.used) {
      CardinalityLe(Members(f), Fresh(s.used, t.used));
      assert false;
    }
  }

  lemma FreshNotZero(s: Fs, t: Fs)
    requires Owned(s)
    ensures 0 !in Fresh(s.used, t.used)
  {
    hide AddrAt;
  }
}
