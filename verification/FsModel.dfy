/** The inode layer of kernel/fs.c as values: where a file's blocks are, who owns each disk
    block, and what a change to one block or one pointer does to every file. */
module FsModel {
  import opened Blocks

  const NDIRECT := 12
  const MAXFILE := 268       // NDIRECT + BSIZE / 4
  const INDIRECT := MAXFILE  // the slot of an inode's indirect block itself
  const BPB := 8192          // bitmap bits per block
  const IPB := 16            // inodes per block

  /** An inode: addrs[0..12] point to data blocks, addrs[12] to the indirect block; 0 is no block. */
  datatype Inode = Inode(typ: nat, nlink: nat, size: nat, addrs: seq<Word>)

  /** An inode not in use. */
  function NoInode(): Inode { Inode(0, 0, 0, seq(NDIRECT + 1, i => 0)) }

  /** A place that can point to a block: slot `k` of inode `inum`, where `k` is a file block index or INDIRECT. */
  datatype Slot = Slot(inum: nat, k: nat)

  /** The free map, the block contents, the inodes, and which slot points to each block in use.
      Blocks below `meta` hold the boot block, super block, log, inodes and free map. */
  datatype Fs = Fs(meta: nat, used: seq<bool>, blocks: seq<Block>, inodes: seq<Inode>, owner: map<nat, Slot>)

  /** The block that slot `k` of an inode points to, 0 if none. */
  function AddrAt(n: Inode, blocks: seq<Block>, k: int): Word {
    if |n.addrs| != NDIRECT + 1 || k < 0 || k > INDIRECT then 0
    else if k < NDIRECT then n.addrs[k]
    else if k == INDIRECT then n.addrs[NDIRECT]
    else if 0 < n.addrs[NDIRECT] < |blocks| then LoadWord(blocks[n.addrs[NDIRECT]], k - NDIRECT)
    else 0
  }

  /** Byte `x` of the file, whether or not it lies below the file's size. */
  function ByteAt(n: Inode, blocks: seq<Block>, x: int): Byte {
    if x < 0 then 0
    else
      var a := AddrAt(n, blocks, x / BSIZE);
      if 0 < a < |blocks| && x / BSIZE < MAXFILE then blocks[a][x % BSIZE] else 0
  }

  /** The file as a byte sequence. */
  function Content(n: Inode, blocks: seq<Block>): (c: seq<Byte>)
    ensures |c| == n.size && forall x | 0 <= x < n.size :: c[x] == ByteAt(n, blocks, x)
  {
    seq(n.size, x requires 0 <= x => ByteAt(n, blocks, x))
  }

  lemma ContentSize(n: Inode, b: seq<Block>)
    ensures |Content(n, b)| == n.size
  {
  }

  // ----- the invariant -----

  ghost predicate Sized(s: Fs) {
    && 0 < s.meta <= |s.used| == |s.blocks| < 0x1_0000_0000
    && forall i | 0 <= i < |s.inodes| :: |s.inodes[i].addrs| == NDIRECT + 1
  }

  /** Slot (i, k) is left out of account: a stale entry of an indirect block being torn down. */
  ghost predicate Stale(victim: nat, n: nat, i: nat, k: nat) {
    i == victim && NDIRECT <= k < NDIRECT + n
  }

  /** Every pointer is to a data block that it owns alone. */
  ghost predicate PointersOwn(s: Fs, victim: nat, stale: nat) {
    forall i: nat, k: nat {:trigger AddrAt(s.inodes[i], s.blocks, k)} |
      i < |s.inodes| && k <= INDIRECT && !Stale(victim, stale, i, k) && AddrAt(s.inodes[i], s.blocks, k) != 0 ::
        var a := AddrAt(s.inodes[i], s.blocks, k);
        s.meta <= a < |s.used| && a in s.owner && s.owner[a] == Slot(i, k)
  }

  /** Every owned block is pointed to by its owner. */
  ghost predicate OwnersPoint(s: Fs, victim: nat, stale: nat) {
    forall a | a in s.owner ::
      && s.meta <= a < |s.used|
      && s.owner[a].inum < |s.inodes| && s.owner[a].k <= INDIRECT
      && !Stale(victim, stale, s.owner[a].inum, s.owner[a].k)
      && AddrAt(s.inodes[s.owner[a].inum], s.blocks, s.owner[a].k) == a
  }

  /** The set bits of the free map are exactly the metadata blocks and the owned blocks. */
  ghost predicate BitsMatch(s: Fs) {
    forall b | 0 <= b < |s.used| :: s.used[b] <==> b < s.meta || b in s.owner
  }

  ghost predicate OwnedExcept(s: Fs, victim: nat, stale: nat) {
    Sized(s) && PointersOwn(s, victim, stale) && OwnersPoint(s, victim, stale) && BitsMatch(s)
  }

  ghost predicate Owned(s: Fs) {
    OwnedExcept(s, 0, 0)
  }

  /** Every block index below the end of the file is mapped. */
  ghost predicate Mapped(n: Inode, blocks: seq<Block>) {
    && n.size <= MAXFILE * BSIZE
    && forall bn {:trigger AddrAt(n, blocks, bn)} | 0 <= bn < MAXFILE && bn * BSIZE < n.size ::
       AddrAt(n, blocks, bn) != 0
  }

  ghost predicate AllMapped(s: Fs) {
    forall i | 0 <= i < |s.inodes| :: Mapped(s.inodes[i], s.blocks)
  }

  // ----- frames -----

  /** Nothing about a file changed: same inode, same pointers, same bytes. */
  ghost predicate SameFile(n: Inode, b: seq<Block>, m: Inode, c: seq<Block>) {
    && m == n
    && (forall k {:trigger AddrAt(m, c, k)} :: AddrAt(m, c, k) == AddrAt(n, b, k))
    && (forall x {:trigger ByteAt(m, c, x)} :: ByteAt(m, c, x) == ByteAt(n, b, x))
  }

  ghost predicate OthersSame(s: Fs, t: Fs, i: nat) {
    && |t.inodes| == |s.inodes|
    && forall j | 0 <= j < |s.inodes| && j != i :: SameFile(s.inodes[j], s.blocks, t.inodes[j], t.blocks)
  }

  lemma OthersReflexive(s: Fs, i: nat)
    ensures OthersSame(s, s, i)
  {
  }

  lemma OthersCount(s: Fs, t: Fs, i: nat)
    requires OthersSame(s, t, i)
    ensures |s.inodes| == |t.inodes|
  {
  }

  lemma OthersInodes(s: Fs, t: Fs, i: nat)
    requires OthersSame(s, t, i)
    ensures |s.inodes| == |t.inodes| && forall j | 0 <= j < |s.inodes| && j != i :: t.inodes[j] == s.inodes[j]
  {
    hide AddrAt, ByteAt;
  }

  lemma OthersTransitive(s: Fs, t: Fs, u: Fs, i: nat)
    requires OthersSame(s, t, i) && OthersSame(t, u, i)
    ensures OthersSame(s, u, i)
  {
    hide AddrAt, ByteAt;
    forall j | 0 <= j < |s.inodes| && j != i
      ensures SameFile(s.inodes[j], s.blocks, u.inodes[j], u.blocks)
    {
      assert SameFile(s.inodes[j], s.blocks, t.inodes[j], t.blocks) &&
             SameFile(t.inodes[j], t.blocks, u.inodes[j], u.blocks);
    }
  }

  /** Slot `k` of inode `i` went from nothing to block `a`; every other slot is as it was, and so is every
      byte, since a missing block reads as zeros and a new one holds zeros. */
  ghost predicate Attached(s: Fs, t: Fs, i: nat, k: nat, a: Word) {
    && i < |s.inodes| == |t.inodes| && k <= INDIRECT
    && t.inodes[i].size == s.inodes[i].size && t.inodes[i].typ == s.inodes[i].typ &&
       t.inodes[i].nlink == s.inodes[i].nlink
    && AddrAt(s.inodes[i], s.blocks, k) == 0
    && (forall m {:trigger AddrAt(t.inodes[i], t.blocks, m)} ::
          AddrAt(t.inodes[i], t.blocks, m) == if m == k then a else AddrAt(s.inodes[i], s.blocks, m))
    && (forall x {:trigger ByteAt(t.inodes[i], t.blocks, x)} ::
        ByteAt(t.inodes[i], t.blocks, x) == ByteAt(s.inodes[i], s.blocks, x))
    && OthersSame(s, t, i)
  }

  lemma ZeroWord(i: nat)
    requires i < WORDS
    ensures LoadWord(ZeroBlock(), i) == 0
  {
  }

  /** A free data block is pointed to by no slot of any inode. */
  lemma FreshUnpointed(s: Fs, a: nat)
    requires Owned(s) && a < |s.used| && !s.used[a]
    ensures s.meta <= a && a !in s.owner
    ensures forall j, k {:trigger AddrAt(s.inodes[j], s.blocks, k)} | 0 <= j < |s.inodes| && 0 <= k <= INDIRECT ::
              AddrAt(s.inodes[j], s.blocks, k) != a
  {
    hide AddrAt;
  }

  /** Changing a block that a file does not point to does not change the file. */
  lemma UnpointedFrame(n: Inode, b: seq<Block>, a: nat, data: Block)
    requires |n.addrs| == NDIRECT + 1 && 0 < a < |b|
    requires forall k {:trigger AddrAt(n, b, k)} | 0 <= k <= INDIRECT :: AddrAt(n, b, k) != a
    ensures SameFile(n, b, n, b[a := data])
  {
    hide LoadWord;
    var c := b[a := data];
    assert AddrAt(n, b, INDIRECT) != a;
    forall k
      ensures AddrAt(n, c, k) == AddrAt(n, b, k)
    {
    }
    forall x
      ensures ByteAt(n, c, x) == ByteAt(n, b, x)
    {
      if 0 <= x && x / BSIZE < MAXFILE {
        assert AddrAt(n, b, x / BSIZE) != a;
      }
    }
  }

  // ----- bmap(): taking a free block into a file -----

  function WithAddr(n: Inode, idx: nat, a: Word): Inode
    requires idx < |n.addrs|
  {
    Inode(n.typ, n.nlink, n.size, n.addrs[idx := a])
  }

  function WithAddrs(n: Inode, addrs: seq<Word>): Inode {
    Inode(n.typ, n.nlink, n.size, addrs)
  }

  /** Free block `a`, zeroed, becomes addrs[idx] of inode `i`. */
  function AttachPointer(s: Fs, i: nat, idx: nat, a: Word): Fs
    requires i < |s.inodes| && |s.inodes[i].addrs| == NDIRECT + 1 && idx <= NDIRECT && a < |s.used| && a < |s.blocks|
  {
    Fs(s.meta, s.used[a := true], s.blocks[a := ZeroBlock()],
       s.inodes[i := WithAddr(s.inodes[i], idx, a)],
       s.owner[a := Slot(i, if idx < NDIRECT then idx else INDIRECT)])
  }

  lemma AttachPointerAddrs(n: Inode, b: seq<Block>, idx: nat, a: Word)
    requires |n.addrs| == NDIRECT + 1 && idx <= NDIRECT && 0 < a < |b| && n.addrs[idx] == 0
    requires forall k {:trigger AddrAt(n, b, k)} | 0 <= k <= INDIRECT :: AddrAt(n, b, k) != a
    ensures var m, c := WithAddr(n, idx, a), b[a := ZeroBlock()];
            forall k {:trigger AddrAt(m, c, k)} ::
              AddrAt(m, c, k) == if k == (if idx < NDIRECT then idx else INDIRECT) then a else AddrAt(n, b, k)
  {
    hide LoadWord;
    var m, c := WithAddr(n, idx, a), b[a := ZeroBlock()];
    assert AddrAt(n, b, INDIRECT) != a;
    forall k
      ensures AddrAt(m, c, k) == if k == (if idx < NDIRECT then idx else INDIRECT) then a else AddrAt(n, b, k)
    {
      if NDIRECT <= k < INDIRECT {
        ZeroWord(k - NDIRECT);
      }
    }
  }

  /** Taking a free block into one slot keeps every block owned by exactly one slot. */
  lemma AttachOwned(s: Fs, t: Fs, i: nat, k: nat, a: Word)
    requires Owned(s) && Attached(s, t, i, k, a) && Sized(t)
    requires a < |s.used| && !s.used[a]
    requires t.meta == s.meta && t.used == s.used[a := true] && t.owner == s.owner[a := Slot(i, k)]
    ensures Owned(t)
  {
    hide AddrAt, ByteAt, Attached;
    AttachAddrs(s, t, i, k, a);
    FreshUnpointed(s, a);
    forall b | b in t.owner
      ensures t.meta <= b < |t.used| && t.owner[b].inum < |t.inodes| && t.owner[b].k <= INDIRECT
      ensures AddrAt(t.inodes[t.owner[b].inum], t.blocks, t.owner[b].k) == b
    {
      if b != a {
        var o := s.owner[b];
        assert AddrAt(s.inodes[o.inum], s.blocks, o.k) == b;
      }
    }
  }

  /** Attaching a block changes one pointer. */
  lemma AttachAddrs(s: Fs, t: Fs, i: nat, k: nat, a: Word)
    requires Attached(s, t, i, k, a)
    ensures |t.inodes| == |s.inodes| && i < |s.inodes| && k <= INDIRECT && AddrAt(s.inodes[i], s.blocks, k) == 0
    ensures forall j: nat, m: nat {:trigger AddrAt(t.inodes[j], t.blocks, m)} | j < |t.inodes| && m <= INDIRECT ::
              AddrAt(t.inodes[j], t.blocks, m) == if j == i && m == k then a else AddrAt(s.inodes[j], s.blocks, m)
  {
    hide AddrAt, ByteAt;
    forall j: nat, m: nat | j < |t.inodes| && m <= INDIRECT
      ensures AddrAt(t.inodes[j], t.blocks, m) == if j == i && m == k then a else AddrAt(s.inodes[j], s.blocks, m)
    {
      if j != i {
        assert SameFile(s.inodes[j], s.blocks, t.inodes[j], t.blocks);
      }
    }
  }

  lemma AttachPointerIs(s: Fs, i: nat, idx: nat, a: Word)
    requires Owned(s) && i < |s.inodes| && idx <= NDIRECT && a < |s.used| && !s.used[a]
    requires s.inodes[i].addrs[idx] == 0
    ensures Attached(s, AttachPointer(s, i, idx, a), i, if idx < NDIRECT then idx else INDIRECT, a)
  {
    var t := AttachPointer(s, i, idx, a);
    var k := if idx < NDIRECT then idx else INDIRECT;
    FreshUnpointed(s, a);
    assert AddrAt(s.inodes[i], s.blocks, k) == 0;
    hide AddrAt, PointersOwn, OwnersPoint, BitsMatch;
    AttachPointerAddrs(s.inodes[i], s.blocks, idx, a);
    forall j | 0 <= j < |s.inodes| && j != i
      ensures SameFile(s.inodes[j], s.blocks, t.inodes[j], t.blocks)
    {
      UnpointedFrame(s.inodes[j], s.blocks, a, ZeroBlock());
    }
  }

  /** bmap() filling a direct slot, or the pointer to the indirect block. */
  lemma AttachPointerKeeps(s: Fs, i: nat, idx: nat, a: Word)
    requires Owned(s) && i < |s.inodes| && idx <= NDIRECT && a < |s.used| && !s.used[a]
    requires s.inodes[i].addrs[idx] == 0
    ensures Owned(AttachPointer(s, i, idx, a))
    ensures Attached(s, AttachPointer(s, i, idx, a), i, if idx < NDIRECT then idx else INDIRECT, a)
  {
    hide AddrAt, ByteAt, Attached, PointersOwn, OwnersPoint, BitsMatch;
    AttachPointerIs(s, i, idx, a);
    AttachOwned(s, AttachPointer(s, i, idx, a), i, if idx < NDIRECT then idx else INDIRECT, a);
  }

  /** Free block `a`, zeroed, becomes the entry for file block `bn` in inode `i`'s indirect block. */
  function AttachEntry(s: Fs, i: nat, bn: nat, a: Word): Fs
    requires i < |s.inodes| && |s.inodes[i].addrs| == NDIRECT + 1 && NDIRECT <= bn < MAXFILE && a < |s.used| &&
             a < |s.blocks|
    requires s.inodes[i].addrs[NDIRECT] < |s.blocks|
  {
    var ind := s.inodes[i].addrs[NDIRECT];
    Fs(s.meta, s.used[a := true],
       s.blocks[a := ZeroBlock()][ind := StoreWord(s.blocks[ind], bn - NDIRECT, a)],
       s.inodes, s.owner[a := Slot(i, bn)])
  }

  lemma AttachEntryIs(s: Fs, i: nat, bn: nat, a: Word)
    requires Owned(s) && i < |s.inodes| && NDIRECT <= bn < MAXFILE && a < |s.used| && !s.used[a]
    requires s.inodes[i].addrs[NDIRECT] != 0 && AddrAt(s.inodes[i], s.blocks, bn) == 0
    ensures s.inodes[i].addrs[NDIRECT] < |s.blocks|
    ensures Attached(s, AttachEntry(s, i, bn, a), i, bn, a)
  {
    var n := s.inodes[i];
    var ind := n.addrs[NDIRECT];
    FreshUnpointed(s, a);
    assert AddrAt(n, s.blocks, INDIRECT) == ind;
    IndirectUnshared(s, i);
    var word := StoreWord(s.blocks[ind], bn - NDIRECT, a);
    hide PointersOwn, OwnersPoint, BitsMatch, LoadWord;
    EntryAddrs(n, s.blocks, bn, a);
    forall j | 0 <= j < |s.inodes| && j != i
      ensures SameFile(s.inodes[j], s.blocks, s.inodes[j], s.blocks[a := ZeroBlock()][ind := word])
    {
      UnpointedFrame(s.inodes[j], s.blocks, a, ZeroBlock());
      UnpointedFrame(s.inodes[j], s.blocks[a := ZeroBlock()], ind, word);
    }
  }

  /** No other slot points to an inode's indirect block. */
  lemma IndirectUnshared(s: Fs, i: nat)
    requires Owned(s) && i < |s.inodes| && s.inodes[i].addrs[NDIRECT] != 0
    ensures s.meta <= s.inodes[i].addrs[NDIRECT] < |s.used|
    ensures forall j, k {:trigger AddrAt(s.inodes[j], s.blocks, k)} | 0 <= j < |s.inodes| && 0 <= k <= INDIRECT &&
            (j != i || k != INDIRECT) ::
              AddrAt(s.inodes[j], s.blocks, k) != s.inodes[i].addrs[NDIRECT]
  {
    assert AddrAt(s.inodes[i], s.blocks, INDIRECT) == s.inodes[i].addrs[NDIRECT];
    hide AddrAt;
  }

  lemma EntryAddrs(n: Inode, b: seq<Block>, bn: nat, a: Word)
    requires |n.addrs| == NDIRECT + 1 && NDIRECT <= bn < MAXFILE && 0 < a < |b| && 0 < n.addrs[NDIRECT] < |b|
    requires AddrAt(n, b, bn) == 0
    requires forall k {:trigger AddrAt(n, b, k)} | 0 <= k <= INDIRECT :: AddrAt(n, b, k) != a
    requires forall k {:trigger AddrAt(n, b, k)} | 0 <= k < INDIRECT :: AddrAt(n, b, k) != n.addrs[NDIRECT]
    ensures var ind := n.addrs[NDIRECT];
            var c := b[a := ZeroBlock()][ind := StoreWord(b[ind], bn - NDIRECT, a)];
            && (forall k {:trigger AddrAt(n, c, k)} :: AddrAt(n, c, k) == if k == bn then a else AddrAt(n, b, k))
            && (forall x {:trigger ByteAt(n, c, x)} :: ByteAt(n, c, x) == ByteAt(n, b, x))
  {
    hide LoadWord;
    var ind := n.addrs[NDIRECT];
    var c := b[a := ZeroBlock()][ind := StoreWord(b[ind], bn - NDIRECT, a)];
    assert AddrAt(n, b, INDIRECT) != a;
    forall k
      ensures AddrAt(n, c, k) == if k == bn then a else AddrAt(n, b, k)
    {
    }
    forall x
      ensures ByteAt(n, c, x) == ByteAt(n, b, x)
    {
      if 0 <= x && x / BSIZE < MAXFILE {
        assert AddrAt(n, b, x / BSIZE) != a;
        assert AddrAt(n, b, x / BSIZE) != ind;
      }
    }
  }

  /** bmap() filling an entry of the indirect block. */
  lemma AttachEntryKeeps(s: Fs, i: nat, bn: nat, a: Word)
    requires Owned(s) && i < |s.inodes| && NDIRECT <= bn < MAXFILE && a < |s.used| && !s.used[a]
    requires s.inodes[i].addrs[NDIRECT] != 0 && AddrAt(s.inodes[i], s.blocks, bn) == 0
    ensures s.inodes[i].addrs[NDIRECT] < |s.blocks|
    ensures Owned(AttachEntry(s, i, bn, a)) && Attached(s, AttachEntry(s, i, bn, a), i, bn, a)
  {
    hide AddrAt, ByteAt, Attached, PointersOwn, OwnersPoint, BitsMatch, StoreWord;
    AttachEntryIs(s, i, bn, a);
    AttachOwned(s, AttachEntry(s, i, bn, a), i, bn, a);
  }

  // ----- writei(): changing the contents of a data block -----

  function WriteData(s: Fs, a: nat, data: Block): Fs
    requires a < |s.blocks|
  {
    Fs(s.meta, s.used, s.blocks[a := data], s.inodes, s.owner)
  }

  /** The pointer from slot `k` of inode `i` is the only one to its block. */
  lemma Unshared(s: Fs, i: nat, k: nat)
    requires Owned(s) && i < |s.inodes| && k <= INDIRECT && AddrAt(s.inodes[i], s.blocks, k) != 0
    ensures s.meta <= AddrAt(s.inodes[i], s.blocks, k) < |s.used|
    ensures forall j, m {:trigger AddrAt(s.inodes[j], s.blocks, m)} | 0 <= j < |s.inodes| && 0 <= m <= INDIRECT &&
            (j != i || m != k) ::
              AddrAt(s.inodes[j], s.blocks, m) != AddrAt(s.inodes[i], s.blocks, k)
  {
    hide AddrAt;
  }

  lemma OwnFileFrame(n: Inode, b: seq<Block>, k: nat, data: Block)
    requires |n.addrs| == NDIRECT + 1 && k < MAXFILE
    requires 0 < AddrAt(n, b, k) < |b|
    requires forall m {:trigger AddrAt(n, b, m)} | 0 <= m <= INDIRECT && m != k :: AddrAt(n, b, m) != AddrAt(n, b, k)
    ensures var c := b[AddrAt(n, b, k) := data];
            && (forall m {:trigger AddrAt(n, c, m)} :: AddrAt(n, c, m) == AddrAt(n, b, m))
            && (forall x {:trigger ByteAt(n, c, x)} ::
                  ByteAt(n, c, x) == if 0 <= x && x / BSIZE == k then data[x % BSIZE] else ByteAt(n, b, x))
  {
    hide LoadWord;
    var a := AddrAt(n, b, k);
    var c := b[a := data];
    assert AddrAt(n, b, INDIRECT) != a;
    forall m
      ensures AddrAt(n, c, m) == AddrAt(n, b, m)
    {
    }
    forall x
      ensures ByteAt(n, c, x) == if 0 <= x && x / BSIZE == k then data[x % BSIZE] else ByteAt(n, b, x)
    {
      if 0 <= x && x / BSIZE < MAXFILE && x / BSIZE != k {
        assert AddrAt(n, b, x / BSIZE) != a;
      }
    }
  }

  /** Writing a file's data block changes that file block only: no pointer of any inode, no other file. */
  lemma WriteDataKeeps(s: Fs, i: nat, k: nat, data: Block)
    requires Owned(s) && i < |s.inodes| && k < MAXFILE && AddrAt(s.inodes[i], s.blocks, k) != 0
    ensures AddrAt(s.inodes[i], s.blocks, k) < |s.blocks|
    ensures var t := WriteData(s, AddrAt(s.inodes[i], s.blocks, k), data);
            && Owned(t) && OthersSame(s, t, i)
            && (forall m {:trigger AddrAt(t.inodes[i], t.blocks, m)} ::
                AddrAt(t.inodes[i], t.blocks, m) == AddrAt(s.inodes[i], s.blocks, m))
            && (forall x {:trigger ByteAt(t.inodes[i], t.blocks, x)} ::
                  ByteAt(t.inodes[i], t.blocks, x) == if 0 <= x && x / BSIZE == k then data[x % BSIZE]
                      else ByteAt(s.inodes[i], s.blocks, x))
  {
    hide AddrAt, ByteAt;
    var a := AddrAt(s.inodes[i], s.blocks, k);
    Unshared(s, i, k);
    var t := WriteData(s, a, data);
    OwnFileFrame(s.inodes[i], s.blocks, k, data);
    forall j | 0 <= j < |s.inodes| && j != i
      ensures SameFile(s.inodes[j], s.blocks, t.inodes[j], t.blocks)
    {
      UnpointedFrame(s.inodes[j], s.blocks, a, data);
    }
    SamePointersOwned(s, t);
  }

  lemma SamePointersOwned(s: Fs, t: Fs)
    requires Owned(s) && Sized(t) && t.meta == s.meta && t.used == s.used && t.owner == s.owner &&
             |t.inodes| == |s.inodes|
    requires forall j, m {:trigger AddrAt(t.inodes[j], t.blocks, m)} | 0 <= j < |s.inodes| ::
               AddrAt(t.inodes[j], t.blocks, m) == AddrAt(s.inodes[j], s.blocks, m)
    ensures Owned(t)
  {
    hide AddrAt;
    forall a | a in t.owner
      ensures AddrAt(t.inodes[t.owner[a].inum], t.blocks, t.owner[a].k) == a
    {
      assert AddrAt(s.inodes[s.owner[a].inum], s.blocks, s.owner[a].k) == a;
    }
  }

  // ----- itrunc(): giving blocks back -----

  /** The block in addrs[idx] of inode `i` is freed and the pointer cleared. */
  function DetachPointer(s: Fs, i: nat, idx: nat): Fs
    requires i < |s.inodes| && |s.inodes[i].addrs| == NDIRECT + 1 && idx <= NDIRECT && s.inodes[i].addrs[idx] < |s.used|
  {
    var a := s.inodes[i].addrs[idx];
    Fs(s.meta, s.used[a := false], s.blocks, s.inodes[i := WithAddr(s.inodes[i], idx, 0)], s.owner - {a})
  }

  lemma DetachAddrs(n: Inode, b: seq<Block>, idx: nat)
    requires |n.addrs| == NDIRECT + 1 && idx <= NDIRECT
    ensures var m := WithAddr(n, idx, 0);
            forall k {:trigger AddrAt(m, b, k)} ::
              AddrAt(m, b, k) == if k == idx || (idx == NDIRECT <= k) then 0 else AddrAt(n, b, k)
  {
    hide LoadWord;
  }

  lemma OthersUntouched(s: Fs, t: Fs, i: nat)
    requires t.blocks == s.blocks && i < |s.inodes| == |t.inodes|
    requires forall j | 0 <= j < |s.inodes| && j != i :: t.inodes[j] == s.inodes[j]
    ensures OthersSame(s, t, i)
  {
    hide AddrAt, ByteAt;
  }

  lemma PointerAt(n: Inode, b: seq<Block>, idx: nat)
    requires |n.addrs| == NDIRECT + 1 && idx <= NDIRECT
    ensures AddrAt(n, b, if idx < NDIRECT then idx else INDIRECT) == n.addrs[idx]
  {
  }

  /** itrunc() releasing a direct block: the block was marked in use, and ownership stays exact. */
  lemma DetachDirectKeeps(s: Fs, i: nat, idx: nat)
    requires Owned(s) && i < |s.inodes| && idx < NDIRECT && s.inodes[i].addrs[idx] != 0
    ensures s.meta <= s.inodes[i].addrs[idx] < |s.used| && s.used[s.inodes[i].addrs[idx]]
    ensures Owned(DetachPointer(s, i, idx)) && OthersSame(s, DetachPointer(s, i, idx), i)
  {
    hide AddrAt, ByteAt, OthersSame;
    var n := s.inodes[i];
    PointerAt(n, s.blocks, idx);
    Unshared(s, i, idx);
    var t := DetachPointer(s, i, idx);
    DetachAddrs(n, s.blocks, idx);
    OthersUntouched(s, t, i);
    forall b | b in t.owner
      ensures AddrAt(t.inodes[t.owner[b].inum], t.blocks, t.owner[b].k) == b
    {
      assert AddrAt(s.inodes[s.owner[b].inum], s.blocks, s.owner[b].k) == b;
    }
  }

  function FreeEntry(s: Fs, a: nat): Fs
    requires a < |s.used|
  {
    Fs(s.meta, s.used[a := false], s.blocks, s.inodes, s.owner - {a})
  }

  /** itrunc() releasing entry `j` of an indirect block, which keeps the stale entry. */
  lemma FreeEntryKeeps(s: Fs, i: nat, j: nat)
    requires OwnedExcept(s, i, j) && i < |s.inodes| && j < WORDS
    ensures var a := AddrAt(s.inodes[i], s.blocks, NDIRECT + j);
            if a == 0 then OwnedExcept(s, i, j + 1)
            else s.meta <= a < |s.used| && s.used[a] && OwnedExcept(FreeEntry(s, a), i, j + 1)
  {
    hide AddrAt;
    var a := AddrAt(s.inodes[i], s.blocks, NDIRECT + j);
    if a == 0 {
      forall b | b in s.owner
        ensures !Stale(i, j + 1, s.owner[b].inum, s.owner[b].k)
      {
      }
    } else {
      assert s.owner[a] == Slot(i, NDIRECT + j);
      var t := FreeEntry(s, a);
      forall b | b in t.owner
        ensures !Stale(i, j + 1, t.owner[b].inum, t.owner[b].k)
      {
        assert AddrAt(s.inodes[s.owner[b].inum], s.blocks, s.owner[b].k) == b;
      }
    }
  }

  /** itrunc() releasing the indirect block once all its entries are released. */
  lemma DetachIndirectKeeps(s: Fs, i: nat)
    requires OwnedExcept(s, i, WORDS) && i < |s.inodes| && s.inodes[i].addrs[NDIRECT] != 0
    ensures s.meta <= s.inodes[i].addrs[NDIRECT] < |s.used| && s.used[s.inodes[i].addrs[NDIRECT]]
    ensures Owned(DetachPointer(s, i, NDIRECT)) && OthersSame(s, DetachPointer(s, i, NDIRECT), i)
  {
    hide AddrAt, ByteAt, OthersSame;
    var n := s.inodes[i];
    PointerAt(n, s.blocks, NDIRECT);
    var t := DetachPointer(s, i, NDIRECT);
    DetachAddrs(n, s.blocks, NDIRECT);
    OthersUntouched(s, t, i);
    forall b | b in t.owner
      ensures AddrAt(t.inodes[t.owner[b].inum], t.blocks, t.owner[b].k) == b
    {
      assert AddrAt(s.inodes[s.owner[b].inum], s.blocks, s.owner[b].k) == b;
    }
  }

  lemma NothingStale(s: Fs, v: nat)
    ensures OwnedExcept(s, v, 0) <==> Owned(s)
  {
    hide AddrAt;
  }

  /** Once an inode points to nothing, what is owned is what other inodes owned before. */
  lemma TruncatedOwners(s: Fs, t: Fs, i: nat)
    requires Owned(s) && Owned(t) && OthersSame(s, t, i) && i < |s.inodes|
    requires s.meta == t.meta && |s.used| == |t.used|
    requires forall k {:trigger AddrAt(t.inodes[i], t.blocks, k)} :: AddrAt(t.inodes[i], t.blocks, k) == 0
    ensures forall b | 0 <= b < |s.used| :: t.used[b] <==> s.used[b] && !(b in s.owner && s.owner[b].inum == i)
  {
    hide AddrAt, ByteAt;
    forall b | 0 <= b < |s.used|
      ensures b in t.owner <==> b in s.owner && s.owner[b].inum != i
    {
      if b in t.owner {
        var o := t.owner[b];
        assert AddrAt(t.inodes[o.inum], t.blocks, o.k) == b;
        assert SameFile(s.inodes[o.inum], s.blocks, t.inodes[o.inum], t.blocks);
        assert AddrAt(s.inodes[o.inum], s.blocks, o.k) == b;
      }
      if b in s.owner && s.owner[b].inum != i {
        var o := s.owner[b];
        assert AddrAt(s.inodes[o.inum], s.blocks, o.k) == b;
        assert SameFile(s.inodes[o.inum], s.blocks, t.inodes[o.inum], t.blocks);
        assert AddrAt(t.inodes[o.inum], t.blocks, o.k) == b;
      }
    }
  }

  lemma NoAddrs(n: Inode, b: seq<Block>)
    requires |n.addrs| == NDIRECT + 1 && forall j | 0 <= j <= NDIRECT :: n.addrs[j] == 0
    ensures forall k {:trigger AddrAt(n, b, k)} :: AddrAt(n, b, k) == 0
  {
  }
}
