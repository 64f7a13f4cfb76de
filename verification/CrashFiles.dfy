/** The file system on the logged disk: how inodes and the free map lie in their blocks (kernel/fs.h), what the
    files on a disk image are, and that a crash brings back every file as it was at the last commit, with
    every writei() done or not done. */
module CrashFiles {
  import opened Common
  import opened Blocks
  import opened LogFormat
  import opened GroupCommit
  import opened FsModel
  import LogBudget

  const DINODE := 16   // words in an on-disk inode

  // ----- inodes in blocks -----

  /** What ilock() reads: type and major number, minor number and link count, size, and the addresses. */
  function LoadInode(b: Block, slot: nat): Inode
    requires slot < IPB
  {
    var w := slot * DINODE;
    Inode(LoadWord(b, w) % 0x1_0000, LoadWord(b, w + 1) / 0x1_0000, LoadWord(b, w + 2), LoadAddrs(b, w + 3))
  }

  function LoadAddrs(b: Block, w: nat): (r: seq<Word>)
    requires w + NDIRECT < WORDS
    ensures |r| == NDIRECT + 1 && forall k | 0 <= k <= NDIRECT :: r[k] == LoadWord(b, w + k)
  {
    seq<Word>(NDIRECT + 1, k requires 0 <= k <= NDIRECT => LoadWord(b, w + k))
  }

  /** The first `n` words of an inode are stored from word `w` on. */
  function StoreWords(b: Block, w: nat, ws: seq<Word>, n: nat): (r: Block)
    requires n <= |ws| && w + |ws| <= WORDS
    ensures forall j: nat | j < WORDS :: LoadWord(r, j) == if w <= j < w + n then ws[j - w] else LoadWord(b, j)
  {
    if n == 0 then b else StoreWord(StoreWords(b, w, ws, n - 1), w + n - 1, ws[n - 1])
  }

  /** The words of an inode with the given device numbers. */
  function InodeWords(n: Inode, major: nat, minor: nat): seq<Word>
    requires Storable(n) && major < 0x1_0000 && minor < 0x1_0000
  {
    [n.typ + 0x1_0000 * major, minor + 0x1_0000 * n.nlink, n.size] + n.addrs
  }

  /** The fields fit: two 16-bit numbers, a 32-bit size and 13 addresses. */
  predicate Storable(n: Inode) {
    n.typ < 0x1_0000 && n.nlink < 0x1_0000 && n.size < 0x1_0000_0000 && |n.addrs| == NDIRECT + 1
  }

  /** What iupdate() does to the inode's block. */
  function StoreInode(b: Block, slot: nat, n: Inode, major: nat, minor: nat): Block
    requires slot < IPB && Storable(n) && major < 0x1_0000 && minor < 0x1_0000
  {
    StoreWords(b, slot * DINODE, InodeWords(n, major, minor), DINODE)
  }

  lemma StoredWord(b: Block, slot: nat, n: Inode, major: nat, minor: nat, j: nat)
    requires slot < IPB && Storable(n) && major < 0x1_0000 && minor < 0x1_0000 && j < WORDS
    ensures |InodeWords(n, major, minor)| == DINODE
    ensures LoadWord(StoreInode(b, slot, n, major, minor), j) ==
            if slot * DINODE <= j < slot * DINODE + DINODE then InodeWords(n, major, minor)[j - slot * DINODE]
                else LoadWord(b, j)
  {
    hide LoadWord, StoreWords;
  }

  lemma AddrsBack(b: Block, slot: nat, n: Inode, major: nat, minor: nat)
    requires slot < IPB && Storable(n) && major < 0x1_0000 && minor < 0x1_0000
    ensures LoadAddrs(StoreInode(b, slot, n, major, minor), slot * DINODE + 3) == n.addrs
  {
    hide LoadWord, StoreInode, LoadAddrs;
    var got := LoadAddrs(StoreInode(b, slot, n, major, minor), slot * DINODE + 3);
    forall k | 0 <= k <= NDIRECT
      ensures got[k] == n.addrs[k]
    {
      StoredWord(b, slot, n, major, minor, slot * DINODE + 3 + k);
    }
  }

  lemma AddrsKept(b: Block, slot: nat, n: Inode, major: nat, minor: nat, other: nat)
    requires slot < IPB && other < IPB && other != slot && Storable(n) && major < 0x1_0000 && minor < 0x1_0000
    ensures LoadAddrs(StoreInode(b, slot, n, major, minor), other * DINODE + 3) == LoadAddrs(b, other * DINODE + 3)
  {
    hide LoadWord, StoreInode, LoadAddrs, InodeWords;
    var got, was := LoadAddrs(StoreInode(b, slot, n, major, minor), other * DINODE + 3),
                    LoadAddrs(b, other * DINODE + 3);
    forall k | 0 <= k <= NDIRECT
      ensures got[k] == was[k]
    {
      StoredWord(b, slot, n, major, minor, other * DINODE + 3 + k);
    }
  }

  /** An inode stored in its block reads back, and every other inode of the block is as it was. */
  lemma InodeReadsBack(b: Block, slot: nat, n: Inode, major: nat, minor: nat, other: nat)
    requires slot < IPB && other < IPB && Storable(n) && major < 0x1_0000 && minor < 0x1_0000
    ensures LoadInode(StoreInode(b, slot, n, major, minor), other) == if other == slot then n else LoadInode(b, other)
  {
    hide LoadWord, StoreInode, LoadAddrs;
    StoredWord(b, slot, n, major, minor, other * DINODE);
    StoredWord(b, slot, n, major, minor, other * DINODE + 1);
    StoredWord(b, slot, n, major, minor, other * DINODE + 2);
    if other == slot {
      AddrsBack(b, slot, n, major, minor);
    } else {
      AddrsKept(b, slot, n, major, minor, other);
    }
  }

  // ----- bits in blocks -----

  function Power2(k: nat): (p: nat)
    ensures p > 0
  {
    if k == 0 then 1 else 2 * Power2(k - 1)
  }

  predicate Bit(x: nat, k: nat) { if k == 0 then x % 2 == 1 else Bit(x / 2, k - 1) }

  /** Bit `n` of a free-map block, as balloc() tests it. */
  predicate BitAt(b: Block, n: nat)
    requires n < BPB
  {
    Bit(b[n / 8], n % 8)
  }

  /** Setting a bit that is clear leaves the others. */
  lemma {:induction false} BitSet(x: nat, k: nat, m: nat)
    requires !Bit(x, k)
    ensures Bit(x + Power2(k), m) == if m == k then true else Bit(x, m)
  {
    if k > 0 && m > 0 {
      assert (x + Power2(k)) / 2 == x / 2 + Power2(k - 1);
      BitSet(x / 2, k - 1, m - 1);
    }
  }

  lemma {:induction false} BitFits(x: nat, k: nat, n: nat)
    requires !Bit(x, k) && k < n && x < Power2(n)
    ensures x + Power2(k) < Power2(n)
  {
    var h, top := x / 2, Power2(n - 1);
    assert Power2(n) == 2 * top && 2 * h <= x <= 2 * h + 1;
    if k > 0 {
      BitFits(h, k - 1, n - 1);
      assert Power2(k) == 2 * Power2(k - 1);
    }
  }

  /** Clearing a bit that is set leaves the others, and undoes setting it. */
  lemma {:induction false} BitClear(x: nat, k: nat)
    requires Bit(x, k)
    ensures Power2(k) <= x && !Bit(x - Power2(k), k)
  {
    if k > 0 {
      BitClear(x / 2, k - 1);
      assert (x - Power2(k)) / 2 == x / 2 - Power2(k - 1);
    }
  }

  /** What balloc() and bfree() do to a bit. */
  function StoreBit(b: Block, n: nat, v: bool): Block
    requires n < BPB
  {
    var x := b[n / 8];
    if BitAt(b, n) == v then b
    else if v then BitFits(x, n % 8, 8); b[n / 8 := x + Power2(n % 8)]
    else BitClear(x, n % 8); b[n / 8 := x - Power2(n % 8)]
  }

  /** A bit stored in its block reads back, and every other bit of the block is as it was. */
  lemma BitReadsBack(b: Block, n: nat, v: bool, other: nat)
    requires n < BPB && other < BPB
    ensures BitAt(StoreBit(b, n, v), other) == if other == n then v else BitAt(b, other)
  {
    hide Power2, Bit;
    var x := b[n / 8];
    if BitAt(b, n) != v {
      if v {
        BitSet(x, n % 8, other % 8);
      } else {
        BitClear(x, n % 8);
        BitSet(x - Power2(n % 8), n % 8, other % 8);
      }
    }
  }

  // ----- files on a disk image -----

  function InodeOf(d: Disk, inodestart: nat, i: nat): Inode {
    if i / IPB + inodestart < |d| then LoadInode(d[i / IPB + inodestart], i % IPB) else NoInode()
  }

  /** The bytes of file `i` as found on the disk image alone. */
  function FileOf(d: Disk, inodestart: nat, i: nat): seq<Byte> {
    Content(InodeOf(d, inodestart, i), d)
  }

  /** Whether block `x` is in use, as found on the disk image alone. */
  predicate UsedOf(d: Disk, bmapstart: nat, x: nat) {
    x / BPB + bmapstart < |d| && BitAt(d[x / BPB + bmapstart], x % BPB)
  }

  /** Where the inodes and the free map begin. */
  datatype Layout = Layout(inodestart: nat, bmapstart: nat)

  /** Block `b` of the image is as the file system state `s` has it: a block of data, of inodes or of the
      free map. */
  ghost predicate BlockIs(s: Fs, d: Disk, l: Layout, b: nat) {
    && (s.meta <= b < |d| && b < |s.blocks| ==> d[b] == s.blocks[b])
    && (forall i: nat {:trigger InodeOf(d, l.inodestart, i)} | i < |s.inodes| && i / IPB + l.inodestart == b ::
          InodeOf(d, l.inodestart, i) == s.inodes[i])
    && (forall x: nat {:trigger UsedOf(d, l.bmapstart, x)} | x < |s.used| && x / BPB + l.bmapstart == b ::
          UsedOf(d, l.bmapstart, x) == s.used[x])
  }

  /** The image is that of the file system state `s`. */
  ghost predicate Represents(s: Fs, d: Disk, l: Layout) {
    |d| == |s.blocks| && forall b: nat {:trigger BlockIs(s, d, l, b)} :: BlockIs(s, d, l, b)
  }

  lemma SamePointers(n: Inode, b: seq<Block>, c: seq<Block>, meta: nat)
    requires |b| == |c| && |n.addrs| == NDIRECT + 1 && forall a | meta <= a < |b| :: c[a] == b[a]
    requires forall k: nat {:trigger AddrAt(n, b, k)} | k <= INDIRECT && AddrAt(n, b, k) != 0 :: meta <= AddrAt(n, b, k)
    ensures forall k {:trigger AddrAt(n, c, k)} :: AddrAt(n, c, k) == AddrAt(n, b, k)
  {
    hide LoadWord;
    assert AddrAt(n, b, INDIRECT) == n.addrs[NDIRECT];
  }

  /** A file all of whose blocks lie above `meta` depends on nothing below. */
  lemma SameContent(n: Inode, b: seq<Block>, c: seq<Block>, meta: nat)
    requires |b| == |c| && |n.addrs| == NDIRECT + 1 && forall a | meta <= a < |b| :: c[a] == b[a]
    requires forall k: nat {:trigger AddrAt(n, b, k)} | k <= INDIRECT && AddrAt(n, b, k) != 0 :: meta <= AddrAt(n, b, k)
    ensures Content(n, c) == Content(n, b)
  {
    SamePointers(n, b, c, meta);
    hide AddrAt;
    forall x | 0 <= x < n.size
      ensures Content(n, c)[x] == Content(n, b)[x]
    {
      assert ByteAt(n, c, x) == ByteAt(n, b, x);
    }
  }

  /** The files on the image are the files of the state, and so is the free map. */
  lemma FilesOnDisk(s: Fs, d: Disk, l: Layout)
    requires Owned(s) && Represents(s, d, l)
    ensures forall i: nat | i < |s.inodes| :: FileOf(d, l.inodestart, i) == Content(s.inodes[i], s.blocks)
    ensures forall x: nat | x < |s.used| :: UsedOf(d, l.bmapstart, x) == s.used[x]
  {
    hide AddrAt, LoadInode, BitAt;
    forall i: nat | i < |s.inodes|
      ensures FileOf(d, l.inodestart, i) == Content(s.inodes[i], s.blocks)
    {
      assert BlockIs(s, d, l, i / IPB + l.inodestart);
      forall a | s.meta <= a < |d|
        ensures d[a] == s.blocks[a]
      {
        assert BlockIs(s, d, l, a);
      }
      SameContent(s.inodes[i], s.blocks, d, s.meta);
    }
    forall x: nat | x < |s.used|
      ensures UsedOf(d, l.bmapstart, x) == s.used[x]
    {
      assert BlockIs(s, d, l, x / BPB + l.bmapstart);
    }
  }

  /** The log area lies below the inodes, and those below the free map and the data. */
  predicate AboveLog(start: nat, s: Fs, l: Layout) {
    start + LOGBLOCKS < l.inodestart <= l.bmapstart <= s.meta
  }

  lemma SameBlock(s: Fs, d: Disk, e: Disk, l: Layout, b: nat)
    requires BlockIs(s, d, l, b) && |d| == |e| && (b < |d| ==> e[b] == d[b])
    ensures BlockIs(s, e, l, b)
  {
    hide LoadInode, BitAt;
    forall i: nat | i < |s.inodes| && i / IPB + l.inodestart == b
      ensures InodeOf(e, l.inodestart, i) == s.inodes[i]
    {
      assert InodeOf(d, l.inodestart, i) == s.inodes[i];
    }
    forall x: nat | x < |s.used| && x / BPB + l.bmapstart == b
      ensures UsedOf(e, l.bmapstart, x) == s.used[x]
    {
      assert UsedOf(d, l.bmapstart, x) == s.used[x];
    }
  }

  /** Blocks of the log, and those below it, hold nothing of the file system. */
  lemma NothingThere(s: Fs, d: Disk, start: nat, l: Layout, b: nat)
    requires AboveLog(start, s, l) && b <= start + LOGBLOCKS
    ensures BlockIs(s, d, l, b)
  {
  }

  lemma RepresentsFrame(s: Fs, d: Disk, e: Disk, start: nat, l: Layout)
    requires Represents(s, d, l) && HomeEqual(start, d, e) && AboveLog(start, s, l)
    ensures Represents(s, e, l)
  {
    hide BlockIs;
    forall b: nat
      ensures BlockIs(s, e, l, b)
    {
      if b <= start + LOGBLOCKS {
        NothingThere(s, e, start, l, b);
      } else {
        SameBlock(s, d, e, l, b);
      }
    }
  }

  // ----- one operation -----

  /** What writei() does to inode `i`: everything that changed is in `logs`, and no other inode did. */
  ghost predicate Stepped(s: Fs, t: Fs, i: nat, logs: set<nat>, l: Layout) {
    && LogBudget.Logged(s, t, i, l.bmapstart, i / IPB + l.inodestart, logs) && t.meta == s.meta
    && forall j | 0 <= j < |s.inodes| && j != i :: t.inodes[j] == s.inodes[j]
  }

  /** That is what a writei() of `n` bytes at `off`, of which it wrote `m`, promises of the blocks it logs. */
  lemma WriteStepped(s: Fs, t: Fs, i: nat, off: nat, n: nat, m: nat, l: Layout)
    requires OthersSame(s, t, i) && LogBudget.Grew(s, t, i, off / BSIZE, off / BSIZE + LogBudget.Span(off, n))
    requires LogBudget.Covers(s, t, LogBudget.WriteLogs(l.bmapstart, i / IPB + l.inodestart, s, t, i, off, m))
    ensures Stepped(s, t, i, LogBudget.WriteLogs(l.bmapstart, i / IPB + l.inodestart, s, t, i, off, m), l)
  {
    hide AddrAt, ByteAt, LogBudget.Covers, LogBudget.WriteLogs, LogBudget.LowestFirst;
    OthersInodes(s, t, i);
    ghost var logs := LogBudget.WriteLogs(l.bmapstart, i / IPB + l.inodestart, s, t, i, off, m);
    assert logs + {} == logs;
    LogBudget.StepLogged(l.bmapstart, i / IPB + l.inodestart, s, t, i, off, n, m, {});
  }

  /** A block that was not logged is in the new state what it was in the old one. */
  lemma UnloggedSame(s: Fs, t: Fs, i: nat, logs: set<nat>, d: Disk, l: Layout, b: nat)
    requires Stepped(s, t, i, logs, l) && BlockIs(s, d, l, b) && b !in logs && |d| == |s.blocks|
    ensures BlockIs(t, d, l, b)
  {
    hide LoadInode, BitAt;
    forall j: nat | j < |t.inodes| && j / IPB + l.inodestart == b
      ensures InodeOf(d, l.inodestart, j) == t.inodes[j]
    {
      assert InodeOf(d, l.inodestart, j) == s.inodes[j];
    }
    forall x: nat | x < |t.used| && x / BPB + l.bmapstart == b
      ensures UsedOf(d, l.bmapstart, x) == t.used[x]
    {
      assert UsedOf(d, l.bmapstart, x) == s.used[x];
      assert LogBudget.BitmapBlock(l.bmapstart, x) == b;
    }
  }

  /** An image on which the logged blocks, and no others, have been made those of the new state, is its image. */
  lemma WriteCarried(s: Fs, t: Fs, i: nat, logs: set<nat>, d: Disk, e: Disk, start: nat, l: Layout)
    requires Represents(s, d, l) && Stepped(s, t, i, logs, l) && AboveLog(start, t, l)
    requires |d| == |e| && forall b | 0 <= b < |d| && Home(start, b) && b !in logs :: e[b] == d[b]
    requires forall b: nat | b in logs :: BlockIs(t, e, l, b)
    ensures Represents(t, e, l)
  {
    hide BlockIs;
    assert |t.blocks| == |s.blocks|;
    hide Stepped;
    forall b: nat
      ensures BlockIs(t, e, l, b)
    {
      if b <= start + LOGBLOCKS {
        NothingThere(t, e, start, l, b);
      } else if b !in logs {
        UnloggedSame(s, t, i, logs, d, l, b);
        SameBlock(t, d, e, l, b);
      }
    }
  }

  // ----- whole runs -----

  /** The point of the last commit: where the version most recently made durable was current. */
  ghost function LastCommit(states: seq<State>, acts: seq<Action>, k: nat): (j: nat)
    requires |states| == |acts| + 1 && k < |states|
    ensures j <= k
  {
    if k == 0 then 0
    else if acts[k - 1].CommitBlock? && states[k - 1].stage == |states[k - 1].lh| then k
    else LastCommit(states, acts, k - 1)
  }

  lemma {:induction false} PublishedThen(states: seq<State>, acts: seq<Action>, k: nat)
    requires |states| == |acts| + 1 && k < |states|
    ensures Published(states, acts, k) == View(states[LastCommit(states, acts, k)])
  {
    if k > 0 {
      PublishedThen(states, acts, k - 1);
    }
  }

  /** In every run of the log and the cache, with crashes anywhere: if the contents at the last commit were
      those of a file system state, then after a crash and its recoveries the disk holds that state, and
      every file reads as it did then. */
  lemma FilesSurvive(states: seq<State>, acts: seq<Action>, k: nat, s: Fs, l: Layout)
    requires Run(states, acts) && k < |acts| && acts[k].Crash?
    requires Owned(s) && AboveLog(states[0].start, s, l)
    requires Represents(s, View(states[LastCommit(states, acts, k)]), l)
    ensures Represents(s, View(states[k + 1]), l)
    ensures forall i: nat | i < |s.inodes| ::
              FileOf(View(states[k + 1]), l.inodestart, i) == Content(s.inodes[i], s.blocks)
    ensures forall x: nat | x < |s.used| :: UsedOf(View(states[k + 1]), l.bmapstart, x) == s.used[x]
  {
    hide Run, View, Represents, Owned, FileOf, UsedOf;
    RunSizes(states, acts);
    PublishedThen(states, acts, k);
    CrashShowsPublished(states, acts, k);
    HomeSymmetric(states[0].start, View(states[k + 1]), Published(states, acts, k));
    RepresentsFrame(s, Published(states, acts, k), View(states[k + 1]), states[0].start, l);
    FilesOnDisk(s, View(states[k + 1]), l);
  }

  lemma RunSizes(states: seq<State>, acts: seq<Action>)
    requires Run(states, acts)
    ensures |states| == |acts| + 1
  {
  }

  lemma HomeSymmetric(start: nat, d: Disk, e: Disk)
    requires HomeEqual(start, d, e)
    ensures HomeEqual(start, e, d)
  {
  }

  // ----- runs whose operations are writes -----

  /** The block that a Modify action changes. */
  ghost function Target(s: State, a: Action): Option<nat> {
    if a.Modify? && a.i < |s.bufs| then s.bufs[a.i].key else None
  }

  /** Between states `x` and `y` of a run there is no crash, and only blocks in `logs` are modified. */
  ghost predicate Touches(states: seq<State>, acts: seq<Action>, x: nat, y: nat, logs: set<nat>)
    requires |states| == |acts| + 1
  {
    forall z | x <= z < y && z < |acts| ::
      !acts[z].Crash? && (Target(states[z], acts[z]).Some? ==> Target(states[z], acts[z]).value in logs)
  }

  /** Then no other block changes for a reader. */
  lemma {:induction false} ElsewhereSame(states: seq<State>, acts: seq<Action>, x: nat, y: nat, logs: set<nat>)
    requires Run(states, acts) && |states| == |acts| + 1 && x <= y <= |acts| && Touches(states, acts, x, y, logs)
    ensures |View(states[y])| == |View(states[x])|
    ensures forall b | 0 <= b < |View(states[x])| && Home(states[0].start, b) && b !in logs ::
              View(states[y])[b] == View(states[x])[b]
    decreases y
  {
    hide Run, Inv, Next, View, GoodDisk;
    if x < y {
      ElsewhereSame(states, acts, x, y - 1, logs);
      RunInv(states, acts, y - 1);
      RunNext(states, acts, y - 1);
      NextRefines(states[y - 1], acts[y - 1], states[y]);
    }
  }

  lemma RunNext(states: seq<State>, acts: seq<Action>, z: nat)
    requires Run(states, acts) && z < |acts|
    ensures |states| == |acts| + 1 && Next(states[z], acts[z], states[z + 1])
  {
  }

  /** A writei() on inode `i`, by a process inside an operation: from state `first` to state `last` of the run. */
  datatype Op = Op(first: nat, last: nat, p: nat, i: nat, logs: set<nat>)

  /** The operation takes the file system from `s` to `t`: it changes what it logs and nothing else, and when it
      is done every block it logged is as `t` has it. */
  ghost predicate Carries(states: seq<State>, acts: seq<Action>, o: Op, s: Fs, t: Fs, l: Layout)
    requires |states| == |acts| + 1
  {
    && o.first <= o.last <= |acts| && Touches(states, acts, o.first, o.last, o.logs)
    && (forall z | o.first <= z < o.last :: o.p in states[z].ops)
    && Stepped(s, t, o.i, o.logs, l) && Owned(t)
    && forall b: nat | b in o.logs :: BlockIs(t, View(states[o.last]), l, b)
  }

  /** Where operation `j` ends, and where the one after it begins: at `tail`, after the last. */
  function Before(ops: seq<Op>, j: nat): nat { if 0 < j <= |ops| then ops[j - 1].last else 0 }
  function After(ops: seq<Op>, j: nat, tail: nat): nat { if j < |ops| then ops[j].first else tail }

  /** Up to action `k` the run carries out the operations `ops`, one after the other, which take the file system
      through the states `f`; from state `tail` on it may be inside one more, of process `q`. Outside operations
      nothing is modified. */
  ghost predicate Writes(states: seq<State>, acts: seq<Action>, k: nat, ops: seq<Op>, f: seq<Fs>, tail: nat, q: nat,
                         l: Layout)
    requires |states| == |acts| + 1
  {
    && |f| == |ops| + 1 && Before(ops, |ops|) <= tail <= k < |acts|
    && (forall j | 0 <= j < |ops| :: Carries(states, acts, ops[j], f[j], f[j + 1], l))
    && (forall j: nat {:trigger Before(ops, j)} | j <= |ops| ::
          Before(ops, j) <= After(ops, j, tail) && Touches(states, acts, Before(ops, j), After(ops, j, tail), {}))
    && (forall z | tail <= z < k :: q in states[z].ops)
    && (forall z | tail <= z < k :: !acts[z].Crash?)
    && (forall j | 0 <= j <= |ops| :: AboveLog(states[0].start, f[j], l))
    && Owned(f[0]) && Represents(f[0], View(states[0]), l)
  }

  /** Each operation is on the disk image when it has ended. */
  lemma {:induction false} Represented(states: seq<State>, acts: seq<Action>, k: nat, ops: seq<Op>, f: seq<Fs>,
                                       tail: nat, q: nat, l: Layout, j: nat)
    requires Run(states, acts) && |states| == |acts| + 1 && Writes(states, acts, k, ops, f, tail, q, l) && j <= |ops|
    ensures Before(ops, j) <= |acts| && Owned(f[j]) && Represents(f[j], View(states[Before(ops, j)]), l)
    decreases j
  {
    hide Run, View, Represents, Owned, Stepped, BlockIs, Touches, AboveLog;
    if j > 0 {
      Represented(states, acts, k, ops, f, tail, q, l, j - 1);
      assert Carries(states, acts, ops[j - 1], f[j - 1], f[j], l);
      Between(states, acts, k, ops, f, tail, q, l, j - 1, ops[j - 1].first);
      ElsewhereSame(states, acts, ops[j - 1].first, ops[j - 1].last, ops[j - 1].logs);
      ViewSizes(f[j - 1], View(states[ops[j - 1].first]), l);
      WriteCarried(f[j - 1], f[j], ops[j - 1].i, ops[j - 1].logs, View(states[ops[j - 1].first]),
                   View(states[ops[j - 1].last]), states[0].start, l);
    }
  }

  lemma ViewSizes(s: Fs, d: Disk, l: Layout)
    requires Represents(s, d, l)
    ensures |d| == |s.blocks|
  {
  }

  /** Nothing happens to the files between one operation and the next. */
  lemma Between(states: seq<State>, acts: seq<Action>, k: nat, ops: seq<Op>, f: seq<Fs>, tail: nat, q: nat, l: Layout,
                j: nat, y: nat)
    requires Run(states, acts) && |states| == |acts| + 1 && Writes(states, acts, k, ops, f, tail, q, l) && j <= |ops|
    requires Before(ops, j) <= y <= After(ops, j, tail) && Represents(f[j], View(states[Before(ops, j)]), l)
    ensures y <= |acts| && Represents(f[j], View(states[y]), l)
  {
    hide Run, View, Represents, Owned, Stepped, BlockIs, AboveLog;
    if j < |ops| {
      assert Carries(states, acts, ops[j], f[j], f[j + 1], l);
    }
    assert Touches(states, acts, Before(ops, j), y, {});
    ElsewhereSame(states, acts, Before(ops, j), y, {});
    RepresentsFrame(f[j], View(states[Before(ops, j)]), View(states[y]), states[0].start, l);
  }

  /** A commit comes between two operations. */
  lemma {:induction false} CommitBetween(states: seq<State>, acts: seq<Action>, k: nat, ops: seq<Op>, f: seq<Fs>,
                                         tail: nat, q: nat, l: Layout, y: nat, n: nat)
    returns (j: nat)
    requires Run(states, acts) && |states| == |acts| + 1 && Writes(states, acts, k, ops, f, tail, q, l) && n <= |ops|
    requires y <= k && (y > 0 ==> states[y - 1].ops == map[]) && (n < |ops| ==> y <= ops[n].first)
    ensures j <= n && Before(ops, j) <= y <= After(ops, j, tail)
    decreases n
  {
    hide Run, Stepped, Owned, BlockIs, View, Touches, AboveLog, Represents;
    if n == |ops| && y > tail {
      assert false;
    }
    if Before(ops, n) <= y {
      return n;
    }
    var o := ops[n - 1];
    assert Carries(states, acts, o, f[n - 1], f[n], l);
    if o.first < y {
      assert false;
    }
    j := CommitBetween(states, acts, k, ops, f, tail, q, l, y, n - 1);
  }

  /** After a crash in a run whose operations are writes, the disk holds the state after the first `j` of them, for
      one `j`: all those that ended by the last commit, none in part, and none of the others. */
  lemma WritesSurvive(states: seq<State>, acts: seq<Action>, k: nat, ops: seq<Op>, f: seq<Fs>, tail: nat, q: nat,
                      l: Layout)
    returns (j: nat)
    requires Run(states, acts) && |states| == |acts| + 1 && k < |acts| && acts[k].Crash?
    requires Writes(states, acts, k, ops, f, tail, q, l)
    ensures j <= |ops| && Before(ops, j) <= LastCommit(states, acts, k) <= After(ops, j, tail)
    ensures Represents(f[j], View(states[k + 1]), l)
    ensures forall i: nat | i < |f[j].inodes| ::
              FileOf(View(states[k + 1]), l.inodestart, i) == Content(f[j].inodes[i], f[j].blocks)
    ensures forall x: nat | x < |f[j].used| :: UsedOf(View(states[k + 1]), l.bmapstart, x) == f[j].used[x]
  {
    hide Run, View, Represents, Owned, BlockIs, Carries, Touches, FileOf, UsedOf;
    var y := LastCommit(states, acts, k);
    CommitIdle(states, acts, k);
    j := CommitBetween(states, acts, k, ops, f, tail, q, l, y, |ops|);
    Represented(states, acts, k, ops, f, tail, q, l, j);
    Between(states, acts, k, ops, f, tail, q, l, j, y);
    FilesSurvive(states, acts, k, f[j], l);
  }

  /** No operation is active at a commit. */
  lemma {:induction false} CommitIdle(states: seq<State>, acts: seq<Action>, k: nat)
    requires Run(states, acts) && |states| == |acts| + 1 && k <= |acts|
    ensures var y := LastCommit(states, acts, k); y > 0 ==> states[y - 1].ops == map[]
  {
    hide Run, Inv, Next, View, GoodDisk;
    if k > 0 {
      CommitIdle(states, acts, k - 1);
      RunInv(states, acts, k - 1);
      RunNext(states, acts, k - 1);
      NextRefines(states[k - 1], acts[k - 1], states[k]);
    }
  }
}
