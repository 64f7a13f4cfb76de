/** checkpoint_addr_space() and restore_addr_space() of kernel/vm.c: from a page table, through the inode
    layer, to the checkpoint file, and back into another page table. */
module AddressSpace {
  import opened Common
  import opened Blocks
  import opened FsModel
  import opened FileWrites
  import opened LogBudget
  import opened LogPlan
  import opened FileSystem
  import opened Encoding
  import opened VirtualMemory
  import PageModel
  import PageFrames

  type Page = p: seq<Byte> | |p| == PGSIZE witness seq(PGSIZE, i => 0)

  function ZeroPage(): (p: Page)
    ensures forall i | 0 <= i < PGSIZE :: p[i] == 0
  {
    seq(PGSIZE, i => 0)
  }

  // ----- the stream -----

  /** The record of one page: a flag byte, and the page if it is present. */
  function PageRecord(p: Option<Page>): seq<Byte> {
    match p
    case None => [0]
    case Some(page) => [1] + page
  }

  /** The records of the first `n` pages. */
  function Stream(pages: seq<Option<Page>>, n: nat): seq<Byte>
    requires n <= |pages|
  {
    if n == 0 then [] else Stream(pages, n - 1) + PageRecord(pages[n - 1])
  }

  /** How many of the first `n` pages are there. */
  function Resident(pages: seq<Option<Page>>, n: nat): nat
    requires n <= |pages|
  {
    if n == 0 then 0 else Resident(pages, n - 1) + if pages[n - 1].Some? then 1 else 0
  }

  lemma {:induction false} StreamSize(pages: seq<Option<Page>>, n: nat)
    requires n <= |pages|
    ensures |Stream(pages, n)| == n + PGSIZE * Resident(pages, n)
  {
    if n > 0 {
      StreamSize(pages, n - 1);
    }
  }

  /** What a process sees in a page: zeros where there is none. */
  function Seen(p: Option<Page>): Page {
    match p
    case None => ZeroPage()
    case Some(page) => page
  }

  function SeenAll(pages: seq<Option<Page>>, n: nat): (r: seq<Page>)
    requires n <= |pages|
    ensures |r| == n && forall k | 0 <= k < n :: r[k] == Seen(pages[k])
  {
    if n == 0 then [] else SeenAll(pages, n - 1) + [Seen(pages[n - 1])]
  }

  /** Records are read back from byte `at` on: the page, and where the next record starts. */
  function ReadRecord(c: seq<Byte>, at: nat): Option<(Page, nat)> {
    if at >= |c| then None
    else if c[at] == 0 then Some((ZeroPage(), at + 1))
    else if at + 1 + PGSIZE > |c| then None
    else
      var page: Page := c[at + 1..at + 1 + PGSIZE];
      Some((page, at + 1 + PGSIZE))
  }

  /** The first `n` pages and the end of their records. */
  function ReadStream(c: seq<Byte>, at: nat, n: nat): Option<(seq<Page>, nat)> {
    if n == 0 then Some(([], at))
    else
      var init := ReadStream(c, at, n - 1);
      if init.None? then None
      else
        var r := ReadRecord(c, init.value.1);
        if r.None? then None else Some((init.value.0 + [r.value.0], r.value.1))
  }

  /** A record reads back as the page it was made from, wherever it lies and whatever follows. */
  lemma RecordReadsBack(c: seq<Byte>, at: nat, p: Option<Page>)
    requires at + |PageRecord(p)| <= |c| && c[at..at + |PageRecord(p)|] == PageRecord(p)
    ensures ReadRecord(c, at) == Some((Seen(p), at + |PageRecord(p)|))
  {
    var rec := PageRecord(p);
    assert c[at] == c[at..at + |rec|][0] == rec[0];
    if p.Some? {
      assert c[at + 1..at + 1 + PGSIZE] == c[at..at + |rec|][1..] == p.value;
    }
  }

  lemma SliceParts(c: seq<Byte>, at: nat, a: seq<Byte>, b: seq<Byte>)
    requires at + |a| + |b| <= |c| && c[at..at + |a| + |b|] == a + b
    ensures c[at..at + |a|] == a && c[at + |a|..at + |a| + |b|] == b
  {
    var all := c[at..at + |a| + |b|];
    assert c[at..at + |a|] == all[..|a|] && c[at + |a|..at + |a| + |b|] == all[|a|..];
  }

  lemma StreamEmpty(c: seq<Byte>, at: nat)
    ensures ReadStream(c, at, 0) == Some(([], at))
  {
  }

  lemma StreamExtends(c: seq<Byte>, at: nat, n: nat, init: seq<Page>, mid: nat, page: Page, end: nat)
    requires n > 0 && ReadStream(c, at, n - 1) == Some((init, mid)) && ReadRecord(c, mid) == Some((page, end))
    ensures ReadStream(c, at, n) == Some((init + [page], end))
  {
  }

  lemma {:induction false} StreamReadsBack(c: seq<Byte>, at: nat, pages: seq<Option<Page>>, n: nat)
    requires n <= |pages| && at + |Stream(pages, n)| <= |c| && c[at..at + |Stream(pages, n)|] == Stream(pages, n)
    ensures ReadStream(c, at, n) == Some((SeenAll(pages, n), at + |Stream(pages, n)|))
  {
    hide ReadRecord, PageRecord, Seen, ReadStream;
    if n == 0 {
      StreamEmpty(c, at);
    } else {
      var init, rec := Stream(pages, n - 1), PageRecord(pages[n - 1]);
      SliceParts(c, at, init, rec);
      StreamReadsBack(c, at, pages, n - 1);
      RecordReadsBack(c, at + |init|, pages[n - 1]);
      StreamExtends(c, at, n, SeenAll(pages, n - 1), at + |init|, Seen(pages[n - 1]), at + |init| + |rec|);
    }
  }

  /** Reading what was written at `off` gives back every page, with absent pages reading as zero, and stops
      at the end of what was written, however long the file was before. */
  lemma RoundTrip(c: seq<Byte>, off: nat, pages: seq<Option<Page>>, n: nat)
    requires off <= |c| && n <= |pages|
    ensures ReadStream(Written(c, off, Stream(pages, n)), off, n) ==
            Some((SeenAll(pages, n), off + |Stream(pages, n)|))
  {
    var s := Stream(pages, n);
    assert Written(c, off, s)[off..off + |s|] == s;
    StreamReadsBack(Written(c, off, s), off, pages, n);
  }

  // ----- the code -----

  /** A file that held `c` once `done` has been written at `off`; nothing can be written past the end of `c`. */
  predicate Holds(file: seq<Byte>, c: seq<Byte>, off: nat, done: seq<Byte>) {
    if off <= |c| then file == Written(c, off, done) else file == c && done == []
  }

  // ----- pages in memory -----

  /** The bytes of a page of memory. */
  function PageBytes(ws: PageModel.Page): Page
    requires |ws| == 512
  {
    BytesOf(ws)
  }

  /** The bytes of virtual page `v` of page table `r`, if it is mapped. */
  function PageAt(m: PageModel.Memory, r: nat, v: nat): Option<Page> {
    var e := PageModel.Pte(m, r, v);
    if e == 0 || e / 1024 >= |m.mem| || |m.mem[e / 1024]| != 512 then None else Some(PageBytes(m.mem[e / 1024]))
  }

  /** The first `n` pages of a page table. */
  function PagesOf(m: PageModel.Memory, r: nat, n: nat): (p: seq<Option<Page>>)
    ensures |p| == n && forall k | 0 <= k < n :: p[k] == PageAt(m, r, k)
  {
    if n == 0 then [] else PagesOf(m, r, n - 1) + [PageAt(m, r, n - 1)]
  }

  lemma PageIs(m: PageModel.Memory, r: nat, v: nat)
    requires PageModel.Valid(m) && v < PageModel.TRAPFRAME_VPN
    ensures var e := PageModel.Pte(m, r, v);
            if e == 0 then PageAt(m, r, v) == None
            else
              e / 1024 < |m.mem| == |m.owner| && |m.mem[e / 1024]| == 512 &&
              m.owner[e / 1024] == PageModel.User(r, v) &&
              PageAt(m, r, v) == Some(PageBytes(m.mem[e / 1024]))
  {
    hide PageModel.Pte;
    if PageModel.Pte(m, r, v) != 0 {
      PageFrames.UserOf(m, r, v);
    }
  }

  /** Finds the physical page of `va`, if it is mapped. */
  method FindPage(vm: Vm, root: nat, va: nat) returns (mapped: bool, p: nat)
    requires PageModel.Valid(vm.State()) && PageModel.Key(root, 2, 0) in vm.tbl && va < PageFrames.TRAPFRAME
    modifies vm
    ensures vm.State() == old(vm.State()) && vm.refused == old(vm.refused)
    ensures var e := PageModel.Pte(vm.State(), root, va / PGSIZE); mapped == (e != 0) && (mapped ==> p == e / 1024)
  {
    hide PageModel.Pte, PageModel.Valid, PageFrames.Quiet, PageFrames.Px;
    ghost var s := vm.State();
    p := 0;
    var t := vm.Walk(root, va, false);
    if t == 0 {
      PageFrames.AbsentPte(s, root, va / PGSIZE);
      return false, 0;
    }
    PageFrames.LeafSlot(s, root, va);
    var e := vm.mem[t][PageFrames.Px(0, va)];
    PageFrames.LeafBit(e);
    return e % 2 == 1, e / 1024;
  }

  /** Writes the records of the pages of the first `sz` bytes of `root` to inode `i`, from `off` on. It goes on
      with a series of writes that began as `k` says and has written `done`. When it fails, `w` bytes of the
      series are written. */
  method CheckpointAddrSpace(vm: Vm, root: nat, fs: FileSystem, i: nat, sz: nat, off: Word, ghost k: Series,
                             ghost done: seq<Byte>, ghost again: bool)
    returns (r: int, ghost w: nat)
    requires PageModel.Valid(vm.State()) && PageModel.Key(root, 2, 0) in vm.tbl
    requires fs.Valid() && i < |fs.inodes| && !fs.panicked && off == k.off + |done|
    requires Clear(k, fs.bmapstart, fs.IBlock(i), fs.State(), i, done, fs.logged, again)
    modifies vm, fs`used, fs`blocks, fs`inodes, fs`ondisk, fs`owner, fs`logged, fs`panicked
    ensures vm.State() == old(vm.State()) && vm.refused == old(vm.refused)
    ensures fs.Valid() && |fs.inodes| == |old(fs.inodes)| && (r == 0 || r == -1) && (fs.panicked ==> r == -1)
    ensures var stream := Stream(PagesOf(old(vm.State()), root, Pages(sz)), Pages(sz));
            var ever := if stream == [] then again else done != [] || |stream| > 1;
            && (r == 0 ==>
                Clear(k, fs.bmapstart, fs.IBlock(i), fs.State(), i, done + stream, fs.logged, ever))
            && (fs.panicked ==>
                Overrun(k, fs.bmapstart, fs.IBlock(i), fs.State(), i, w, |done| + |stream|, ever))
            && (r == -1 && !fs.panicked ==>
                || Short(k, fs.bmapstart, fs.IBlock(i), fs.State(), i, w, |done| + |stream|, ever)
                || (Refused(k, fs.bmapstart, fs.State(), i, w) &&
                    (k.off > |k.c| || off + |stream| > MAXFILE * BSIZE)))
  {
    hide AddrAt, ByteAt, Owned, OthersSame, Written, AllMapped, WriteCost, Overrun, Short, Refused, Clear;
    hide Stream, Pages, Holds, LaidOut;
    hide PageModel.Pte, PageModel.Valid, PageAt, Full;
    ghost var m, was := vm.State(), done;
    ghost var pages := PagesOf(m, root, Pages(sz));
    StreamStarts(pages);
    assert done + [] == done;
    w := |done|;
    var at: Word := off;
    var j := 0;
    ghost var ever := again;
    while j < Pages(sz)
      invariant 0 <= j <= Pages(sz) && at == off + |Stream(pages, j)| && vm.State() == m &&
                vm.refused == old(vm.refused)
      invariant fs.Valid() && |fs.inodes| == |old(fs.inodes)| && !fs.panicked
      invariant ever == if Stream(pages, j) == [] then again else done != [] || |Stream(pages, j)| > 1
      invariant Clear(k, fs.bmapstart, fs.IBlock(i), fs.State(), i, done + Stream(pages, j), fs.logged, ever)
    {
      PageReachable(k, fs.bmapstart, fs.IBlock(i), fs.State(), i, done, pages, j, fs.logged, ever);
      ghost var init := done + Stream(pages, j);
      var p := LoadPage(vm, root, j * PGSIZE);
      var ok;
      ok, at, w := WriteRecord(fs, i, p, at, k, init, ever);
      StreamStep(pages, j, Pages(sz));
      assert init + PageRecord(p) == done + Stream(pages, j + 1);
      ghost var total := |done| + |Stream(pages, Pages(sz))|;
      if !ok {
        if fs.panicked {
          OverrunMore(k, fs.bmapstart, fs.IBlock(i), fs.State(), i, w, |init| + |PageRecord(p)|, init != [] || p.Some?,
              total, done != [] || |Stream(pages, Pages(sz))| > 1);
        } else if Short(k, fs.bmapstart, fs.IBlock(i), fs.State(), i, w, |init| + |PageRecord(p)|,
                        init != [] || p.Some?) {
          ShortOf(k, fs.bmapstart, fs.IBlock(i), fs.State(), i, w, |init| + |PageRecord(p)|, init != [] || p.Some?);
          ShortMore(k, fs.bmapstart, fs.IBlock(i), fs.State(), i, w, |init| + |PageRecord(p)|, init != [] || p.Some?,
              total, done != [] || |Stream(pages, Pages(sz))| > 1);
        }
        return -1, w;
      }
      ever := init != [] || p.Some?;
      j := j + 1;
    }
    r := 0;
  }

  lemma {:induction false} StreamLong(pages: seq<Option<Page>>, j: nat)
    requires j <= |pages|
    ensures j <= |Stream(pages, j)|
  {
    if j > 0 {
      StreamLong(pages, j - 1);
    }
  }

  /** A file holds the records of far fewer pages than there are below the trapframe. */
  lemma PageReachable(k: Series, bmapstart: nat, inodeBlock: nat, t: Fs, i: nat, done: seq<Byte>,
                      pages: seq<Option<Page>>, j: nat, logged: set<nat>, again: bool)
    requires j <= |pages| && Clear(k, bmapstart, inodeBlock, t, i, done + Stream(pages, j), logged, again)
    ensures j * PGSIZE < PageFrames.TRAPFRAME && j * PGSIZE / PGSIZE == j < PageModel.TRAPFRAME_VPN
  {
    hide Clear;
    StreamLong(pages, j);
    if j > 0 {
      WithinFile(k, bmapstart, inodeBlock, t, i, done + Stream(pages, j), logged, again);
    }
  }

  lemma PageInside(k: nat, sz: nat)
    requires k < Pages(sz) && sz <= PageFrames.TRAPFRAME
    ensures k * PGSIZE < PageFrames.TRAPFRAME && k * PGSIZE / PGSIZE == k && k < PageModel.TRAPFRAME_VPN
  {
  }

  /** The bytes of the page at `va`, if it is mapped. */
  method LoadPage(vm: Vm, root: nat, va: nat) returns (p: Option<Page>)
    requires PageModel.Valid(vm.State()) && PageModel.Key(root, 2, 0) in vm.tbl && va < PageFrames.TRAPFRAME
    modifies vm
    ensures vm.State() == old(vm.State()) && vm.refused == old(vm.refused) && p == PageAt(vm.State(), root, va / PGSIZE)
  {
    hide PageModel.Pte, PageModel.Valid;
    PageIs(vm.State(), root, va / PGSIZE);
    var mapped, x := FindPage(vm, root, va);
    p := if mapped then Some(PageBytes(vm.mem[x])) else None;
  }

  lemma HoldsStart(c: seq<Byte>, off: nat)
    ensures Holds(c, c, off, [])
  {
    if off <= |c| {
      WrittenNothing(c, off);
    }
  }

  /** Writing where the last write ended, or past the end of the file. */
  lemma HoldsNext(file: seq<Byte>, c: seq<Byte>, off: nat, done: seq<Byte>, data: seq<Byte>)
    requires Holds(file, c, off, done)
    ensures off + |done| <= |file| <==> off <= |c|
    ensures off <= |c| ==> Holds(Written(file, off + |done|, data), c, off, done + data)
  {
    if off <= |c| {
      WrittenAppend(c, off, done, data);
    }
  }

  lemma StreamStarts(pages: seq<Option<Page>>)
    ensures Stream(pages, 0) == []
  {
  }

  lemma {:induction false} StreamStep(pages: seq<Option<Page>>, k: nat, n: nat)
    requires k < n <= |pages|
    ensures Stream(pages, k + 1) == Stream(pages, k) + PageRecord(pages[k])
    ensures |Stream(pages, k + 1)| <= |Stream(pages, n)|
    decreases n
  {
    if k + 1 < n {
      StreamStep(pages, k, n - 1);
    }
  }

  // ----- one write after the other -----

  /** A series of writes has written `done` and met no full log. The inode is in the log after the first write,
      and had been when the last one came to log it if `again`. */
  ghost predicate Clear(k: Series, bmapstart: nat, inodeBlock: nat, t: Fs, i: nat, done: seq<Byte>, logged: set<nat>,
                        again: bool) {
    && Whole(k, t, i, |done|) && Holds(Content(t.inodes[i], t.blocks), k.c, k.off, done)
    && logged == SeriesLogs(k, bmapstart, inodeBlock, t, i, |done|, done != [])
    && (done != [] ==> |SeriesLogs(k, bmapstart, inodeBlock, t, i, |done|, again)| < LOGBLOCKS)
  }

  /** A series of `n` bytes met a full log when `w` were written; `ever` says that it takes several writes. */
  ghost predicate Overrun(k: Series, bmapstart: nat, inodeBlock: nat, t: Fs, i: nat, w: nat, n: nat, ever: bool) {
    && ((Whole(k, t, i, w) && 0 < w <= n) || (Stuck(k, t, i, w) && w < n))
    && |SeriesLogs(k, bmapstart, inodeBlock, t, i, w, ever && w > 0)| >= LOGBLOCKS
  }

  /** A series of `n` bytes ended for want of blocks when `w` were written, without meeting a full log. */
  ghost predicate Short(k: Series, bmapstart: nat, inodeBlock: nat, t: Fs, i: nat, w: nat, n: nat, ever: bool) {
    Stuck(k, t, i, w) && w < n && |SeriesLogs(k, bmapstart, inodeBlock, t, i, w, ever && w > 0)| < LOGBLOCKS
  }

  /** It ended because writei() refused more: it starts past the end of the file, or has come to the largest
      size a file can have. */
  ghost predicate Refused(k: Series, bmapstart: nat, t: Fs, i: nat, w: nat) {
    && Whole(k, t, i, w) && (w > 0 ==> |SeriesLogs(k, bmapstart, 0, t, i, w, false)| < LOGBLOCKS)
    && (k.off > |k.c| || k.off + w + PGSIZE > MAXFILE * BSIZE)
  }

  lemma OverrunMore(k: Series, bmapstart: nat, inodeBlock: nat, t: Fs, i: nat, w: nat, n: nat, ever: bool, m: nat,
                    always: bool)
    requires Overrun(k, bmapstart, inodeBlock, t, i, w, n, ever) && n <= m && (ever ==> always)
    ensures Overrun(k, bmapstart, inodeBlock, t, i, w, m, always)
  {
    hide AddrAt, Owned, OthersSame, Grew, Reached, Full, CopyLogs;
    CardinalityLe(SeriesLogs(k, bmapstart, inodeBlock, t, i, w, ever && w > 0),
                  SeriesLogs(k, bmapstart, inodeBlock, t, i, w, always && w > 0));
  }

  lemma ShortMore(k: Series, bmapstart: nat, inodeBlock: nat, t: Fs, i: nat, w: nat, n: nat, ever: bool, m: nat,
                  always: bool)
    requires Short(k, bmapstart, inodeBlock, t, i, w, n, ever) && n <= m && (w == 0 || ever == always)
    ensures Short(k, bmapstart, inodeBlock, t, i, w, m, always)
  {
    hide Stuck, SeriesLogs;
  }

  lemma RefusedHere(k: Series, bmapstart: nat, inodeBlock: nat, t: Fs, i: nat, done: seq<Byte>, logged: set<nat>,
                    again: bool)
    requires Clear(k, bmapstart, inodeBlock, t, i, done, logged, again)
    requires k.off > |k.c| || k.off + |done| + PGSIZE > MAXFILE * BSIZE
    ensures Refused(k, bmapstart, t, i, |done|)
  {
    hide AddrAt, Owned, OthersSame, Grew, Reached, Holds, Content, CopyLogs;
    if done != [] {
      CardinalityLe(SeriesLogs(k, bmapstart, 0, t, i, |done|, false),
                    SeriesLogs(k, bmapstart, inodeBlock, t, i, |done|, again));
    }
  }

  /** The log after one more write of `r` bytes, and before that write came to the inode. */
  lemma LogsOn(k: Series, bmapstart: nat, inodeBlock: nat, t: Fs, u: Fs, i: nat, done: seq<Byte>, logged: set<nat>,
               r: nat)
    requires i < |k.s.inodes| == |t.inodes| == |u.inodes|
    requires logged == SeriesLogs(k, bmapstart, inodeBlock, t, i, |done|, done != [])
    requires CopyLogs(bmapstart, k.s, u, i, k.off, |done| + r) ==
             CopyLogs(bmapstart, k.s, t, i, k.off, |done|) + CopyLogs(bmapstart, t, u, i, k.off + |done|, r)
    ensures logged + CopyLogs(bmapstart, t, u, i, k.off + |done|, r) ==
            SeriesLogs(k, bmapstart, inodeBlock, u, i, |done| + r, done != [])
    ensures logged + WriteLogs(bmapstart, inodeBlock, t, u, i, k.off + |done|, r) ==
            SeriesLogs(k, bmapstart, inodeBlock, u, i, |done| + r, true)
  {
    hide CopyLogs;
  }

  /** What a write of `n` of the bytes of `data`, from `t` to `u`, makes of the series. */
  lemma Outcome(k: Series, bmapstart: nat, inodeBlock: nat, t: Fs, u: Fs, i: nat, done: seq<Byte>, data: seq<Byte>,
                n: nat, logged: set<nat>, now: set<nat>, again: bool)
    requires Clear(k, bmapstart, inodeBlock, t, i, done, logged, again) && k.off <= |k.c|
    requires data != [] && n <= |data| && k.off + |done| + |data| <= MAXFILE * BSIZE
    requires Owned(u) && OthersSame(t, u, i) && Reached(u.inodes[i], u.blocks, k.off + |done|, n)
    requires var at := k.off + |done|; Grew(t, u, i, at / BSIZE, at / BSIZE + Span(at, Min(n + 1, |data|)))
    requires n < |data| ==> Stopped(u, i, k.off + |done|, |data|, n, |data|)
    requires n == |data| ==> Holds(Content(u.inodes[i], u.blocks), k.c, k.off, done + data)
    requires now == logged + WriteLogs(bmapstart, inodeBlock, t, u, i, k.off + |done|, n)
    ensures var ever := done != [];
            if |logged + CopyLogs(bmapstart, t, u, i, k.off + |done|, n)| >= LOGBLOCKS
            then Overrun(k, bmapstart, inodeBlock, u, i, |done| + n, |done| + |data|, ever)
            else if n == |data| then Clear(k, bmapstart, inodeBlock, u, i, done + data, now, ever)
            else Short(k, bmapstart, inodeBlock, u, i, |done| + n, |done| + |data|, ever)
  {
    hide AddrAt, Owned, OthersSame, Grew, Reached, Holds, Content, CopyLogs, Full, Span, Stopped;
    NextWrite(k, bmapstart, inodeBlock, t, u, i, |done|, data, n);
    LogsOn(k, bmapstart, inodeBlock, t, u, i, done, logged, n);
    assert |done + data| == |done| + |data|;
  }

  /** One writei() at the end of what the series has written so far. */
  method Append(fs: FileSystem, i: nat, data: seq<Byte>, at: Word, ghost k: Series, ghost done: seq<Byte>,
                ghost again: bool)
    returns (ok: bool, ghost w: nat)
    requires fs.Valid() && i < |fs.inodes| && !fs.panicked && at == k.off + |done| && 0 < |data| <= PGSIZE
    requires Clear(k, fs.bmapstart, fs.IBlock(i), fs.State(), i, done, fs.logged, again)
    modifies fs`used, fs`blocks, fs`inodes, fs`ondisk, fs`owner, fs`logged, fs`panicked
    ensures fs.Valid() && |fs.inodes| == |old(fs.inodes)| && (fs.panicked ==> !ok)
    ensures ok ==> Clear(k, fs.bmapstart, fs.IBlock(i), fs.State(), i, done + data, fs.logged, done != [])
    ensures fs.panicked ==>
              Overrun(k, fs.bmapstart, fs.IBlock(i), fs.State(), i, w, |done| + |data|, done != [])
    ensures !ok && !fs.panicked ==>
              || (Short(k, fs.bmapstart, fs.IBlock(i), fs.State(), i, w, |done| + |data|, done != []) && |done| <= w)
              || (Refused(k, fs.bmapstart, fs.State(), i, w) && (k.off > |k.c| || at + |data| > MAXFILE * BSIZE))
  {
    hide AddrAt, ByteAt, Owned, OthersSame, Written, Content, AllMapped, WriteCost, Holds, LaidOut, Grew, Covers;
    hide Reached, Stopped, Span, CopyLogs, WriteLogs, Overrun, Short, Refused, Clear, Spill, SpillBlock, Spilled;
    ghost var t, logged := fs.State(), fs.logged;
    HoldsOf(k, fs.bmapstart, fs.IBlock(i), t, i, done, logged, again);
    HoldsNext(Content(fs.inodes[i], fs.blocks), k.c, k.off, done, data);
    ContentSize(fs.inodes[i], fs.blocks);
    SizeBound(t, i);
    var n := fs.Writei(i, data, at, |data|);
    if n < 0 {
      RefusedHere(k, fs.bmapstart, fs.IBlock(i), t, i, done, logged, again);
      return false, |done|;
    }
    w := |done| + n;
    assert n == |data| ==> data[..n] == data;
    NoSpill(fs.State(), i, at, |data|, n, |data|);
    if at <= |Content(t.inodes[i], t.blocks)| {
      SpilledNothing(Content(t.inodes[i], t.blocks), at, data, n);
    }
    Outcome(k, fs.bmapstart, fs.IBlock(i), t, fs.State(), i, done, data, n, logged, fs.logged, again);
    ok := n == |data| && !fs.panicked;
  }

  lemma HoldsOf(k: Series, bmapstart: nat, inodeBlock: nat, t: Fs, i: nat, done: seq<Byte>, logged: set<nat>,
                again: bool)
    requires Clear(k, bmapstart, inodeBlock, t, i, done, logged, again) && i < |t.inodes|
    ensures Holds(Content(t.inodes[i], t.blocks), k.c, k.off, done)
  {
    hide Whole, Holds, SeriesLogs;
  }

  lemma SizeBound(s: Fs, i: nat)
    requires AllMapped(s) && i < |s.inodes|
    ensures s.inodes[i].size <= MAXFILE * BSIZE
  {
    assert Mapped(s.inodes[i], s.blocks);
  }

  /** One turn of checkpoint_addr_space()'s loop: the flag byte, then the page if it is present. */
  method WriteRecord(fs: FileSystem, i: nat, p: Option<Page>, at: Word, ghost k: Series, ghost done: seq<Byte>,
                     ghost again: bool)
    returns (ok: bool, next: Word, ghost w: nat)
    requires fs.Valid() && i < |fs.inodes| && !fs.panicked && at == k.off + |done|
    requires Clear(k, fs.bmapstart, fs.IBlock(i), fs.State(), i, done, fs.logged, again)
    modifies fs`used, fs`blocks, fs`inodes, fs`ondisk, fs`owner, fs`logged, fs`panicked
    ensures fs.Valid() && |fs.inodes| == |old(fs.inodes)| && (fs.panicked ==> !ok)
    ensures ok ==> next == at + |PageRecord(p)| &&
                   Clear(k, fs.bmapstart, fs.IBlock(i), fs.State(), i, done + PageRecord(p), fs.logged,
                         done != [] || p.Some?)
    ensures fs.panicked ==>
              Overrun(k, fs.bmapstart, fs.IBlock(i), fs.State(), i, w, |done| + |PageRecord(p)|, done != [] || p.Some?)
    ensures !ok && !fs.panicked ==>
              || Short(k, fs.bmapstart, fs.IBlock(i), fs.State(), i, w, |done| + |PageRecord(p)|, done != [] || p.Some?)
              || (Refused(k, fs.bmapstart, fs.State(), i, w) &&
                  (k.off > |k.c| || at + |PageRecord(p)| > MAXFILE * BSIZE))
  {
    hide AddrAt, ByteAt, Owned, AllMapped, OthersSame, Written, Content, Holds, LaidOut, Clear, Overrun, Short, Refused;
    next := at;
    var present: seq<Byte> := if p.Some? then [1] else [0];
    ok, w := Append(fs, i, present, at, k, done, again);
    if !ok {
      if fs.panicked {
        OverrunMore(k, fs.bmapstart, fs.IBlock(i), fs.State(), i, w, |done| + 1, done != [],
            |done| + |PageRecord(p)|, done != [] || p.Some?);
      } else if Short(k, fs.bmapstart, fs.IBlock(i), fs.State(), i, w, |done| + 1, done != []) && |done| <= w {
        ShortOf(k, fs.bmapstart, fs.IBlock(i), fs.State(), i, w, |done| + 1, done != []);
        ShortMore(k, fs.bmapstart, fs.IBlock(i), fs.State(), i, w, |done| + 1, done != [], |done| + |PageRecord(p)|,
            done != [] || p.Some?);
      }
      return;
    }
    WithinFile(k, fs.bmapstart, fs.IBlock(i), fs.State(), i, done + present, fs.logged, done != []);
    next := at + 1;
    if p.Some? {
      ok, w := Append(fs, i, p.value, next, k, done + present, done != []);
      assert done + present + p.value == done + PageRecord(p);
      if ok {
        WithinFile(k, fs.bmapstart, fs.IBlock(i), fs.State(), i, done + PageRecord(p), fs.logged, true);
        next := next + PGSIZE;
      }
    }
  }

  lemma ShortOf(k: Series, bmapstart: nat, inodeBlock: nat, t: Fs, i: nat, w: nat, n: nat, ever: bool)
    requires Short(k, bmapstart, inodeBlock, t, i, w, n, ever)
    ensures w < n
  {
    hide Stuck, SeriesLogs;
  }

  lemma WithinFile(k: Series, bmapstart: nat, inodeBlock: nat, t: Fs, i: nat, done: seq<Byte>, logged: set<nat>,
                   again: bool)
    requires Clear(k, bmapstart, inodeBlock, t, i, done, logged, again) && done != []
    ensures k.off + |done| <= MAXFILE * BSIZE
  {
    hide Owned, OthersSame, Grew, Reached, Holds, SeriesLogs;
  }

  /** One turn of restore_addr_space()'s loop, for a page that is `mapped` or not. */
  method ReadBack(fs: FileSystem, i: nat, at: Word, mapped: bool) returns (ok: bool, page: Page, next: Word)
    requires fs.Valid() && i < |fs.inodes|
    modifies fs`used, fs`blocks, fs`inodes, fs`ondisk, fs`owner, fs`logged, fs`panicked
    ensures fs.Valid() && fs.State() == old(fs.State())
    ensures fs.logged == old(fs.logged) && fs.panicked == old(fs.panicked)
    ensures if ok then mapped && ReadRecord(Content(fs.inodes[i], fs.blocks), at) == Some((page, next))
            else !mapped || ReadRecord(Content(fs.inodes[i], fs.blocks), at) == None
  {
    hide AddrAt, ByteAt, Owned, OthersSame, Written;
    ghost var c := Content(fs.inodes[i], fs.blocks);
    SizeBound(fs.State(), i);
    hide AllMapped;
    page, next := ZeroPage(), at;
    var n, present := fs.Readi(i, at, 1, 1);
    if n != 1 {
      return false, page, next;
    }
    assert present == c[at..at + 1];
    next := at + 1;
    if !mapped {
      return false, page, next;
    }
    if present[0] != 0 {
      var got, data := fs.Readi(i, next, PGSIZE, PGSIZE);
      if got != PGSIZE {
        return false, page, next;
      }
      assert data == c[next..next + PGSIZE];
      page, next := data, next + PGSIZE;
    }
    ok := true;
  }

  /** The first `k` pages of `root` hold `pages`; no mapping, and no page that is not one of those, has changed. */
  ghost predicate Loaded(m: PageModel.Memory, n: PageModel.Memory, root: nat, pages: seq<Page>) {
    && PageModel.SameMaps(m, n) && n.owner == m.owner && n.tbl == m.tbl && |n.mem| == |m.mem| == |m.owner|
    && (forall v: nat {:trigger PageAt(n, root, v)} | v < |pages| :: PageAt(n, root, v) == Some(pages[v]))
    && (forall x | 0 <= x < |m.mem| && !PageFrames.MappedIn(m.owner[x], root, 0, |pages|) :: n.mem[x] == m.mem[x])
  }

  lemma LoadedNone(m: PageModel.Memory, root: nat)
    requires PageModel.Valid(m)
    ensures Loaded(m, m, root, [])
  {
    hide PageModel.Pte;
  }

  lemma LoadedNext(m: PageModel.Memory, n: PageModel.Memory, u: PageModel.Memory, root: nat, pages: seq<Page>,
                   page: Page)
    requires PageModel.Valid(n) && PageModel.Valid(u) && Loaded(m, n, root, pages) && |pages| < PageModel.TRAPFRAME_VPN
    requires PageModel.Pte(n, root, |pages|) != 0 && PageModel.Pte(n, root, |pages|) / 1024 < |n.mem|
    requires u == PageModel.Fill(n, PageModel.Pte(n, root, |pages|) / 1024, WordsOf(page)) && PageModel.SameMaps(n, u)
    ensures Loaded(m, u, root, pages + [page])
  {
    hide PageModel.Pte, PageModel.Valid, PageAt;
    var k := |pages|;
    PageFrames.SameMapsTransitive(m, n, u);
    PageIs(n, root, k);
    PageIs(u, root, k);
    WordsReadBack(page);
    forall v: nat | v < k
      ensures PageAt(u, root, v) == Some(pages[v])
    {
      assert PageAt(n, root, v) == Some(pages[v]);
      PageIs(n, root, v);
      PageIs(u, root, v);
    }
  }

  /** Reads the records of a space of `sz` bytes from inode `i` into the pages of `root`, which must be mapped. */
  method RestoreAddrSpace(vm: Vm, root: nat, fs: FileSystem, i: nat, sz: nat, off: Word)
    returns (r: int, ghost pages: seq<Page>, ghost end: nat)
    requires PageModel.Valid(vm.State()) && PageModel.Key(root, 2, 0) in vm.tbl && sz <= PageFrames.TRAPFRAME
    requires fs.Valid() && i < |fs.inodes|
    modifies vm, fs`used, fs`blocks, fs`inodes, fs`ondisk, fs`owner, fs`logged, fs`panicked
    ensures PageModel.Valid(vm.State()) && Loaded(old(vm.State()), vm.State(), root, pages) && |pages| <= Pages(sz) &&
            vm.refused == old(vm.refused)
    ensures fs.Valid() && fs.State() == old(fs.State()) && (r == 0 || r == -1)
    ensures fs.logged == old(fs.logged) && fs.panicked == old(fs.panicked)
    ensures r == 0 ==>
            |pages| == Pages(sz) &&
            ReadStream(Content(fs.inodes[i], fs.blocks), off, Pages(sz)) == Some((pages, end))
    ensures r == -1 ==> ReadStream(Content(fs.inodes[i], fs.blocks), off, Pages(sz)) == None ||
                        exists k: nat {:trigger PageModel.Pte(vm.State(), root, k)} ::
                            k < Pages(sz) && PageModel.Pte(vm.State(), root, k) == 0
  {
    hide AddrAt, ByteAt, Owned, AllMapped, OthersSame, Written, Content, ReadRecord, Pages, LaidOut;
    hide PageModel.Pte, PageModel.Valid, Loaded;
    ghost var c, m := Content(fs.inodes[i], fs.blocks), vm.State();
    LoadedNone(m, root);
    pages, end := [], off;
    var at: Word := off;
    var k := 0;
    while k < Pages(sz)
      invariant 0 <= k == |pages| <= Pages(sz) && fs.Valid() && fs.State() == old(fs.State()) && at == end
      invariant fs.logged == old(fs.logged) && fs.panicked == old(fs.panicked)
      invariant PageModel.Valid(vm.State()) && vm.tbl == m.tbl && vm.refused == old(vm.refused) &&
                Loaded(m, vm.State(), root, pages)
      invariant ReadStream(c, off, k) == Some((pages, at as nat))
    {
      PageInside(k, sz);
      var mapped, x := FindPage(vm, root, k * PGSIZE);
      var ok, page, next := ReadBack(fs, i, at, mapped);
      if !ok {
        if mapped {
          StreamBroken(c, off, k + 1, Pages(sz));
        } else {
          assert PageModel.Pte(vm.State(), root, k) == 0;
        }
        return -1, pages, end;
      }
      ghost var n := vm.State();
      PageIs(n, root, k);
      PageModel.FillKeeps(n, x, WordsOf(page));
      vm.mem := vm.mem[x := WordsOf(page)];
      assert vm.State() == PageModel.Fill(n, x, WordsOf(page));
      LoadedNext(m, n, vm.State(), root, pages, page);
      pages, at := pages + [page], next;
      end := at;
      k := k + 1;
    }
    r := 0;
  }

  lemma {:induction false} StreamBroken(c: seq<Byte>, at: nat, k: nat, n: nat)
    requires ReadStream(c, at, k) == None && k <= n
    ensures ReadStream(c, at, n) == None
    decreases n
  {
    if k < n {
      StreamBroken(c, at, k, n - 1);
    }
  }

  // ----- what a series comes to, told from the state before -----

  lemma SeriesStarts(fs: FileSystem, i: nat, off: nat)
    requires fs.Valid() && i < |fs.inodes|
    ensures var k := Series(fs.State(), fs.logged, off, Content(fs.inodes[i], fs.blocks));
            Clear(k, fs.bmapstart, fs.IBlock(i), fs.State(), i, [], fs.logged, false)
  {
    hide AddrAt, ByteAt, Owned, OthersSame, Content, AllMapped, LaidOut, Grew, CopyLogs, Reached, Holds;
    OthersReflexive(fs.State(), i);
    GrewReflexive(fs.State(), i, off / BSIZE, off / BSIZE);
    NothingCopied(fs.bmapstart, fs.State(), i, off);
    HoldsStart(Content(fs.inodes[i], fs.blocks), off);
  }

  lemma ClearFits(k: Series, bmapstart: nat, inodeBlock: nat, t: Fs, i: nat, done: seq<Byte>, logged: set<nat>,
                  again: bool)
    requires Clear(k, bmapstart, inodeBlock, t, i, done, logged, again) && done != []
    ensures Room(k.s, i, k.off, |done|)
    ensures !TooBig(bmapstart, inodeBlock, k.s, i, k.before, k.off, |done|, again)
    ensures logged == k.before + WriteLogs(bmapstart, inodeBlock, k.s, t, i, k.off, |done|)
    ensures WriteLogs(bmapstart, inodeBlock, k.s, t, i, k.off, |done|) ==
            Plan(bmapstart, k.s, i, k.off / BSIZE, k.off / BSIZE + Span(k.off, Capped(k.off, |done|))) + {inodeBlock}
    ensures OthersSame(k.s, t, i) && Holds(Content(t.inodes[i], t.blocks), k.c, k.off, done)
  {
    hide Owned, OthersSame, Grew, Reached, Holds, CopyLogs, TooBig, Room, Plan, Span;
    WholeFits(k, bmapstart, inodeBlock, t, i, |done|, again);
    WholePlan(k, bmapstart, t, i, |done|);
    assert Capped(k.off, |done|) == |done|;
  }

  lemma ShortFits(k: Series, bmapstart: nat, inodeBlock: nat, t: Fs, i: nat, w: nat, n: nat, ever: bool)
    requires Short(k, bmapstart, inodeBlock, t, i, w, n, ever)
    ensures !Room(k.s, i, k.off, n) && Full(t.used) && OthersSame(k.s, t, i)
    ensures !TooBig(bmapstart, inodeBlock, k.s, i, k.before, k.off, n, ever)
  {
    hide Owned, OthersSame, Grew, Reached, CopyLogs, TooBig, Room;
    StuckFits(k, bmapstart, inodeBlock, t, i, w, n, ever);
  }

  lemma OverrunFits(k: Series, bmapstart: nat, inodeBlock: nat, t: Fs, i: nat, w: nat, n: nat, ever: bool)
    requires Overrun(k, bmapstart, inodeBlock, t, i, w, n, ever)
    ensures i < |k.s.inodes| && TooBig(bmapstart, inodeBlock, k.s, i, k.before, k.off, n, ever) && OthersSame(k.s, t, i)
  {
    hide Owned, OthersSame, Grew, Reached, CopyLogs, TooBig, Room;
    if Whole(k, t, i, w) && 0 < w <= n {
      WholeOverruns(k, bmapstart, inodeBlock, t, i, w, n, ever && w > 0, ever);
    } else {
      StuckFits(k, bmapstart, inodeBlock, t, i, w, n, ever);
    }
  }

  /** Saving the memory of one page table and restoring it into another one that has every page below `sz`
      mapped: unless the file, the disk or the log cannot hold it, every page reads as it did, absent ones as
      zeros, and exactly what was written is read. */
  method SaveAndRestore(vm: Vm, src: nat, dst: nat, fs: FileSystem, i: nat, sz: nat, off: Word)
    returns (r: int, ghost end: nat)
    requires PageModel.Valid(vm.State()) && PageModel.Key(src, 2, 0) in vm.tbl && PageModel.Key(dst, 2, 0) in vm.tbl &&
             sz <= PageFrames.TRAPFRAME
    requires fs.Valid() && i < |fs.inodes| && !fs.panicked
    requires forall k: nat {:trigger PageModel.Pte(vm.State(), dst, k)} | k < Pages(sz) ::
             PageModel.Pte(vm.State(), dst, k) != 0
    modifies vm, fs`used, fs`blocks, fs`inodes, fs`ondisk, fs`owner, fs`logged, fs`panicked
    ensures PageModel.Valid(vm.State()) && fs.Valid() && (r == 0 || r == -1)
    ensures var size := |Stream(PagesOf(old(vm.State()), src, Pages(sz)), Pages(sz))|;
            && (r == 0 ==> end == off + size && !fs.panicked)
            && (fs.panicked ==>
                TooBig(fs.bmapstart, fs.IBlock(i), old(fs.State()), i, old(fs.logged), off, size, size > 1))
            && (size > 0 && off <= old(fs.inodes[i].size) && off + size <= MAXFILE * BSIZE ==>
                && (fs.panicked <==>
                    TooBig(fs.bmapstart, fs.IBlock(i), old(fs.State()), i, old(fs.logged), off, size, size > 1))
                && (r == 0 <==> !fs.panicked && Room(old(fs.State()), i, off, size)))
            && (r == -1 && !fs.panicked ==>
                off > old(fs.inodes[i].size) || Full(fs.used) || off + size > MAXFILE * BSIZE)
    ensures r == 0 ==> forall v: nat {:trigger PageAt(vm.State(), dst, v)} | v < Pages(sz) ::
                         PageAt(vm.State(), dst, v) == Some(Seen(PageAt(old(vm.State()), src, v)))
  {
    hide AddrAt, ByteAt, Owned, AllMapped, OthersSame, Written, Content, ReadStream, Pages, LaidOut, Full, Stream;
    hide PageModel.Pte, PageModel.Valid, PageAt, Clear, Overrun, Short, TooBig, Room, WriteLogs;
    end := off;
    ghost var c, m := Content(fs.inodes[i], fs.blocks), vm.State();
    ghost var saved, k := PagesOf(m, src, Pages(sz)), Series(fs.State(), fs.logged, off, c);
    ghost var stream := Stream(saved, Pages(sz));
    ContentSize(fs.inodes[i], fs.blocks);
    SeriesStarts(fs, i, off);
    ghost var w;
    r, w := CheckpointAddrSpace(vm, src, fs, i, sz, off, k, [], false);
    assert [] + stream == stream;
    if fs.panicked {
      OverrunFits(k, fs.bmapstart, fs.IBlock(i), fs.State(), i, w, |stream|, |stream| > 1);
    } else if r == -1 {
      if Short(k, fs.bmapstart, fs.IBlock(i), fs.State(), i, w, |stream|, |stream| > 1) {
        ShortFits(k, fs.bmapstart, fs.IBlock(i), fs.State(), i, w, |stream|, |stream| > 1);
      }
    } else {
      SavedHolds(k, fs.bmapstart, fs.IBlock(i), fs.State(), i, stream, fs.logged, |stream| > 1);
      if off <= |c| {
        RoundTrip(c, off, saved, Pages(sz));
      } else {
        StreamPositive(saved, Pages(sz));
        StreamEmpty(c, off);
      }
      ghost var pages;
      r, pages, end := RestoreAddrSpace(vm, dst, fs, i, sz, off);
      StillMapped(m, vm.State(), dst, pages);
    }
  }

  lemma SavedHolds(k: Series, bmapstart: nat, inodeBlock: nat, t: Fs, i: nat, done: seq<Byte>, logged: set<nat>,
                   again: bool)
    requires Clear(k, bmapstart, inodeBlock, t, i, done, logged, done != [] && again)
    ensures Holds(Content(t.inodes[i], t.blocks), k.c, k.off, done)
    ensures done != [] ==> Room(k.s, i, k.off, |done|)
    ensures done != [] ==> !TooBig(bmapstart, inodeBlock, k.s, i, k.before, k.off, |done|, again)
  {
    hide Whole, Holds, SeriesLogs, TooBig, Room;
    if done != [] {
      ClearFits(k, bmapstart, inodeBlock, t, i, done, logged, again);
    }
  }

  lemma StillMapped(m: PageModel.Memory, n: PageModel.Memory, root: nat, pages: seq<Page>)
    requires Loaded(m, n, root, pages)
    ensures forall k: nat {:trigger PageModel.Pte(n, root, k)} :: PageModel.Pte(n, root, k) == PageModel.Pte(m, root, k)
    ensures forall v: nat {:trigger PageAt(n, root, v)} | v < |pages| :: PageAt(n, root, v) == Some(pages[v])
  {
    hide PageModel.Pte, PageAt;
  }

  lemma StreamPositive(pages: seq<Option<Page>>, n: nat)
    requires n <= |pages|
    ensures n > 0 ==> Stream(pages, n) != []
  {
  }
}
