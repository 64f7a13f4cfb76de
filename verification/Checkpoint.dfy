/** checkpoint_proc() and restore_proc() of kernel/proc.c: a process saved to a file and made again from it,
    with its memory, its registers and its open files. */
module Checkpoint {
  import opened Common
  import opened Blocks
  import opened FsModel
  import opened FileWrites
  import opened LogBudget
  import opened LogPlan
  import opened FileSystem
  import opened Encoding
  import opened VirtualMemory
  import opened Descriptors
  import opened CheckpointHeader
  import opened AddressSpace
  import PageModel
  import PageFrames

  /** What is saved of a process besides its memory. */
  datatype Image = Image(pid: int, sz: nat, tf: seq<nat>, name: seq<Byte>, cwd: nat, files: Table)

  function HeaderFor(p: Image, numFds: nat, fds: seq<FdRec>): Header {
    Header(p.pid, p.sz, p.tf, p.name, numFds, p.cwd, fds)
  }

  /** The fields fit their C types. */
  predicate ImageFits(p: Image) {
    && FitsSigned(p.pid, 4) && p.sz < Pow256(8) && p.cwd < Pow256(4)
    && |p.tf| == TF_WORDS && (forall k | 0 <= k < TF_WORDS :: p.tf[k] < Pow256(8)) && |p.name| == 16
    && |p.files| == NOFILE && forall k | 0 <= k < NOFILE && p.files[k].Some? :: FileFits(p.files[k].value)
  }

  predicate FileFits(f: File) { f.inum < Pow256(4) && f.off < Pow256(4) && FitsSigned(f.major, 2) }

  lemma RecordsFit(p: Image, fds: seq<FdRec>, pipes: seq<nat>, numFds: nat)
    requires ImageFits(p) && Described(p.files, NOFILE, fds, pipes) && |pipes| <= NOFILE && numFds <= NOFILE
    ensures Fits(HeaderFor(p, numFds, fds))
  {
    hide Pow256;
    Powers();
    forall k | 0 <= k < NOFILE
      ensures FdFits(fds[k])
    {
      assert fds[k] == Record(p.files[k], fds[k].pipeId);
    }
  }

  /** How many descriptors are open. */
  function Open(t: Table): (n: nat)
    ensures n <= |t|
  {
    if t == [] then 0 else (if t[0].Some? then 1 else 0) + Open(t[1..])
  }

  /** The contents of a checkpoint: the header, then the memory. */
  ghost predicate Saved(c: seq<Byte>, p: Image, pages: seq<Option<Page>>, fds: seq<FdRec>, pipes: seq<nat>,
                        rest: seq<Byte>) {
    && ImageFits(p) && |pages| == Pages(p.sz) && |fds| == NOFILE && Acceptable(p.files)
    && Described(p.files, NOFILE, fds, pipes) && Distinct(pipes) && |pipes| <= NOFILE
    && Holds(c, rest, 0, EncodeHeader(HeaderFor(p, Open(p.files), fds)) + Stream(pages, Pages(p.sz)))
  }

  /** The size of a checkpoint. */
  ghost function SizeOf(m: PageModel.Memory, root: nat, p: Image): nat {
    HDR_SIZE + |Stream(PagesOf(m, root, Pages(p.sz)), Pages(p.sz))|
  }

  /** Saves process `p`, whose memory `root` maps, to inode `i`, in the one transaction that its caller began. The
      kernel panics if that is too big for the log, which depends on the state before alone; and otherwise the
      process is saved if and only if its descriptors can be and there is room on the disk. */
  method CheckpointProc(vm: Vm, root: nat, p: Image, fs: FileSystem, i: nat)
    returns (r: int, ghost fds: seq<FdRec>, ghost pipes: seq<nat>)
    requires PageModel.Valid(vm.State()) && PageModel.Key(root, 2, 0) in vm.tbl && ImageFits(p)
    requires fs.Valid() && i < |fs.inodes| && !fs.panicked
    modifies vm, fs`used, fs`blocks, fs`inodes, fs`ondisk, fs`owner, fs`logged, fs`panicked
    ensures vm.State() == old(vm.State()) && vm.refused == old(vm.refused)
    ensures fs.Valid() && OthersSame(old(fs.State()), fs.State(), i) && (r == 0 || r == -1) &&
            |fs.inodes| == |old(fs.inodes)|
    ensures var size := SizeOf(vm.State(), root, p);
            var big := TooBig(fs.bmapstart, fs.IBlock(i), old(fs.State()), i, old(fs.logged), 0, size, p.sz > 0);
            && (fs.panicked <==> Acceptable(p.files) && big)
            && (r == 0 <==> Acceptable(p.files) && !big && Room(old(fs.State()), i, 0, size))
    ensures r == 0 ==> Saved(Content(fs.inodes[i], fs.blocks), p, PagesOf(vm.State(), root, Pages(p.sz)), fds, pipes,
            old(Content(fs.inodes[i], fs.blocks)))
    ensures r == 0 ==>
            var logs := WriteLogs(fs.bmapstart, fs.IBlock(i), old(fs.State()), fs.State(), i, 0,
                                  SizeOf(vm.State(), root, p));
            && fs.logged == old(fs.logged) + logs
            && logs == Plan(fs.bmapstart, old(fs.State()), i, 0, Span(0, Capped(0, SizeOf(vm.State(), root, p)))) +
                       {fs.IBlock(i)}
  {
    hide AddrAt, ByteAt, Owned, AllMapped, OthersSame, Written, Content, LaidOut, Full, Stream, Holds, Acceptable;
    hide Described, Distinct, Pages, Clear, Overrun, Short, Refused, TooBig, Room, WriteLogs, Plan, Span, Capped;
    hide PageModel.Good, PageModel.Pte, EncodeHeader, Fits, Open;
    ghost var s, c := fs.State(), Content(fs.inodes[i], fs.blocks);
    ghost var k, stream := Series(s, fs.logged, 0, c), Stream(PagesOf(vm.State(), root, Pages(p.sz)), Pages(p.sz));
    OthersReflexive(s, i);
    var ok, records, numbers := Capture(p.files);
    fds, pipes := records, numbers;
    if !ok {
      return -1, fds, pipes;
    }
    DescribedSize(p.files, records, numbers);
    var hdr := EncodeHeader(HeaderFor(p, Open(p.files), records));
    SeriesStarts(fs, i, 0);
    ghost var w;
    ok, w := Append(fs, i, hdr, 0, k, [], false);
    assert [] + hdr == hdr;
    if !ok {
      HeaderFails(k, fs.bmapstart, fs.IBlock(i), fs.State(), i, w, HDR_SIZE + |stream|, p.sz > 0, fs.panicked);
      return -1, fds, pipes;
    }
    r, w := CheckpointAddrSpace(vm, root, fs, i, p.sz, HDR_SIZE, k, hdr, false);
    MemoryPositive(PagesOf(vm.State(), root, Pages(p.sz)), p.sz);
    if r == 0 {
      ClearFits(k, fs.bmapstart, fs.IBlock(i), fs.State(), i, hdr + stream, fs.logged, p.sz > 0);
    } else if fs.panicked {
      OverrunFits(k, fs.bmapstart, fs.IBlock(i), fs.State(), i, w, HDR_SIZE + |stream|, p.sz > 0);
    } else if Short(k, fs.bmapstart, fs.IBlock(i), fs.State(), i, w, HDR_SIZE + |stream|, p.sz > 0) {
      ShortFits(k, fs.bmapstart, fs.IBlock(i), fs.State(), i, w, HDR_SIZE + |stream|, p.sz > 0);
    } else {
      NotRefused(k, fs.bmapstart, fs.State(), i, w);
      assert false;
    }
  }

  lemma MemoryPositive(pages: seq<Option<Page>>, sz: nat)
    requires |pages| == Pages(sz)
    ensures sz > 0 <==> Stream(pages, Pages(sz)) != []
  {
    StreamPositive(pages, Pages(sz));
  }

  /** The header goes to the first block of the file: it is written whole or not at all. */
  lemma HeaderFails(k: Series, bmapstart: nat, inodeBlock: nat, t: Fs, i: nat, w: nat, size: nat, ever: bool,
                    panicked: bool)
    requires k.off == 0 && size >= HDR_SIZE
    requires if panicked then Overrun(k, bmapstart, inodeBlock, t, i, w, HDR_SIZE, false)
             else Short(k, bmapstart, inodeBlock, t, i, w, HDR_SIZE, false) ||
                  (Refused(k, bmapstart, t, i, w) && HDR_SIZE > MAXFILE * BSIZE)
    ensures i < |k.s.inodes| && OthersSame(k.s, t, i) && (panicked || !Room(k.s, i, 0, size))
    ensures panicked <==> TooBig(bmapstart, inodeBlock, k.s, i, k.before, 0, size, ever)
  {
    hide AddrAt, Owned, OthersSame, Grew, CopyLogs, TooBig, Room, Full;
    if panicked {
      OverrunMore(k, bmapstart, inodeBlock, t, i, w, HDR_SIZE, false, size, ever);
      OverrunFits(k, bmapstart, inodeBlock, t, i, w, size, ever);
    } else {
      StuckAt(k, t, i, w);
      assert w == 0;
      ShortMore(k, bmapstart, inodeBlock, t, i, w, HDR_SIZE, false, size, ever);
      ShortFits(k, bmapstart, inodeBlock, t, i, w, size, ever);
    }
  }

  /** A file is never too small: the log is full long before. */
  lemma NotRefused(k: Series, bmapstart: nat, t: Fs, i: nat, w: nat)
    requires k.off == 0
    ensures !Refused(k, bmapstart, t, i, w)
  {
    hide AddrAt, Owned, OthersSame, Grew, Reached, CopyLogs, Plan, Need, Reach, FreeBlocks;
    if Refused(k, bmapstart, t, i, w) {
      WholePlan(k, bmapstart, t, i, w);
      PlanLarge(bmapstart, k.s, i, 0, Span(0, w));
      CardinalityLe(CopyLogs(bmapstart, k.s, t, i, 0, w), SeriesLogs(k, bmapstart, 0, t, i, w, false));
      assert false;
    }
  }

  /** The size of a checkpoint is a matter of counting pages. */
  lemma SizeIs(m: PageModel.Memory, root: nat, p: Image)
    ensures SizeOf(m, root, p) == HDR_SIZE + Pages(p.sz) + PGSIZE * Resident(PagesOf(m, root, Pages(p.sz)), Pages(p.sz))
  {
    hide PageAt, Pages;
    StreamSize(PagesOf(m, root, Pages(p.sz)), Pages(p.sz));
  }

  /** The property that a process whose descriptors can be saved and for which the disk has room is saved is false:
      from every state, whatever is in the log and in the file, a process with seven pages in memory makes
      log_write() panic, if there are 30 free blocks. */
  lemma SevenPages(fs: FileSystem, i: nat, m: PageModel.Memory, root: nat, p: Image)
    requires fs.Valid() && i < |fs.inodes| && |FreeBlocks(fs.used)| >= LOGBLOCKS
    requires Resident(PagesOf(m, root, Pages(p.sz)), Pages(p.sz)) >= 7
    ensures TooBig(fs.bmapstart, fs.IBlock(i), fs.State(), i, fs.logged, 0, SizeOf(m, root, p), p.sz > 0)
    ensures |FreeBlocks(fs.used)| > MAXFILE ==> Room(fs.State(), i, 0, SizeOf(m, root, p))
  {
    hide AddrAt, ByteAt, Owned, AllMapped, Need, FreeBlocks, TooBig, PageAt, SizeOf;
    SizeIs(m, root, p);
    ResidentAtMost(PagesOf(m, root, Pages(p.sz)), Pages(p.sz));
    MetaBlocks(fs.inodestart, |fs.inodes|, fs.bmapstart, |fs.used|, fs.meta);
    NeedAtMost(fs.inodes[i], fs.blocks, 0, LOGBLOCKS - 1);
    AlwaysTooBig(fs.bmapstart, fs.IBlock(i), fs.State(), i, fs.logged, SizeOf(m, root, p));
    NeedAtMost(fs.inodes[i], fs.blocks, 0, Span(0, Capped(0, SizeOf(m, root, p))));
  }

  /** And a process with three pages in memory makes the transaction log more than the MAXOPBLOCKS blocks that
      begin_op() has set aside for it. */
  method ThreePages(vm: Vm, root: nat, p: Image, fs: FileSystem, i: nat) returns (r: int)
    requires PageModel.Valid(vm.State()) && PageModel.Key(root, 2, 0) in vm.tbl && ImageFits(p)
    requires fs.Valid() && i < |fs.inodes| && !fs.panicked && |FreeBlocks(fs.used)| > MAXOPBLOCKS
    requires Resident(PagesOf(vm.State(), root, Pages(p.sz)), Pages(p.sz)) >= 3
    modifies vm, fs`used, fs`blocks, fs`inodes, fs`ondisk, fs`owner, fs`logged, fs`panicked
    ensures |fs.inodes| == |old(fs.inodes)| && (r == 0 ==> |fs.logged| > MAXOPBLOCKS)
    ensures r == 0 ==> |WriteLogs(fs.bmapstart, fs.IBlock(i), old(fs.State()), fs.State(), i, 0,
                                  SizeOf(vm.State(), root, p))| > MAXOPBLOCKS
  {
    hide AddrAt, ByteAt, Owned, AllMapped, OthersSame, Content, LaidOut, Acceptable, Saved, TooBig, Room, WriteLogs;
    hide PageModel.Valid, PageModel.Pte, PageAt, SizeOf, ImageFits, FreeBlocks, Need, Plan;
    ghost var s, size := fs.State(), SizeOf(vm.State(), root, p);
    SizeIs(vm.State(), root, p);
    ResidentAtMost(PagesOf(vm.State(), root, Pages(p.sz)), Pages(p.sz));
    LaidOutBelow(fs, i);
    NeedAtMost(fs.inodes[i], fs.blocks, 0, MAXOPBLOCKS);
    LogsMore(fs.bmapstart, fs.IBlock(i), s, i, size, MAXOPBLOCKS);
    ghost var fds, pipes;
    r, fds, pipes := CheckpointProc(vm, root, p, fs, i);
    if r == 0 {
      CardinalityLe(WriteLogs(fs.bmapstart, fs.IBlock(i), s, fs.State(), i, 0, size), fs.logged);
    }
  }

  lemma LaidOutBelow(fs: FileSystem, i: nat)
    requires fs.Valid() && i < |fs.inodes|
    ensures fs.IBlock(i) < fs.bmapstart <= fs.meta
  {
    hide Owned, AllMapped;
    MetaBlocks(fs.inodestart, |fs.inodes|, fs.bmapstart, |fs.used|, fs.meta);
  }

  lemma {:induction false} ResidentAtMost(pages: seq<Option<Page>>, n: nat)
    requires n <= |pages|
    ensures Resident(pages, n) <= n
  {
    if n > 0 {
      ResidentAtMost(pages, n - 1);
    }
  }

  function HeaderOf(c: seq<Byte>): Option<Header> {
    if |c| < HDR_SIZE then None else DecodeHeader(c[..HDR_SIZE])
  }

  const ROOTINO := 1

  /** The directory a process starts in: the saved one, or the root if it had none. */
  function StartDir(cwd: nat): nat { if cwd == 0 then ROOTINO else cwd }

  /** Process `p`, with memory at `root`, is the one described by the checkpoint `c`: its registers but for a0,
      its memory `pages`, which ends at byte `end` of the file, and its open files. */
  ghost predicate Remade(c: seq<Byte>, m: PageModel.Memory, root: nat, p: Image, pages: seq<Page>, end: nat,
                         mate: seq<nat>) {
    && HeaderOf(c).Some?
    && var h := HeaderOf(c).value;
    && PageModel.Key(root, 2, 0) in m.tbl && |h.tf| == TF_WORDS && h.sz > 0
    && p == Image(p.pid, h.sz, h.tf[14 := 1], h.name, StartDir(h.cwd), p.files)
    && |pages| == Pages(h.sz) && ReadStream(c, HDR_SIZE, Pages(h.sz)) == Some((pages, end))
    && (forall v: nat {:trigger PageAt(m, root, v)} | v < |pages| :: PageAt(m, root, v) == Some(pages[v]))
    && (Mates(h.fds, mate) ==> Restored(h.fds, p.files))
  }

  /** The file is a checkpoint from which a process can be made, given memory. */
  ghost predicate Restorable(c: seq<Byte>) {
    && HeaderOf(c).Some?
    && var h := HeaderOf(c).value;
    && h.sz > 0 && Pairable(h.fds) && ReadStream(c, HDR_SIZE, Pages(h.sz)).Some?
  }

  /** Makes a process from inode `i`: a new page table with a trapframe, the memory, the registers (of which a0
      becomes 1) and the open files. `mate` pairs the pipe entries of the header, if they are paired. Physical
      memory is smaller than an address space. */
  method RestoreProc(vm: Vm, trampoline: nat, fs: FileSystem, i: nat, ghost mate: seq<nat>)
    returns (r: int, root: nat, p: Image, ghost pages: seq<Page>, ghost end: nat)
    requires PageModel.Valid(vm.State()) && fs.Valid() && i < |fs.inodes| && |vm.mem| < PageModel.TRAPFRAME_VPN
    modifies vm, fs`used, fs`blocks, fs`inodes, fs`ondisk, fs`owner, fs`logged, fs`panicked
    ensures PageModel.Valid(vm.State()) && fs.Valid() && fs.State() == old(fs.State()) && (r == 0 || r == -1)
    ensures fs.logged == old(fs.logged) && fs.panicked == old(fs.panicked)
    ensures r == 0 <==> Restorable(Content(fs.inodes[i], fs.blocks)) && vm.refused == old(vm.refused)
    ensures r == 0 ==> Remade(Content(fs.inodes[i], fs.blocks), vm.State(), root, p, pages, end, mate)
  {
    hide AddrAt, ByteAt, Owned, AllMapped, OthersSame, Content, LaidOut, ReadStream, DecodeHeader, Mates, Restored;
    hide PageModel.Good, PageModel.Pte, PageModel.SameMaps, PageFrames.MapsSystem, PageFrames.Grown, Pages, PageAt;
    hide Pairable;
    root, p, pages, end := 0, Image(0, 0, [], [], 0, []), [], 0;
    ghost var c := Content(fs.inodes[i], fs.blocks);
    var got, bytes := fs.Readi(i, 0, HDR_SIZE, HDR_SIZE);
    HeaderRead(fs.inodes[i], fs.blocks, bytes);
    if got != HDR_SIZE {
      return -1, root, p, pages, end;
    }
    var hdr := DecodeHeader(bytes);
    if hdr.None? {
      return -1, root, p, pages, end;
    }
    var h := hdr.value;
    r, root := NewSpace(vm, trampoline, h.sz);
    if r < 0 {
      return -1, root, p, pages, end;
    }
    ghost var n := vm.State();
    r, pages, end := RestoreAddrSpace(vm, root, fs, i, h.sz, HDR_SIZE);
    StillMapped(n, vm.State(), root, pages);
    if r < 0 {
      return -1, root, p, pages, end;
    }
    var ok, files := Restore(h.fds, mate);
    if !ok {
      return -1, root, p, pages, end;
    }
    p := Image(0, h.sz, h.tf[14 := 1], h.name, StartDir(h.cwd), files);
  }

  /** A page table with a trapframe and `sz` bytes of memory. */
  method NewSpace(vm: Vm, trampoline: nat, sz: nat) returns (r: int, root: nat)
    requires PageModel.Valid(vm.State()) && |vm.mem| < PageModel.TRAPFRAME_VPN
    modifies vm
    ensures PageModel.Valid(vm.State()) && (r == 0 || r == -1)
    ensures r == 0 <==> sz > 0 && vm.refused == old(vm.refused)
    ensures r == 0 ==> PageModel.Key(root, 2, 0) in vm.tbl && sz <= PageFrames.TRAPFRAME
    ensures r == 0 ==> forall w: nat {:trigger PageModel.Pte(vm.State(), root, w)} | w < Pages(sz) ::
              PageModel.Pte(vm.State(), root, w) != 0
  {
    hide PageModel.Good, PageModel.Pte, PageModel.SameMaps, PageFrames.MapsSystem, PageFrames.Grown, Pages;
    root := 0;
    var frame := vm.Kalloc();
    if frame == 0 {
      return -1, root;
    }
    ghost var m := vm.State();
    root := vm.ProcPagetable(trampoline, frame * PGSIZE);
    if root == 0 {
      return -1, root;
    }
    ghost var g := vm.State();
    SameMemory(m, g, root);
    NoUserPages(m, g, root, trampoline / PGSIZE, frame * PGSIZE / PGSIZE, sz);
    var got := vm.Uvmalloc(root, 0, sz, 12);
    if got == 0 {
      return -1, root;
    }
    NowMapped(g, vm.State(), root, sz);
    r := 0;
  }

  lemma HeaderRead(n: Inode, b: seq<Block>, bytes: seq<Byte>)
    requires bytes == Content(n, b)[0..Min(HDR_SIZE, n.size)]
    ensures |bytes| == HDR_SIZE ==> HeaderOf(Content(n, b)) == DecodeHeader(bytes)
    ensures |bytes| != HDR_SIZE ==> HeaderOf(Content(n, b)) == None
  {
    hide DecodeHeader, ByteAt;
  }

  lemma SameMemory(m: PageModel.Memory, n: PageModel.Memory, root: nat)
    requires PageModel.Valid(m) && PageModel.Valid(n) && PageModel.OnlyTables(m, n, root)
    ensures |m.mem| == |n.mem|
  {
    hide PageModel.Pte;
  }

  lemma NoUserPages(m: PageModel.Memory, n: PageModel.Memory, root: nat, trampoline: nat, trapframe: nat, sz: nat)
    requires PageFrames.MapsSystem(m, n, root, trampoline, trapframe, 1)
    requires forall v: nat :: PageModel.Pte(m, root, v) == 0
    ensures Pages(0) == 0
    ensures forall w: nat | Pages(0) <= w < Pages(sz) && w < PageModel.TRAPFRAME_VPN :: PageModel.Pte(n, root, w) == 0
  {
    hide PageModel.Pte, PageModel.MakePte;
  }

  lemma NowMapped(m: PageModel.Memory, n: PageModel.Memory, root: nat, sz: nat)
    requires PageFrames.Grown(m, n, root, Pages(0), Pages(sz), 0x1f)
    ensures forall w: nat {:trigger PageModel.Pte(n, root, w)} | w < Pages(sz) :: PageModel.Pte(n, root, w) != 0
  {
    hide PageModel.Pte;
    assert Pages(0) == 0;
  }

  /** A saved process is found again: its header, and every page of its memory. */
  lemma SavedReads(c: seq<Byte>, p: Image, pages: seq<Option<Page>>, fds: seq<FdRec>, pipes: seq<nat>, rest: seq<Byte>)
    requires Saved(c, p, pages, fds, pipes, rest)
    ensures HeaderOf(c) == Some(HeaderFor(p, Open(p.files), fds))
    ensures ReadStream(c, HDR_SIZE, Pages(p.sz)) ==
            Some((SeenAll(pages, Pages(p.sz)), HDR_SIZE + |Stream(pages, Pages(p.sz))|))
  {
    hide Acceptable, Described, Distinct, Pages, EncodeHeader, DecodeHeader, Stream, ReadStream, ImageFits, Open;
    var h := HeaderFor(p, Open(p.files), fds);
    FitsSaved(p, fds, pipes);
    HeaderReadsBack(h);
    var hdr, stream := EncodeHeader(h), Stream(pages, Pages(p.sz));
    assert c[..HDR_SIZE] == hdr && c[HDR_SIZE..HDR_SIZE + |stream|] == stream;
    StreamReadsBack(c, HDR_SIZE, pages, Pages(p.sz));
  }

  lemma FitsSaved(p: Image, fds: seq<FdRec>, pipes: seq<nat>)
    requires ImageFits(p) && Described(p.files, NOFILE, fds, pipes) && |pipes| <= NOFILE
    ensures Fits(HeaderFor(p, Open(p.files), fds))
  {
    hide Described;
    RecordsFit(p, fds, pipes, Open(p.files));
  }

  /** The whole way round. A process comes back, with the same memory (absent pages read as zeros), the same
      registers but for a0, and the same graph of open files and pipes, if and only if its descriptors can be
      saved, its size is not 0, its checkpoint fits the log and the disk, and there is memory for it. When it
      does not fit the log, and for no other reason, the kernel panics. */
  method RoundTrip(vm: Vm, root: nat, p: Image, trampoline: nat, fs: FileSystem, i: nat)
    returns (r: int, again: nat, q: Image)
    requires PageModel.Valid(vm.State()) && PageModel.Key(root, 2, 0) in vm.tbl && ImageFits(p)
    requires fs.Valid() && i < |fs.inodes| && !fs.panicked && |vm.mem| < PageModel.TRAPFRAME_VPN
    modifies vm, fs`used, fs`blocks, fs`inodes, fs`ondisk, fs`owner, fs`logged, fs`panicked
    ensures PageModel.Valid(vm.State()) && fs.Valid() && (r == 0 || r == -1)
    ensures var size := SizeOf(old(vm.State()), root, p);
            var big := TooBig(fs.bmapstart, fs.IBlock(i), old(fs.State()), i, old(fs.logged), 0, size, p.sz > 0);
            && (fs.panicked <==> Acceptable(p.files) && big)
            && (r == 0 <==> Acceptable(p.files) && !big && Room(old(fs.State()), i, 0, size) && p.sz > 0 &&
                            vm.refused == old(vm.refused))
    ensures r == 0 ==>
            PageModel.Key(again, 2, 0) in vm.tbl &&
            forall v: nat {:trigger PageAt(vm.State(), again, v)} | v < Pages(p.sz) ::
                         PageAt(vm.State(), again, v) == Some(Seen(PageAt(old(vm.State()), root, v)))
    ensures r == 0 ==> q == Image(q.pid, p.sz, p.tf[14 := 1], p.name, StartDir(p.cwd), q.files) &&
                       SameGraph(p.files, q.files)
  {
    hide AddrAt, ByteAt, Owned, AllMapped, OthersSame, Content, LaidOut, ReadStream, Stream, Full, Acceptable, Pages;
    hide SameGraph, Mates, Restored, TooBig, Room, WriteLogs, Pairable;
    hide PageModel.Good, PageModel.Pte, PageAt, HeaderOf, Saved, Open;
    ghost var m := vm.State();
    ghost var before := Content(fs.inodes[i], fs.blocks);
    ghost var fds, pipes;
    r, fds, pipes := CheckpointProc(vm, root, p, fs, i);
    again, q := 0, p;
    if r < 0 {
      return;
    }
    ghost var pages := PagesOf(m, root, Pages(p.sz));
    ghost var mate := SavedFacts(Content(fs.inodes[i], fs.blocks), p, pages, fds, pipes, before);
    ghost var restored, end;
    r, again, q, restored, end := RestoreProc(vm, trampoline, fs, i, mate);
    if r == 0 {
      SameGraphOf(p.files, fds, pipes, q.files);
    }
  }

  lemma SavedFacts(c: seq<Byte>, p: Image, pages: seq<Option<Page>>, fds: seq<FdRec>, pipes: seq<nat>, rest: seq<Byte>)
    returns (mate: seq<nat>)
    requires Saved(c, p, pages, fds, pipes, rest)
    ensures HeaderOf(c) == Some(HeaderFor(p, Open(p.files), fds))
    ensures ReadStream(c, HDR_SIZE, Pages(p.sz)) ==
            Some((SeenAll(pages, Pages(p.sz)), HDR_SIZE + |Stream(pages, Pages(p.sz))|))
    ensures Mates(fds, mate) && Pairable(fds) && Acceptable(p.files) && |p.files| == NOFILE &&
            Described(p.files, |p.files|, fds, pipes) && Distinct(pipes)
    ensures |p.tf| == TF_WORDS && |pages| == Pages(p.sz)
  {
    hide Acceptable, Described, Distinct, Pages, EncodeHeader, Stream, ReadStream, HeaderOf, Holds, Mates, Open;
    hide FileFits, FitsSigned, Pow256;
    SavedReads(c, p, pages, fds, pipes, rest);
    MatesOf(p.files, fds, pipes);
    mate := Partners(p.files);
    MatesPair(fds, mate);
  }
}
