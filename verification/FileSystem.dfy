/** The block allocator and the inode operations of kernel/fs.c, updating the file system in place,
    and filewrite() of kernel/file.c on top of them. */
module FileSystem {
  import opened Common
  import opened Blocks
  import opened FsModel
  import opened FileWrites
  import opened LogBudget

  class FileSystem {
    const meta: nat
    const bmapstart: nat
    const inodestart: nat
    var used: seq<bool>           // the free map
    var blocks: seq<Block>        // block contents, as the buffer cache shows them
    var inodes: seq<Inode>        // in-memory inodes, by inode number
    var ondisk: seq<Inode>        // the copies in the inode blocks
    var ref: seq<nat>             // references to each in-memory inode
    var valid: seq<bool>          // whether it has been read from disk
    ghost var owner: map<nat, Slot>
    var logged: set<nat>          // the block numbers in the header of the log
    var panicked: bool            // log_write() has found the log full, which stops the kernel

    ghost function State(): Fs
      reads this
    {
      Fs(meta, used, blocks, inodes, owner)
    }

    function IBlock(i: nat): nat {
      i / IPB + inodestart
    }

    /** Ownership is exact, the inode blocks are up to date, and the disk is laid out as mkfs does. */
    ghost predicate Sound()
      reads this
    {
      Owned(State()) && ondisk == inodes && LaidOut(inodestart, |inodes|, bmapstart, |used|, meta)
    }

    /** Outside an operation: files are mapped up to their size as well. */
    ghost predicate Valid()
      reads this
    {
      Sound() && AllMapped(State())
    }

    /** An empty disk of `nblocks` blocks: no inode has a block, and only the metadata blocks are in use. */
    constructor (nblocks: nat, ninodes: nat, inodestart: nat)
      requires inodestart + (ninodes + IPB - 1) / IPB + (nblocks + BPB - 1) / BPB < nblocks < 0x1_0000_0000
      ensures Valid() && |inodes| == |ref| == |valid| == ninodes && |used| == nblocks && logged == {} && !panicked
      ensures this.inodestart == inodestart && bmapstart == inodestart + (ninodes + IPB - 1) / IPB
      ensures meta == bmapstart + (nblocks + BPB - 1) / BPB
      ensures forall i | 0 <= i < ninodes :: Content(inodes[i], blocks) == [] && ref[i] == 0 && !valid[i]
      ensures forall b | 0 <= b < nblocks :: used[b] <==> b < meta
    {
      var bstart := inodestart + (ninodes + IPB - 1) / IPB;
      var first := bstart + (nblocks + BPB - 1) / BPB;
      this.inodestart, bmapstart, meta := inodestart, bstart, first;
      used := seq(nblocks, b => b < first);
      blocks := seq(nblocks, b => ZeroBlock());
      inodes := seq(ninodes, i => NoInode());
      ondisk := seq(ninodes, i => NoInode());
      ref, valid := seq(ninodes, i => 0), seq(ninodes, i => false);
      owner, logged, panicked := map[], {}, false;
    }

    /** Records a block in the log. A full log stops the kernel; what follows is then of no account. */
    method LogWrite(b: nat)
      modifies `logged, `panicked
      ensures logged == old(logged) + {b} && (panicked <==> old(panicked) || |old(logged)| >= LOGBLOCKS)
      ensures Watch(old(panicked), panicked, logged)
    {
      CardinalityLe(logged, logged + {b});
      if |logged| >= LOGBLOCKS {
        panicked := true;
      }
      logged := logged + {b};
    }

    /** Allocates the lowest-numbered free block and zeroes it; 0 when the disk is full. */
    method Balloc() returns (a: Word)
      requires Owned(State())
      modifies `used, `blocks, `logged, `panicked
      ensures Watch(old(panicked), panicked, logged)
      ensures a == 0 ==>
              used == old(used) && blocks == old(blocks) && logged == old(logged) && panicked == old(panicked) &&
              forall b | 0 <= b < |used| :: used[b]
      ensures a != 0 ==> a < |old(used)| && !old(used)[a] && (forall b | 0 <= b < a :: old(used)[b])
      ensures a != 0 ==> used == old(used)[a := true] && blocks == old(blocks)[a := ZeroBlock()]
      ensures a != 0 ==> logged == old(logged) + {BitmapBlock(bmapstart, a), a}
    {
      hide AddrAt, PointersOwn, OwnersPoint;
      var b := 0;
      while b < |used|
        invariant 0 <= b && b % BPB == 0
        invariant forall c | 0 <= c < b && c < |used| :: used[c]
        invariant used == old(used) && blocks == old(blocks) && logged == old(logged) && panicked == old(panicked)
        decreases |used| - b
      {
        var bi := 0;
        while bi < BPB && b + bi < |used|
          invariant 0 <= bi <= BPB
          invariant forall c | 0 <= c < b + bi && c < |used| :: used[c]
          invariant used == old(used) && blocks == old(blocks) && logged == old(logged) && panicked == old(panicked)
        {
          if !used[b + bi] {
            used := used[b + bi := true];
            LogWrite(BitmapBlock(bmapstart, b));
            ghost var some, mid := logged, panicked;
            assert b + bi >= meta > 0;
            assert BitmapBlock(bmapstart, b) == BitmapBlock(bmapstart, b + bi);
            blocks := blocks[b + bi := ZeroBlock()];
            LogWrite(b + bi);
            WatchOn(old(panicked), mid, panicked, some, logged);
            return b + bi;
          }
          bi := bi + 1;
        }
        b := b + BPB;
      }
      return 0;
    }

    /** Marks a block free; the source panics on a block that is free already. */
    method Bfree(b: nat)
      requires b < |used| && used[b]
      modifies `used, `logged, `panicked
      ensures used == old(used)[b := false] && logged == old(logged) + {BitmapBlock(bmapstart, b)}
      ensures panicked <==> old(panicked) || |old(logged)| >= LOGBLOCKS
    {
      used := used[b := false];
      LogWrite(BitmapBlock(bmapstart, b));
    }

    /** Copies an in-memory inode to its inode block. */
    method Iupdate(i: nat)
      requires i < |inodes| == |ondisk|
      modifies `ondisk, `logged, `panicked
      ensures ondisk == old(ondisk)[i := inodes[i]] && logged == old(logged) + {IBlock(i)}
      ensures panicked <==> old(panicked) || |old(logged)| >= LOGBLOCKS
    {
      ondisk := ondisk[i := inodes[i]];
      LogWrite(IBlock(i));
    }

    /** addrs[idx] of inode `i`, with a block allocated for it when it is 0; `bn` is the file block wanted. */
    method EnsurePointer(i: nat, idx: nat, ghost bn: nat) returns (addr: Word)
      requires Owned(State()) && i < |inodes| && bn < MAXFILE && (idx == bn < NDIRECT || idx == NDIRECT <= bn)
      modifies `used, `blocks, `inodes, `owner, `logged, `panicked
      ensures Watch(old(panicked), panicked, logged)
      ensures Owned(State()) && OthersSame(old(State()), State(), i) && Grew(old(State()), State(), i, bn, bn + 1)
      ensures inodes[i] == WithAddrs(old(inodes[i]), inodes[i].addrs)
      ensures addr == AddrAt(inodes[i], blocks, if idx < NDIRECT then idx else INDIRECT)
      ensures addr == 0 ==> forall b | 0 <= b < |used| :: used[b]
      ensures old(inodes[i].addrs[idx]) != 0 ==> State() == old(State()) && panicked == old(panicked)
      ensures SameBytes(old(inodes[i]), old(blocks), inodes[i], blocks)
      ensures logged == old(logged) + Taken(bmapstart, old(State()), State(), i)
      ensures Covers(old(State()), State(), Taken(bmapstart, old(State()), State(), i))
    {
      hide AddrAt, ByteAt, PointersOwn, OwnersPoint, BitsMatch, OthersSame, Attached, Taken, Grew;
      ghost var s, k := State(), if idx < NDIRECT then idx else INDIRECT;
      PointerAt(inodes[i], blocks, idx);
      addr := inodes[i].addrs[idx];
      if addr == 0 {
        addr := Balloc();
        if addr != 0 {
          AttachPointerKeeps(s, i, idx, addr);
          inodes := inodes[i := WithAddr(inodes[i], idx, addr)];
          owner := owner[addr := Slot(i, k)];
          assert State() == AttachPointer(s, i, idx, addr);
          AttachedTakes(bmapstart, s, State(), i, k, addr, bn);
          AttachedSame(s, State(), i, k, addr);
          PointerAt(inodes[i], blocks, idx);
          return;
        }
      }
      assert State() == s;
      NothingTaken(bmapstart, s, i, bn);
    }

    /** Entry `bn` of inode `i`'s indirect block, with a block allocated for it when it is 0. */
    method EnsureEntry(i: nat, bn: nat) returns (addr: Word)
      requires Owned(State()) && i < |inodes| && NDIRECT <= bn < MAXFILE && inodes[i].addrs[NDIRECT] != 0
      modifies `used, `blocks, `inodes, `owner, `logged, `panicked
      ensures Watch(old(panicked), panicked, logged)
      ensures Owned(State()) && OthersSame(old(State()), State(), i) && Grew(old(State()), State(), i, bn, bn + 1)
      ensures inodes == old(inodes) && addr == AddrAt(inodes[i], blocks, bn)
      ensures addr == 0 ==> forall b | 0 <= b < |used| :: used[b]
      ensures old(AddrAt(inodes[i], blocks, bn)) != 0 ==> State() == old(State()) && panicked == old(panicked)
      ensures SameBytes(old(inodes[i]), old(blocks), inodes[i], blocks)
      ensures logged == old(logged) + Taken(bmapstart, old(State()), State(), i)
      ensures Covers(old(State()), State(), Taken(bmapstart, old(State()), State(), i))
    {
      hide ByteAt, PointersOwn, OwnersPoint, BitsMatch, LoadWord, OthersSame, Attached, Taken, Grew;
      ghost var s := State();
      var ind := inodes[i].addrs[NDIRECT];
      IndirectUnshared(s, i);
      addr := LoadWord(blocks[ind], bn - NDIRECT);
      if addr == 0 {
        addr := Balloc();
        if addr != 0 {
          AttachEntryKeeps(s, i, bn, addr);
          FreshUnpointed(s, addr);
          assert AddrAt(s.inodes[i], s.blocks, INDIRECT) == ind != addr;
          assert blocks[ind] == s.blocks[ind];
          blocks := blocks[ind := StoreWord(blocks[ind], bn - NDIRECT, addr)];
          owner := owner[addr := Slot(i, bn)];
          ghost var some, mid := logged, panicked;
          LogWrite(ind as nat);
          WatchOn(old(panicked), mid, panicked, some, logged);
          assert State() == AttachEntry(s, i, bn, addr);
          AttachedTakes(bmapstart, s, State(), i, bn, addr, bn);
          AttachedSame(s, State(), i, bn, addr);
          return;
        }
      }
      assert State() == s;
      NothingTaken(bmapstart, s, i, bn);
    }

    /** The disk block of file block `bn`, allocated (with the indirect block if need be) when there is
        none; 0 when the disk is full. The file reads as before. */
    method Bmap(i: nat, bn: nat) returns (addr: Word)
      requires Owned(State()) && i < |inodes| && bn < MAXFILE
      modifies `used, `blocks, `inodes, `owner, `logged, `panicked
      ensures Watch(old(panicked), panicked, logged)
      ensures Owned(State()) && OthersSame(old(State()), State(), i) && Grew(old(State()), State(), i, bn, bn + 1)
      ensures |inodes| == |old(inodes)| && inodes[i] == WithAddrs(old(inodes[i]), inodes[i].addrs)
      ensures addr == AddrAt(inodes[i], blocks, bn)
      ensures addr == 0 ==> forall b | 0 <= b < |used| :: used[b]
      ensures old(AddrAt(inodes[i], blocks, bn)) != 0 ==>
              State() == old(State()) && logged == old(logged) && panicked == old(panicked)
      ensures SameBytes(old(inodes[i]), old(blocks), inodes[i], blocks)
      ensures logged == old(logged) + Taken(bmapstart, old(State()), State(), i)
      ensures Covers(old(State()), State(), Taken(bmapstart, old(State()), State(), i))
    {
      hide ByteAt, AddrAt, PointersOwn, OwnersPoint, BitsMatch, OthersSame, Taken, Grew, Covers;
      ghost var s := State();
      TakenNone(bmapstart, s, i);
      PointerAt(inodes[i], blocks, if bn < NDIRECT then bn else NDIRECT);
      if bn < NDIRECT {
        addr := EnsurePointer(i, bn, bn);
        GrewSizes(s, State(), i, bn, bn + 1);
        return;
      }
      if AddrAt(s.inodes[i], s.blocks, bn) != 0 {
        EntryPointer(inodes[i], blocks, bn);
      }
      var ind := EnsurePointer(i, NDIRECT, bn);
      ghost var t, some, mid := State(), logged, panicked;
      GrewSizes(s, t, i, bn, bn + 1);
      PointerAt(inodes[i], blocks, NDIRECT);
      if ind == 0 {
        NoEntries(inodes[i], blocks, bn);
        return 0;
      }
      addr := EnsureEntry(i, bn);
      WatchOn(old(panicked), mid, panicked, some, logged);
      GrewTransitive(s, t, State(), i, bn, bn + 1);
      TakenAdds(bmapstart, s, t, State(), i, bn, bn + 1);
      CoversAdds(s, t, State(), Taken(bmapstart, s, t, i), Taken(bmapstart, t, State(), i));
      OthersTransitive(s, t, State(), i);
      SameBytesAdds(s, t, State(), i);
    }

    /** One turn of writei()'s loop: maps the file block at `off + tot` and copies the next piece of `src`
        into it, unless the disk is full or the piece is not all readable; then `m` is 0, and what could be
        read of the piece is in the block, which is not logged. */
    method CopyIn(i: nat, src: seq<Byte>, off: nat, tot: nat, readable: nat, ghost s: Fs) returns (m: nat, addr: Word)
      requires Owned(State()) && i < |inodes| && i < |s.inodes| && tot < |src| && off + |src| <= MAXFILE * BSIZE
      requires Bytes(s.inodes[i], s.blocks, inodes[i], blocks, off, src, tot)
      modifies `used, `blocks, `inodes, `owner, `logged, `panicked
      ensures Watch(old(panicked), panicked, logged)
      ensures var bn := (off + tot) / BSIZE;
              && Owned(State()) && OthersSame(old(State()), State(), i) && Grew(old(State()), State(), i, bn, bn + 1)
              && |inodes| == |old(inodes)| && inodes[i] == WithAddrs(old(inodes[i]), inodes[i].addrs)
              && addr == AddrAt(inodes[i], blocks, bn)
      ensures var q := if m > 0 then 0 else Spill(State(), i, off, |src|, tot, readable);
              Bytes(s.inodes[i], s.blocks, inodes[i], blocks, off, src, tot + m + q)
      ensures addr == 0 ==> forall b | 0 <= b < |used| :: used[b]
      ensures var piece := Min(|src| - tot, BSIZE - (off + tot) % BSIZE);
              m == if addr == 0 || tot + piece > readable then 0 else piece
      ensures logged == old(logged) + Taken(bmapstart, old(State()), State(), i) + if m > 0 then {addr as nat} else {}
      ensures var spill := if m > 0 then {} else SpillBlock(State(), i, off, |src|, tot, readable);
              Covers(old(State()), State(),
                     Taken(bmapstart, old(State()), State(), i) + (if m > 0 then {addr as nat} else {}) + spill)
    {
      hide AddrAt, ByteAt, PointersOwn, OwnersPoint, BitsMatch, OthersSame, Taken, Splice, Bytes, Grew;
      var bn := (off + tot) / BSIZE;
      ghost var r := State();
      addr := Bmap(i, bn);
      ghost var t := State();
      hide Covers;
      BytesFrame(s.inodes[i], s.blocks, r.inodes[i], r.blocks, t.inodes[i], t.blocks, off, src, tot);
      if addr == 0 {
        NothingSpilt(t, i, off, |src|, tot, readable);
        return 0, addr;
      }
      m := Min(|src| - tot, BSIZE - (off + tot) % BSIZE);
      var z := if tot + m > readable then readable - tot else m;
      if z <= 0 {
        NoSpill(t, i, off, |src|, tot, readable);
        return 0, addr;
      }
      PieceCopied(s, t, i, off, src, tot, z);
      blocks := blocks[addr := Splice(blocks[addr], (off + tot) % BSIZE, src[tot..tot + z])];
      OthersTransitive(r, t, State(), i);
      GrewSame(r, t, State(), i, bn, bn + 1);
      TakenSame(bmapstart, r, t, State(), i);
      CoversOne(t, State(), addr);
      CoversAdds(r, t, State(), Taken(bmapstart, r, t, i), {addr as nat});
      if z < m {
        m := 0;
        return;
      }
      ghost var some, mid := logged, panicked;
      LogWrite(addr);
      WatchOn(old(panicked), mid, panicked, some, logged);
    }

    /** The same turn, as part of the loop that began in state `s`. */
    method CopyNext(i: nat, src: seq<Byte>, off: nat, tot: nat, readable: nat, ghost s: Fs) returns (m: nat)
      requires Copying(bmapstart, s, State(), i, off, src, tot) && tot < |src| && off + |src| <= MAXFILE * BSIZE
      requires CopyLogs(bmapstart, s, State(), i, off, tot) <= logged
      modifies `used, `blocks, `inodes, `owner, `logged, `panicked
      ensures Watch(old(panicked), panicked, logged) && tot + m <= |src| && (m > 0 ==> tot + m <= readable)
      ensures if m > 0 then Copying(bmapstart, s, State(), i, off, src, tot + m)
              else
                Copied(bmapstart, s, State(), i, off, src, tot, readable) &&
                Stopped(State(), i, off, |src|, tot, readable)
      ensures |s.inodes| == |inodes|
      ensures var logs := CopyLogs(bmapstart, s, State(), i, off, tot + m);
              logged == old(logged) + logs && CopyLogs(bmapstart, s, old(State()), i, off, tot) <= logs
    {
      hide AddrAt, ByteAt, PointersOwn, OwnersPoint, BitsMatch, OthersSame, Taken, Bytes, Grew, Covers, Copied;
      hide Stopped, CopyLogs, Watch;
      ghost var u := State();
      var addr;
      m, addr := CopyIn(i, src, off, tot, readable, s);
      CopyingOn(bmapstart, s, u, State(), i, off, src, tot, m, addr, readable);
      if m == 0 {
        StoppedHere(State(), i, off, |src|, tot, readable);
      }
    }

    /** The loop of writei(): copies blocks until `src` or the disk is used up, or the source is not readable. */
    method CopyAll(i: nat, src: seq<Byte>, off: nat, readable: nat) returns (tot: nat)
      requires Owned(State()) && i < |inodes| && off + |src| <= MAXFILE * BSIZE
      modifies `used, `blocks, `inodes, `owner, `logged, `panicked
      ensures Watch(old(panicked), panicked, logged)
      ensures Copied(bmapstart, old(State()), State(), i, off, src, tot, readable)
      ensures tot <= |src| && tot <= readable && (tot < |src| ==> Stopped(State(), i, off, |src|, tot, readable))
      ensures logged == old(logged) + CopyLogs(bmapstart, old(State()), State(), i, off, tot)
    {
      hide Owned, Copied, Copying, Stopped, CopyLogs, Watch;
      ghost var s := State();
      CopyingStarts(bmapstart, s, i, off, src);
      WatchStart(panicked, logged);
      tot := 0;
      while tot < |src|
        invariant tot <= |src| && tot <= readable && |inodes| == |s.inodes|
        invariant Copying(bmapstart, s, State(), i, off, src, tot)
        invariant Watch(old(panicked), panicked, logged)
        invariant logged == old(logged) + CopyLogs(bmapstart, s, State(), i, off, tot)
        decreases |src| - tot
      {
        ghost var some, mid := logged, panicked;
        var m := CopyNext(i, src, off, tot, readable, s);
        WatchOn(old(panicked), mid, panicked, some, logged);
        if m == 0 {
          return;
        }
        tot := tot + m;
      }
      CopyingEnds(bmapstart, s, State(), i, off, src, readable);
    }

    /** Writes `src` at `off`; returns how many bytes were written, or -1 for an offset past the end of
        the file, a 32-bit overflow or a file that would grow too large. `readable` bytes of `src` can be
        copied in; a copy that fails can leave a block changed that is not logged. */
    method Writei(i: nat, src: seq<Byte>, off: Word, readable: nat) returns (r: int)
      requires Sound() && i < |inodes| && |src| < 0x1_0000_0000
      modifies `used, `blocks, `inodes, `ondisk, `owner, `logged, `panicked
      ensures Sound() && OthersSame(old(State()), State(), i) && |inodes| == |old(inodes)| && |used| == |old(used)|
      ensures inodes[i].typ == old(inodes[i].typ) && inodes[i].nlink == old(inodes[i].nlink)
      ensures r == -1 <==>
              off > old(inodes[i].size) || (off + |src|) % 0x1_0000_0000 < off ||
              off + |src| > MAXFILE * BSIZE
      ensures r == -1 ==> State() == old(State()) && logged == old(logged) && panicked == old(panicked)
      ensures r != -1 ==>
              0 <= r <= |src| &&
              Content(inodes[i], blocks) == Spilled(old(Content(inodes[i], blocks)), off, src, r,
                                                    Spill(State(), i, off, |src|, r, readable))
      ensures r != -1 ==> r <= readable && AtBlock(off, |src|, r)
      ensures 0 <= r < |src| ==> Stopped(State(), i, off, |src|, r, readable)
      ensures r != -1 ==>
              Grew(old(State()), State(), i, off / BSIZE, off / BSIZE + Span(off, Min(r + 1, |src|))) &&
              Reached(inodes[i], blocks, off, r)
      ensures r != -1 ==>
              (panicked <==>
               old(panicked) || |old(logged) + CopyLogs(bmapstart, old(State()), State(), i, off, r)| >= LOGBLOCKS)
      ensures r != -1 ==> var logs := WriteLogs(bmapstart, IBlock(i), old(State()), State(), i, off, r);
                          && logged == old(logged) + logs
                          && Covers(old(State()), State(), logs + SpillBlock(State(), i, off, |src|, r, readable))
      ensures old(AllMapped(State())) ==> AllMapped(State()) && |logged - old(logged)| <= WriteCost(off, |src|)
    {
      hide AddrAt, ByteAt, PointersOwn, OwnersPoint, BitsMatch, OthersSame, Mapped, Content, Spilled, Taken, Bytes;
      hide Grew, Slots, Covers, Spill, SpillBlock;
      hide Span, Stopped, Reached, LaidOut, AllMapped, WriteCost, CopyLogs;
      ghost var s := State();
      if off > inodes[i].size || (off + |src|) % 0x1_0000_0000 < off {
        OthersReflexive(s, i);
        return -1;
      }
      if off + |src| > MAXFILE * BSIZE {
        OthersReflexive(s, i);
        return -1;
      }
      var tot := CopyAll(i, src, off, readable);
      ghost var u := State();
      WriteDone(bmapstart, IBlock(i), s, u, i, off, src, tot, readable);
      if off + tot > inodes[i].size {
        inodes := inodes[i := Resized(inodes[i], off + tot)];
      }
      assert State() == Ended(u, i, off + tot);
      GrewSizes(s, u, i, off / BSIZE, off / BSIZE + Span(off, Min(tot + 1, |src|)));
      OthersInodes(s, State(), i);
      Iupdate(i);
      LogsAdded(old(logged), WriteLogs(bmapstart, IBlock(i), s, State(), i, off, tot));
      return tot;
    }

    /** The part of the file that a read of `n` bytes at `off` is to deliver. */
    ghost function Wanted(i: nat, off: Word, n: Word): seq<Byte>
      requires i < |inodes|
      reads this
    {
      if off > inodes[i].size || (off + n) % 0x1_0000_0000 < off then []
      else Content(inodes[i], blocks)[off..Min(off + n, inodes[i].size)]
    }

    /** Reads up to `n` bytes at `off`, without allocating anything: exactly the part of the file in range, or
        -1 when that is more than the `writable` bytes that can be copied out. `out` is what has been copied
        out by then. */
    method Readi(i: nat, off: Word, n: Word, writable: nat) returns (r: int, out: seq<Byte>)
      requires Valid() && i < |inodes|
      modifies `used, `blocks, `inodes, `ondisk, `owner, `logged, `panicked
      ensures Valid() && State() == old(State()) && ondisk == old(ondisk)
      ensures logged == old(logged) && panicked == old(panicked)
      ensures r == if |Wanted(i, off, n)| <= writable then |Wanted(i, off, n)| else -1
      ensures out <= Wanted(i, off, n) && |out| <= writable && (r >= 0 ==> |out| == r)
    {
      hide AddrAt, ByteAt, PointersOwn, OwnersPoint, BitsMatch, OthersSame, LaidOut, Taken, Grew, Covers;
      if off > inodes[i].size || (off + n) % 0x1_0000_0000 < off {
        return 0, [];
      }
      var len := Min(n, inodes[i].size - off);
      ghost var c := Content(inodes[i], blocks);
      out := [];
      var tot := 0;
      while tot < len
        invariant 0 <= tot <= len && tot <= writable && out == c[off..off + tot]
        invariant State() == old(State()) && ondisk == old(ondisk)
        invariant logged == old(logged) && panicked == old(panicked)
      {
        var at := off + tot;
        assert Mapped(inodes[i], blocks) && at / BSIZE * BSIZE < inodes[i].size;
        assert AddrAt(inodes[i], blocks, at / BSIZE) != 0;
        Unshared(State(), i, at / BSIZE);
        var addr := Bmap(i, at / BSIZE);
        if addr == 0 {
          break;
        }
        var m := Min(len - tot, BSIZE - at % BSIZE);
        if tot + m > writable {
          return -1, out;
        }
        BlockSlice(inodes[i], blocks, at, m);
        out := out + blocks[addr][at % BSIZE..at % BSIZE + m];
        tot := tot + m;
      }
      r := tot;
    }

    /** The first loop of itrunc(): frees the direct blocks. */
    method FreeDirect(i: nat)
      requires Owned(State()) && i < |inodes|
      modifies `used, `inodes, `owner, `logged, `panicked
      ensures Owned(State()) && |used| == |old(used)| && |inodes| == |old(inodes)| &&
              OthersSame(old(State()), State(), i)
      ensures inodes[i] == WithAddrs(old(inodes[i]), inodes[i].addrs)
      ensures forall j | 0 <= j < NDIRECT :: inodes[i].addrs[j] == 0
    {
      hide AddrAt, ByteAt, PointersOwn, OwnersPoint, BitsMatch, OthersSame;
      ghost var s := State();
      OthersReflexive(s, i);
      var idx := 0;
      while idx < NDIRECT
        invariant 0 <= idx <= NDIRECT
        invariant Owned(State()) && |used| == |old(used)| && |inodes| == |old(inodes)| && OthersSame(s, State(), i)
        invariant inodes[i] == WithAddrs(s.inodes[i], inodes[i].addrs)
        invariant forall j | 0 <= j < idx :: inodes[i].addrs[j] == 0
      {
        var a := inodes[i].addrs[idx];
        if a != 0 {
          ghost var t := State();
          DetachDirectKeeps(t, i, idx);
          Bfree(a);
          inodes := inodes[i := WithAddr(inodes[i], idx, 0)];
          owner := owner - {a};
          assert State() == DetachPointer(t, i, idx);
          OthersTransitive(s, t, State(), i);
        }
        idx := idx + 1;
      }
    }

    /** The second loop of itrunc(): frees the blocks in the indirect block, then the indirect block. */
    method FreeIndirect(i: nat)
      requires Owned(State()) && i < |inodes| && inodes[i].addrs[NDIRECT] != 0
      modifies `used, `inodes, `owner, `logged, `panicked
      ensures Owned(State()) && |used| == |old(used)| && |inodes| == |old(inodes)| &&
              OthersSame(old(State()), State(), i)
      ensures inodes[i] == WithAddr(old(inodes[i]), NDIRECT, 0)
    {
      hide ByteAt, PointersOwn, OwnersPoint, BitsMatch, OthersSame, LoadWord;
      ghost var s := State();
      var ind := inodes[i].addrs[NDIRECT];
      IndirectUnshared(s, i);
      NothingStale(s, i);
      var j := 0;
      while j < WORDS
        invariant 0 <= j <= WORDS
        invariant OwnedExcept(State(), i, j) && |used| == |old(used)| && inodes == old(inodes)
      {
        FreeEntryKeeps(State(), i, j);
        var a := LoadWord(blocks[ind], j);
        assert a == AddrAt(inodes[i], blocks, NDIRECT + j);
        if a != 0 {
          ghost var t := State();
          Bfree(a);
          owner := owner - {a};
          assert State() == FreeEntry(t, a);
        }
        j := j + 1;
      }
      ghost var t := State();
      DetachIndirectKeeps(t, i);
      Bfree(ind);
      inodes := inodes[i := WithAddr(inodes[i], NDIRECT, 0)];
      owner := owner - {ind};
      assert State() == DetachPointer(t, i, NDIRECT);
      OthersUntouched(s, State(), i);
    }

    /** Discards the contents of inode `i`: every block it owned, and no other, becomes free. */
    method Itrunc(i: nat)
      requires Valid() && i < |inodes|
      modifies `used, `blocks, `inodes, `ondisk, `owner, `logged, `panicked
      ensures Valid() && |used| == |old(used)| && OthersSame(old(State()), State(), i)
      ensures inodes[i].typ == old(inodes[i].typ) && inodes[i].nlink == old(inodes[i].nlink)
      ensures inodes[i].size == 0 && forall j | 0 <= j <= NDIRECT :: inodes[i].addrs[j] == 0
      ensures forall b | 0 <= b < |used| :: used[b] <==> old(used)[b] && !(b in old(owner) && old(owner)[b].inum == i)
    {
      hide AddrAt, ByteAt, PointersOwn, OwnersPoint, BitsMatch, OthersSame;
      ghost var s := State();
      FreeDirect(i);
      ghost var t := State();
      if inodes[i].addrs[NDIRECT] != 0 {
        FreeIndirect(i);
        OthersTransitive(s, t, State(), i);
      }
      ghost var u := State();
      ResizeKeeps(u, i, 0);
      inodes := inodes[i := Resized(inodes[i], 0)];
      assert State() == WithInode(u, i, Resized(u.inodes[i], 0));
      OthersTransitive(s, u, State(), i);
      NoAddrs(inodes[i], blocks);
      TruncatedOwners(s, State(), i);
      OthersMapped(s, State(), i);
      Iupdate(i);
    }

    /** Drops a reference. The inode and its blocks are freed exactly when it was the last reference to
        a loaded inode that has no links. */
    method Iput(i: nat)
      requires Valid() && i < |inodes| == |ref| == |valid| && ref[i] > 0
      modifies this
      ensures Valid() && |used| == |old(used)| && OthersSame(old(State()), State(), i)
      ensures ref == old(ref)[i := old(ref)[i] - 1]
      ensures if old(ref)[i] == 1 && old(valid)[i] && old(inodes[i]).nlink == 0
              then && valid == old(valid)[i := false]
                   && inodes[i] == Inode(0, 0, 0, inodes[i].addrs)
                   && (forall j | 0 <= j <= NDIRECT :: inodes[i].addrs[j] == 0)
                   && (forall b | 0 <= b < |used| ::
                       used[b] <==> old(used)[b] && !(b in old(owner) && old(owner)[b].inum == i))
              else State() == old(State()) && valid == old(valid) && logged == old(logged)
    {
      hide AddrAt, ByteAt, PointersOwn, OwnersPoint, BitsMatch, OthersSame;
      ghost var s := State();
      OthersReflexive(s, i);
      if ref[i] == 1 && valid[i] && inodes[i].nlink == 0 {
        Itrunc(i);
        ghost var t := State();
        OthersCount(s, t, i);
        RetypeKeeps(t, i, 0);
        inodes := inodes[i := Retyped(inodes[i], 0)];
        assert State() == WithInode(t, i, Retyped(t.inodes[i], 0));
        OthersTransitive(s, t, State(), i);
        Iupdate(i);
        valid := valid[i := false];
      }
      ref := ref[i := ref[i] - 1];
    }

    /** The block that holds byte `x` of a file, if `q` bytes have been spilt there. */
    ghost function Smeared(i: nat, x: nat, q: nat): set<nat>
      requires i < |inodes|
      reads this
    {
      if q > 0 then {AddrAt(inodes[i], blocks, x / BSIZE) as nat} else {}
    }

    /** One turn of filewrite()'s loop: a transaction that writes the next chunk of `src`. */
    method WriteChunk(i: nat, src: seq<Byte>, off: Word, k: nat, readable: nat, ghost c: seq<Byte>)
      returns (n1: nat, r: int, ghost q: nat)
      requires Sound() && i < |inodes| && k < |src| < 0x8000_0000 && off + k < 0x1_0000_0000
      requires Content(inodes[i], blocks) == Sofar(c, off, src, k, 0) && (off > |c| ==> k == 0)
      modifies `used, `blocks, `inodes, `ondisk, `owner, `logged, `panicked
      ensures Sound() && OthersSame(old(State()), State(), i) && |inodes| == |old(inodes)| && |used| == |old(used)|
      ensures n1 == Min(|src| - k, CHUNK) && -1 <= r <= n1
      ensures q == if r < 0 then 0 else Spill(State(), i, off + k, n1, r, Max(readable - k, 0))
      ensures k + Max(r, 0) + q <= |src| && Content(inodes[i], blocks) == Sofar(c, off, src, k + Max(r, 0), q)
      ensures r == -1 <==> off > |c| || off + k + n1 > MAXFILE * BSIZE
      ensures 0 <= r < n1 ==> Stopped(State(), i, off + k, n1, r, Max(readable - k, 0))
      ensures r == -1 ==> logged == {} && State() == old(State())
      ensures r >= 0 ==>
              Grew(old(State()), State(), i, (off + k) / BSIZE, (off + k) / BSIZE + Span(off + k, n1)) &&
              Reached(inodes[i], blocks, off + k, r)
      ensures r >= 0 ==> logged == WriteLogs(bmapstart, IBlock(i), old(State()), State(), i, off + k, r)
      ensures Logged(old(State()), State(), i, bmapstart, IBlock(i), logged + Smeared(i, off + k + Max(r, 0), q))
      ensures old(AllMapped(State())) ==>
              AllMapped(State()) && |logged| <= MAXOPBLOCKS && panicked == old(panicked)
    {
      hide AddrAt, ByteAt, PointersOwn, OwnersPoint, BitsMatch, OthersSame, Mapped, Written, Owned, AllMapped;
      hide WriteCost, Sofar, LaidOut;
      hide Stopped, Reached, Grew, WriteLogs, CopyLogs, Span, Covers, Spill, Logged, Spilled, Content;
      n1 := Min(|src| - k, CHUNK);
      SofarLong(c, off, src, k);
      ContentSize(inodes[i], blocks);
      logged := {};
      ghost var s := State();
      r := Writei(i, src[k..k + n1], off + k, Max(readable - k, 0));
      if r >= 0 {
        q := Spill(State(), i, off + k, n1, r, Max(readable - k, 0));
        ChunkDone(bmapstart, IBlock(i), s, State(), i, off, src, k, n1, r, q, c,
                  SpillBlock(State(), i, off + k, n1, r, Max(readable - k, 0)));
        assert logged - {} == logged;
      } else {
        q := 0;
        NoneLogged(State(), i, bmapstart, IBlock(i));
        assert logged + Smeared(i, off + k, q) == {};
      }
    }

    /** A chunk can log MAXOPBLOCKS blocks: from every state in which the file ends inside its last direct
        block and the four lowest free blocks have their bits in four different free-map blocks, writing a
        full chunk at the end of the file logs exactly that many. */
    method TightChunk(i: nat, src: seq<Byte>, ghost f: seq<nat>) returns (r: int)
      requires Valid() && i < |inodes| && inodes[i].size == LAST * BSIZE + 1 && inodes[i].addrs[NDIRECT] == 0
      requires FirstFree(used, f) && SpreadOut(f) && |f| == 4 && |src| == CHUNK
      modifies `used, `blocks, `inodes, `ondisk, `owner, `logged, `panicked
      ensures Valid() && r == CHUNK && |logged| == MAXOPBLOCKS
    {
      hide AddrAt, Owned, FirstFree, SpreadOut;
      LastMapped(State(), i);
      r := FullChunk(i, src, f);
    }

    /** And it stays within that bound only because files are mapped up to their size: from every state that
        is sound but for the file's last block being missing, with five such free blocks, the same write
        logs one block more. */
    method UnmappedChunk(i: nat, src: seq<Byte>, ghost f: seq<nat>) returns (r: int)
      requires Sound() && i < |inodes| && inodes[i].size == LAST * BSIZE + 1 && inodes[i].addrs[NDIRECT] == 0 &&
               inodes[i].addrs[LAST] == 0
      requires FirstFree(used, f) && SpreadOut(f) && |f| == 5 && |src| == CHUNK
      modifies `used, `blocks, `inodes, `ondisk, `owner, `logged, `panicked
      ensures Sound() && r == CHUNK && |logged| == MAXOPBLOCKS + 1
    {
      hide AddrAt, PointersOwn, FirstFree, SpreadOut;
      PointerAt(inodes[i], blocks, LAST);
      r := FullChunk(i, src, f);
    }

    method FullChunk(i: nat, src: seq<Byte>, ghost f: seq<nat>) returns (r: int)
      requires Sound() && i < |inodes| && inodes[i].size == LAST * BSIZE + 1 && inodes[i].addrs[NDIRECT] == 0
      requires FirstFree(used, f) && SpreadOut(f) && |f| == Needs(AddrAt(inodes[i], blocks, LAST) != 0) &&
               |src| == CHUNK
      modifies `used, `blocks, `inodes, `ondisk, `owner, `logged, `panicked
      ensures Sound() && r == CHUNK && |logged| == 6 + |f|
      ensures old(AllMapped(State())) ==> AllMapped(State())
    {
      hide AddrAt, ByteAt, PointersOwn, OwnersPoint, BitsMatch, OthersSame, AllMapped, Sofar, LaidOut, FirstFree;
      hide SpreadOut, Grew, WriteLogs, Covers;
      ghost var s := State();
      PointerAt(inodes[i], blocks, NDIRECT);
      MetaBlocks(inodestart, |inodes|, bmapstart, |used|, meta);
      SofarStarts(Content(inodes[i], blocks), LAST * BSIZE + 1, src);
      var n1;
      ghost var q;
      n1, r, q := WriteChunk(i, src, LAST * BSIZE + 1, 0, CHUNK, Content(inodes[i], blocks));
      assert Span(LAST * BSIZE + 1, CHUNK) == 4;
      if r < CHUNK {
        FullChunkRoom(s, State(), i, f, (LAST * BSIZE + 1 + r) / BSIZE);
        assert false;
      }
      FullChunkLogs(bmapstart, IBlock(i), s, State(), i, f);
    }

    /** The same turn, after transactions that logged `ops` and began in state `s`. */
    method NextChunk(i: nat, src: seq<Byte>, off: Word, k: nat, readable: nat, ghost s: Fs, ghost ops: seq<set<nat>>)
      returns (n1: nat, r: int, ghost q: nat, ghost smeared: set<nat>)
      requires Valid() && i < |inodes| && k < |src| < 0x8000_0000 && off + k < 0x1_0000_0000 && k == |ops| * CHUNK
      requires Chunks(bmapstart, IBlock(i), s, State(), i, off, src, k, 0, ops, {})
      modifies `used, `blocks, `inodes, `ondisk, `owner, `logged, `panicked
      ensures Valid() && panicked == old(panicked) && |inodes| == |old(inodes)| && -1 <= r <= n1 <= |src| - k
      ensures Chunks(bmapstart, IBlock(i), s, State(), i, off, src, k + Max(r, 0), q, ops + [logged], smeared)
      ensures smeared == Smeared(i, off + k + Max(r, 0), q)
      ensures r > 0 ==> off + k + r <= MAXFILE * BSIZE
      ensures q > 0 ==> 0 <= r < n1 && k + r + q == readable < |src|
      ensures r < n1 ==>
                off > s.inodes[i].size || off + |src| > MAXFILE * BSIZE || readable < |src| ||
                forall b | 0 <= b < |used| :: used[b]
      ensures if r == n1 && k + r < |src| then k + r == (|ops| + 1) * CHUNK
              else Turns(|src|, k + Max(r, 0), |ops| + 1)
    {
      hide AddrAt, ByteAt, PointersOwn, OwnersPoint, BitsMatch, OthersSame, Mapped, Owned, AllMapped, Sofar, LaidOut;
      hide Grew, WriteLogs, Logged, Union, Reached, Span, Stopped, Spill, Content, Chunks, Turns;
      ghost var t := State();
      ChunksMean(bmapstart, IBlock(i), s, t, i, off, src, k, 0, ops, {});
      ContentSize(s.inodes[i], s.blocks);
      n1, r, q := WriteChunk(i, src, off, k, readable, Content(s.inodes[i], s.blocks));
      smeared := Smeared(i, off + k + Max(r, 0), q);
      if 0 <= r < n1 {
        StoppedWhy(State(), i, off, |src|, k, r, readable);
      }
      TurnsStep(|src|, k, |ops|, r);
      SpillRead(State(), i, off, |src|, k, r, readable);
      ChunksOn(bmapstart, IBlock(i), s, t, State(), i, off, src, k, Max(r, 0), q, ops, logged, smeared);
    }

    /** Writes `src` to the file at `off`, a chunk per transaction. `w` bytes are written, `pos` is the
        new file offset, and `ops` holds the set of blocks each transaction logged. If `src` is not all readable,
        `q` more bytes, all that could be read, may be in the file, in a block that is not logged. */
    method Filewrite(i: nat, src: seq<Byte>, off: Word, readable: nat)
      returns (ret: int, pos: Word, ghost w: nat, ghost q: nat, ghost ops: seq<set<nat>>)
      requires Valid() && i < |inodes| && |src| < 0x8000_0000
      modifies `used, `blocks, `inodes, `ondisk, `owner, `logged, `panicked
      ensures Valid() && |used| == |old(used)| && OthersSame(old(State()), State(), i) && panicked == old(panicked)
      ensures w <= |src| && pos == off + w && ret == if w == |src| then |src| else -1
      ensures w > 0 ==> off <= old(inodes[i].size)
      ensures w + q <= |src| && (q > 0 ==> w + q == readable < |src|)
      ensures Content(inodes[i], blocks) == Sofar(old(Content(inodes[i], blocks)), off, src, w, q)
      ensures w < |src| ==>
                off > old(inodes[i].size) || off + |src| > MAXFILE * BSIZE || readable < |src| ||
                    forall b | 0 <= b < |used| :: used[b]
      ensures Turns(|src|, w, |ops|) && (forall k | 0 <= k < |ops| :: |ops[k]| <= MAXOPBLOCKS)
      ensures |inodes| == |old(inodes)| && (ops != [] ==> ops[|ops| - 1] == logged)
      ensures Logged(old(State()), State(), i, bmapstart, IBlock(i), Union(ops) + Smeared(i, off + w, q))
    {
      hide AddrAt, ByteAt, PointersOwn, OwnersPoint, BitsMatch, OthersSame, Mapped, Owned, AllMapped, Sofar, LaidOut;
      hide Grew, WriteLogs, Logged, Union, Reached, Span, Stopped, Spill, Smeared, Content, Chunks, Turns;
      ghost var s := State();
      TurnsNone();
      ContentSize(inodes[i], blocks);
      ChunksStart(bmapstart, IBlock(i), s, i, off, src);
      pos, w, q, ops := off, 0, 0, [];
      ghost var smeared: set<nat> := {};
      var k := 0;
      while k < |src|
        invariant k == w <= |src| && pos == off + w && q == 0 && smeared == {}
        invariant if k < |src| then k == |ops| * CHUNK else Turns(k, k, |ops|)
        invariant |inodes| == |s.inodes| && Valid() && panicked == old(panicked)
        invariant ops != [] ==> ops[|ops| - 1] == logged
        invariant Chunks(bmapstart, IBlock(i), s, State(), i, off, src, w, 0, ops, {})
      {
        var n1, r;
        n1, r, q, smeared := NextChunk(i, src, off, k, readable, s, ops);
        NotSmeared(i, off + k + Max(r, 0), q);
        ops := ops + [logged];
        if r > 0 {
          pos := pos + r;
          w := w + r;
        }
        if r != n1 {
          break;
        }
        k := k + r;
      }
      NotSmeared(i, off + w, q);
      ChunksMean(bmapstart, IBlock(i), s, State(), i, off, src, w, q, ops, smeared);
      ret := if k == |src| then |src| else -1;
    }

    lemma NotSmeared(i: nat, x: nat, q: nat)
      requires i < |inodes|
      ensures q == 0 ==> Smeared(i, x, q) == {}
    {
    }
  }
}
