/** What the read and write loops of kernel/fs.c do to a file's byte sequence, block by block. */
module FileWrites {
  import opened Common
  import opened Blocks
  import opened FsModel

  /** `c` with `data` written at `off`, which extends `c` when it runs past the end. */
  function Written(c: seq<Byte>, off: nat, data: seq<Byte>): seq<Byte>
    requires off <= |c|
  {
    c[..off] + data + if off + |data| < |c| then c[off + |data|..] else []
  }

  function Splice(b: Block, o: nat, data: seq<Byte>): (r: Block)
    requires o + |data| <= BSIZE
    ensures forall j | 0 <= j < BSIZE :: r[j] == if o <= j < o + |data| then data[j - o] else b[j]
  {
    b[..o] + data + b[o + |data|..]
  }

  function Min(a: int, b: int): int { if a < b then a else b }

  function Max(a: int, b: int): int { if a < b then b else a }

  /** The first `tot` bytes of `src` have been copied to offset `off` of a file; every other byte is as it was. */
  ghost predicate Bytes(n: Inode, b: seq<Block>, m: Inode, c: seq<Block>, off: nat, src: seq<Byte>, tot: nat) {
    && tot <= |src|
    && forall x {:trigger ByteAt(m, c, x)} ::
       ByteAt(m, c, x) == if off <= x < off + tot then src[x - off] else ByteAt(n, b, x)
  }

  lemma BytesStart(n: Inode, b: seq<Block>, off: nat, src: seq<Byte>)
    ensures Bytes(n, b, n, b, off, src, 0)
  {
    hide ByteAt;
  }

  /** Mapping a block changes no byte. */
  lemma BytesFrame(n: Inode, b: seq<Block>, m: Inode, c: seq<Block>, k: Inode, d: seq<Block>, off: nat, src: seq<Byte>,
                   tot: nat)
    requires Bytes(n, b, m, c, off, src, tot)
    requires forall x {:trigger ByteAt(k, d, x)} :: ByteAt(k, d, x) == ByteAt(m, c, x)
    ensures Bytes(n, b, k, d, off, src, tot)
  {
    hide ByteAt;
  }

  lemma BlockBytes(n: Inode, b: seq<Block>, k: nat)
    requires k < MAXFILE && 0 < AddrAt(n, b, k) < |b|
    ensures forall x {:trigger ByteAt(n, b, x)} | 0 <= x && x / BSIZE == k ::
            ByteAt(n, b, x) == b[AddrAt(n, b, k)][x % BSIZE]
  {
    hide AddrAt;
  }

  /** Copying the next piece into file block `k` makes progress by its length. */
  lemma BytesStep(n: Inode, b: seq<Block>, m: Inode, c: seq<Block>, d: seq<Block>, off: nat, src: seq<Byte>, tot: nat,
                  k: nat, z: nat)
    requires Bytes(n, b, m, c, off, src, tot) && tot < |src|
    requires k == (off + tot) / BSIZE && 0 < z <= Min(|src| - tot, BSIZE - (off + tot) % BSIZE)
    requires 0 < AddrAt(m, c, k) < |c|
    requires forall x {:trigger ByteAt(m, d, x)} :: ByteAt(m, d, x) ==
               if 0 <= x && x / BSIZE == k
                   then Splice(c[AddrAt(m, c, k)], (off + tot) % BSIZE, src[tot..tot + z])[x % BSIZE]
                   else ByteAt(m, c, x)
    requires forall x {:trigger ByteAt(m, c, x)} | 0 <= x && x / BSIZE == k ::
             ByteAt(m, c, x) == c[AddrAt(m, c, k)][x % BSIZE]
    ensures Bytes(n, b, m, d, off, src, tot + z)
  {
    hide AddrAt, ByteAt;
    var at := off + tot;
    forall x
      ensures ByteAt(m, d, x) == if off <= x < off + (tot + z) then src[x - off] else ByteAt(n, b, x)
    {
      if 0 <= x && x / BSIZE == k {
        assert x % BSIZE == x - k * BSIZE && at % BSIZE == at - k * BSIZE;
        if at <= x < at + z {
          assert src[tot..tot + z][x - at] == src[x - off];
        } else {
          assert ByteAt(m, c, x) == c[AddrAt(m, c, k)][x % BSIZE];
        }
      } else {
        assert x < at || at + z <= x;
        assert ByteAt(m, d, x) == ByteAt(m, c, x);
      }
    }
  }

  /** Within one block, the file's bytes are the block's bytes. */
  lemma BlockSlice(n: Inode, b: seq<Block>, at: nat, m: nat)
    requires at + m <= n.size && at % BSIZE + m <= BSIZE && at / BSIZE < MAXFILE
    requires 0 < AddrAt(n, b, at / BSIZE) < |b|
    ensures b[AddrAt(n, b, at / BSIZE)][at % BSIZE..at % BSIZE + m] == Content(n, b)[at..at + m]
  {
    hide AddrAt;
    var k := at / BSIZE;
    BlockBytes(n, b, k);
    var block, file := b[AddrAt(n, b, k)][at % BSIZE..at % BSIZE + m], Content(n, b)[at..at + m];
    forall j | 0 <= j < m
      ensures block[j] == file[j]
    {
      assert (at + j) / BSIZE == k && (at + j) % BSIZE == at % BSIZE + j;
      assert Content(n, b)[at + j] == ByteAt(n, b, at + j);
    }
  }

  /** One turn of the write loop on a mapped block, which copies `z` bytes: the rest of the block or of the data,
      or less if the data cannot all be read. */
  lemma PieceCopied(s: Fs, u: Fs, i: nat, off: nat, src: seq<Byte>, tot: nat, z: nat)
    requires Owned(u) && i < |s.inodes| && i < |u.inodes| && tot < |src| && off + |src| <= MAXFILE * BSIZE
    requires 0 < z <= Min(|src| - tot, BSIZE - (off + tot) % BSIZE)
    requires Bytes(s.inodes[i], s.blocks, u.inodes[i], u.blocks, off, src, tot)
    requires AddrAt(u.inodes[i], u.blocks, (off + tot) / BSIZE) != 0
    ensures var a := AddrAt(u.inodes[i], u.blocks, (off + tot) / BSIZE);
            && 0 < a < |u.blocks| && z <= |src| - tot && (off + tot) % BSIZE + z <= BSIZE
            && var t := WriteData(u, a, Splice(u.blocks[a], (off + tot) % BSIZE, src[tot..tot + z]));
            && Owned(t) && OthersSame(u, t, i) && Bytes(s.inodes[i], s.blocks, t.inodes[i], t.blocks, off, src, tot + z)
            && forall m {:trigger AddrAt(t.inodes[i], t.blocks, m)} ::
               AddrAt(t.inodes[i], t.blocks, m) == AddrAt(u.inodes[i], u.blocks, m)
  {
    hide AddrAt, ByteAt, PointersOwn, OwnersPoint, BitsMatch, OthersSame;
    var k := (off + tot) / BSIZE;
    var a := AddrAt(u.inodes[i], u.blocks, k);
    Unshared(u, i, k);
    var block := Splice(u.blocks[a], (off + tot) % BSIZE, src[tot..tot + z]);
    WriteDataKeeps(u, i, k, block);
    BlockBytes(u.inodes[i], u.blocks, k);
    hide Bytes;
    BytesStep(s.inodes[i], s.blocks, u.inodes[i], u.blocks, u.blocks[a := block], off, src, tot, k, z);
  }

  function Resized(n: Inode, size: nat): Inode {
    Inode(n.typ, n.nlink, size, n.addrs)
  }

  lemma ResizedSame(n: Inode, b: seq<Block>, size: nat)
    ensures forall k {:trigger AddrAt(Resized(n, size), b, k)} :: AddrAt(Resized(n, size), b, k) == AddrAt(n, b, k)
    ensures forall x {:trigger ByteAt(Resized(n, size), b, x)} :: ByteAt(Resized(n, size), b, x) == ByteAt(n, b, x)
  {
    hide LoadWord;
  }

  /** `c` with `r` bytes of `src` written at `off`, and `q` more that do not make it longer. */
  function Spilled(c: seq<Byte>, off: nat, src: seq<Byte>, r: nat, q: nat): seq<Byte>
    requires off <= |c| && r + q <= |src|
  {
    Written(c, off, src[..r + q])[..Max(|c|, off + r)]
  }

  lemma SpilledNothing(c: seq<Byte>, off: nat, src: seq<Byte>, r: nat)
    requires off <= |c| && r <= |src|
    ensures Spilled(c, off, src, r, 0) == Written(c, off, src[..r])
  {
  }

  /** When the loop ends the file holds exactly what it held with the copied bytes written over it: `tot` that
      count, and `q` left by a copy that failed. */
  lemma BytesDone(n: Inode, b: seq<Block>, m: Inode, c: seq<Block>, off: nat, src: seq<Byte>, tot: nat, q: nat)
    requires Bytes(n, b, m, c, off, src, tot + q) && m.size == n.size && off <= n.size
    ensures Content(Resized(m, Max(m.size, off + tot)), c) == Spilled(Content(n, b), off, src, tot, q)
  {
    var k := Resized(m, Max(m.size, off + tot));
    ResizedSame(m, c, Max(m.size, off + tot));
    hide AddrAt, ByteAt;
    var w := Spilled(Content(n, b), off, src, tot, q);
    forall x | 0 <= x < |w|
      ensures Content(k, c)[x] == w[x]
    {
    }
  }

  function WithInode(s: Fs, i: nat, n: Inode): Fs
    requires i < |s.inodes|
  {
    Fs(s.meta, s.used, s.blocks, s.inodes[i := n], s.owner)
  }

  /** Setting a file's size changes no pointer and no other file. */
  lemma ResizeKeeps(s: Fs, i: nat, size: nat)
    requires Owned(s) && i < |s.inodes|
    ensures var t := WithInode(s, i, Resized(s.inodes[i], size));
            Owned(t) && OthersSame(s, t, i)
  {
    var t := WithInode(s, i, Resized(s.inodes[i], size));
    ResizedSame(s.inodes[i], s.blocks, size);
    hide AddrAt, ByteAt, PointersOwn, OwnersPoint, BitsMatch;
    SamePointersOwned(s, t);
    OthersUntouched(s, t, i);
  }

  lemma OthersMapped(s: Fs, t: Fs, i: nat)
    requires AllMapped(s) && OthersSame(s, t, i) && i < |t.inodes| && Mapped(t.inodes[i], t.blocks)
    ensures AllMapped(t)
    ensures forall j | 0 <= j < |s.inodes| && j != i :: t.inodes[j] == s.inodes[j]
  {
    hide AddrAt, ByteAt;
    forall j | 0 <= j < |t.inodes|
      ensures Mapped(t.inodes[j], t.blocks)
    {
      if j != i {
        assert SameFile(s.inodes[j], s.blocks, t.inodes[j], t.blocks);
      }
    }
  }

  /** The end of writei(): the file grows to cover what was copied. */
  lemma FinishWrite(s: Fs, u: Fs, i: nat, off: nat, src: seq<Byte>, tot: nat, q: nat)
    requires Owned(u) && OthersSame(s, u, i) && i < |s.inodes| && i < |u.inodes|
    requires u.inodes[i].size == s.inodes[i].size && off <= s.inodes[i].size
    requires Bytes(s.inodes[i], s.blocks, u.inodes[i], u.blocks, off, src, tot + q)
    ensures tot + q <= |src|
    ensures var v := WithInode(u, i, Resized(u.inodes[i], Max(u.inodes[i].size, off + tot)));
            && Owned(v) && OthersSame(s, v, i)
            && Content(v.inodes[i], v.blocks) == Spilled(Content(s.inodes[i], s.blocks), off, src, tot, q)
            && forall k {:trigger AddrAt(v.inodes[i], v.blocks, k)} ::
               AddrAt(v.inodes[i], v.blocks, k) == AddrAt(u.inodes[i], u.blocks, k)
  {
    hide AddrAt, ByteAt, PointersOwn, OwnersPoint, BitsMatch, OthersSame, Content, Spilled;
    var size := Max(u.inodes[i].size, off + tot);
    ResizeKeeps(u, i, size);
    ResizedSame(u.inodes[i], u.blocks, size);
    BytesDone(s.inodes[i], s.blocks, u.inodes[i], u.blocks, off, src, tot, q);
    hide Bytes;
    OthersTransitive(s, u, WithInode(u, i, Resized(u.inodes[i], size)), i);
  }

  /** Two adjoining writes are one write. */
  lemma WrittenAppend(c: seq<Byte>, off: nat, a: seq<Byte>, b: seq<Byte>)
    requires off <= |c|
    ensures off + |a| <= |Written(c, off, a)|
    ensures Written(Written(c, off, a), off + |a|, b) == Written(c, off, a + b)
  {
    var w := Written(c, off, a);
    assert w[..off + |a|] == c[..off] + a;
    if off + |a| + |b| < |c| {
      assert w[off + |a| + |b|..] == c[off + |a| + |b|..];
    }
    assert Written(w, off + |a|, b) == c[..off] + a + b + if off + |a| + |b| < |c| then c[off + |a| + |b|..] else [];
  }

  lemma WrittenNothing(c: seq<Byte>, off: nat)
    requires off <= |c|
    ensures Written(c, off, []) == c
  {
  }

  /** A file that held `c` once filewrite() has put `w` bytes of `src` at `off`, and a failing copy `q` more. */
  function Sofar(c: seq<Byte>, off: nat, src: seq<Byte>, w: nat, q: nat): seq<Byte>
    requires w + q <= |src|
  {
    if off <= |c| then Spilled(c, off, src, w, q) else c
  }

  lemma SofarStarts(c: seq<Byte>, off: nat, src: seq<Byte>)
    ensures Sofar(c, off, src, 0, 0) == c
  {
    if off <= |c| {
      SpilledNothing(c, off, src, 0);
      WrittenNothing(c, off);
    }
  }

  lemma SofarStep(c: seq<Byte>, off: nat, src: seq<Byte>, k: nat, n: nat, r: nat, q: nat)
    requires r + q <= n && k + n <= |src| && off <= |c| && off + k <= |Sofar(c, off, src, k, 0)|
    ensures Spilled(Sofar(c, off, src, k, 0), off + k, src[k..k + n], r, q) == Sofar(c, off, src, k + r, q)
  {
    SpilledNothing(c, off, src, k);
    WrittenAppend(c, off, src[..k], src[k..k + n][..r + q]);
    assert src[..k] + src[k..k + n][..r + q] == src[..k + r + q];
  }

  lemma SofarLong(c: seq<Byte>, off: nat, src: seq<Byte>, k: nat)
    requires k <= |src|
    ensures off <= |c| ==> off + k <= |Sofar(c, off, src, k, 0)|
    ensures off > |c| ==> Sofar(c, off, src, k, 0) == c
  {
  }

  function Retyped(n: Inode, typ: nat): Inode {
    Inode(typ, n.nlink, n.size, n.addrs)
  }

  lemma RetypedSame(n: Inode, b: seq<Block>, typ: nat)
    ensures forall k {:trigger AddrAt(Retyped(n, typ), b, k)} :: AddrAt(Retyped(n, typ), b, k) == AddrAt(n, b, k)
  {
  }

  /** The type of an inode plays no part in who owns its blocks. */
  lemma RetypeKeeps(s: Fs, i: nat, typ: nat)
    requires Owned(s) && AllMapped(s) && i < |s.inodes|
    ensures var t := WithInode(s, i, Retyped(s.inodes[i], typ));
            Owned(t) && AllMapped(t) && OthersSame(s, t, i)
  {
    var t := WithInode(s, i, Retyped(s.inodes[i], typ));
    RetypedSame(s.inodes[i], s.blocks, typ);
    hide AddrAt, ByteAt, PointersOwn, OwnersPoint, BitsMatch;
    SamePointersOwned(s, t);
    OthersUntouched(s, t, i);
    OthersMapped(s, t, i);
  }
}
