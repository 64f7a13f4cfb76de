/** The in-memory half of kernel/log.c over a block cache: each loop of the source is a loop
    here, and is proved to put the disk through exactly the states of `LogFormat`. */
module LogDisk {
  import opened Common
  import opened Blocks
  import opened LogFormat

  /** The disk after install_trans() has copied the first `k` log slots home. */
  function Installed(d: Disk, start: nat, lh: seq<Word>, k: nat): (r: Disk)
    requires start + LOGBLOCKS < |d| && GoodHead(lh, start, |d|) && k <= |lh|
    ensures |r| == |d|
  {
    if k == 0 then d
    else
      var e := Installed(d, start, lh, k - 1);
      e[lh[k - 1] := e[start + k]]
  }

  // ----- the disk states passed through, oldest first -----

  ghost function InstallStates(d: Disk, start: nat, lh: seq<Word>, k: nat): (r: seq<Disk>)
    requires start + LOGBLOCKS < |d| && GoodHead(lh, start, |d|) && k <= |lh|
    ensures |r| == k && forall i | 0 <= i < k :: r[i] == Installed(d, start, lh, i + 1)
  {
    if k == 0 then [] else InstallStates(d, start, lh, k - 1) + [Installed(d, start, lh, k)]
  }

  ghost function CommitStates(d: Disk, start: nat, lh: seq<Word>, view: Disk, k: nat): (r: seq<Disk>)
    requires start + LOGBLOCKS < |d| == |view| && GoodHead(lh, start, |d|)
    requires k <= 2 * |lh| + 2
    ensures |r| == k && forall i | 0 <= i < k :: r[i] == CommitRun(d, start, lh, view, i + 1)
  {
    if k == 0 then [] else CommitStates(d, start, lh, view, k - 1) + [CommitRun(d, start, lh, view, k)]
  }

  ghost function RecoverStates(d: Disk, start: nat, k: nat): (r: seq<Disk>)
    requires GoodDisk(d, start) && k <= |DecodeHead(d[start])| + 1
    ensures |r| == k && forall i | 0 <= i < k :: r[i] == RecoverRun(d, start, i + 1)
  {
    if k == 0 then [] else RecoverStates(d, start, k - 1) + [RecoverRun(d, start, k)]
  }

  lemma CommitLogs(d: Disk, start: nat, lh: seq<Word>, view: Disk, k: nat)
    requires start + LOGBLOCKS < |d| == |view| && GoodHead(lh, start, |d|) && k < |lh|
    ensures var e := CommitRun(d, start, lh, view, k)[start + k + 1 := view[lh[k]]];
            && CommitRun(d, start, lh, view, k + 1) == e
            && CommitStates(d, start, lh, view, k + 1) == CommitStates(d, start, lh, view, k) + [e]
  {
    hide EncodeHead, GoodHead;
  }

  lemma CommitHeads(d: Disk, start: nat, lh: seq<Word>, view: Disk, clear: bool)
    requires start + LOGBLOCKS < |d| == |view| && GoodHead(lh, start, |d|)
    ensures var k := if clear then 2 * |lh| + 1 else |lh|;
            var before := CommitRun(d, start, lh, view, k);
            var e := before[start := EncodeHead(before[start], if clear then [] else lh)];
            && CommitRun(d, start, lh, view, k + 1) == e
            && CommitStates(d, start, lh, view, k + 1) == CommitStates(d, start, lh, view, k) + [e]
  {
    hide EncodeHead, GoodHead;
  }

  lemma {:induction false} CommitInstalls(d: Disk, start: nat, lh: seq<Word>, view: Disk, k: nat)
    requires start + LOGBLOCKS < |d| == |view| && GoodHead(lh, start, |d|) && k <= |lh|
    ensures CommitRun(d, start, lh, view, |lh| + 1 + k) ==
            Installed(CommitRun(d, start, lh, view, |lh| + 1), start, lh, k)
    ensures CommitStates(d, start, lh, view, |lh| + 1 + k)
         == CommitStates(d, start, lh, view, |lh| + 1) +
             InstallStates(CommitRun(d, start, lh, view, |lh| + 1), start, lh, k)
  {
    hide EncodeHead, GoodHead;
    if k > 0 {
      CommitInstalls(d, start, lh, view, k - 1);
    }
  }

  lemma {:induction false} RecoverInstalls(d: Disk, start: nat, k: nat)
    requires GoodDisk(d, start) && k <= |DecodeHead(d[start])|
    ensures RecoverRun(d, start, k) == Installed(d, start, DecodeHead(d[start]), k)
    ensures RecoverStates(d, start, k) == InstallStates(d, start, DecodeHead(d[start]), k)
  {
    hide EncodeHead;
    if k > 0 {
      RecoverInstalls(d, start, k - 1);
    }
  }

  /** The pins `p` without those of the first `k` blocks of `lh`. */
  function Unpinned(p: set<nat>, lh: seq<Word>, k: nat): (r: set<nat>)
    requires k <= |lh|
    ensures forall b :: b in r <==> b in p && forall i | 0 <= i < k :: lh[i] != b
  {
    if k == 0 then p else Unpinned(p, lh, k - 1) - {lh[k - 1]}
  }

  lemma EmptyHeadGood(start: nat, size: nat)
    ensures GoodHead([], start, size)
  {
  }

  datatype LogWriteResult = Logged | PanicTooBig | PanicOutside

  class Log {
    const start: nat
    var disk: Disk
    var cache: map<nat, Block>    // buffers that hold a block, by block number
    var lh: seq<Word>             // log.lh.block[0 .. log.lh.n]
    var outstanding: nat
    var pinned: set<nat>          // blocks that are kept in the cache because they are logged
    ghost var history: seq<Disk>  // the disk after each block write so far

    ghost predicate Valid()
      reads this
    {
      && start + LOGBLOCKS < |disk|
      && (forall b | b in cache :: b < |disk|)
      && (forall b | b in cache && !Home(start, b) :: cache[b] == disk[b])
      && GoodHead(lh, start, |disk|)
    }

    /** The contents a reader of block `b` gets: its buffer if there is one, else the disk. */
    function ViewAt(b: nat): Block
      reads this
      requires b < |disk|
    {
      if b in cache then cache[b] else disk[b]
    }

    /** `view` is what every reader sees. */
    ghost predicate Shows(view: Disk)
      reads this
    {
      |view| == |disk| && forall b | 0 <= b < |disk| && Home(start, b) :: ViewAt(b) == view[b]
    }

    /** Only logged blocks may differ between their buffer and the disk. */
    ghost predicate Clean(dirty: seq<Word>)
      reads this
    {
      forall b | b in cache && b !in dirty :: b < |disk| && cache[b] == disk[b]
    }

    constructor (start: nat, disk: Disk)
      requires start + LOGBLOCKS < |disk|
      ensures Valid() && this.start == start && this.disk == disk && cache == map[] && lh == [] && outstanding == 0 &&
              pinned == {}
      ensures history == []
    {
      this.start, this.disk := start, disk;
      cache, lh, outstanding, pinned, history := map[], [], 0, {}, [];
    }

    method Bread(b: nat) returns (data: Block)
      requires Valid() && b < |disk|
      modifies `cache
      ensures Valid() && data == old(ViewAt(b))
      ensures cache == old(cache)[b := data]
    {
      data := if b in cache then cache[b] else disk[b];
      cache := cache[b := data];
    }

    method Bwrite(b: nat, data: Block)
      requires Valid() && b < |disk|
      modifies `cache, `disk, `history
      ensures Valid()
      ensures disk == old(disk)[b := data] && cache == old(cache)[b := data]
      ensures history == old(history) + [disk]
    {
      disk, cache := disk[b := data], cache[b := data];
      history := history + [disk];
    }

    method WriteHead()
      requires Valid()
      modifies `cache, `disk, `history
      ensures Valid()
      ensures disk == old(disk)[start := EncodeHead(old(disk)[start], lh)]
      ensures history == old(history) + [disk]
      ensures cache == old(cache)[start := disk[start]]
    {
      hide LoadWord;
      var buf := Bread(start);
      ghost var before := buf;
      buf := StoreWord(buf, 0, |lh|);
      var i := 0;
      while i < |lh|
        invariant 0 <= i <= |lh|
        invariant buf == StoreEntries(StoreWord(before, 0, |lh|), lh, i)
      {
        buf := StoreWord(buf, i + 1, lh[i]);
        i := i + 1;
      }
      Bwrite(start, buf);
    }

    method ReadHead()
      requires Valid() && GoodDisk(disk, start)
      modifies `cache, `lh
      ensures Valid() && lh == DecodeHead(disk[start])
      ensures cache == old(cache)[start := disk[start]]
    {
      var buf := Bread(start);
      var n := LoadWord(buf, 0);
      var entries: seq<Word> := [];
      var i := 0;
      while i < n
        invariant 0 <= i <= n
        invariant entries == LoadEntries(buf, i)
      {
        entries := entries + [LoadWord(buf, i + 1)];
        i := i + 1;
      }
      lh := entries;
    }

    /** Copies the cached contents of every logged block to its log slot. */
    method WriteLog(ghost view: Disk)
      requires Valid() && Shows(view) && Clean(lh)
      modifies `cache, `disk, `history
      ensures Valid() && Shows(view) && Clean(lh)
      ensures disk == CommitRun(old(disk), start, lh, view, |lh|)
      ensures history == old(history) + CommitStates(old(disk), start, lh, view, |lh|)
    {
      hide CommitWrite, LoadWord, Clean, GoodHead;
      assert |view| == |disk|;
      hide Shows;
      var tail := 0;
      while tail < |lh|
        invariant 0 <= tail <= |lh|
        invariant Valid() && Shows(view) && Clean(lh)
        invariant |disk| == |old(disk)| && disk == CommitRun(old(disk), start, lh, view, tail)
        invariant history == old(history) + CommitStates(old(disk), start, lh, view, tail)
      {
        LogOne(tail, view);
        CommitLogs(old(disk), start, lh, view, tail);
        tail := tail + 1;
      }
    }

    /** One turn of write_log()'s loop. */
    method LogOne(tail: nat, ghost view: Disk)
      requires Valid() && Shows(view) && Clean(lh) && tail < |lh|
      modifies `cache, `disk, `history
      ensures Valid() && Shows(view) && Clean(lh) && |disk| == |old(disk)|
      ensures disk == old(disk)[start + tail + 1 := view[lh[tail]]] && history == old(history) + [disk]
    {
      hide LoadWord;
      var to := Bread(start + tail + 1);
      var from := Bread(lh[tail]);
      Bwrite(start + tail + 1, from);
    }

    /** Copies every log slot to its home block, during a commit or a recovery; a commit also unpins the blocks. */
    method InstallTrans(recovering: bool)
      requires Valid() && Clean(lh)
      modifies `cache, `disk, `history, `pinned
      ensures Valid() && Clean([])
      ensures disk == Installed(old(disk), start, lh, |lh|)
      ensures history == old(history) + InstallStates(old(disk), start, lh, |lh|)
      ensures pinned == Unpinned(old(pinned), lh, if recovering then 0 else |lh|)
    {
      hide GoodHead, LoadWord, Clean;
      assert lh[0..] == lh && lh[|lh|..] == [];
      var tail := 0;
      while tail < |lh|
        invariant 0 <= tail <= |lh|
        invariant Valid()
        invariant |disk| == |old(disk)| && disk == Installed(old(disk), start, lh, tail)
        invariant history == old(history) + InstallStates(old(disk), start, lh, tail)
        invariant Clean(lh[tail..])
        invariant pinned == Unpinned(old(pinned), lh, if recovering then 0 else tail)
      {
        InstallOne(tail, recovering);
        tail := tail + 1;
      }
    }

    /** One turn of install_trans()'s loop. */
    method InstallOne(tail: nat, recovering: bool)
      requires Valid() && tail < |lh| && Clean(lh[tail..])
      modifies `cache, `disk, `history, `pinned
      ensures Valid() && Clean(lh[tail + 1..]) && |disk| == |old(disk)|
      ensures disk == old(disk)[lh[tail] := old(disk)[start + tail + 1]] && history == old(history) + [disk]
      ensures pinned == if recovering then old(pinned) else old(pinned) - {lh[tail]}
    {
      hide LoadWord;
      assert start + tail + 1 !in lh;
      var lbuf := Bread(start + tail + 1);
      var dbuf := Bread(lh[tail]);
      Bwrite(lh[tail], lbuf);
      if !recovering {
        pinned := pinned - {lh[tail]};
      }
    }

    /** Writes the transaction to the log, makes it durable, installs it and clears the log. */
    method Commit(ghost view: Disk)
      requires Valid() && Shows(view) && Clean(lh)
      modifies `cache, `disk, `history, `lh, `pinned
      ensures Valid() && Clean([]) && lh == [] && pinned == Unpinned(old(pinned), old(lh), |old(lh)|)
      ensures history == old(history) +
              (if old(lh) == [] then [] else CommitStates(old(disk), start, old(lh), view, 2 * |old(lh)| + 2))
      ensures disk == (if old(lh) == [] then old(disk)
              else CommitRun(old(disk), start, old(lh), view, 2 * |old(lh)| + 2))
    {
      hide CommitWrite, EncodeHead, Installed, GoodHead, LoadWord, Clean, Shows;
      if |lh| > 0 {
        ghost var d0 := disk;
        MakeDurable(view);
        InstallTrans(false);
        CommitInstalls(d0, start, lh, view, |lh|);
        ghost var entries := lh;
        ClearLog();
        CommitHeads(d0, start, entries, view, true);
      }
    }

    /** Forgets the transaction, in memory and then on disk. */
    method ClearLog()
      requires Valid() && Clean([])
      modifies `cache, `disk, `history, `lh
      ensures Valid() && Clean([]) && lh == []
      ensures disk == old(disk)[start := EncodeHead(old(disk)[start], [])] && history == old(history) + [disk]
    {
      hide EncodeHead, LoadWord;
      EmptyHeadGood(start, |disk|);
      lh := [];
      WriteHead();
    }

    /** The first half of commit(): the log slots, then the header. */
    method MakeDurable(ghost view: Disk)
      requires Valid() && Shows(view) && Clean(lh)
      modifies `cache, `disk, `history
      ensures Valid() && Clean(lh) && |disk| == |old(disk)| == |view|
      ensures history == old(history) + CommitStates(old(disk), start, lh, view, |lh| + 1)
      ensures disk == CommitRun(old(disk), start, lh, view, |lh| + 1)
    {
      hide CommitWrite, EncodeHead, GoodHead, LoadWord;
      WriteLog(view);
      WriteHead();
      CommitHeads(old(disk), start, lh, view, false);
    }

    /** Replays whatever transaction the on-disk header names. */
    method RecoverFromLog()
      requires Valid() && GoodDisk(disk, start) && Clean([])
      modifies `cache, `disk, `history, `lh, `pinned
      ensures Valid() && Clean([]) && lh == [] && pinned == old(pinned)
      ensures disk == Recover(old(disk), start)
      ensures history == old(history) + RecoverStates(old(disk), start, |DecodeHead(old(disk)[start])| + 1)
    {
      hide EncodeHead, LoadWord, GoodHead, HeadIs, StoreEntries, LoadEntries;
      ghost var d, entries := disk, DecodeHead(disk[start]);
      ReadHead();
      RecoverInstalls(d, start, |entries|);
      InstallTrans(true);
      ClearLog();
    }

    /** Records a modified block in the transaction, and pins its buffer, once per block (log absorption). */
    method LogWrite(b: Word) returns (r: LogWriteResult)
      requires Valid() && b < |disk| && Home(start, b)
      modifies `lh, `pinned
      ensures Valid()
      ensures r == if |old(lh)| >= LOGBLOCKS then PanicTooBig else if outstanding < 1 then PanicOutside else Logged
      ensures lh == if r.Logged? && b !in old(lh) then old(lh) + [b] else old(lh)
      ensures pinned == if r.Logged? && b !in old(lh) then old(pinned) + {b} else old(pinned)
    {
      if |lh| >= LOGBLOCKS {
        return PanicTooBig;
      }
      if outstanding < 1 {
        return PanicOutside;
      }
      var i := 0;
      while i < |lh|
        invariant 0 <= i <= |lh|
        invariant b !in lh[..i]
      {
        if lh[i] == b {
          break;
        }
        i := i + 1;
      }
      if i == |lh| {
        lh := lh + [b];
        pinned := pinned + {b};
      } else {
        lh := lh[i := b];
      }
      r := Logged;
    }
  }
}
