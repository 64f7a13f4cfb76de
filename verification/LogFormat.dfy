/** The on-disk redo log of kernel/log.c: header encoding, the block writes that commit and
    recovery perform one at a time, and crash atomicity over every prefix of those writes. */
module LogFormat {
  import opened Common
  import opened Blocks

  type Disk = seq<Block>

  // ----- the header block: int n; int block[LOGBLOCKS] -----

  function StoreEntries(b: Block, lh: seq<Word>, k: nat): (r: Block)
    requires k <= |lh| <= LOGBLOCKS
    ensures LoadWord(r, 0) == LoadWord(b, 0)
    ensures forall j: nat | j < k :: LoadWord(r, j + 1) == lh[j]
  {
    if k == 0 then b else StoreWord(StoreEntries(b, lh, k - 1), k, lh[k - 1])
  }

  function EncodeHead(b: Block, lh: seq<Word>): Block
    requires |lh| <= LOGBLOCKS
  {
    StoreEntries(StoreWord(b, 0, |lh|), lh, |lh|)
  }

  function LoadEntries(b: Block, k: nat): (lh: seq<Word>)
    requires k <= LOGBLOCKS
    ensures |lh| == k
  {
    if k == 0 then [] else LoadEntries(b, k - 1) + [LoadWord(b, k)]
  }

  function DecodeHead(b: Block): seq<Word>
    requires LoadWord(b, 0) <= LOGBLOCKS
  {
    LoadEntries(b, LoadWord(b, 0))
  }

  predicate HeadIs(b: Block, lh: seq<Word>) {
    LoadWord(b, 0) <= LOGBLOCKS && DecodeHead(b) == lh
  }

  lemma {:induction false} LoadStored(b: Block, lh: seq<Word>, k: nat)
    requires k <= |lh| <= LOGBLOCKS
    requires forall j: nat | j < |lh| :: LoadWord(b, j + 1) == lh[j]
    ensures LoadEntries(b, k) == lh[..k]
  {
    if k > 0 {
      LoadStored(b, lh, k - 1);
    }
  }

  /** Whatever the header block held before, writing a header and reading it back gives the header. */
  lemma HeadRoundTrip(b: Block, lh: seq<Word>)
    requires |lh| <= LOGBLOCKS
    ensures HeadIs(EncodeHead(b, lh), lh)
  {
    assert LoadWord(EncodeHead(b, lh), 0) == |lh|;
    LoadStored(EncodeHead(b, lh), lh, |lh|);
  }

  // ----- well-formed disks -----

  /** Block `a` lies outside the log area: the header at `start` and LOGBLOCKS slots after it. */
  predicate Home(start: nat, a: nat) {
    a < start || start + LOGBLOCKS < a
  }

  predicate GoodHead(lh: seq<Word>, start: nat, size: nat) {
    && |lh| <= LOGBLOCKS
    && (forall i | 0 <= i < |lh| :: lh[i] < size && Home(start, lh[i]))
    && (forall i, j | 0 <= i < j < |lh| :: lh[i] != lh[j])
  }

  predicate GoodDisk(d: Disk, start: nat) {
    && start + LOGBLOCKS < |d|
    && LoadWord(d[start], 0) <= LOGBLOCKS
    && GoodHead(DecodeHead(d[start]), start, |d|)
  }

  predicate HomeEqual(start: nat, d: Disk, e: Disk) {
    && |d| == |e|
    && forall a | 0 <= a < |d| && Home(start, a) :: d[a] == e[a]
  }

  /** `d` with the blocks listed in `lh` taken from `view`. */
  function Overlay(d: Disk, lh: seq<Word>, view: Disk): (r: Disk)
    requires |view| == |d|
    ensures |r| == |d|
  {
    seq(|d|, a requires 0 <= a < |d| => if a in lh then view[a] else d[a])
  }

  /** Block `a` of `d` after the log slots listed by `lh` have been copied home. */
  ghost function ReplayAt(d: Disk, start: nat, lh: seq<Word>, a: nat): Block
    requires start + LOGBLOCKS < |d| && GoodHead(lh, start, |d|) && a < |d|
  {
    if i :| 0 <= i < |lh| && lh[i] == a then d[start + 1 + i] else d[a]
  }

  /** What block `a` holds once a completed recovery has replayed the log on `d`. */
  ghost function DurableAt(d: Disk, start: nat, a: nat): Block
    requires GoodDisk(d, start) && a < |d|
  {
    ReplayAt(d, start, DecodeHead(d[start]), a)
  }

  ghost function Durable(d: Disk, start: nat): (r: Disk)
    requires GoodDisk(d, start)
    ensures |r| == |d|
  {
    seq(|d|, a requires 0 <= a < |d| => DurableAt(d, start, a))
  }

  // ----- commit(): write_log, write_head, install_trans, write_head, one block write at a time -----

  /** The disk after the `k`-th block write of a commit: `lh` logged blocks with cached contents `view`. */
  function CommitWrite(d: Disk, start: nat, lh: seq<Word>, view: Disk, k: nat): (r: Disk)
    requires start + LOGBLOCKS < |d| == |view| && GoodHead(lh, start, |d|)
    requires k < 2 * |lh| + 2
    ensures |r| == |d|
  {
    var n := |lh|;
    if k < n then d[start + 1 + k := view[lh[k]]]
    else if k == n then d[start := EncodeHead(d[start], lh)]
    else if k <= 2 * n then d[lh[k - n - 1] := d[start + 1 + (k - n - 1)]]
    else d[start := EncodeHead(d[start], [])]
  }

  function CommitRun(d: Disk, start: nat, lh: seq<Word>, view: Disk, k: nat): (r: Disk)
    requires start + LOGBLOCKS < |d| == |view| && GoodHead(lh, start, |d|)
    requires k <= 2 * |lh| + 2
    ensures |r| == |d|
  {
    if k == 0 then d else CommitWrite(CommitRun(d, start, lh, view, k - 1), start, lh, view, k - 1)
  }

  /** All but the header of the disk `d` after `k` block writes of a commit that started on `d0`. */
  ghost predicate CommitBody(d0: Disk, start: nat, lh: seq<Word>, view: Disk, d: Disk, k: nat) {
    && start + LOGBLOCKS < |d0| == |d| == |view|
    && GoodHead(lh, start, |d|)
    && k <= 2 * |lh| + 2
    && (forall i | 0 <= i < |lh| && i < k :: d[start + 1 + i] == view[lh[i]])
    && (forall i | 0 <= i < |lh| :: d[lh[i]] == if i + |lh| + 1 < k then view[lh[i]] else d0[lh[i]])
    && (forall a | 0 <= a < |d| && Home(start, a) && a !in lh :: d[a] == d0[a])
  }

  /** The disk `d` as it stands after `k` block writes of a commit that started on `d0`. */
  ghost predicate CommitPoint(d0: Disk, start: nat, lh: seq<Word>, view: Disk, d: Disk, k: nat) {
    && start + LOGBLOCKS < |d0| == |d| == |view|
    && GoodHead(lh, start, |d|)
    && CommitBody(d0, start, lh, view, d, k)
    && HeadIs(d[start], if |lh| < k < 2 * |lh| + 2 then lh else [])
  }

  lemma CommitStarts(d: Disk, start: nat, lh: seq<Word>, view: Disk)
    requires GoodDisk(d, start) && DecodeHead(d[start]) == []
    requires |view| == |d| && GoodHead(lh, start, |d|)
    ensures CommitPoint(d, start, lh, view, d, 0)
  {
  }

  lemma LogSlotStep(d0: Disk, start: nat, lh: seq<Word>, view: Disk, d: Disk, k: nat)
    requires CommitBody(d0, start, lh, view, d, k) && k < |lh|
    ensures CommitBody(d0, start, lh, view, d[start + 1 + k := view[lh[k]]], k + 1)
  {
  }

  lemma HeadStep(d0: Disk, start: nat, lh: seq<Word>, view: Disk, d: Disk, k: nat, head: Block)
    requires CommitBody(d0, start, lh, view, d, k) && (k == |lh| || k == 2 * |lh| + 1)
    ensures CommitBody(d0, start, lh, view, d[start := head], k + 1)
  {
  }

  lemma InstallStep(d0: Disk, start: nat, lh: seq<Word>, view: Disk, d: Disk, i: nat)
    requires CommitBody(d0, start, lh, view, d, i + |lh| + 1) && i < |lh|
    ensures CommitBody(d0, start, lh, view, d[lh[i] := d[start + 1 + i]], i + |lh| + 2)
  {
  }

  lemma CommitStep(d0: Disk, start: nat, lh: seq<Word>, view: Disk, d: Disk, k: nat)
    requires CommitPoint(d0, start, lh, view, d, k) && k < 2 * |lh| + 2
    ensures CommitPoint(d0, start, lh, view, CommitWrite(d, start, lh, view, k), k + 1)
  {
    hide EncodeHead, HeadIs, CommitBody;
    if k < |lh| {
      LogSlotStep(d0, start, lh, view, d, k);
    } else if k == |lh| {
      HeadRoundTrip(d[start], lh);
      HeadStep(d0, start, lh, view, d, k, EncodeHead(d[start], lh));
    } else if k <= 2 * |lh| {
      InstallStep(d0, start, lh, view, d, k - |lh| - 1);
    } else {
      HeadRoundTrip(d[start], []);
      HeadStep(d0, start, lh, view, d, k, EncodeHead(d[start], []));
    }
  }

  lemma {:induction false} CommitReaches(d: Disk, start: nat, lh: seq<Word>, view: Disk, k: nat)
    requires GoodDisk(d, start) && DecodeHead(d[start]) == []
    requires |view| == |d| && GoodHead(lh, start, |d|)
    requires k <= 2 * |lh| + 2
    ensures CommitPoint(d, start, lh, view, CommitRun(d, start, lh, view, k), k)
  {
    hide EncodeHead, GoodHead, CommitBody;
    if k == 0 {
      CommitStarts(d, start, lh, view);
    } else {
      CommitReaches(d, start, lh, view, k - 1);
      CommitStep(d, start, lh, view, CommitRun(d, start, lh, view, k - 1), k - 1);
    }
  }

  lemma CommitDurableAt(d0: Disk, start: nat, lh: seq<Word>, view: Disk, d: Disk, k: nat, a: nat)
    requires CommitBody(d0, start, lh, view, d, k)
    requires a < |d| && Home(start, a)
    ensures ReplayAt(d, start, if |lh| < k < 2 * |lh| + 2 then lh else [], a)
         == if k <= |lh| || a !in lh then d0[a] else view[a]
  {
    if a in lh {
      var i :| 0 <= i < |lh| && lh[i] == a;
      assert |lh| < k ==> d[start + 1 + i] == view[lh[i]];
    }
  }

  /** The durable contents jump from old to new at the header write, and at no other write. */
  lemma CommitDurable(d0: Disk, start: nat, lh: seq<Word>, view: Disk, d: Disk, k: nat)
    requires CommitPoint(d0, start, lh, view, d, k)
    ensures GoodDisk(d, start)
    ensures HomeEqual(start, Durable(d, start), if k <= |lh| then d0 else Overlay(d0, lh, view))
  {
    forall a | 0 <= a < |d| && Home(start, a)
      ensures DurableAt(d, start, a) == (if k <= |lh| || a !in lh then d0[a] else view[a])
    {
      CommitDurableAt(d0, start, lh, view, d, k, a);
    }
  }

  // ----- recover_from_log(): read_head, install_trans, write_head -----

  function RecoverWrite(d: Disk, start: nat, k: nat): (r: Disk)
    requires GoodDisk(d, start) && k <= |DecodeHead(d[start])|
    ensures |r| == |d|
  {
    var lh := DecodeHead(d[start]);
    if k < |lh| then d[lh[k] := d[start + 1 + k]] else d[start := EncodeHead(d[start], [])]
  }

  /** The disk after the first `k` block writes of a recovery that started on `d`. */
  function RecoverRun(d: Disk, start: nat, k: nat): (r: Disk)
    requires GoodDisk(d, start) && k <= |DecodeHead(d[start])| + 1
    ensures |r| == |d|
    ensures k <= |DecodeHead(d[start])| ==> r[start] == d[start]
  {
    if k == 0 then d else RecoverWrite(RecoverRun(d, start, k - 1), start, k - 1)
  }

  function Recover(d: Disk, start: nat): Disk
    requires GoodDisk(d, start)
  {
    RecoverRun(d, start, |DecodeHead(d[start])| + 1)
  }

  /** The disk `d` after `k` block writes of a recovery that started on `d0` with header `lh`. */
  ghost predicate RecoverPoint(d0: Disk, start: nat, lh: seq<Word>, d: Disk, k: nat) {
    && start + LOGBLOCKS < |d0| == |d|
    && GoodHead(lh, start, |d|)
    && k <= |lh| + 1
    && HeadIs(d[start], if k <= |lh| then lh else [])
    && (forall a | start < a <= start + LOGBLOCKS :: d[a] == d0[a])
    && (forall i | 0 <= i < |lh| && i < k :: d[lh[i]] == d0[start + 1 + i])
    && (forall i | 0 <= i < |lh| && k <= i :: d[lh[i]] == d0[lh[i]])
    && (forall a | 0 <= a < |d| && Home(start, a) && a !in lh :: d[a] == d0[a])
  }

  lemma ReplayEntry(d0: Disk, start: nat, lh: seq<Word>, d: Disk, k: nat, i: nat)
    requires RecoverPoint(d0, start, lh, d, k) && k < |lh| && i < |lh|
    ensures d[lh[k] := d[start + 1 + k]][lh[i]] == if i <= k then d0[start + 1 + i] else d0[lh[i]]
  {
    hide HeadIs;
  }

  lemma ReplayStep(d0: Disk, start: nat, lh: seq<Word>, d: Disk, k: nat)
    requires RecoverPoint(d0, start, lh, d, k) && k < |lh|
    ensures RecoverPoint(d0, start, lh, d[lh[k] := d[start + 1 + k]], k + 1)
  {
    hide HeadIs;
    var e := d[lh[k] := d[start + 1 + k]];
    forall i | 0 <= i < |lh|
      ensures e[lh[i]] == if i <= k then d0[start + 1 + i] else d0[lh[i]]
    {
      ReplayEntry(d0, start, lh, d, k, i);
    }
    assert lh[k] in lh && Home(start, lh[k]);
    hide GoodHead;
  }

  lemma ClearStep(d0: Disk, start: nat, lh: seq<Word>, d: Disk, head: Block)
    requires RecoverPoint(d0, start, lh, d, |lh|) && HeadIs(head, [])
    ensures RecoverPoint(d0, start, lh, d[start := head], |lh| + 1)
  {
  }

  lemma RecoverStep(d0: Disk, start: nat, lh: seq<Word>, d: Disk, k: nat)
    requires RecoverPoint(d0, start, lh, d, k) && k <= |lh|
    ensures GoodDisk(d, start)
    ensures RecoverPoint(d0, start, lh, RecoverWrite(d, start, k), k + 1)
  {
    hide EncodeHead;
    if k < |lh| {
      ReplayStep(d0, start, lh, d, k);
    } else {
      HeadRoundTrip(d[start], []);
      ClearStep(d0, start, lh, d, EncodeHead(d[start], []));
    }
  }

  lemma {:induction false} RecoverReaches(d: Disk, start: nat, k: nat)
    requires GoodDisk(d, start) && k <= |DecodeHead(d[start])| + 1
    ensures RecoverPoint(d, start, DecodeHead(d[start]), RecoverRun(d, start, k), k)
  {
    if k > 0 {
      RecoverReaches(d, start, k - 1);
      RecoverStep(d, start, DecodeHead(d[start]), RecoverRun(d, start, k - 1), k - 1);
    }
  }

  lemma RecoverDurableAt(d0: Disk, start: nat, lh: seq<Word>, d: Disk, k: nat, a: nat)
    requires RecoverPoint(d0, start, lh, d, k)
    requires a < |d| && Home(start, a)
    ensures ReplayAt(d, start, if k <= |lh| then lh else [], a) == ReplayAt(d0, start, lh, a)
  {
    if a in lh {
      var i :| 0 <= i < |lh| && lh[i] == a;
      assert d[start + 1 + i] == d0[start + 1 + i];
    }
  }

  /** Interrupting recovery after any number of its writes does not change what is durable. */
  lemma RecoverPrefix(d: Disk, start: nat, k: nat)
    requires GoodDisk(d, start) && k <= |DecodeHead(d[start])| + 1
    ensures var e := RecoverRun(d, start, k);
            && GoodDisk(e, start)
            && HomeEqual(start, Durable(e, start), Durable(d, start))
            && (k == |DecodeHead(d[start])| + 1 ==>
                DecodeHead(e[start]) == [] && HomeEqual(start, e, Durable(d, start)))
  {
    var e := RecoverRun(d, start, k);
    RecoverReaches(d, start, k);
    forall a | 0 <= a < |d| && Home(start, a)
      ensures DurableAt(e, start, a) == DurableAt(d, start, a)
      ensures k == |DecodeHead(d[start])| + 1 ==> e[a] == DurableAt(d, start, a)
    {
      RecoverDurableAt(d, start, DecodeHead(d[start]), e, k, a);
    }
  }

  /** A series of recoveries, the i-th cut off by a crash after `cuts[i]` of its writes. */
  function CrashedRecoveries(d: Disk, start: nat, cuts: seq<nat>): (r: Disk)
    requires GoodDisk(d, start)
    ensures GoodDisk(r, start)
    decreases |cuts|
  {
    if cuts == [] then d
    else
      var all := |DecodeHead(d[start])| + 1;
      var k := if cuts[0] < all then cuts[0] else all;
      RecoverPrefix(d, start, k);
      CrashedRecoveries(RecoverRun(d, start, k), start, cuts[1..])
  }

  lemma {:induction false} CrashedRecoveriesKeepDurable(d: Disk, start: nat, cuts: seq<nat>)
    requires GoodDisk(d, start)
    ensures HomeEqual(start, Durable(CrashedRecoveries(d, start, cuts), start), Durable(d, start))
    decreases |cuts|
  {
    if cuts != [] {
      var all := |DecodeHead(d[start])| + 1;
      var k := if cuts[0] < all then cuts[0] else all;
      RecoverPrefix(d, start, k);
      CrashedRecoveriesKeepDurable(RecoverRun(d, start, k), start, cuts[1..]);
    }
  }

  /** A completed recovery, after any number of crashed ones, leaves exactly the durable
      contents on the home blocks and an empty log. */
  lemma RecoveryCompletes(d: Disk, start: nat, cuts: seq<nat>)
    requires GoodDisk(d, start)
    ensures var r := Recover(CrashedRecoveries(d, start, cuts), start);
            GoodDisk(r, start) && DecodeHead(r[start]) == [] && HomeEqual(start, r, Durable(d, start))
  {
    var c := CrashedRecoveries(d, start, cuts);
    CrashedRecoveriesKeepDurable(d, start, cuts);
    RecoverPrefix(c, start, |DecodeHead(c[start])| + 1);
  }

  /** Crash atomicity: crash a commit after any `k` of its block writes, then crash any number of
      recoveries anywhere; the recovery that completes leaves every home block old when the
      header write (write number |lh|) had not reached the disk, and every one new when it had. */
  lemma CrashAtomicity(d: Disk, start: nat, lh: seq<Word>, view: Disk, k: nat, cuts: seq<nat>)
    requires GoodDisk(d, start) && DecodeHead(d[start]) == []
    requires |view| == |d| && GoodHead(lh, start, |d|)
    requires k <= 2 * |lh| + 2
    ensures GoodDisk(CommitRun(d, start, lh, view, k), start)
    ensures var r := Recover(CrashedRecoveries(CommitRun(d, start, lh, view, k), start, cuts), start);
            HomeEqual(start, r, if k <= |lh| then d else Overlay(d, lh, view))
  {
    var crashed := CommitRun(d, start, lh, view, k);
    CommitReaches(d, start, lh, view, k);
    CommitDurable(d, start, lh, view, crashed, k);
    RecoveryCompletes(crashed, start, cuts);
  }
}
