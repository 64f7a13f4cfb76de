/** The log and the buffer cache running together: every process step of kernel/log.c and
    kernel/bio.c at lock granularity, with a crash allowed between any two of them. */
module GroupCommit {
  import opened Common
  import opened Blocks
  import opened LogFormat

  /** A cache buffer. `key` is the block it is assigned to, `holder` the process inside its sleep lock. */
  datatype Buf = Buf(key: Option<nat>, valid: bool, data: Block, refcnt: nat, holder: Option<nat>)

  /** `disk`, `bufs`, `lh`, `outstanding` and `committing` are the kernel's own variables and `stage`
      counts the block writes of the commit in progress. The rest is bookkeeping for the proof:
      the processes referencing each buffer, the buffer pinned for each log entry, the blocks each
      active operation has logged, the buffers modified but not yet logged, and the disk and the
      cached contents at the moment the commit began. */
  datatype State = State(
    start: nat, disk: Disk, bufs: seq<Buf>, lh: seq<Word>, outstanding: nat, committing: bool, stage: nat,
    refs: seq<set<nat>>, pin: seq<nat>, ops: map<nat, set<nat>>, unlogged: set<nat>, base: Disk, snap: Disk)

  datatype Action =
    | BeginOp(p: nat)
    | EndOp(p: nat)
    | Hit(p: nat, i: nat)
    | Recycle(p: nat, i: nat, b: nat)
    | Lock(p: nat, i: nat)
    | Fill(p: nat, i: nat)
    | Modify(p: nat, i: nat, data: Block)
    | LogWrite(p: nat, i: nat)
    | Unlock(p: nat, i: nat)
    | Drop(p: nat, i: nat)
    | CommitBlock
    | CommitDone
    | Crash(cuts: seq<nat>)

  // ----- what a reader sees, and what a crash keeps -----

  ghost function ViewAt(s: State, a: nat): Block
    requires a < |s.disk|
  {
    if i :| 0 <= i < |s.bufs| && s.bufs[i].key == Some(a) && s.bufs[i].valid then s.bufs[i].data else s.disk[a]
  }

  ghost function View(s: State): (v: Disk)
    ensures |v| == |s.disk|
  {
    seq(|s.disk|, a requires 0 <= a < |s.disk| => ViewAt(s, a))
  }

  // ----- the steps -----

  /** How many log entries the commit in progress has installed and unpinned. */
  function Done(s: State): nat {
    if s.committing && s.stage > |s.lh| + 1 then
      if s.stage <= 2 * |s.lh| + 1 then s.stage - |s.lh| - 1 else |s.lh|
    else 0
  }

  ghost predicate Init(s: State) {
    && GoodDisk(s.disk, s.start)
    && HeadIs(s.disk[s.start], [])
    && |s.bufs| == |s.refs| == NBUF
    && (forall i | 0 <= i < NBUF ::
        s.bufs[i].key == None && !s.bufs[i].valid && s.bufs[i].refcnt == 0 && s.bufs[i].holder == None)
    && (forall i | 0 <= i < NBUF :: s.refs[i] == {})
    && s.lh == [] && s.outstanding == 0 && !s.committing && s.stage == 0
    && s.pin == [] && s.ops == map[] && s.unlogged == {} && s.base == s.disk && s.snap == s.disk
  }

  ghost predicate Holds(s: State, p: nat, i: nat) {
    i < |s.bufs| && i < |s.refs| && s.bufs[i].holder == Some(p) && s.bufs[i].key.Some?
  }

  /** begin_op() past its two waits: no commit in progress and room for one more full-budget operation. */
  ghost predicate BeginOpStep(s: State, p: nat, t: State) {
    && p !in s.ops
    && !s.committing
    && |s.lh| + (s.outstanding + 1) * MAXOPBLOCKS <= LOGBLOCKS
    && t == s.(outstanding := s.outstanding + 1, ops := s.ops[p := {}])
  }

  /** end_op(); the last operation out starts the commit. */
  ghost predicate EndOpStep(s: State, p: nat, t: State) {
    && p in s.ops && s.outstanding > 0
    && (forall i | i in s.unlogged && i < |s.bufs| :: s.bufs[i].holder != Some(p))
    && var u := s.(outstanding := s.outstanding - 1, ops := s.ops - {p});
    && t == if u.outstanding == 0 then u.(committing := true, stage := 0, base := s.disk, snap := View(s)) else u
  }

  /** bget() of a cached block: take a reference. */
  ghost predicate HitStep(s: State, p: nat, i: nat, t: State) {
    && i < |s.bufs| && i < |s.refs| && s.bufs[i].key.Some? && p !in s.refs[i]
    && t == s.(bufs := s.bufs[i := s.bufs[i].(refcnt := s.bufs[i].refcnt + 1)], refs := s.refs[i := s.refs[i] + {p}])
  }

  /** bget() of an uncached block: take over an unreferenced buffer. */
  ghost predicate RecycleStep(s: State, p: nat, i: nat, b: nat, t: State) {
    && i < |s.bufs| && i < |s.refs| && b < |s.disk| && Home(s.start, b)
    && (forall j | 0 <= j < |s.bufs| :: s.bufs[j].key != Some(b))
    && s.bufs[i].refcnt == 0
    && t == s.(bufs := s.bufs[i := s.bufs[i].(key := Some(b), valid := false, refcnt := 1)], refs := s.refs[i := {p}])
  }

  /** acquiresleep() on a referenced buffer. */
  ghost predicate LockStep(s: State, p: nat, i: nat, t: State) {
    && i < |s.bufs| && i < |s.refs| && p in s.refs[i] && s.bufs[i].holder == None
    && t == s.(bufs := s.bufs[i := s.bufs[i].(holder := Some(p))])
  }

  /** The disk read in bread(). */
  ghost predicate FillStep(s: State, p: nat, i: nat, t: State) {
    && Holds(s, p, i) && !s.bufs[i].valid && s.bufs[i].key.value < |s.disk|
    && t == s.(bufs := s.bufs[i := s.bufs[i].(valid := true, data := s.disk[s.bufs[i].key.value])])
  }

  /** An operation changes the data of a buffer it has locked. */
  ghost predicate ModifyStep(s: State, p: nat, i: nat, data: Block, t: State) {
    && Holds(s, p, i) && s.bufs[i].valid && p in s.ops
    && t == s.(bufs := s.bufs[i := s.bufs[i].(data := data)], unlogged := s.unlogged + {i})
  }

  /** log_write(): absorb the block, or append it and pin its buffer. */
  ghost predicate LogWriteStep(s: State, p: nat, i: nat, t: State) {
    && Holds(s, p, i) && s.bufs[i].valid && p in s.ops && s.bufs[i].key.value < 0x1_0000_0000
    && |s.lh| < LOGBLOCKS
    && |s.ops[p] + {s.bufs[i].key.value}| <= MAXOPBLOCKS
    && var b := s.bufs[i].key.value;
    && var u := s.(ops := s.ops[p := s.ops[p] + {b}], unlogged := s.unlogged - {i});
    && t == if b in s.lh then u
            else u.(lh := s.lh + [b], pin := s.pin + [i],
                    bufs := s.bufs[i := s.bufs[i].(refcnt := s.bufs[i].refcnt + 1)])
  }

  /** brelse() up to its releasesleep(); an operation logs what it modified before it lets go. */
  ghost predicate UnlockStep(s: State, p: nat, i: nat, t: State) {
    && Holds(s, p, i) && i !in s.unlogged
    && t == s.(bufs := s.bufs[i := s.bufs[i].(holder := None)])
  }

  /** The rest of brelse(), under the lock of the cache: another process may have the buffer locked by now. */
  ghost predicate DropStep(s: State, p: nat, i: nat, t: State) {
    && i < |s.bufs| && i < |s.refs| && p in s.refs[i] && s.bufs[i].holder != Some(p) && s.bufs[i].refcnt > 0
    && t == s.(bufs := s.bufs[i := s.bufs[i].(refcnt := s.bufs[i].refcnt - 1)], refs := s.refs[i := s.refs[i] - {p}])
  }

  ghost predicate CommitNext(s: State, t: State) {
    && s.committing && s.lh != [] && s.stage < 2 * |s.lh| + 2
    && |s.lh| == |s.pin| && |s.lh| <= LOGBLOCKS && s.start + LOGBLOCKS < |s.disk|
    && CommitBlockStep(s, t)
  }

  /** The end of commit(): forget the transaction and let begin_op() proceed. */
  ghost predicate CommitDoneStep(s: State, t: State) {
    && s.committing && (s.lh == [] || s.stage == 2 * |s.lh| + 2)
    && t == s.(committing := false, lh := [], pin := [], stage := 0)
  }

  /** Power loss at any moment, then recoveries of which all but the last may crash too. */
  ghost predicate CrashStep(s: State, cuts: seq<nat>, t: State) {
    && GoodDisk(s.disk, s.start)
    && Init(t) && t.start == s.start
    && t.disk == Recover(CrashedRecoveries(s.disk, s.start, cuts), s.start)
  }

  ghost predicate Next(s: State, a: Action, t: State) {
    match a
    case BeginOp(p) => BeginOpStep(s, p, t)
    case EndOp(p) => EndOpStep(s, p, t)
    case Hit(p, i) => HitStep(s, p, i, t)
    case Recycle(p, i, b) => RecycleStep(s, p, i, b, t)
    case Lock(p, i) => LockStep(s, p, i, t)
    case Fill(p, i) => FillStep(s, p, i, t)
    case Modify(p, i, data) => ModifyStep(s, p, i, data, t)
    case LogWrite(p, i) => LogWriteStep(s, p, i, t)
    case Unlock(p, i) => UnlockStep(s, p, i, t)
    case Drop(p, i) => DropStep(s, p, i, t)
    case CommitBlock => CommitNext(s, t)
    case CommitDone => CommitDoneStep(s, t)
    case Crash(cuts) => CrashStep(s, cuts, t)
  }

  /** One block write of commit(): a pinned buffer to its log slot, the header, a log slot to its
      home block (and into the buffer, which is then unpinned), or the cleared header. */
  ghost predicate CommitBlockStep(s: State, t: State)
    requires s.lh != [] && s.stage < 2 * |s.lh| + 2 && |s.lh| == |s.pin| && |s.lh| <= LOGBLOCKS &&
             s.start + LOGBLOCKS < |s.disk|
  {
    var n, k := |s.lh|, s.stage;
    if k < n then
      && s.pin[k] < |s.bufs| && s.bufs[s.pin[k]].holder == None
      && t == s.(disk := s.disk[s.start + 1 + k := s.bufs[s.pin[k]].data], stage := k + 1)
    else if k == n then t == s.(disk := s.disk[s.start := EncodeHead(s.disk[s.start], s.lh)], stage := k + 1)
    else if k <= 2 * n then
      var j := k - n - 1;
      && s.pin[j] < |s.bufs| && s.bufs[s.pin[j]].holder == None && s.bufs[s.pin[j]].refcnt > 0 && s.lh[j] < |s.disk|
      && t == s.(disk := s.disk[s.lh[j] := s.disk[s.start + 1 + j]], stage := k + 1,
                 bufs := s.bufs[s.pin[j] :=
                     s.bufs[s.pin[j]].(data := s.disk[s.start + 1 + j], refcnt := s.bufs[s.pin[j]].refcnt - 1)])
    else t == s.(disk := s.disk[s.start := EncodeHead(s.disk[s.start], [])], stage := k + 1)
  }

  // ----- the invariant -----

  ghost predicate Shape(s: State) {
    && s.start + LOGBLOCKS < |s.disk|
    && |s.bufs| == |s.refs| == NBUF
    && GoodHead(s.lh, s.start, |s.disk|)
    && |s.pin| == |s.lh|
    && (forall i | 0 <= i < NBUF && s.bufs[i].key.Some? ::
        s.bufs[i].key.value < |s.disk| && Home(s.start, s.bufs[i].key.value))
    && (forall i, j | 0 <= i < j < NBUF && s.bufs[i].key.Some? :: s.bufs[i].key != s.bufs[j].key)
    && (forall i | 0 <= i < NBUF && s.bufs[i].valid :: s.bufs[i].key.Some?)
  }

  /** Buffer `i` is pinned for a log entry that is not installed yet. */
  ghost predicate Pinned(s: State, i: nat) {
    exists j | Done(s) <= j < |s.pin| :: s.pin[j] == i
  }

  ghost predicate Counted(s: State)
    requires Shape(s)
  {
    && (forall i | 0 <= i < NBUF :: s.bufs[i].refcnt == |s.refs[i]| + if Pinned(s, i) then 1 else 0)
    && (forall i | 0 <= i < NBUF && s.bufs[i].holder.Some? :: s.bufs[i].holder.value in s.refs[i])
    && (forall j | Done(s) <= j < |s.pin| ::
        s.pin[j] < NBUF && s.bufs[s.pin[j]].key == Some(s.lh[j]) && s.bufs[s.pin[j]].valid)
    && (forall i | i in s.unlogged ::
        i < NBUF && s.bufs[i].valid && s.bufs[i].holder.Some? && s.bufs[i].holder.value in s.ops)
  }

  /** An unpinned buffer that is not being modified agrees with the disk. */
  ghost predicate Coherent(s: State)
    requires Shape(s)
  {
    forall i | 0 <= i < NBUF && s.bufs[i].valid && i !in s.unlogged && !Pinned(s, i) ::
      s.bufs[i].data == s.disk[s.bufs[i].key.value]
  }

  ghost function Unused(ops: map<nat, set<nat>>): int
    decreases |ops|
  {
    if ops == map[] then 0
    else
      var p :| p in ops;
      MAXOPBLOCKS - |ops[p]| + Unused(ops - {p})
  }

  ghost predicate Budgeted(s: State) {
    && s.outstanding == |s.ops|
    && (forall p | p in s.ops :: |s.ops[p]| <= MAXOPBLOCKS)
    && (forall p, b | p in s.ops && b in s.ops[p] :: b in s.lh)
    && (!s.committing ==> |s.lh| + Unused(s.ops) <= LOGBLOCKS)
  }

  ghost predicate Committing(s: State)
    requires Shape(s)
  {
    if !s.committing || s.lh == [] then HeadIs(s.disk[s.start], []) && s.stage == 0
    else
      && CommitPoint(s.base, s.start, s.lh, s.snap, s.disk, s.stage)
      && (forall a | 0 <= a < |s.snap| && Home(s.start, a) && a !in s.lh :: s.snap[a] == s.base[a])
      && (forall j | Done(s) <= j < |s.pin| && s.pin[j] < NBUF :: s.bufs[s.pin[j]].data == s.snap[s.lh[j]])
  }

  ghost predicate Inv(s: State) {
    && Shape(s)
    && Counted(s)
    && Coherent(s)
    && Budgeted(s)
    && Committing(s)
    && (s.committing ==> s.ops == map[])
  }

  // ----- reading the view -----

  lemma ViewCached(s: State, i: nat)
    requires Shape(s) && i < NBUF && s.bufs[i].valid
    ensures s.bufs[i].key.Some? && s.bufs[i].key.value < |s.disk|
    ensures ViewAt(s, s.bufs[i].key.value) == s.bufs[i].data
  {
  }

  lemma ViewUncached(s: State, a: nat)
    requires a < |s.disk|
    requires forall i | 0 <= i < |s.bufs| :: s.bufs[i].key == Some(a) ==> !s.bufs[i].valid
    ensures ViewAt(s, a) == s.disk[a]
  {
  }

  lemma ViewElsewhere(s: State, t: State, i: nat, a: nat)
    requires Shape(s) && Shape(t) && t.disk == s.disk && i < NBUF && a < |s.disk|
    requires t.bufs == s.bufs[i := t.bufs[i]] && s.bufs[i].key == t.bufs[i].key != Some(a)
    ensures ViewAt(t, a) == ViewAt(s, a)
  {
    hide GoodHead;
    if k :| 0 <= k < NBUF && s.bufs[k].key == Some(a) && s.bufs[k].valid {
      assert t.bufs[k] == s.bufs[k];
      ViewCached(t, k);
    } else {
      ViewUncached(t, a);
    }
  }

  lemma BudgetRemove(ops: map<nat, set<nat>>, p: nat)
    requires p in ops
    ensures Unused(ops) == MAXOPBLOCKS - |ops[p]| + Unused(ops - {p})
    decreases |ops|
  {
    var q :| q in ops && Unused(ops) == MAXOPBLOCKS - |ops[q]| + Unused(ops - {q});
    if q != p {
      BudgetRemove(ops - {q}, p);
      BudgetRemove(ops - {p}, q);
      assert ops - {q} - {p} == ops - {p} - {q};
    }
  }

  lemma BudgetBound(ops: map<nat, set<nat>>)
    requires forall p | p in ops :: |ops[p]| <= MAXOPBLOCKS
    ensures 0 <= Unused(ops) <= MAXOPBLOCKS * |ops|
    decreases |ops|
  {
    if ops != map[] {
      var p :| p in ops;
      BudgetRemove(ops, p);
      BudgetBound(ops - {p});
    }
  }

  // ----- each step keeps the invariant -----

  /** The view and the durable contents are what they were. */
  ghost predicate Silent(s: State, t: State) {
    && t.start == s.start && t.disk == s.disk
    && (forall a | 0 <= a < |s.disk| :: ViewAt(t, a) == ViewAt(s, a))
  }

  /** Only reference counts, references and lock holders differ. */
  ghost predicate SameContents(s: State, t: State) {
    && t == s.(bufs := t.bufs, refs := t.refs)
    && |t.bufs| == |s.bufs| && |t.refs| == |s.refs|
    && forall i | 0 <= i < |s.bufs| ::
         s.bufs[i].key == t.bufs[i].key && s.bufs[i].valid == t.bufs[i].valid && s.bufs[i].data == t.bufs[i].data
  }

  lemma ContentsFrame(s: State, t: State)
    requires Inv(s) && SameContents(s, t)
    ensures Shape(t) && Coherent(t) && Budgeted(t) && Committing(t) && (t.committing ==> t.ops == map[])
    ensures forall i: nat :: Pinned(t, i) == Pinned(s, i)
  {
    hide CommitPoint, HeadIs, GoodHead, Unused, Counted;
  }

  lemma ContentsSilent(s: State, t: State)
    requires Shape(s) && SameContents(s, t)
    ensures Silent(s, t)
  {
    hide GoodHead, ViewAt;
    forall a | 0 <= a < |s.disk|
      ensures ViewAt(t, a) == ViewAt(s, a)
    {
      ContentsView(s, t, a);
    }
  }

  lemma ContentsView(s: State, t: State, a: nat)
    requires Shape(s) && SameContents(s, t) && a < |s.disk|
    ensures ViewAt(t, a) == ViewAt(s, a)
  {
    hide GoodHead;
    if i :| 0 <= i < NBUF && s.bufs[i].key == Some(a) && s.bufs[i].valid {
      assert t.bufs[i].key == Some(a) && t.bufs[i].valid;
    }
  }

  lemma KeepHit(s: State, p: nat, i: nat, t: State)
    requires Inv(s) && HitStep(s, p, i, t)
    ensures Inv(t) && Silent(s, t)
  {
    hide CommitPoint, HeadIs, GoodHead, Unused, Committing, Budgeted, Coherent, Silent;
    ContentsFrame(s, t);
    ContentsSilent(s, t);
  }

  lemma KeepLock(s: State, p: nat, i: nat, t: State)
    requires Inv(s) && LockStep(s, p, i, t)
    ensures Inv(t) && Silent(s, t)
  {
    hide CommitPoint, HeadIs, GoodHead, Unused, Committing, Budgeted, Coherent, Silent;
    ContentsFrame(s, t);
    ContentsSilent(s, t);
  }

  lemma KeepUnlock(s: State, p: nat, i: nat, t: State)
    requires Inv(s) && UnlockStep(s, p, i, t)
    ensures Inv(t) && Silent(s, t)
  {
    hide CommitPoint, HeadIs, GoodHead, Unused, Committing, Budgeted, Coherent, Silent;
    ContentsFrame(s, t);
    ContentsSilent(s, t);
  }

  lemma KeepDrop(s: State, p: nat, i: nat, t: State)
    requires Inv(s) && DropStep(s, p, i, t)
    ensures Inv(t) && Silent(s, t)
  {
    hide CommitPoint, HeadIs, GoodHead, Unused, Committing, Budgeted, Coherent, Silent, Pinned;
    ContentsFrame(s, t);
    ContentsSilent(s, t);
  }

  lemma KeepRecycle(s: State, p: nat, i: nat, b: nat, t: State)
    requires Inv(s) && RecycleStep(s, p, i, b, t)
    ensures Inv(t) && !Pinned(s, i)
  {
    hide CommitPoint, HeadIs, GoodHead, Unused;
    assert !Pinned(s, i) && s.refs[i] == {};
    assert forall k: nat :: Pinned(t, k) == Pinned(s, k);
  }

  lemma RecycleSilent(s: State, p: nat, i: nat, b: nat, t: State)
    requires Inv(s) && RecycleStep(s, p, i, b, t)
    ensures Silent(s, t)
  {
    hide Inv, ViewAt, RecycleStep;
    KeepRecycle(s, p, i, b, t);
    RecycleRest(s, p, i, b, t);
    forall a | 0 <= a < |s.disk|
      ensures ViewAt(t, a) == ViewAt(s, a)
    {
      RecycleView(s, p, i, b, t, a);
    }
  }

  lemma RecycleRest(s: State, p: nat, i: nat, b: nat, t: State)
    requires RecycleStep(s, p, i, b, t)
    ensures t == s.(bufs := t.bufs, refs := t.refs)
  {
  }

  lemma RecycleView(s: State, p: nat, i: nat, b: nat, t: State, a: nat)
    requires Inv(s) && Inv(t) && RecycleStep(s, p, i, b, t) && a < |s.disk|
    ensures ViewAt(t, a) == ViewAt(s, a)
  {
    hide CommitPoint, HeadIs, GoodHead, Unused, Committing, Budgeted, ViewAt;
    if k :| 0 <= k < NBUF && k != i && s.bufs[k].key == Some(a) && s.bufs[k].valid {
      assert t.bufs[k] == s.bufs[k];
      ViewCached(s, k);
      ViewCached(t, k);
    } else {
      ViewUncached(t, a);
      if s.bufs[i].key == Some(a) && s.bufs[i].valid {
        ViewCached(s, i);
        UnusedIsClean(s, i);
      } else {
        ViewUncached(s, a);
      }
    }
  }

  /** A buffer nobody references is neither pinned nor being modified, so it agrees with the disk. */
  lemma UnusedIsClean(s: State, i: nat)
    requires Inv(s) && i < NBUF && s.bufs[i].refcnt == 0 && s.bufs[i].valid
    ensures s.bufs[i].data == s.disk[s.bufs[i].key.value]
  {
    hide CommitPoint, HeadIs, GoodHead, Unused, Committing, Budgeted;
    assert !Pinned(s, i) && s.refs[i] == {};
  }

  lemma KeepFill(s: State, p: nat, i: nat, t: State)
    requires Inv(s) && FillStep(s, p, i, t)
    ensures Inv(t)
  {
    hide CommitPoint, HeadIs, GoodHead, Unused;
    assert !Pinned(s, i) && i !in s.unlogged;
    assert forall k: nat :: Pinned(t, k) == Pinned(s, k);
  }

  lemma FillSilent(s: State, p: nat, i: nat, t: State)
    requires Inv(s) && FillStep(s, p, i, t)
    ensures Silent(s, t)
  {
    hide CommitPoint, HeadIs, GoodHead, Unused, Committing, Budgeted, Counted, Coherent;
    KeepFill(s, p, i, t);
    forall a | 0 <= a < |s.disk|
      ensures ViewAt(t, a) == ViewAt(s, a)
    {
      if s.bufs[i].key == Some(a) {
        ViewCached(t, i);
        ViewUncached(s, a);
      } else {
        ViewElsewhere(s, t, i, a);
      }
    }
  }

  lemma KeepModify(s: State, p: nat, i: nat, data: Block, t: State)
    requires Inv(s) && ModifyStep(s, p, i, data, t)
    ensures Inv(t)
  {
    hide CommitPoint, HeadIs, GoodHead, Unused;
    assert forall k: nat :: Pinned(t, k) == Pinned(s, k);
  }

  lemma ModifyShows(s: State, p: nat, i: nat, data: Block, t: State)
    requires Inv(s) && ModifyStep(s, p, i, data, t)
    ensures forall a | 0 <= a < |s.disk| :: ViewAt(t, a) == if s.bufs[i].key == Some(a) then data else ViewAt(s, a)
  {
    hide CommitPoint, HeadIs, GoodHead, Unused, Committing, Budgeted, Counted, Coherent;
    KeepModify(s, p, i, data, t);
    forall a | 0 <= a < |s.disk|
      ensures ViewAt(t, a) == if s.bufs[i].key == Some(a) then data else ViewAt(s, a)
    {
      if s.bufs[i].key == Some(a) {
        ViewCached(t, i);
      } else {
        ViewElsewhere(s, t, i, a);
      }
    }
  }

  lemma BudgetSpend(ops: map<nat, set<nat>>, p: nat, logged: set<nat>)
    ensures Unused(ops[p := logged]) == MAXOPBLOCKS - |logged| + Unused(ops - {p})
    ensures p in ops ==> Unused(ops) == MAXOPBLOCKS - |ops[p]| + Unused(ops - {p})
  {
    hide Unused;
    BudgetRemove(ops[p := logged], p);
    assert ops[p := logged] - {p} == ops - {p};
    if p in ops {
      BudgetRemove(ops, p);
    }
  }

  lemma KeepBeginOp(s: State, p: nat, t: State)
    requires Inv(s) && BeginOpStep(s, p, t)
    ensures Inv(t)
  {
    hide CommitPoint, HeadIs, GoodHead, Unused, Shape, Coherent;
    BudgetSpend(s.ops, p, {});
    assert s.ops - {p} == s.ops;
    BudgetBound(s.ops);
    assert forall k: nat :: Pinned(t, k) == Pinned(s, k);
    KeepOpsFrame(s, t);
  }

  /** Changing only the set of operations leaves the buffers and the disk as they were. */
  lemma KeepOpsFrame(s: State, t: State)
    requires Inv(s)
    requires t == s.(outstanding := t.outstanding, ops := t.ops)
    ensures Shape(t) && Coherent(t) && Committing(t) && Silent(s, t)
  {
    hide CommitPoint, HeadIs, GoodHead, Unused, Budgeted, Counted;
    assert forall k: nat :: Pinned(t, k) == Pinned(s, k);
  }

  /** The block a process logs is pinned already when its number is in the header. */
  lemma LoggedIsPinned(s: State, i: nat)
    requires Inv(s) && !s.committing && i < NBUF && s.bufs[i].key.Some?
    ensures Pinned(s, i) <==> s.bufs[i].key.value in s.lh
  {
    hide CommitPoint, HeadIs, Unused, Coherent, Committing, Budgeted;
    if s.bufs[i].key.value in s.lh {
      var j :| 0 <= j < |s.lh| && s.lh[j] == s.bufs[i].key.value;
      assert s.bufs[s.pin[j]].key == Some(s.lh[j]);
      assert s.pin[j] == i;
    }
  }

  /** An append within the operation's budget always finds room in the log. */
  lemma AppendFits(s: State, p: nat, i: nat)
    requires Inv(s) && Holds(s, p, i) && p in s.ops
    requires |s.ops[p] + {s.bufs[i].key.value}| <= MAXOPBLOCKS
    requires s.bufs[i].key.value !in s.lh
    ensures |s.lh| < LOGBLOCKS
  {
    hide CommitPoint, HeadIs, GoodHead, Unused, Coherent, Committing, Shape, Counted;
    var b := s.bufs[i].key.value;
    assert b !in s.ops[p];
    BudgetSpend(s.ops, p, s.ops[p]);
    forall q | q in s.ops - {p}
      ensures |(s.ops - {p})[q]| <= MAXOPBLOCKS
    {
      assert q in s.ops;
    }
    BudgetBound(s.ops - {p});
  }

  lemma LogWriteBudget(s: State, p: nat, i: nat, t: State)
    requires Inv(s) && LogWriteStep(s, p, i, t)
    ensures Budgeted(t)
  {
    hide CommitPoint, HeadIs, GoodHead, Unused, Coherent, Committing, Counted;
    BudgetSpend(s.ops, p, s.ops[p] + {s.bufs[i].key.value});
    if s.bufs[i].key.value in s.ops[p] {
      assert s.ops[p] + {s.bufs[i].key.value} == s.ops[p];
    }
  }

  lemma AppendPins(s: State, t: State, i: nat)
    requires !s.committing && !t.committing && t.pin == s.pin + [i]
    ensures forall k: nat :: Pinned(t, k) == (Pinned(s, k) || k == i)
  {
    forall k: nat
      ensures Pinned(t, k) == (Pinned(s, k) || k == i)
    {
      assert t.pin[|s.pin|] == i;
      if j :| 0 <= j < |s.pin| && s.pin[j] == k {
        assert t.pin[j] == k;
      }
    }
  }

  lemma KeepLogWrite(s: State, p: nat, i: nat, t: State)
    requires Inv(s) && LogWriteStep(s, p, i, t)
    ensures Inv(t)
  {
    hide CommitPoint, HeadIs, Unused, Budgeted;
    LogWriteBudget(s, p, i, t);
    LoggedIsPinned(s, i);
    if s.bufs[i].key.value in s.lh {
      assert forall k: nat :: Pinned(t, k) == Pinned(s, k);
    } else {
      AppendPins(s, t, i);
    }
  }

  lemma LogWriteSilent(s: State, p: nat, i: nat, t: State)
    requires Inv(s) && LogWriteStep(s, p, i, t)
    ensures Silent(s, t)
  {
    hide CommitPoint, HeadIs, Unused, Budgeted, Committing, Counted, Coherent, GoodHead;
    forall a | 0 <= a < |s.disk|
      ensures ViewAt(t, a) == ViewAt(s, a)
    {
      if k :| 0 <= k < NBUF && s.bufs[k].key == Some(a) && s.bufs[k].valid {
        assert t.bufs[k].key == Some(a) && t.bufs[k].valid && t.bufs[k].data == s.bufs[k].data;
      }
    }
  }

  lemma KeepEndOp(s: State, p: nat, t: State)
    requires Inv(s) && EndOpStep(s, p, t) && !t.committing
    ensures Inv(t) && Silent(s, t)
  {
    hide CommitPoint, HeadIs, GoodHead, Unused, Coherent, Committing;
    KeepOpsFrame(s, t);
    BudgetRemove(s.ops, p);
    assert (s.ops - {p}).Keys == s.ops.Keys - {p};
    assert forall k: nat :: Pinned(t, k) == Pinned(s, k);
  }

  /** When the last operation ends, every buffer is either pinned or agrees with the disk. */
  lemma SnapAtEnd(s: State, p: nat)
    requires Inv(s) && p in s.ops && |s.ops| == 1 && !s.committing
    requires forall i | i in s.unlogged && i < |s.bufs| :: s.bufs[i].holder != Some(p)
    ensures s.ops - {p} == map[] && s.unlogged == {}
    ensures forall a | 0 <= a < |s.disk| && a !in s.lh :: ViewAt(s, a) == s.disk[a]
    ensures forall j | 0 <= j < |s.pin| :: s.pin[j] < NBUF && s.bufs[s.pin[j]].data == ViewAt(s, s.lh[j])
  {
    hide CommitPoint, HeadIs, GoodHead, Unused, Committing;
    assert |s.ops.Keys - {p}| == 0;
    assert (s.ops - {p}).Keys == s.ops.Keys - {p} == {};
    assert forall q | q in s.ops :: q == p || q in s.ops - {p};
    forall j | 0 <= j < |s.pin|
      ensures s.pin[j] < NBUF && s.bufs[s.pin[j]].data == ViewAt(s, s.lh[j])
    {
      ViewCached(s, s.pin[j]);
    }
    forall a | 0 <= a < |s.disk| && a !in s.lh
      ensures ViewAt(s, a) == s.disk[a]
    {
      if k :| 0 <= k < NBUF && s.bufs[k].key == Some(a) && s.bufs[k].valid {
        ViewCached(s, k);
        assert !Pinned(s, k);
      }
    }
  }

  lemma LastEndOpFrame(s: State, p: nat, t: State)
    requires Inv(s) && EndOpStep(s, p, t) && t.committing
    ensures Shape(t) && Counted(t) && Coherent(t) && Budgeted(t) && t.ops == map[]
  {
    hide CommitPoint, HeadIs, GoodHead, Unused, View, Committing;
    SnapAtEnd(s, p);
    assert forall k: nat :: Pinned(t, k) == Pinned(s, k);
  }

  lemma KeepLastEndOp(s: State, p: nat, t: State)
    requires Inv(s) && EndOpStep(s, p, t) && t.committing
    ensures Inv(t)
  {
    hide CommitPoint, HeadIs, Unused, Coherent, Counted;
    SnapAtEnd(s, p);
    LastEndOpFrame(s, p, t);
    if s.lh != [] {
      StartCommit(s, t.snap);
    }
  }

  lemma StartCommit(s: State, snap: Disk)
    requires Shape(s) && HeadIs(s.disk[s.start], []) && |snap| == |s.disk|
    ensures CommitPoint(s.disk, s.start, s.lh, snap, s.disk, 0)
  {
    CommitStarts(s.disk, s.start, s.lh, snap);
  }

  lemma LastEndOpSilent(s: State, p: nat, t: State)
    requires Inv(s) && EndOpStep(s, p, t)
    ensures Silent(s, t)
  {
    hide CommitPoint, HeadIs, GoodHead, Unused, Committing, Counted, Coherent, Budgeted;
  }

  // ----- the commit in progress -----

  /** While a commit is in progress the view is the snapshot taken when it began. */
  lemma ViewIsSnap(s: State, a: nat)
    requires Inv(s) && s.committing && s.lh != [] && a < |s.disk| && Home(s.start, a)
    ensures ViewAt(s, a) == s.snap[a]
  {
    hide HeadIs, Unused, Budgeted, Counted;
    if i :| 0 <= i < NBUF && s.bufs[i].key == Some(a) && s.bufs[i].valid {
      CachedIsSnap(s, i, a);
    } else {
      NotCachedInstalled(s, a);
    }
  }

  /** A block that is not cached, or cached but not pinned, is not waiting to be installed. */
  lemma NotCachedInstalled(s: State, a: nat)
    requires Shape(s) && Counted(s) &&
             forall i | 0 <= i < NBUF && s.bufs[i].key == Some(a) && s.bufs[i].valid :: !Pinned(s, i)
    ensures forall j | Done(s) <= j < |s.lh| :: s.lh[j] != a
  {
    forall j | Done(s) <= j < |s.lh|
      ensures s.lh[j] != a
    {
      assert s.bufs[s.pin[j]].key == Some(s.lh[j]);
      assert Pinned(s, s.pin[j]);
    }
  }

  lemma CachedIsSnap(s: State, i: nat, a: nat)
    requires Inv(s) && s.committing && s.lh != [] && a < |s.disk| && Home(s.start, a)
    requires i < NBUF && s.bufs[i].key == Some(a) && s.bufs[i].valid
    ensures ViewAt(s, a) == s.snap[a]
  {
    hide HeadIs, Unused, Budgeted;
    ViewCached(s, i);
    assert s.unlogged == {};
    if Pinned(s, i) {
      var j :| Done(s) <= j < |s.pin| && s.pin[j] == i;
      assert s.bufs[s.pin[j]].key == Some(s.lh[j]);
    } else {
      NotCachedInstalled(s, a);
    }
  }

  /** Each step of the commit performs the block write that the log format prescribes. */
  lemma CommitWrites(s: State, t: State)
    requires Inv(s) && CommitNext(s, t)
    ensures s.committing && s.lh != [] && s.stage < 2 * |s.lh| + 2
    ensures t.disk == CommitWrite(s.disk, s.start, s.lh, s.snap, s.stage)
    ensures t == s.(disk := t.disk, stage := s.stage + 1, bufs := t.bufs)
    ensures if |s.lh| < s.stage <= 2 * |s.lh| then
              var i := s.pin[s.stage - |s.lh| - 1];
              i < NBUF && s.bufs[i].refcnt > 0 && t.bufs == s.bufs[i := s.bufs[i].(refcnt := s.bufs[i].refcnt - 1)]
            else t.bufs == s.bufs
  {
    hide Inv, EncodeHead, GoodHead;
    CommitSizes(s);
    if s.stage < |s.lh| {
      LogSlotData(s);
    } else if |s.lh| < s.stage <= 2 * |s.lh| {
      HomeBlockData(s);
    }
  }

  lemma CommitSizes(s: State)
    requires Inv(s) && s.committing && s.lh != []
    ensures s.start + LOGBLOCKS < |s.disk| == |s.snap| && GoodHead(s.lh, s.start, |s.disk|) && |s.bufs| == NBUF &&
            |s.pin| == |s.lh|
  {
    hide HeadIs, Unused, Budgeted, Coherent, Counted, GoodHead;
  }

  /** What write_log() copies is what the transaction says the block holds, */
  lemma LogSlotData(s: State)
    requires Inv(s) && s.committing && s.stage < |s.lh|
    ensures |s.pin| == |s.lh| && s.pin[s.stage] < NBUF && s.bufs[s.pin[s.stage]].data == s.snap[s.lh[s.stage]]
  {
    hide HeadIs, Unused, Budgeted, Coherent, EncodeHead, CommitPoint, GoodHead;
    assert Done(s) <= s.stage;
  }

  /** and what install_trans() copies is what the block's pinned buffer holds. */
  lemma HomeBlockData(s: State)
    requires Inv(s) && s.committing && |s.lh| < s.stage <= 2 * |s.lh|
    ensures var j := s.stage - |s.lh| - 1;
            s.pin[j] < NBUF && s.bufs[s.pin[j]].data == s.snap[s.lh[j]] == s.disk[s.start + 1 + j] &&
                s.bufs[s.pin[j]].refcnt > 0
  {
    hide HeadIs, Unused, Budgeted, Coherent, EncodeHead, GoodHead;
    var j := s.stage - |s.lh| - 1;
    assert Done(s) == j && s.pin[j] < NBUF;
    LogSlotHolds(s.base, s.start, s.lh, s.snap, s.disk, s.stage, j);
    hide CommitPoint;
    assert Pinned(s, s.pin[j]);
  }

  lemma LogSlotHolds(d0: Disk, start: nat, lh: seq<Word>, view: Disk, d: Disk, k: nat, j: nat)
    requires CommitPoint(d0, start, lh, view, d, k) && j < |lh| < k
    ensures d[start + 1 + j] == view[lh[j]]
  {
    hide HeadIs, GoodHead;
  }

  lemma CommitKeepsCounts(s: State, t: State)
    requires Inv(s) && CommitNext(s, t)
    ensures Shape(t) && Counted(t)
  {
    hide HeadIs, Unused, Coherent, CommitPoint, CommitNext, CommitWrite, Budgeted;
    CommitWrites(s, t);
    if |s.lh| < s.stage <= 2 * |s.lh| {
      var j := s.stage - |s.lh| - 1;
      assert Done(s) == j && Done(t) == j + 1;
      assert Pinned(s, s.pin[j]);
      forall k: nat
        ensures Pinned(t, k) == (Pinned(s, k) && k != s.pin[j])
      {
      }
    } else {
      assert Done(t) == Done(s);
      assert forall k: nat :: Pinned(t, k) == Pinned(s, k);
    }
  }

  /** The only home block a commit step can change is the one being installed. */
  lemma CommitWritesHome(s: State, t: State)
    requires Inv(s) && CommitNext(s, t)
    ensures |t.disk| == |s.disk|
    ensures if |s.lh| < s.stage <= 2 * |s.lh| then
              var j := s.stage - |s.lh| - 1;
              && s.lh[j] < |s.disk|
              && t.disk == s.disk[s.lh[j] := s.snap[s.lh[j]]]
            else forall a | 0 <= a < |s.disk| && Home(s.start, a) :: t.disk[a] == s.disk[a]
  {
    hide HeadIs, Unused, CommitNext, Budgeted, EncodeHead, Coherent, Counted, CommitPoint;
    CommitWrites(s, t);
    if |s.lh| < s.stage <= 2 * |s.lh| {
      HomeBlockData(s);
    }
  }

  lemma CommitKeepsCoherent(s: State, t: State)
    requires Inv(s) && CommitNext(s, t) && Shape(t)
    ensures Coherent(t)
  {
    hide HeadIs, Unused, CommitNext, Budgeted, Committing, CommitWrite, CommitPoint, GoodHead;
    CommitWrites(s, t);
    CommitWritesHome(s, t);
    if |s.lh| < s.stage <= 2 * |s.lh| {
      var j := s.stage - |s.lh| - 1;
      HomeBlockData(s);
      forall k: nat | Pinned(s, k) && k != s.pin[j]
        ensures Pinned(t, k)
      {
      }
    } else {
      assert Done(t) == Done(s);
      assert forall k: nat :: Pinned(t, k) == Pinned(s, k);
    }
  }

  lemma KeepCommitBlock(s: State, t: State)
    requires Inv(s) && CommitNext(s, t)
    ensures Inv(t)
  {
    hide HeadIs, Unused, Coherent, CommitPoint, CommitNext, CommitWrite, GoodHead;
    CommitWrites(s, t);
    CommitKeepsCounts(s, t);
    CommitKeepsCoherent(s, t);
    CommitStep(s.base, s.start, s.lh, s.snap, s.disk, s.stage);
  }

  lemma KeepCommitDone(s: State, t: State)
    requires Inv(s) && CommitDoneStep(s, t)
    ensures Inv(t) && Silent(s, t)
  {
    hide HeadIs, Unused;
    BudgetBound(t.ops);
    assert forall k: nat :: !Pinned(t, k) && !Pinned(s, k);
  }

  lemma InitInv(s: State)
    requires Init(s)
    ensures Inv(s)
  {
    hide HeadIs;
  }

  /** A crash at any moment, through any number of crashed recoveries, shows the durable contents. */
  lemma KeepCrash(s: State, cuts: seq<nat>, t: State)
    requires Inv(s) && CrashStep(s, cuts, t)
    ensures Inv(t)
    ensures HomeEqual(s.start, Durable(t.disk, t.start), Durable(s.disk, s.start))
    ensures HomeEqual(s.start, View(t), Durable(s.disk, s.start))
  {
    hide HeadIs, Recover, CrashedRecoveries, Inv;
    InitInv(t);
    RecoveryCompletes(s.disk, s.start, cuts);
    RecoveryCompletes(t.disk, t.start, []);
  }

  lemma CommitBlockView(s: State, t: State, a: nat)
    requires Inv(s) && CommitNext(s, t) && a < |s.disk| && Home(s.start, a)
    ensures |t.disk| == |s.disk| && ViewAt(t, a) == ViewAt(s, a)
  {
    hide HeadIs, Unused, CommitNext, CommitWrite, CommitPoint, Inv;
    assert s.committing && s.lh != [] by {
      CommitWrites(s, t);
    }
    CommitWritesHome(s, t);
    ViewIsSnap(s, a);
    KeepCommitBlock(s, t);
    CommitWrites(s, t);
    ViewIsSnap(t, a);
  }

  /** The header write publishes exactly the current view; no other commit step changes what is durable. */
  lemma CommitBlockDurable(s: State, t: State)
    requires Inv(s) && CommitNext(s, t)
    ensures GoodDisk(s.disk, s.start) && GoodDisk(t.disk, s.start)
    ensures HomeEqual(s.start, Durable(t.disk, s.start), if s.stage == |s.lh| then View(t)
            else Durable(s.disk, s.start))
  {
    hide HeadIs, Unused, CommitNext, CommitWrite, CommitBody, DurableAt, DecodeHead, LoadWord, Coherent, Counted;
    CommitWrites(s, t);
    KeepCommitBlock(s, t);
    CommitDurable(s.base, s.start, s.lh, s.snap, s.disk, s.stage);
    CommitDurable(s.base, s.start, s.lh, s.snap, t.disk, t.stage);
    forall a | 0 <= a < |t.disk| && Home(s.start, a)
      ensures ViewAt(t, a) == Overlay(s.base, s.lh, s.snap)[a]
    {
      ViewIsSnap(t, a);
    }
  }

  // ----- refinement to an atomic disk -----

  /** The step as a step of an abstract disk that only has a current and a durable version: an
      active operation writes one block of the current version; with no operation active the
      current version becomes durable as a whole; a crash returns to the durable version; and
      every other step changes neither. */
  ghost predicate Refines(s: State, a: Action, t: State)
    requires GoodDisk(s.disk, s.start) && GoodDisk(t.disk, s.start)
  {
    var publishes := a.CommitBlock? && s.stage == |s.lh|;
    && |t.disk| == |s.disk|
    && HomeEqual(s.start, Durable(t.disk, s.start), if publishes then View(t) else Durable(s.disk, s.start))
    && (publishes ==> s.ops == map[])
    && (a.Modify? ==> a.p in s.ops && a.i < |s.bufs| && s.bufs[a.i].key.Some?)
    && HomeEqual(s.start, View(t),
         match a
         case Modify(p, i, data) =>
           if s.bufs[i].key.value < |s.disk| then View(s)[s.bufs[i].key.value := data] else View(s)
         case Crash(_) => Durable(s.disk, s.start)
         case _ => View(s))
  }

  lemma InvGoodDisk(s: State)
    requires Inv(s)
    ensures GoodDisk(s.disk, s.start)
  {
    hide Unused, Coherent, Counted;
    if s.committing && s.lh != [] {
      CommitDurable(s.base, s.start, s.lh, s.snap, s.disk, s.stage);
    }
  }

  /** Every step, from any state the kernel can be in, keeps the invariant. */
  lemma NextInv(s: State, a: Action, t: State)
    requires Inv(s) && Next(s, a, t)
    ensures Inv(t)
  {
    hide Inv, BeginOpStep, HitStep, RecycleStep, LockStep, FillStep, ModifyStep, LogWriteStep, UnlockStep, DropStep;
    hide CommitNext, CommitDoneStep, CrashStep;
    match a
    case BeginOp(p) => KeepBeginOp(s, p, t);
    case EndOp(p) => if t.committing { KeepLastEndOp(s, p, t); } else { KeepEndOp(s, p, t); }
    case Hit(p, i) => KeepHit(s, p, i, t);
    case Recycle(p, i, b) => KeepRecycle(s, p, i, b, t);
    case Lock(p, i) => KeepLock(s, p, i, t);
    case Fill(p, i) => KeepFill(s, p, i, t);
    case Modify(p, i, data) => KeepModify(s, p, i, data, t);
    case LogWrite(p, i) => KeepLogWrite(s, p, i, t);
    case Unlock(p, i) => KeepUnlock(s, p, i, t);
    case Drop(p, i) => KeepDrop(s, p, i, t);
    case CommitBlock => KeepCommitBlock(s, t);
    case CommitDone => KeepCommitDone(s, t);
    case Crash(cuts) => KeepCrash(s, cuts, t);
  }

  lemma BeginOpSilent(s: State, p: nat, t: State)
    requires Inv(s) && BeginOpStep(s, p, t)
    ensures Silent(s, t)
  {
    KeepOpsFrame(s, t);
  }

  /** Steps that neither write the disk nor modify a buffer. */
  lemma NextSilent(s: State, a: Action, t: State)
    requires Inv(s) && Next(s, a, t)
    requires !a.Modify? && !a.CommitBlock? && !a.Crash?
    ensures Silent(s, t)
  {
    hide Inv, Silent, BeginOpStep, EndOpStep, HitStep, RecycleStep, LockStep, FillStep, LogWriteStep, UnlockStep;
    hide DropStep, CommitDoneStep;
    match a
    case BeginOp(p) => BeginOpSilent(s, p, t);
    case EndOp(p) => LastEndOpSilent(s, p, t);
    case Hit(p, i) => KeepHit(s, p, i, t);
    case Recycle(p, i, b) => RecycleSilent(s, p, i, b, t);
    case Lock(p, i) => KeepLock(s, p, i, t);
    case Fill(p, i) => FillSilent(s, p, i, t);
    case LogWrite(p, i) => LogWriteSilent(s, p, i, t);
    case Unlock(p, i) => KeepUnlock(s, p, i, t);
    case Drop(p, i) => KeepDrop(s, p, i, t);
    case CommitDone => KeepCommitDone(s, t);
  }

  /** Every step refines the atomic disk. */
  lemma NextRefines(s: State, a: Action, t: State)
    requires Inv(s) && Next(s, a, t)
    ensures GoodDisk(s.disk, s.start) && GoodDisk(t.disk, s.start) && t.start == s.start
    ensures Refines(s, a, t)
  {
    hide Inv, GoodDisk, DurableAt;
    NextInv(s, a, t);
    InvGoodDisk(s);
    InvGoodDisk(t);
    match a
    case Modify(p, i, data) => ModifyShows(s, p, i, data, t);
    case CommitBlock =>
      CommitBlockDurable(s, t);
      CommitOpsEmpty(s, t);
      forall b | 0 <= b < |s.disk| && Home(s.start, b)
        ensures ViewAt(t, b) == ViewAt(s, b)
      {
        CommitBlockView(s, t, b);
      }
    case Crash(cuts) => KeepCrash(s, cuts, t);
    case _ => NextSilent(s, a, t);
  }

  lemma CommitOpsEmpty(s: State, t: State)
    requires Inv(s) && CommitNext(s, t)
    ensures s.ops == map[] && |t.disk| == |s.disk| && t.start == s.start
  {
    hide Unused, Coherent, Counted, CommitBody, HeadIs, EncodeHead;
  }

  // ----- whole runs -----

  ghost predicate Run(states: seq<State>, acts: seq<Action>) {
    && |states| == |acts| + 1
    && Init(states[0])
    && forall k | 0 <= k < |acts| :: Next(states[k], acts[k], states[k + 1])
  }

  lemma {:induction false} RunInv(states: seq<State>, acts: seq<Action>, k: nat)
    requires Run(states, acts) && k < |states|
    ensures Inv(states[k]) && states[k].start == states[0].start && |states[k].disk| == |states[0].disk|
    ensures GoodDisk(states[k].disk, states[k].start)
  {
    hide Inv, Init, Next, GoodDisk, Refines;
    if k == 0 {
      InitInv(states[0]);
    } else {
      RunInv(states, acts, k - 1);
      NextInv(states[k - 1], acts[k - 1], states[k]);
      NextRefines(states[k - 1], acts[k - 1], states[k]);
      RefinesSize(states[k - 1], acts[k - 1], states[k]);
    }
    InvGoodDisk(states[k]);
  }

  lemma RefinesSize(s: State, a: Action, t: State)
    requires GoodDisk(s.disk, s.start) && GoodDisk(t.disk, s.start) && Refines(s, a, t)
    ensures |t.disk| == |s.disk|
  {
  }

  /** In every interleaving: a commit runs only with no operation active, each block is cached at
      most once and logged at most once, the log and the unused budgets of the active operations
      fit in LOGBLOCKS, a pinned buffer cannot be recycled, and whoever holds a valid buffer holds
      the block's current contents. */
  lemma RunFacts(states: seq<State>, acts: seq<Action>, k: nat)
    requires Run(states, acts) && k < |states|
    ensures var s := states[k];
            && (s.committing ==> s.outstanding == 0)
            && (forall i, j | 0 <= i < j < |s.lh| :: s.lh[i] != s.lh[j])
            && (!s.committing ==> |s.lh| + Unused(s.ops) <= LOGBLOCKS)
            && |s.bufs| == NBUF
            && (forall i, j | 0 <= i < j < NBUF && s.bufs[i].key.Some? :: s.bufs[i].key != s.bufs[j].key)
            && (forall i | 0 <= i < NBUF && Pinned(s, i) :: s.bufs[i].refcnt > 0)
            && (forall i | 0 <= i < NBUF && s.bufs[i].valid ::
                  s.bufs[i].key.Some? && s.bufs[i].key.value < |s.disk| &&
                      s.bufs[i].data == ViewAt(s, s.bufs[i].key.value))
  {
    hide Init, Next, Unused, CommitPoint, HeadIs;
    RunInv(states, acts, k);
    forall i | 0 <= i < NBUF && states[k].bufs[i].valid
      ensures states[k].bufs[i].key.Some? && states[k].bufs[i].key.value < |states[k].disk|
      ensures states[k].bufs[i].data == ViewAt(states[k], states[k].bufs[i].key.value)
    {
      ViewCached(states[k], i);
    }
  }

  /** The version most recently made durable: the view at the last header write of the run so far. */
  ghost function Published(states: seq<State>, acts: seq<Action>, k: nat): Disk
    requires |states| == |acts| + 1 && k < |states|
  {
    if k == 0 then View(states[0])
    else if acts[k - 1].CommitBlock? && states[k - 1].stage == |states[k - 1].lh| then View(states[k])
    else Published(states, acts, k - 1)
  }

  /** At every point of every run, what recovery would restore is the last published version. */
  lemma {:induction false} RunDurable(states: seq<State>, acts: seq<Action>, k: nat)
    requires Run(states, acts) && k < |states|
    ensures GoodDisk(states[k].disk, states[k].start)
    ensures HomeEqual(states[k].start, Durable(states[k].disk, states[k].start), Published(states, acts, k))
  {
    hide Inv, Next, View, GoodDisk, DurableAt;
    RunInv(states, acts, k);
    if k == 0 {
      InitDurable(states[0]);
    } else {
      RunInv(states, acts, k - 1);
      RunDurable(states, acts, k - 1);
      NextRefines(states[k - 1], acts[k - 1], states[k]);
    }
  }

  lemma InitDurable(s: State)
    requires Init(s)
    ensures GoodDisk(s.disk, s.start) && HomeEqual(s.start, Durable(s.disk, s.start), View(s))
  {
    hide LoadWord;
    assert DecodeHead(s.disk[s.start]) == [];
  }

  /** Crash recovery over whole runs: after a crash anywhere, readers see exactly the last published version. */
  lemma CrashShowsPublished(states: seq<State>, acts: seq<Action>, k: nat)
    requires Run(states, acts) && k < |acts| && acts[k].Crash?
    ensures HomeEqual(states[0].start, View(states[k + 1]), Published(states, acts, k))
  {
    hide Inv, Next, View, GoodDisk, DurableAt, Published;
    RunInv(states, acts, k);
    RunDurable(states, acts, k);
    NextRefines(states[k], acts[k], states[k + 1]);
  }

  /** No version is published while an operation is active, so its writes become durable together or not at all. */
  lemma {:induction false} OneTransactionPerOp(states: seq<State>, acts: seq<Action>, p: nat, i: nat, j: nat)
    requires Run(states, acts) && i <= j < |states|
    requires forall k | i <= k < j :: p in states[k].ops
    ensures Published(states, acts, j) == Published(states, acts, i)
    decreases j - i
  {
    hide Inv, Init, Next, View, GoodDisk;
    if i < j {
      OneTransactionPerOp(states, acts, p, i, j - 1);
      RunInv(states, acts, j - 1);
      NextRefines(states[j - 1], acts[j - 1], states[j]);
    }
  }

  /** Within an operation's budget, log_write() can only panic on a full log when it would have
      absorbed the block, and then only when every active operation has used up its budget. */
  lemma PanicOnlyWhenAbsorbing(s: State, p: nat, i: nat)
    requires Inv(s) && Holds(s, p, i) && p in s.ops
    requires |s.ops[p] + {s.bufs[i].key.value}| <= MAXOPBLOCKS
    requires |s.lh| >= LOGBLOCKS
    ensures s.bufs[i].key.value in s.lh && Unused(s.ops) == 0
  {
    hide Unused, CommitPoint, HeadIs, GoodHead, Coherent, Counted;
    if s.bufs[i].key.value !in s.lh {
      AppendFits(s, p, i);
    }
    BudgetBound(s.ops);
  }
}
