/** The file-descriptor part of checkpoint_proc() and restore_proc() in kernel/proc.c: which tables can be
    saved, and that restoring gives back the same graph of files and pipes. */
module Descriptors {
  import opened Common

  const NOFILE := 16

  datatype FdType = FdNone | FdPipe | FdInode | FdDevice

  /** An open file: what its type makes meaningful of inode number, offset, device number and pipe. */
  datatype File = File(typ: FdType, readable: bool, writable: bool, inum: nat, off: nat, major: int, pipe: nat)

  /** The entry for one descriptor in the checkpoint header. */
  datatype FdRec = FdRec(typ: FdType, readable: bool, writable: bool, inum: nat, off: nat, major: int, pipeId: int)

  type Table = seq<Option<File>>

  datatype End = Either | ReadEnd | WriteEnd

  // ----- what can be saved -----

  predicate IsPipe(f: Option<File>) { f.Some? && f.value.typ == FdPipe }

  predicate OneWay(f: File) { f.readable != f.writable }

  /** `f` is an end of pipe `p`, of the given kind. */
  predicate EndOf(f: Option<File>, p: nat, e: End) {
    IsPipe(f) && f.value.pipe == p &&
    match e
    case Either => true
    case ReadEnd => f.value.readable && !f.value.writable
    case WriteEnd => !f.value.readable && f.value.writable
  }

  /** How many of the first `n` descriptors are such ends of pipe `p`. */
  ghost function Count(t: Table, n: nat, p: nat, e: End): nat
    requires n <= |t|
  {
    if n == 0 then 0 else Count(t, n - 1, p, e) + if EndOf(t[n - 1], p, e) then 1 else 0
  }

  ghost predicate Paired(t: Table, p: nat) {
    Count(t, |t|, p, Either) == 2 && Count(t, |t|, p, ReadEnd) == 1 && Count(t, |t|, p, WriteEnd) == 1
  }

  /** Every open descriptor is an inode, a device or a pipe end, and each pipe has exactly two
      descriptors, one to read and one to write. */
  ghost predicate Acceptable(t: Table) {
    forall i | 0 <= i < |t| && t[i].Some? ::
      && t[i].value.typ != FdNone
      && (t[i].value.typ == FdPipe ==> Paired(t, t[i].value.pipe))
  }

  lemma {:induction false} CountGrows(t: Table, m: nat, n: nat, p: nat, e: End)
    requires m <= n <= |t|
    ensures Count(t, m, p, e) <= Count(t, n, p, e)
    decreases n
  {
    if m < n {
      CountGrows(t, m, n - 1, p, e);
    }
  }

  /** Each end of a pipe is one to read, one to write, or neither. */
  lemma {:induction false} CountSplit(t: Table, n: nat, p: nat)
    requires n <= |t|
    ensures Count(t, n, p, ReadEnd) + Count(t, n, p, WriteEnd) <= Count(t, n, p, Either)
    ensures (exists i :: 0 <= i < n && EndOf(t[i], p, Either) && !OneWay(t[i].value)) ==>
              Count(t, n, p, ReadEnd) + Count(t, n, p, WriteEnd) < Count(t, n, p, Either)
  {
    if n > 0 {
      CountSplit(t, n - 1, p);
    }
  }

  /** A pipe that occurs has a descriptor, and a descriptor is counted. */
  lemma {:induction false} CountWitness(t: Table, n: nat, p: nat, e: End)
    requires n <= |t|
    ensures Count(t, n, p, e) > 0 <==> exists i :: 0 <= i < n && EndOf(t[i], p, e)
  {
    if n > 0 {
      CountWitness(t, n - 1, p, e);
    }
  }

  // ----- saving -----

  const NO_FD := FdRec(FdNone, false, false, 0, 0, 0, -1)

  /** The header entry for a descriptor, given its pipe's number. */
  function Record(f: Option<File>, id: int): FdRec {
    if f.None? then NO_FD
    else match f.value.typ
      case FdInode => FdRec(FdInode, f.value.readable, f.value.writable, f.value.inum, f.value.off, 0, -1)
      case FdDevice => FdRec(FdDevice, f.value.readable, f.value.writable, f.value.inum, 0, f.value.major, -1)
      case FdPipe => FdRec(FdPipe, f.value.readable, f.value.writable, 0, 0, 0, id)
      case FdNone => NO_FD
  }

  /** Entries of `fds` up to `n` describe the table, numbering the pipes by their place in `pipes`. */
  ghost predicate Described(t: Table, n: nat, fds: seq<FdRec>, pipes: seq<nat>) {
    && n <= |t| == |fds|
    && (forall j | n <= j < |t| :: fds[j] == NO_FD)
    && (forall j | 0 <= j < n :: fds[j] == Record(t[j], fds[j].pipeId))
    && (forall j | 0 <= j < n && IsPipe(t[j]) ::
        0 <= fds[j].pipeId < |pipes| && pipes[fds[j].pipeId] == t[j].value.pipe)
  }

  ghost predicate Distinct(s: seq<nat>) {
    forall i, j | 0 <= i < j < |s| :: s[i] != s[j]
  }

  /** The reference counts kept for the pipes seen in the first `n` descriptors. */
  ghost predicate Counted(t: Table, n: nat, pipes: seq<nat>, refs: seq<nat>, rrefs: seq<nat>, wrefs: seq<nat>) {
    && n <= |t| && |pipes| == |refs| == |rrefs| == |wrefs| <= n
    && (forall k | 0 <= k < |pipes| ::
          && refs[k] == Count(t, n, pipes[k], Either) > 0
          && rrefs[k] == Count(t, n, pipes[k], ReadEnd)
          && wrefs[k] == Count(t, n, pipes[k], WriteEnd))
    && (forall j | 0 <= j < n && IsPipe(t[j]) :: t[j].value.pipe in pipes)
  }

  /** Nothing wrong has been found in the first `n` descriptors. */
  ghost predicate FineSoFar(t: Table, n: nat) {
    n <= |t| && forall j | 0 <= j < n && t[j].Some? :: t[j].value.typ != FdNone
  }

  /** The number of a pipe, or how many there are if it is new. */
  method FindPipe(pipes: seq<nat>, p: nat) returns (id: nat)
    ensures id <= |pipes| && (id < |pipes| ==> pipes[id] == p) && (id == |pipes| ==> p !in pipes)
  {
    id := 0;
    while id < |pipes|
      invariant id <= |pipes| && forall j | 0 <= j < id :: pipes[j] != p
    {
      if pipes[id] == p {
        return;
      }
      id := id + 1;
    }
  }

  lemma CountedOther(t: Table, n: nat, pipes: seq<nat>, refs: seq<nat>, rrefs: seq<nat>, wrefs: seq<nat>)
    requires n < |t| && Counted(t, n, pipes, refs, rrefs, wrefs) && !IsPipe(t[n])
    ensures Counted(t, n + 1, pipes, refs, rrefs, wrefs)
  {
  }

  function One(b: bool): nat { if b then 1 else 0 }

  /** Counting a descriptor of a pipe that has a number already. */
  lemma CountedAgain(t: Table, n: nat, pipes: seq<nat>, refs: seq<nat>, rrefs: seq<nat>, wrefs: seq<nat>, id: nat)
    requires n < |t| && Counted(t, n, pipes, refs, rrefs, wrefs) && Distinct(pipes)
    requires IsPipe(t[n]) && id < |pipes| && pipes[id] == t[n].value.pipe
    ensures Counted(t, n + 1, pipes, refs[id := refs[id] + 1],
                    rrefs[id := rrefs[id] + One(EndOf(t[n], pipes[id], ReadEnd))],
                        wrefs[id := wrefs[id] + One(EndOf(t[n], pipes[id], WriteEnd))])
  {
  }

  /** ... and of one that is new. */
  lemma CountedNew(t: Table, n: nat, pipes: seq<nat>, refs: seq<nat>, rrefs: seq<nat>, wrefs: seq<nat>)
    requires n < |t| && Counted(t, n, pipes, refs, rrefs, wrefs) && Distinct(pipes)
    requires IsPipe(t[n]) && t[n].value.pipe !in pipes
    ensures var p := t[n].value.pipe;
            && Distinct(pipes + [p])
            && Counted(t, n + 1, pipes + [p], refs + [1], rrefs + [One(EndOf(t[n], p, ReadEnd))],
               wrefs + [One(EndOf(t[n], p, WriteEnd))])
  {
    var p := t[n].value.pipe;
    CountWitness(t, n, p, Either);
    CountSplit(t, n, p);
    forall k | 0 <= k < |pipes|
      ensures pipes[k] != p
    {
    }
    assert Count(t, n, p, Either) == 0;
  }

  /** A descriptor whose pipe has too many ends, or ends that are not one-way, spoils the table. */
  lemma TooMany(t: Table, n: nat, p: nat)
    requires n <= |t| && Count(t, n, p, Either) > 2
    ensures !Acceptable(t)
  {
    CountGrows(t, n, |t|, p, Either);
    CountWitness(t, n, p, Either);
  }

  lemma NotOneWay(t: Table, i: nat)
    requires i < |t| && IsPipe(t[i]) && !OneWay(t[i].value)
    ensures !Acceptable(t)
  {
    assert EndOf(t[i], t[i].value.pipe, Either);
    CountSplit(t, |t|, t[i].value.pipe);
  }

  lemma AllPaired(t: Table, pipes: seq<nat>, refs: seq<nat>, rrefs: seq<nat>, wrefs: seq<nat>)
    requires Counted(t, |t|, pipes, refs, rrefs, wrefs) && FineSoFar(t, |t|)
    requires forall k | 0 <= k < |pipes| :: refs[k] == 2 && rrefs[k] == 1 && wrefs[k] == 1
    ensures Acceptable(t)
  {
    forall i | 0 <= i < |t| && IsPipe(t[i])
      ensures Paired(t, t[i].value.pipe)
    {
      var k :| 0 <= k < |pipes| && pipes[k] == t[i].value.pipe;
      assert refs[k] == 2;
    }
  }

  lemma NotPaired(t: Table, pipes: seq<nat>, refs: seq<nat>, rrefs: seq<nat>, wrefs: seq<nat>, k: nat)
    requires Counted(t, |t|, pipes, refs, rrefs, wrefs) && k < |pipes| &&
             !(refs[k] == 2 && rrefs[k] == 1 && wrefs[k] == 1)
    ensures !Acceptable(t)
  {
    CountWitness(t, |t|, pipes[k], Either);
  }

  /** The descriptor scan of checkpoint_proc(): fills in the header entries, and accepts the table exactly
      when it is Acceptable. `pipes` lists the pipes by number. */
  method Capture(t: Table) returns (ok: bool, fds: seq<FdRec>, pipes: seq<nat>)
    requires |t| == NOFILE
    ensures ok <==> Acceptable(t)
    ensures ok ==> Described(t, NOFILE, fds, pipes) && Distinct(pipes) && |pipes| <= NOFILE
  {
    hide Acceptable, Counted, EndOf;
    fds, pipes := seq(NOFILE, i => NO_FD), [];
    var refs, rrefs, wrefs: seq<nat> := [], [], [];
    var i := 0;
    NoneCounted(t);
    while i < NOFILE
      invariant 0 <= i <= NOFILE && |refs| == |rrefs| == |wrefs| == |pipes| <= i
      invariant Described(t, i, fds, pipes) && Distinct(pipes) && FineSoFar(t, i) &&
                Counted(t, i, pipes, refs, rrefs, wrefs)
    {
      if t[i].None? || t[i].value.typ == FdInode || t[i].value.typ == FdDevice {
        CountedOther(t, i, pipes, refs, rrefs, wrefs);
        fds := fds[i := Record(t[i], -1)];
      } else if t[i].value.typ == FdPipe {
        var id := FindPipe(pipes, t[i].value.pipe);
        var oneWay;
        oneWay, pipes, refs, rrefs, wrefs := AddRef(t[i].value, pipes, refs, rrefs, wrefs, id, t, i);
        if !oneWay {
          NotOneWay(t, i);
          return false, fds, pipes;
        }
        fds := fds[i := Record(t[i], id)];
        if refs[id] > 2 {
          RefIsCount(t, i + 1, pipes, refs, rrefs, wrefs, id);
          TooMany(t, i + 1, pipes[id]);
          return false, fds, pipes;
        }
      } else {
        BadType(t, i);
        return false, fds, pipes;
      }
      i := i + 1;
    }
    var k := 0;
    while k < |pipes|
      invariant 0 <= k <= |pipes| && forall j | 0 <= j < k :: refs[j] == 2 && rrefs[j] == 1 && wrefs[j] == 1
    {
      if refs[k] != 2 || rrefs[k] != 1 || wrefs[k] != 1 {
        NotPaired(t, pipes, refs, rrefs, wrefs, k);
        return false, fds, pipes;
      }
      k := k + 1;
    }
    AllPaired(t, pipes, refs, rrefs, wrefs);
    ok := true;
  }

  /** Counts one more end of pipe number `id`, which is new if it is not below the number of pipes. */
  method AddRef(f: File, pipes0: seq<nat>, refs0: seq<nat>, rrefs0: seq<nat>, wrefs0: seq<nat>, id: nat,
                ghost t: Table, ghost n: nat)
    returns (ok: bool, pipes: seq<nat>, refs: seq<nat>, rrefs: seq<nat>, wrefs: seq<nat>)
    requires n < |t| && Counted(t, n, pipes0, refs0, rrefs0, wrefs0) && Distinct(pipes0) && t[n] == Some(f) &&
             f.typ == FdPipe
    requires id <= |pipes0| && (id < |pipes0| ==> pipes0[id] == f.pipe) && (id == |pipes0| ==> f.pipe !in pipes0)
    ensures ok <==> OneWay(f)
    ensures ok ==> Counted(t, n + 1, pipes, refs, rrefs, wrefs) && Distinct(pipes) && pipes0 <= pipes
    ensures ok ==> id < |pipes| == |refs| == |rrefs| == |wrefs| <= n + 1 && pipes[id] == f.pipe
  {
    EndIs(t[n]);
    pipes, refs, rrefs, wrefs := pipes0, refs0, rrefs0, wrefs0;
    if id == |pipes| {
      CountedNew(t, n, pipes, refs, rrefs, wrefs);
      pipes, refs, rrefs, wrefs := pipes + [f.pipe], refs + [0], rrefs + [0], wrefs + [0];
      assert refs[id := 1] == refs0 + [1] && rrefs[id := 1] == rrefs0 + [1] && wrefs[id := 1] == wrefs0 + [1];
    } else {
      CountedAgain(t, n, pipes, refs, rrefs, wrefs, id);
      assert rrefs[id := rrefs[id]] == rrefs && wrefs[id := wrefs[id]] == wrefs;
    }
    hide Counted, EndOf;
    refs := refs[id := refs[id] + 1];
    if f.readable && !f.writable {
      rrefs := rrefs[id := rrefs[id] + 1];
    } else if !f.readable && f.writable {
      wrefs := wrefs[id := wrefs[id] + 1];
    } else {
      return false, pipes, refs, rrefs, wrefs;
    }
    ok := true;
  }

  lemma RefIsCount(t: Table, n: nat, pipes: seq<nat>, refs: seq<nat>, rrefs: seq<nat>, wrefs: seq<nat>, k: nat)
    requires Counted(t, n, pipes, refs, rrefs, wrefs) && k < |pipes|
    ensures refs[k] == Count(t, n, pipes[k], Either)
  {
  }

  lemma BadType(t: Table, i: nat)
    requires i < |t| && t[i].Some? && t[i].value.typ == FdNone
    ensures !Acceptable(t)
  {
  }

  lemma NoneCounted(t: Table)
    ensures Counted(t, 0, [], [], [], [])
  {
  }

  lemma EndIs(f: Option<File>)
    requires IsPipe(f)
    ensures EndOf(f, f.value.pipe, Either)
    ensures EndOf(f, f.value.pipe, ReadEnd) <==> f.value.readable && !f.value.writable
    ensures EndOf(f, f.value.pipe, WriteEnd) <==> !f.value.readable && f.value.writable
  {
  }

  // ----- restoring -----

  predicate Piped(r: FdRec) { r.typ == FdPipe }

  /** `mate` pairs the pipe entries of a header: same number, one to read and one to write, and no third. */
  ghost predicate Mates(fds: seq<FdRec>, mate: seq<nat>) {
    && |fds| == |mate|
    && (forall i | 0 <= i < |fds| && Piped(fds[i]) ::
          && mate[i] < |fds| && mate[i] != i && mate[mate[i]] == i
          && Piped(fds[mate[i]]) && fds[mate[i]].pipeId == fds[i].pipeId
          && fds[i].readable != fds[i].writable && fds[mate[i]].readable == fds[i].writable &&
             fds[mate[i]].writable == fds[i].readable)
    && (forall i, j | 0 <= i < |fds| && 0 <= j < |fds| && Piped(fds[i]) && Piped(fds[j]) &&
        fds[j].pipeId == fds[i].pipeId :: j == i || j == mate[i])
  }

  /** What the first pass makes of an entry: a file for an inode or a device, nothing yet for a pipe. */
  function Opened(r: FdRec): Option<File> {
    if r.typ == FdInode || r.typ == FdDevice then Some(File(r.typ, r.readable, r.writable, r.inum, r.off, r.major, 0))
        else None
  }

  /** The end of pipe `p` that an entry stands for. */
  function PipeEnd(r: FdRec, p: nat): Option<File> {
    Some(File(FdPipe, r.readable, r.writable, 0, 0, 0, p))
  }

  /** The pipe of a descriptor that has one; -1 otherwise. */
  function PipeAt(f: Option<File>): int { if IsPipe(f) then f.value.pipe else -1 }

  ghost predicate RebuiltEach(fds: seq<FdRec>, mate: seq<nat>, t: Table, n: nat, next: nat) {
    && n <= |fds| == |t| == |mate|
    && (forall i | 0 <= i < |fds| && !Piped(fds[i]) :: t[i] == Opened(fds[i]))
    && (forall i | 0 <= i < |fds| && Piped(fds[i]) && t[i].Some? ::
        PipeAt(t[i]) < next && t[i] == PipeEnd(fds[i], t[i].value.pipe))
    && (forall i | 0 <= i < n && Piped(fds[i]) :: t[i].Some?)
    && (forall i | 0 <= i < |fds| && Piped(fds[i]) && mate[i] < |fds| ::
          (t[i].Some? <==> t[mate[i]].Some?) && (t[i].Some? ==> PipeAt(t[i]) == PipeAt(t[mate[i]])))
  }

  /** The pipe entries restored so far: complete pairs, including all entries below `n`, each pair with a
      pipe of its own numbered below `next`. */
  ghost predicate Rebuilt(fds: seq<FdRec>, mate: seq<nat>, t: Table, n: nat, next: nat) {
    && RebuiltEach(fds, mate, t, n, next)
    && (forall i, j | 0 <= i < |fds| && 0 <= j < |fds| && Piped(fds[i]) && Piped(fds[j]) && t[i].Some? && t[j].Some? &&
        PipeAt(t[i]) == PipeAt(t[j]) ::
          j == i || j == mate[i])
  }

  /** The files of a header: entry by entry the same, and pipes shared exactly where the numbers are equal. */
  ghost predicate Restored(fds: seq<FdRec>, t: Table) {
    && |t| == |fds|
    && (forall i | 0 <= i < |fds| && !Piped(fds[i]) :: t[i] == Opened(fds[i]))
    && (forall i | 0 <= i < |fds| && Piped(fds[i]) :: t[i].Some? && t[i] == PipeEnd(fds[i], t[i].value.pipe))
    && (forall i, j | 0 <= i < |fds| && 0 <= j < |fds| && Piped(fds[i]) && Piped(fds[j]) ::
          PipeAt(t[i]) == PipeAt(t[j]) <==> fds[i].pipeId == fds[j].pipeId)
  }

  lemma RebuiltAll(fds: seq<FdRec>, mate: seq<nat>, t: Table, next: nat)
    requires Mates(fds, mate) && Rebuilt(fds, mate, t, |fds|, next)
    ensures Restored(fds, t)
  {
  }

  lemma RebuiltNext(fds: seq<FdRec>, mate: seq<nat>, t: Table, n: nat, next: nat)
    requires Rebuilt(fds, mate, t, n, next) && n < |fds| && (Piped(fds[n]) ==> t[n].Some?)
    ensures Rebuilt(fds, mate, t, n + 1, next)
  {
  }

  lemma RebuiltPair(fds: seq<FdRec>, mate: seq<nat>, t: Table, n: nat, next: nat)
    requires Mates(fds, mate) && Rebuilt(fds, mate, t, n, next) && n < |fds| && Piped(fds[n]) && t[n].None?
    ensures n < mate[n] && t[mate[n]].None?
    ensures Rebuilt(fds, mate, t[n := PipeEnd(fds[n], next)][mate[n] := PipeEnd(fds[mate[n]], next)], n + 1, next + 1)
  {
    PairEach(fds, mate, t, n, next);
    hide Opened;
    var u := t[n := PipeEnd(fds[n], next)][mate[n] := PipeEnd(fds[mate[n]], next)];
    assert forall i | 0 <= i < |u| && i != n && i != mate[n] :: u[i] == t[i];
    assert PipeAt(u[n]) == next && PipeAt(u[mate[n]]) == next;
  }

  lemma PairEach(fds: seq<FdRec>, mate: seq<nat>, t: Table, n: nat, next: nat)
    requires Mates(fds, mate) && RebuiltEach(fds, mate, t, n, next) && n < |fds| && Piped(fds[n]) && t[n].None?
    ensures n < mate[n] && t[mate[n]].None?
    ensures RebuiltEach(fds, mate, t[n := PipeEnd(fds[n], next)][mate[n] := PipeEnd(fds[mate[n]], next)], n + 1,
            next + 1)
  {
    hide Opened;
  }

  /** The pipe entries with number `x`, ... */
  ghost function Numbered(fds: seq<FdRec>, x: int): set<nat> {
    set i | 0 <= i < |fds| && Piped(fds[i]) && fds[i].pipeId == x
  }

  /** ... and those of them that have no file yet. */
  ghost function Unfilled(fds: seq<FdRec>, t: Table, x: int): set<nat> {
    set i | i in Numbered(fds, x) && i < |t| && t[i].None?
  }

  /** Pipe numbers come in twos, and every pipe entry is to read or to write. */
  ghost predicate Pairable(fds: seq<FdRec>) {
    && (forall x {:trigger Numbered(fds, x)} :: |Numbered(fds, x)| % 2 == 0)
    && (forall i | 0 <= i < |fds| && Piped(fds[i]) :: fds[i].readable != fds[i].writable)
  }

  /** Entries that are paired come in twos. */
  lemma MatesPair(fds: seq<FdRec>, mate: seq<nat>)
    requires Mates(fds, mate)
    ensures Pairable(fds)
  {
    forall x
      ensures |Numbered(fds, x)| % 2 == 0
    {
      if i :| i in Numbered(fds, x) {
        assert Numbered(fds, x) == {i, mate[i]};
      } else {
        assert Numbered(fds, x) == {};
      }
    }
  }

  /** Entries have been filled in twos, all below `n` are, and those that are, are one-way. */
  ghost predicate FilledByTwos(fds: seq<FdRec>, t: Table, n: nat) {
    && n <= |fds| == |t|
    && (forall x {:trigger Unfilled(fds, t, x)} :: |Unfilled(fds, t, x)| % 2 == |Numbered(fds, x)| % 2)
    && (forall i | 0 <= i < n && Piped(fds[i]) :: t[i].Some?)
    && (forall i | 0 <= i < |fds| && Piped(fds[i]) && t[i].Some? :: fds[i].readable != fds[i].writable)
  }

  lemma NoneFilled(fds: seq<FdRec>, t: Table)
    requires |t| == |fds| && forall i | 0 <= i < |fds| && Piped(fds[i]) :: t[i].None?
    ensures FilledByTwos(fds, t, 0)
  {
    forall x
      ensures |Unfilled(fds, t, x)| % 2 == |Numbered(fds, x)| % 2
    {
      assert Unfilled(fds, t, x) == Numbered(fds, x);
    }
  }

  lemma TwoFilled(fds: seq<FdRec>, t: Table, i: nat, j: nat, f: Option<File>, g: Option<File>)
    requires FilledByTwos(fds, t, i) && i < j < |fds| && Piped(fds[i]) && Piped(fds[j]) &&
             fds[j].pipeId == fds[i].pipeId
    requires t[i].None? && t[j].None? && f.Some? && g.Some?
    requires fds[i].readable != fds[i].writable && fds[j].readable != fds[j].writable
    ensures FilledByTwos(fds, t[i := f][j := g], i + 1)
  {
    hide Numbered, Unfilled;
    var u := t[i := f][j := g];
    forall x
      ensures |Unfilled(fds, u, x)| % 2 == |Numbered(fds, x)| % 2
    {
      TwoFewer(fds, t, i, j, f, g, x);
      assert |Unfilled(fds, t, x)| % 2 == |Numbered(fds, x)| % 2;
    }
  }

  lemma TwoFewer(fds: seq<FdRec>, t: Table, i: nat, j: nat, f: Option<File>, g: Option<File>, x: int)
    requires |t| == |fds| && i < j < |fds| && Piped(fds[i]) && Piped(fds[j]) && fds[j].pipeId == fds[i].pipeId
    requires t[i].None? && t[j].None? && f.Some? && g.Some?
    ensures |Unfilled(fds, t[i := f][j := g], x)| == |Unfilled(fds, t, x)| - if x == fds[i].pipeId then 2 else 0
  {
    var u, all := t[i := f][j := g], Unfilled(fds, t, x);
    if x == fds[i].pipeId {
      assert i in all && j in all - {i};
      assert Unfilled(fds, u, x) == all - {i} - {j};
    } else {
      assert Unfilled(fds, u, x) == all;
    }
  }

  lemma NextFilled(fds: seq<FdRec>, t: Table, i: nat)
    requires FilledByTwos(fds, t, i) && i < |fds| && (Piped(fds[i]) ==> t[i].Some?)
    ensures FilledByTwos(fds, t, i + 1)
  {
  }

  /** The last one of its number, without a partner. */
  lemma OneLeft(fds: seq<FdRec>, t: Table, i: nat)
    requires FilledByTwos(fds, t, i) && i < |fds| && Piped(fds[i]) && t[i].None?
    requires forall k | i < k < |fds| :: !(Piped(fds[k]) && fds[k].pipeId == fds[i].pipeId && t[k].None?)
    ensures !Pairable(fds)
  {
    var x := fds[i].pipeId;
    assert Unfilled(fds, t, x) == {i};
    assert |Numbered(fds, x)| % 2 == 1;
  }

  lemma AllFilled(fds: seq<FdRec>, t: Table)
    requires FilledByTwos(fds, t, |fds|)
    ensures Pairable(fds)
  {
    forall x
      ensures |Numbered(fds, x)| % 2 == 0
    {
      assert Unfilled(fds, t, x) == {};
    }
  }

  /** The descriptor part of restore_proc(), when no allocation fails. It succeeds exactly when the pipe
      numbers of the header come in twos and every pipe entry is one-way; from the header of a saved table
      it makes the same table again. */
  method Restore(fds: seq<FdRec>, ghost mate: seq<nat>) returns (ok: bool, t: Table)
    requires |fds| == NOFILE
    ensures ok <==> Pairable(fds)
    ensures Mates(fds, mate) ==> ok && Restored(fds, t)
  {
    hide Rebuilt, Mates, Restored, FilledByTwos, Pairable;
    t := OpenAll(fds, mate);
    NoneFilled(fds, t);
    var next := 0;
    var i := 0;
    while i < NOFILE
      invariant 0 <= i <= NOFILE && |t| == NOFILE && FilledByTwos(fds, t, i)
      invariant Mates(fds, mate) ==> Rebuilt(fds, mate, t, i, next)
    {
      if Piped(fds[i]) && t[i].None? {
        if Mates(fds, mate) {
          RebuiltPair(fds, mate, t, i, next);
        }
        var partner := FindPartner(fds, t, i, mate);
        if partner < 0 || fds[i].readable == fds[i].writable || fds[partner].readable == fds[partner].writable {
          NotMated(fds, mate, t, i, partner);
          if partner < 0 {
            OneLeft(fds, t, i);
          } else {
            NotOneWayEntry(fds, i, partner);
          }
          return false, t;
        }
        TwoFilled(fds, t, i, partner, PipeEnd(fds[i], next), PipeEnd(fds[partner], next));
        t := t[i := PipeEnd(fds[i], next)][partner := PipeEnd(fds[partner], next)];
        next := next + 1;
      } else {
        NextFilled(fds, t, i);
        if Mates(fds, mate) {
          RebuiltNext(fds, mate, t, i, next);
        }
      }
      i := i + 1;
    }
    ok := true;
    AllFilled(fds, t);
    if Mates(fds, mate) {
      RebuiltAll(fds, mate, t, next);
    }
  }

  /** The first pass: opens inodes and devices. */
  method OpenAll(fds: seq<FdRec>, ghost mate: seq<nat>) returns (t: Table)
    requires |fds| == NOFILE
    ensures |t| == NOFILE && (Mates(fds, mate) ==> Rebuilt(fds, mate, t, 0, 0))
    ensures forall i | 0 <= i < NOFILE && Piped(fds[i]) :: t[i].None?
  {
    t := [];
    var i := 0;
    while i < NOFILE
      invariant 0 <= i == |t| <= NOFILE && forall j | 0 <= j < i :: t[j] == Opened(fds[j])
    {
      t := t + [Opened(fds[i])];
      i := i + 1;
    }
  }

  /** The next entry with the pipe number of entry `i` that has no file yet; -1 if there is none. */
  method FindPartner(fds: seq<FdRec>, t: Table, i: nat, ghost mate: seq<nat>) returns (j: int)
    requires i < NOFILE == |fds| == |t|
    ensures j == -1 || (i < j < NOFILE && Piped(fds[j]) && fds[j].pipeId == fds[i].pipeId && t[j].None?)
    ensures j == -1 ==> forall k | i < k < NOFILE :: !(Piped(fds[k]) && fds[k].pipeId == fds[i].pipeId && t[k].None?)
    ensures Mates(fds, mate) && Piped(fds[i]) && i < mate[i] && t[mate[i]].None? ==> j == mate[i]
  {
    j := i + 1;
    while j < NOFILE
      invariant i < j <= NOFILE
      invariant forall k | i < k < j :: !(Piped(fds[k]) && fds[k].pipeId == fds[i].pipeId && t[k].None?)
    {
      if Piped(fds[j]) && fds[j].pipeId == fds[i].pipeId && t[j].None? {
        return;
      }
      j := j + 1;
    }
    j := -1;
  }

  lemma NotOneWayEntry(fds: seq<FdRec>, i: nat, j: nat)
    requires i < |fds| && j < |fds| && Piped(fds[i]) && Piped(fds[j])
    requires fds[i].readable == fds[i].writable || fds[j].readable == fds[j].writable
    ensures !Pairable(fds)
  {
    assert Piped(fds[i]) && Piped(fds[j]);
  }

  lemma NotMated(fds: seq<FdRec>, mate: seq<nat>, t: Table, i: nat, j: int)
    requires i < |fds| == |t| && Piped(fds[i]) && (j < 0 || (j < |fds| && Piped(fds[j])))
    requires j < 0 || fds[i].readable == fds[i].writable || fds[j].readable == fds[j].writable
    requires Mates(fds, mate) ==> j == mate[i]
    ensures !Mates(fds, mate)
  {
  }

  // ----- the round trip -----

  /** The one descriptor that is such an end of the pipe. */
  ghost function The(t: Table, n: nat, p: nat, e: End): (i: nat)
    requires n <= |t| && Count(t, n, p, e) == 1
    ensures i < n && EndOf(t[i], p, e) && forall j | 0 <= j < n && EndOf(t[j], p, e) :: j == i
  {
    if EndOf(t[n - 1], p, e) then
      CountWitness(t, n - 1, p, e);
      n - 1
    else The(t, n - 1, p, e)
  }

  /** The other end of the pipe of a descriptor. */
  ghost function OtherEnd(t: Table, i: nat): nat
    requires i < |t|
  {
    if !IsPipe(t[i]) || !Paired(t, t[i].value.pipe) then 0
    else The(t, |t|, t[i].value.pipe, if t[i].value.readable then WriteEnd else ReadEnd)
  }

  lemma OtherEndIs(t: Table, i: nat)
    requires Acceptable(t) && i < |t| && IsPipe(t[i])
    ensures var j := OtherEnd(t, i);
            && j < |t| && j != i && IsPipe(t[j]) && t[j].value.pipe == t[i].value.pipe && OtherEnd(t, j) == i
            && t[i].value.readable != t[i].value.writable && t[j].value.readable == t[i].value.writable &&
               t[j].value.writable == t[i].value.readable
            && forall k | 0 <= k < |t| && IsPipe(t[k]) && t[k].value.pipe == t[i].value.pipe :: k == i || k == j
  {
    var p := t[i].value.pipe;
    var r, w := The(t, |t|, p, ReadEnd), The(t, |t|, p, WriteEnd);
    forall k | 0 <= k < |t| && IsPipe(t[k]) && t[k].value.pipe == p
      ensures k == r || k == w
    {
      assert EndOf(t[k], p, Either);
      CountSplit(t, |t|, p);
      assert OneWay(t[k].value);
      EndIs(t[k]);
    }
  }

  /** The other end of each descriptor. */
  ghost function Partners(t: Table): (p: seq<nat>)
    ensures |p| == |t| && forall i | 0 <= i < |t| :: p[i] == OtherEnd(t, i)
  {
    seq(|t|, i requires 0 <= i < |t| => OtherEnd(t, i))
  }

  lemma MatesOf(t: Table, fds: seq<FdRec>, pipes: seq<nat>)
    requires Acceptable(t) && Described(t, |t|, fds, pipes) && Distinct(pipes)
    ensures Mates(fds, Partners(t))
  {
    var mate := Partners(t);
    forall i | 0 <= i < |fds| && Piped(fds[i])
      ensures IsPipe(t[i])
    {
      assert fds[i] == Record(t[i], fds[i].pipeId);
    }
    forall i, j | 0 <= i < |fds| && 0 <= j < |fds| && Piped(fds[i]) && Piped(fds[j])
      ensures fds[i].pipeId == fds[j].pipeId <==> t[i].value.pipe == t[j].value.pipe
    {
    }
    hide Acceptable, OtherEnd, Paired;
    forall i | 0 <= i < |fds| && Piped(fds[i])
      ensures var j := mate[i];
              && j < |fds| && j != i && mate[j] == i && Piped(fds[j]) && fds[j].pipeId == fds[i].pipeId
              && fds[i].readable != fds[i].writable && fds[j].readable == fds[i].writable &&
                 fds[j].writable == fds[i].readable
              && forall k | 0 <= k < |fds| && Piped(fds[k]) && fds[k].pipeId == fds[i].pipeId :: k == i || k == j
    {
      OtherEndIs(t, i);
    }
  }

  /** Two tables are the same but for which pipes they use: same descriptors open, each of the same type and
      direction, on the same inode at the same offset or device number, and sharing pipes in the same way. */
  ghost predicate SameGraph(t: Table, u: Table) {
    && |u| == |t|
    && (forall i | 0 <= i < |t| :: u[i].Some? <==> t[i].Some?)
    && (forall i | 0 <= i < |t| && t[i].Some? ::
          var f, g := t[i].value, u[i].value;
          && g.typ == f.typ && g.readable == f.readable && g.writable == f.writable
          && (f.typ != FdPipe ==> g.inum == f.inum)
          && (f.typ == FdInode ==> g.off == f.off) && (f.typ == FdDevice ==> g.major == f.major))
    && (forall i, j | 0 <= i < |t| && 0 <= j < |t| && IsPipe(t[i]) && IsPipe(t[j]) ::
          PipeAt(u[i]) == PipeAt(u[j]) <==> PipeAt(t[i]) == PipeAt(t[j]))
  }

  lemma SameGraphOf(t: Table, fds: seq<FdRec>, pipes: seq<nat>, u: Table)
    requires Acceptable(t) && Described(t, |t|, fds, pipes) && Distinct(pipes) && Restored(fds, u)
    ensures SameGraph(t, u)
  {
    forall i | 0 <= i < |t|
      ensures Piped(fds[i]) <==> IsPipe(t[i])
    {
      assert fds[i] == Record(t[i], fds[i].pipeId);
    }
  }

  /** Saving and restoring: a table is saved exactly when it is Acceptable, and what comes back is the same graph. */
  method RoundTrip(t: Table) returns (saved: bool, restored: bool, u: Table)
    requires |t| == NOFILE
    ensures saved <==> Acceptable(t)
    ensures saved ==> restored && SameGraph(t, u)
  {
    hide Acceptable, SameGraph, Mates, Restored, Described;
    u, restored := t, false;
    var fds, pipes;
    saved, fds, pipes := Capture(t);
    if saved {
      MatesOf(t, fds, pipes);
      DescribedSize(t, fds, pipes);
      restored, u := Restore(fds, Partners(t));
      SameGraphOf(t, fds, pipes, u);
    }
  }

  lemma DescribedSize(t: Table, fds: seq<FdRec>, pipes: seq<nat>)
    requires Described(t, |t|, fds, pipes)
    ensures |fds| == |t|
  {
  }
}
