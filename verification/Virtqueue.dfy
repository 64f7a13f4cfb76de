/** The driver's side of the disk's virtqueue (kernel/virtio_disk.c; sections 2.6 and 5.2 of VIRTIO 1.1)
    as values: descriptors, the two rings, and the requests they stand for. */
module Virtqueue {
  import opened Common
  import opened Blocks

  const NUM := 8
  const F_NEXT := 1    // VRING_DESC_F_NEXT
  const F_WRITE := 2   // VRING_DESC_F_WRITE

  /** What a descriptor points to. */
  datatype Addr = Null | Header(i: nat) | Data(buf: nat) | Status(head: nat)

  datatype Desc = Desc(addr: Addr, len: nat, flags: nat, next: nat)

  /** A command header: the type and sector of a request. */
  datatype Op = Op(write: bool, sector: nat)

  /** The driver's note for a chain: the buffer (0 for none) and the status byte the device writes. */
  datatype Info = Info(b: nat, status: nat)

  /** How far a request has come: stored in the available ring, but beyond its index; within the index;
      taken by the device; finished by it; and seen to be finished by the driver. The numbers count entries
      of the available and the used ring from the start. */
  datatype Phase = Placed | Queued(n: nat) | Taken | Done(n: nat) | Seen

  /** A request in flight: its other two descriptors, the buffer, and what is asked. */
  datatype Request = Request(d1: nat, d2: nat, buf: nat, op: Op, phase: Phase)

  /** Who has a descriptor. */
  datatype Owner = Spare | Loose | Part(head: nat)

  /** The shared memory and the driver's books, and the requests behind them. `queued`, `taken`,
      `completed` and `seen` count ring entries written by the driver, read by the device, written by
      the device and read by the driver. */
  datatype Queue = Queue(free: seq<bool>, desc: seq<Desc>, ops: seq<Op>, info: seq<Info>,
                         avail: seq<nat>, used: seq<nat>, busy: set<nat>, owner: seq<Owner>,
                         reqs: map<nat, Request>, queued: nat, taken: nat, completed: nat, seen: nat)

  // ----- the invariant -----

  ghost predicate Shaped(s: Queue) {
    NUM == |s.free| == |s.desc| == |s.ops| == |s.info| == |s.avail| == |s.used| == |s.owner|
  }

  /** Each descriptor is free, just allocated, or one of the three of one request. */
  ghost predicate Owned(s: Queue) {
    && Shaped(s)
    && (forall i | 0 <= i < NUM :: s.free[i] <==> s.owner[i] == Spare)
    && (forall i | 0 <= i < NUM && s.owner[i].Part? ::
          s.owner[i].head in s.reqs &&
              (i == s.owner[i].head || i == s.reqs[s.owner[i].head].d1 || i == s.reqs[s.owner[i].head].d2))
    && (forall h | h in s.reqs :: Three(s, h))
  }

  ghost predicate Three(s: Queue, h: nat)
    requires Shaped(s) && h in s.reqs
  {
    var r := s.reqs[h];
    && h < NUM && r.d1 < NUM && r.d2 < NUM && h != r.d1 && h != r.d2 && r.d1 != r.d2
    && s.owner[h] == Part(h) && s.owner[r.d1] == Part(h) && s.owner[r.d2] == Part(h)
  }

  /** The descriptors, the command header and the note of request `h` say what was asked. */
  ghost predicate Formatted(s: Queue, h: nat)
    requires Shaped(s)
  {
    h in s.reqs && h < NUM && s.reqs[h].d1 < NUM && s.reqs[h].d2 < NUM &&
    var r := s.reqs[h];
    && s.desc[h] == Desc(Header(h), 16, F_NEXT, r.d1)
    && s.desc[r.d1] == Desc(Data(r.buf), BSIZE, if r.op.write then F_NEXT else F_WRITE + F_NEXT, r.d2)
    && s.desc[r.d2] == Desc(Status(h), 1, F_WRITE, 0)
    && s.ops[h] == r.op && s.info[h].b == r.buf && r.buf != 0
    && (r.phase.Placed? ==> Slot(s.avail, s.queued) == h) && (r.phase.Seen? ==> s.info[h].status == 0)
    && (r.buf in s.busy <==> !r.phase.Seen?)
  }

  ghost predicate AllFormatted(s: Queue) {
    && Shaped(s)
    && (forall h | h in s.reqs :: Formatted(s, h))
    && (forall g, h | g in s.reqs && h in s.reqs && s.reqs[g].buf == s.reqs[h].buf :: g == h)
  }

  function Slot(ring: seq<nat>, n: nat): nat
    requires |ring| == NUM
  {
    ring[n % NUM]
  }

  /** Entries lo..hi of a ring list exactly the requests in `at`, each at its number. */
  ghost predicate Lists(ring: seq<nat>, at: map<nat, nat>, lo: nat, hi: nat) {
    && |ring| == NUM && lo <= hi <= lo + NUM
    && (forall n: nat {:trigger Slot(ring, n)} | lo <= n < hi :: Slot(ring, n) in at && at[Slot(ring, n)] == n)
    && (forall h | h in at :: lo <= at[h] < hi && Slot(ring, at[h]) == h)
  }

  ghost function QueuedAt(reqs: map<nat, Request>): map<nat, nat> {
    map h | h in reqs && reqs[h].phase.Queued? :: reqs[h].phase.n
  }

  ghost function DoneAt(reqs: map<nat, Request>): map<nat, nat> {
    map h | h in reqs && reqs[h].phase.Done? :: reqs[h].phase.n
  }

  /** The available ring lists the queued requests, the used ring the completed ones the driver has not seen. */
  ghost predicate Rings(s: Queue) {
    Lists(s.avail, QueuedAt(s.reqs), s.taken, s.queued) && Lists(s.used, DoneAt(s.reqs), s.seen, s.completed)
  }

  ghost predicate Valid(s: Queue) {
    Owned(s) && AllFormatted(s) && Rings(s)
  }

  // ----- arithmetic of the rings -----

  /** Sixteen-bit indices tell apart counts that are at most NUM apart, and find the right slot. */
  lemma WrapIndex(lo: nat, hi: nat)
    requires lo <= hi <= lo + NUM
    ensures lo % 0x1_0000 == hi % 0x1_0000 <==> lo == hi
    ensures lo % 0x1_0000 % NUM == lo % NUM
  {
    var q := lo / 0x1_0000;
    assert lo % 0x1_0000 == lo - 0x1_0000 * q;
    assert lo % NUM == (lo - 8 * (8192 * q)) % 8;
  }

  lemma SlotsDiffer(m: nat, n: nat)
    requires m < n < m + NUM
    ensures m % NUM != n % NUM
  {
  }

  /** There are at most `k` different numbers below `k`. */
  lemma {:induction false} Pigeons(s: seq<nat>, k: nat)
    requires (forall i | 0 <= i < |s| :: s[i] < k) && forall i, j | 0 <= i < j < |s| :: s[i] != s[j]
    ensures |s| <= k
  {
    assert |s| > 0 ==> s[0] < k;
    if k > 0 && k - 1 in s {
      var i :| 0 <= i < |s| && s[i] == k - 1;
      Pigeons(s[..i] + s[i + 1..], k - 1);
    } else if k > 0 {
      Pigeons(s, k - 1);
    }
  }

  /** A request that a ring does not list leaves room in the ring. */
  lemma HasRoom(ring: seq<nat>, at: map<nat, nat>, lo: nat, hi: nat, h: nat)
    requires Lists(ring, at, lo, hi) && h !in at && h < NUM && forall g | g in at :: g < NUM
    ensures hi < lo + NUM
  {
    if hi == lo + NUM {
      var heads := [h] + seq(NUM, i requires 0 <= i => Slot(ring, lo + i));
      forall i | 1 <= i < |heads|
        ensures heads[i] in at && at[heads[i]] == lo + i - 1
      {
        assert heads[i] == Slot(ring, lo + (i - 1));
      }
      Pigeons(heads, NUM);
    }
  }

  /** Storing an entry beyond the end of a ring that has room overwrites no live entry. */
  lemma Store(ring: seq<nat>, at: map<nat, nat>, lo: nat, hi: nat, h: nat)
    requires Lists(ring, at, lo, hi) && hi < lo + NUM
    ensures var next := ring[hi % NUM := h]; Lists(next, at, lo, hi) && Slot(next, hi) == h
  {
    var next := ring[hi % NUM := h];
    forall n: nat | lo <= n < hi
      ensures Slot(next, n) == Slot(ring, n)
    {
      SlotsDiffer(n, hi);
    }
  }

  lemma Extend(ring: seq<nat>, at: map<nat, nat>, lo: nat, hi: nat, h: nat)
    requires Lists(ring, at, lo, hi) && h !in at && hi < lo + NUM && Slot(ring, hi) == h
    ensures Lists(ring, at[h := hi], lo, hi + 1)
  {
  }

  lemma Push(ring: seq<nat>, at: map<nat, nat>, lo: nat, hi: nat, h: nat)
    requires Lists(ring, at, lo, hi) && h !in at && hi < lo + NUM
    ensures Lists(ring[hi % NUM := h], at[h := hi], lo, hi + 1)
  {
    hide Lists;
    ListsRing(ring, at, lo, hi);
    Store(ring, at, lo, hi, h);
    Extend(ring[hi % NUM := h], at, lo, hi, h);
  }

  lemma ListsRing(ring: seq<nat>, at: map<nat, nat>, lo: nat, hi: nat)
    requires Lists(ring, at, lo, hi)
    ensures |ring| == NUM
  {
  }

  lemma Pop(ring: seq<nat>, at: map<nat, nat>, lo: nat, hi: nat)
    requires Lists(ring, at, lo, hi) && lo < hi
    ensures Slot(ring, lo) in at && Lists(ring, at - {Slot(ring, lo)}, lo + 1, hi)
  {
  }

  // ----- the steps -----

  function WithPhase(r: Request, p: Phase): Request { Request(r.d1, r.d2, r.buf, r.op, p) }

  /** The driver formats the loose descriptors i0, i1, i2 as a request and stores it in the next slot of the
      available ring, where the device does not look yet. */
  function Place(s: Queue, i0: nat, i1: nat, i2: nat, b: nat, op: Op): Queue
    requires Shaped(s) && i0 < NUM && i1 < NUM && i2 < NUM
  {
    Queue(s.free,
          s.desc[i0 := Desc(Header(i0), 16, F_NEXT, i1)][i1 :=
              Desc(Data(b), BSIZE, if op.write then F_NEXT else F_WRITE + F_NEXT, i2)]
                [i2 := Desc(Status(i0), 1, F_WRITE, 0)],
          s.ops[i0 := op], s.info[i0 := Info(b, 0xff)], s.avail[s.queued % NUM := i0], s.used, s.busy + {b},
          s.owner[i0 := Part(i0)][i1 := Part(i0)][i2 := Part(i0)],
          s.reqs[i0 := Request(i1, i2, b, op, Placed)], s.queued, s.taken, s.completed, s.seen)
  }

  /** Three distinct descriptors allocated but not yet used, a buffer with no request, and no other request
      half way into the ring. */
  ghost predicate MayPlace(s: Queue, i0: nat, i1: nat, i2: nat, b: nat) {
    && Shaped(s) && i0 < NUM && i1 < NUM && i2 < NUM && i0 != i1 && i0 != i2 && i1 != i2
    && s.owner[i0] == Loose && s.owner[i1] == Loose && s.owner[i2] == Loose
    && b != 0 && forall h | h in s.reqs :: s.reqs[h].buf != b && !s.reqs[h].phase.Placed?
  }

  lemma PlaceThree(s: Queue, i0: nat, i1: nat, i2: nat, b: nat, op: Op, h: nat)
    requires MayPlace(s, i0, i1, i2, b) && h in s.reqs && Three(s, h)
    ensures h != i0 && Three(Place(s, i0, i1, i2, b, op), h)
  {
  }

  lemma PlaceOwned(s: Queue, i0: nat, i1: nat, i2: nat, b: nat, op: Op)
    requires Owned(s) && MayPlace(s, i0, i1, i2, b)
    ensures Owned(Place(s, i0, i1, i2, b, op)) && i0 !in s.reqs
  {
    var t := Place(s, i0, i1, i2, b, op);
    assert Three(t, i0) && Shaped(t) && t.free == s.free;
    assert t.owner == s.owner[i0 := Part(i0)][i1 := Part(i0)][i2 := Part(i0)];
    assert t.reqs == s.reqs[i0 := Request(i1, i2, b, op, Placed)];
    hide Place, Three;
    forall h | h in s.reqs
      ensures h != i0 && Three(t, h)
    {
      PlaceThree(s, i0, i1, i2, b, op, h);
    }
  }

  lemma PlaceOther(s: Queue, i0: nat, i1: nat, i2: nat, b: nat, op: Op, h: nat)
    requires MayPlace(s, i0, i1, i2, b) && h in s.reqs && Three(s, h) && Formatted(s, h)
    ensures Formatted(Place(s, i0, i1, i2, b, op), h)
  {
    var r := s.reqs[h];
    assert {h, r.d1, r.d2} !! {i0, i1, i2};
  }

  lemma PlaceFormatted(s: Queue, i0: nat, i1: nat, i2: nat, b: nat, op: Op)
    requires Owned(s) && AllFormatted(s) && MayPlace(s, i0, i1, i2, b)
    ensures AllFormatted(Place(s, i0, i1, i2, b, op))
  {
    var t := Place(s, i0, i1, i2, b, op);
    assert Formatted(t, i0);
    assert t.reqs == s.reqs[i0 := Request(i1, i2, b, op, Placed)] && Shaped(t);
    hide Place, Formatted;
    forall h | h in t.reqs
      ensures Formatted(t, h)
    {
      if h != i0 {
        PlaceOther(s, i0, i1, i2, b, op, h);
      }
    }
  }

  /** What giving one request a new phase does to the two lists. */
  lemma PhaseMaps(reqs: map<nat, Request>, h: nat, r: Request)
    ensures QueuedAt(reqs[h := r]) == if r.phase.Queued? then QueuedAt(reqs)[h := r.phase.n] else QueuedAt(reqs) - {h}
    ensures DoneAt(reqs[h := r]) == if r.phase.Done? then DoneAt(reqs)[h := r.phase.n] else DoneAt(reqs) - {h}
    ensures h !in reqs || !reqs[h].phase.Queued? ==> h !in QueuedAt(reqs) && QueuedAt(reqs) - {h} == QueuedAt(reqs)
    ensures h !in reqs || !reqs[h].phase.Done? ==> h !in DoneAt(reqs) && DoneAt(reqs) - {h} == DoneAt(reqs)
    ensures forall g | g in QueuedAt(reqs) || g in DoneAt(reqs) :: g in reqs
  {
  }

  lemma PlaceRings(s: Queue, i0: nat, i1: nat, i2: nat, b: nat, op: Op)
    requires Owned(s) && Rings(s) && MayPlace(s, i0, i1, i2, b)
    ensures Rings(Place(s, i0, i1, i2, b, op))
  {
    PlaceOwned(s, i0, i1, i2, b, op);
    Heads(s);
    PhaseMaps(s.reqs, i0, Request(i1, i2, b, op, Placed));
    hide Lists, Owned, QueuedAt, DoneAt;
    HasRoom(s.avail, QueuedAt(s.reqs), s.taken, s.queued, i0);
    Store(s.avail, QueuedAt(s.reqs), s.taken, s.queued, i0);
  }

  lemma Heads(s: Queue)
    requires Owned(s)
    ensures Shaped(s) && forall h | h in s.reqs :: h < NUM
  {
    forall h | h in s.reqs
      ensures h < NUM
    {
      assert Three(s, h);
    }
  }

  /** Placing a request keeps every other one intact, and does not show it to the device. */
  lemma PlaceKeeps(s: Queue, i0: nat, i1: nat, i2: nat, b: nat, op: Op)
    requires Valid(s) && MayPlace(s, i0, i1, i2, b)
    ensures Valid(Place(s, i0, i1, i2, b, op)) && i0 !in s.reqs
  {
    hide Owned, AllFormatted, Rings, MayPlace, Place;
    PlaceOwned(s, i0, i1, i2, b, op);
    PlaceFormatted(s, i0, i1, i2, b, op);
    PlaceRings(s, i0, i1, i2, b, op);
  }

  /** The driver advances the index of the available ring over the request it has placed. */
  function Show(s: Queue, h: nat): Queue
    requires h in s.reqs
  {
    Queue(s.free, s.desc, s.ops, s.info, s.avail, s.used, s.busy, s.owner,
        s.reqs[h := WithPhase(s.reqs[h], Queued(s.queued))],
          s.queued + 1, s.taken, s.completed, s.seen)
  }

  lemma ShowOwned(s: Queue, h: nat)
    requires Owned(s) && h in s.reqs
    ensures Owned(Show(s, h))
  {
    var t := Show(s, h);
    forall g | g in t.reqs
      ensures Three(t, g)
    {
      assert Three(s, g);
    }
  }

  lemma ShowFormatted(s: Queue, h: nat)
    requires AllFormatted(s) && h in s.reqs && s.reqs[h].phase == Placed
    ensures AllFormatted(Show(s, h))
  {
    var t := Show(s, h);
    assert Formatted(s, h);
    forall g | g in t.reqs
      ensures Formatted(t, g)
    {
      assert Formatted(s, g);
    }
  }

  lemma ShowRings(s: Queue, h: nat)
    requires Shaped(s) && Rings(s) && h in s.reqs && s.reqs[h].phase == Placed && Slot(s.avail, s.queued) == h &&
             forall g | g in s.reqs :: g < NUM
    ensures Rings(Show(s, h))
  {
    PhaseMaps(s.reqs, h, WithPhase(s.reqs[h], Queued(s.queued)));
    hide Lists, QueuedAt, DoneAt;
    HasRoom(s.avail, QueuedAt(s.reqs), s.taken, s.queued, h);
    Extend(s.avail, QueuedAt(s.reqs), s.taken, s.queued, h);
  }

  /** Advancing the index shows the device the request that was placed, last in line. */
  lemma ShowKeeps(s: Queue, h: nat)
    requires Valid(s) && h in s.reqs && s.reqs[h].phase == Placed
    ensures Valid(Show(s, h)) && Slot(s.avail, s.queued) == h
  {
    Heads(s);
    PlacedSlot(s, h);
    hide Owned, AllFormatted, Rings;
    ShowOwned(s, h);
    ShowFormatted(s, h);
    ShowRings(s, h);
  }

  lemma PlacedSlot(s: Queue, h: nat)
    requires AllFormatted(s) && h in s.reqs && s.reqs[h].phase == Placed
    ensures Slot(s.avail, s.queued) == h
  {
    assert Formatted(s, h);
  }

  /** A request moves on to another phase; nothing but the rings, its status byte and its buffer's flag is touched. */
  function Advance(s: Queue, h: nat, p: Phase, info: seq<Info>, used: seq<nat>, busy: set<nat>, taken: nat,
                   completed: nat, seen: nat): Queue
    requires h in s.reqs
  {
    Queue(s.free, s.desc, s.ops, info, s.avail, used, busy, s.owner, s.reqs[h := WithPhase(s.reqs[h], p)], s.queued,
        taken, completed, seen)
  }

  /** The device reads the next entry of the available ring. */
  function Take(s: Queue): Queue
    requires Shaped(s) && Slot(s.avail, s.taken) in s.reqs
  {
    Advance(s, Slot(s.avail, s.taken), Taken, s.info, s.used, s.busy, s.taken + 1, s.completed, s.seen)
  }

  /** The device finishes a request it has taken, well or badly: it writes the status byte and a used-ring entry. */
  function Complete(s: Queue, h: nat, status: nat): Queue
    requires Shaped(s) && h in s.reqs && h < NUM
  {
    Advance(s, h, Done(s.completed), s.info[h := Info(s.info[h].b, status)], s.used[s.completed % NUM := h], s.busy,
        s.taken, s.completed + 1, s.seen)
  }

  /** The driver reads the next entry of the used ring and marks the buffer as done. */
  function See(s: Queue): Queue
    requires Shaped(s) && Slot(s.used, s.seen) in s.reqs
  {
    var h := Slot(s.used, s.seen);
    Advance(s, h, Phase.Seen, s.info, s.used, s.busy - {s.reqs[h].buf}, s.taken, s.completed, s.seen + 1)
  }

  lemma AdvanceOwned(s: Queue, h: nat, p: Phase, info: seq<Info>, used: seq<nat>, busy: set<nat>, taken: nat,
                     completed: nat, seen: nat)
    requires Owned(s) && h in s.reqs && |info| == |used| == NUM
    ensures Owned(Advance(s, h, p, info, used, busy, taken, completed, seen))
  {
    var t := Advance(s, h, p, info, used, busy, taken, completed, seen);
    forall g | g in t.reqs
      ensures Three(t, g)
    {
      assert Three(s, g);
    }
  }

  lemma AdvanceFormatted(s: Queue, h: nat, p: Phase, info: seq<Info>, used: seq<nat>, busy: set<nat>, taken: nat,
                         completed: nat, seen: nat)
    requires AllFormatted(s) && h in s.reqs && h < NUM && |info| == |used| == NUM
    requires info == s.info || info == s.info[h := Info(s.info[h].b, info[h].status)]
    requires (p.Seen? ==> info[h].status == 0) && !p.Placed?
    requires busy == if p.Seen? then s.busy - {s.reqs[h].buf} else s.busy
    requires !s.reqs[h].phase.Seen?
    ensures AllFormatted(Advance(s, h, p, info, used, busy, taken, completed, seen))
  {
    var t := Advance(s, h, p, info, used, busy, taken, completed, seen);
    forall g | g in t.reqs
      ensures Formatted(t, g)
    {
      assert Formatted(s, g);
    }
  }

  lemma Popped(ring: seq<nat>, at: map<nat, nat>, lo: nat, hi: nat)
    requires Lists(ring, at, lo, hi) && lo < hi
    ensures Slot(ring, lo) in at && at[Slot(ring, lo)] == lo
  {
  }

  lemma TakeRings(s: Queue)
    requires Shaped(s) && Rings(s) && s.taken < s.queued
    ensures var h := Slot(s.avail, s.taken); h in s.reqs && s.reqs[h].phase == Queued(s.taken) && Rings(Take(s))
  {
    var h := Slot(s.avail, s.taken);
    Popped(s.avail, QueuedAt(s.reqs), s.taken, s.queued);
    PhaseMaps(s.reqs, h, WithPhase(s.reqs[h], Taken));
    assert s.reqs[h].phase == Queued(s.taken);
    hide Lists, QueuedAt, DoneAt, Slot;
    Pop(s.avail, QueuedAt(s.reqs), s.taken, s.queued);
  }

  /** The device finds the request that was submitted, and no other changes. */
  lemma TakeKeeps(s: Queue)
    requires Valid(s) && s.taken < s.queued
    ensures var h := Slot(s.avail, s.taken); h in s.reqs && s.reqs[h].phase == Queued(s.taken) && Valid(Take(s))
  {
    hide Owned, AllFormatted, Rings;
    Heads(s);
    TakeRings(s);
    var h := Slot(s.avail, s.taken);
    AdvanceOwned(s, h, Taken, s.info, s.used, s.busy, s.taken + 1, s.completed, s.seen);
    AdvanceFormatted(s, h, Taken, s.info, s.used, s.busy, s.taken + 1, s.completed, s.seen);
  }

  lemma CompleteRings(s: Queue, h: nat, status: nat)
    requires Shaped(s) && Rings(s) && h in s.reqs && h < NUM && s.reqs[h].phase == Taken &&
             forall g | g in s.reqs :: g < NUM
    ensures Rings(Complete(s, h, status))
  {
    PhaseMaps(s.reqs, h, WithPhase(s.reqs[h], Done(s.completed)));
    hide Lists, QueuedAt, DoneAt;
    HasRoom(s.used, DoneAt(s.reqs), s.seen, s.completed, h);
    Push(s.used, DoneAt(s.reqs), s.seen, s.completed, h);
  }

  /** The device may finish the requests it has taken in any order. */
  lemma CompleteKeeps(s: Queue, h: nat, status: nat)
    requires Valid(s) && h in s.reqs && s.reqs[h].phase == Taken
    ensures h < NUM && Valid(Complete(s, h, status))
  {
    hide Owned, AllFormatted, Rings;
    Heads(s);
    CompleteRings(s, h, status);
    var t := Complete(s, h, status);
    AdvanceOwned(s, h, Done(s.completed), t.info, t.used, s.busy, s.taken, s.completed + 1, s.seen);
    AdvanceFormatted(s, h, Done(s.completed), t.info, t.used, s.busy, s.taken, s.completed + 1, s.seen);
  }

  lemma SeeRings(s: Queue)
    requires Shaped(s) && Rings(s) && s.seen < s.completed
    ensures var h := Slot(s.used, s.seen); h in s.reqs && s.reqs[h].phase == Done(s.seen) && Rings(See(s))
  {
    var h := Slot(s.used, s.seen);
    Popped(s.used, DoneAt(s.reqs), s.seen, s.completed);
    PhaseMaps(s.reqs, h, WithPhase(s.reqs[h], Phase.Seen));
    assert s.reqs[h].phase == Done(s.seen);
    hide Lists, QueuedAt, DoneAt, Slot;
    Pop(s.used, DoneAt(s.reqs), s.seen, s.completed);
  }

  lemma DoneInfo(s: Queue, h: nat)
    requires AllFormatted(s) && h in s.reqs && s.reqs[h].phase.Done?
    ensures h < NUM && s.info[h].b == s.reqs[h].buf
  {
    assert Formatted(s, h);
  }

  /** A used-ring entry is seen once, and names the request whose buffer is marked done. */
  lemma SeeKeeps(s: Queue)
    requires Valid(s) && s.seen < s.completed
    ensures var h := Slot(s.used, s.seen);
            && h < NUM && h in s.reqs && s.reqs[h].phase == Done(s.seen) && s.info[h].b == s.reqs[h].buf
            && (s.info[h].status == 0 ==> Valid(See(s)))
  {
    hide Owned, AllFormatted, Rings;
    Heads(s);
    SeeRings(s);
    var h := Slot(s.used, s.seen);
    DoneInfo(s, h);
    if s.info[h].status == 0 {
      AdvanceOwned(s, h, Phase.Seen, s.info, s.used, s.busy - {s.reqs[h].buf}, s.taken, s.completed, s.seen + 1);
      AdvanceFormatted(s, h, Phase.Seen, s.info, s.used, s.busy - {s.reqs[h].buf}, s.taken, s.completed, s.seen + 1);
    }
  }

  // ----- descriptors -----

  /** The first free descriptor is allocated. */
  function Alloc(s: Queue, i: nat): Queue
    requires Shaped(s) && i < NUM
  {
    Queue(s.free[i := false], s.desc, s.ops, s.info, s.avail, s.used, s.busy, s.owner[i := Loose], s.reqs, s.queued,
        s.taken, s.completed, s.seen)
  }

  /** A descriptor in nobody's hands is cleared and marked free. */
  function Release(s: Queue, i: nat): Queue
    requires Shaped(s) && i < NUM
  {
    Queue(s.free[i := true], s.desc[i := Desc(Null, 0, 0, 0)], s.ops, s.info, s.avail, s.used, s.busy,
        s.owner[i := Spare],
          s.reqs, s.queued, s.taken, s.completed, s.seen)
  }

  lemma UnusedFrame(s: Queue, t: Queue, i: nat)
    requires Valid(s) && i < NUM && !s.owner[i].Part? && Shaped(t)
    requires t.reqs == s.reqs && t.ops == s.ops && t.info == s.info && t.avail == s.avail && t.used == s.used &&
             t.busy == s.busy
    requires t.queued == s.queued && t.taken == s.taken && t.completed == s.completed && t.seen == s.seen
    requires forall j | 0 <= j < NUM && j != i ::
             t.desc[j] == s.desc[j] && t.owner[j] == s.owner[j] && t.free[j] == s.free[j]
    requires !t.owner[i].Part? && (t.free[i] <==> t.owner[i] == Spare)
    ensures Valid(t)
  {
    hide Formatted, Three, Lists, QueuedAt, DoneAt;
    forall h | h in t.reqs
      ensures Three(t, h) && Formatted(t, h)
    {
      UnusedOther(s, t, i, h);
    }
  }

  lemma UnusedOther(s: Queue, t: Queue, i: nat, h: nat)
    requires Shaped(s) && Shaped(t) && i < NUM && !s.owner[i].Part? && h in s.reqs && Three(s, h) && Formatted(s, h)
    requires t.reqs == s.reqs && t.ops == s.ops && t.info == s.info && t.busy == s.busy && t.avail == s.avail &&
             t.queued == s.queued
    requires forall j | 0 <= j < NUM && j != i :: t.desc[j] == s.desc[j] && t.owner[j] == s.owner[j]
    ensures Three(t, h) && Formatted(t, h)
  {
  }

  lemma AllocKeeps(s: Queue, i: nat)
    requires Valid(s) && i < NUM && s.free[i]
    ensures Valid(Alloc(s, i))
  {
    hide AllFormatted, Rings, Formatted;
    UnusedFrame(s, Alloc(s, i), i);
  }

  lemma ReleaseKeeps(s: Queue, i: nat)
    requires Valid(s) && i < NUM && s.owner[i] == Loose
    ensures !s.free[i] && Valid(Release(s, i))
  {
    hide AllFormatted, Rings, Formatted;
    UnusedFrame(s, Release(s, i), i);
  }

  /** The driver is done with request `h`: its descriptors are in nobody's hands. */
  function Retire(s: Queue, h: nat): Queue
    requires Shaped(s) && h in s.reqs && h < NUM && s.reqs[h].d1 < NUM && s.reqs[h].d2 < NUM
  {
    Queue(s.free, s.desc, s.ops, s.info[h := Info(0, s.info[h].status)], s.avail, s.used, s.busy,
          s.owner[h := Loose][s.reqs[h].d1 := Loose][s.reqs[h].d2 := Loose], s.reqs - {h}, s.queued, s.taken,
              s.completed, s.seen)
  }

  lemma RetireThree(s: Queue, h: nat, g: nat)
    requires Shaped(s) && h in s.reqs && g in s.reqs && g != h && Three(s, h) && Three(s, g) && Formatted(s, g)
    ensures var t := Retire(s, h); Three(t, g) && Formatted(t, g)
  {
  }

  lemma RetireOwned(s: Queue, h: nat)
    requires Owned(s) && AllFormatted(s) && h in s.reqs && Three(s, h)
    ensures var t := Retire(s, h); Owned(t) && AllFormatted(t)
  {
    hide Retire, Formatted, Three;
    RetireFacts(s, h);
    var t := Retire(s, h);
    forall g | g in t.reqs
      ensures Three(t, g) && Formatted(t, g)
    {
      RetireThree(s, h, g);
    }
  }

  lemma RetireFacts(s: Queue, h: nat)
    requires Shaped(s) && h in s.reqs && Three(s, h) && forall i | 0 <= i < NUM :: s.free[i] <==> s.owner[i] == Spare
    ensures h < NUM && s.reqs[h].d1 < NUM && s.reqs[h].d2 < NUM
    ensures var t, r := Retire(s, h), s.reqs[h];
            && Shaped(t) && t.free == s.free && t.reqs == s.reqs - {h}
            && (forall i | 0 <= i < NUM :: t.owner[i] == if i == h || i == r.d1 || i == r.d2 then Loose else s.owner[i])
            && !s.free[h] && !s.free[r.d1] && !s.free[r.d2]
  {
  }

  lemma RetireKeeps(s: Queue, h: nat)
    requires Valid(s) && h in s.reqs && s.reqs[h].phase == Seen
    ensures h < NUM && Three(s, h) && Formatted(s, h) && Valid(Retire(s, h))
  {
    hide AllFormatted, Owned, Lists;
    RequestOf(s, h);
    RetireOwned(s, h);
    assert QueuedAt(s.reqs - {h}) == QueuedAt(s.reqs) && DoneAt(s.reqs - {h}) == DoneAt(s.reqs);
  }

  lemma RequestOf(s: Queue, h: nat)
    requires Owned(s) && AllFormatted(s) && h in s.reqs
    ensures Shaped(s) && h < NUM && Three(s, h) && Formatted(s, h)
  {
    assert Three(s, h);
  }

  /** The free descriptors. */
  ghost function Spares(owner: seq<Owner>): set<nat> { set i | 0 <= i < |owner| && owner[i] == Spare }

  /** The descriptors of the requests in `some`. */
  ghost function PartsOf(s: Queue, some: set<nat>): set<nat> {
    set i | 0 <= i < |s.owner| && s.owner[i].Part? && s.owner[i].head in some
  }

  lemma {:induction false} PartsCount(s: Queue, some: set<nat>)
    requires Owned(s) && forall h | h in some :: h in s.reqs
    ensures |PartsOf(s, some)| == 3 * |some|
    decreases |some|
  {
    if some == {} {
      assert PartsOf(s, some) == {};
    } else {
      var h :| h in some;
      PartsCount(s, some - {h});
      RequestThree(s, h);
      var r := s.reqs[h];
      assert PartsOf(s, some) == PartsOf(s, some - {h}) + {h, r.d1, r.d2};
      assert PartsOf(s, some - {h}) !! {h, r.d1, r.d2};
    }
  }

  ghost function Below(n: nat): (r: set<nat>)
    ensures |r| == n && forall i :: i in r <==> 0 <= i < n
  {
    if n == 0 then {} else Below(n - 1) + {n - 1}
  }

  /** No descriptor is between being allocated and being used. */
  ghost predicate Settled(owner: seq<Owner>) { forall i | 0 <= i < |owner| :: owner[i] != Loose }

  /** Each request in flight takes three descriptors; the others are free. So at most two fit, and a third
      has to wait exactly when there are two. */
  lemma Capacity(s: Queue)
    requires Valid(s) && Settled(s.owner)
    ensures |Spares(s.owner)| == NUM - 3 * |s.reqs| && |s.reqs| <= 2
    ensures |Spares(s.owner)| >= 3 <==> |s.reqs| < 2
  {
    hide Owned, AllFormatted, Rings, Spares, PartsOf, Below;
    var parts, spare := PartsOf(s, s.reqs.Keys), Spares(s.owner);
    PartsCount(s, s.reqs.Keys);
    assert |s.reqs.Keys| == |s.reqs|;
    AllAccounted(s);
    assert |parts + spare| == |parts| + |spare|;
  }

  lemma AllAccounted(s: Queue)
    requires Owned(s) && Settled(s.owner)
    ensures PartsOf(s, s.reqs.Keys) + Spares(s.owner) == Below(NUM) && PartsOf(s, s.reqs.Keys) !! Spares(s.owner)
  {
    hide Three, Below;
  }

  lemma RequestThree(s: Queue, h: nat)
    requires Owned(s) && h in s.reqs
    ensures Three(s, h)
  {
  }
}
