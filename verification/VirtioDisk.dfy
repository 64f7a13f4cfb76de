/** The disk driver of kernel/virtio_disk.c with the device as its environment. Each method is one
    step of the driver, under the driver's lock, or of the device; any interleaving of them is a run. */
module VirtioDisk {
  import opened Common
  import opened Blocks
  import opened Virtqueue

  class Disk {
    const free: array<bool>
    const desc: array<Desc>
    const ops: array<Op>
    const info: array<Info>
    const avail: array<nat>    // avail->ring
    const used: array<nat>     // used->ring[..].id
    var availIdx: nat          // avail->idx, 16 bits
    var usedIdx: nat           // used->idx, 16 bits, written by the device
    var seenIdx: nat           // used_idx, 16 bits
    var takenIdx: nat          // the device's place in the available ring, 16 bits
    var busy: set<nat>         // the buffers b with b->disk set
    var inDevice: set<nat>     // the requests the device has taken and not finished
    ghost var owner: seq<Owner>
    ghost var reqs: map<nat, Request>
    ghost var queued: nat
    ghost var taken: nat
    ghost var completed: nat
    ghost var seen: nat

    ghost function State(): Queue
      reads this, free, desc, ops, info, avail, used
    {
      Queue(free[..], desc[..], ops[..], info[..], avail[..], used[..], busy, owner, reqs, queued, taken, completed,
          seen)
    }

    ghost predicate Indexed()
      reads this
    {
      && avail != used
      && availIdx == queued % 0x1_0000 && takenIdx == taken % 0x1_0000
      && usedIdx == completed % 0x1_0000 && seenIdx == seen % 0x1_0000
      && TakenBy(inDevice, reqs)
    }

    ghost predicate Ready()
      reads this, free, desc, ops, info, avail, used
    {
      Indexed() && Valid(State())
    }

    constructor ()
      ensures Ready() && reqs == map[] && fresh(free) && fresh(desc) && fresh(ops) && fresh(info) && fresh(avail) &&
              fresh(used)
    {
      free := new bool[NUM](i => true);
      desc := new Desc[NUM](i => Desc(Null, 0, 0, 0));
      ops := new Op[NUM](i => Op(false, 0));
      info := new Info[NUM](i => Info(0, 0));
      avail := new nat[NUM](i => 0);
      used := new nat[NUM](i => 0);
      availIdx, usedIdx, seenIdx, takenIdx, busy, inDevice := 0, 0, 0, 0, {}, {};
      owner, reqs := seq(NUM, i => Spare), map[];
      queued, taken, completed, seen := 0, 0, 0, 0;
      new;
      EmptyQueue(State());
      hide Valid;
    }

    /** Allocates the lowest free descriptor; -1 if there is none. */
    method AllocDesc() returns (i: int)
      requires Ready()
      modifies this, free
      ensures Ready() && -1 <= i < NUM
      ensures i == -1 ==> State() == old(State()) && forall j | 0 <= j < NUM :: !State().free[j]
      ensures i >= 0 ==>
              old(State()).free[i] && (forall j | 0 <= j < i :: !old(State()).free[j]) &&
              State() == Alloc(old(State()), i)
    {
      hide Valid;
      ShapeOf(State());
      i := 0;
      while i < NUM
        invariant 0 <= i <= NUM && Indexed() && State() == old(State())
        invariant forall j | 0 <= j < i :: !free[j]
      {
        if free[i] {
          AllocKeeps(State(), i);
          free[i] := false;
          owner := owner[i := Loose];
          assert State() == Alloc(old(State()), i);
          return;
        }
        i := i + 1;
      }
      i := -1;
    }

    /** Clears a descriptor and marks it free; the source panics on one that is free already. */
    method FreeDesc(i: nat)
      requires Ready() && i < NUM && |owner| == NUM && owner[i] == Loose
      modifies this, free, desc
      ensures Ready() && !old(State()).free[i] && State() == Release(old(State()), i)
    {
      hide Valid;
      ShapeOf(State());
      ReleaseKeeps(State(), i);
      desc[i] := Desc(Null, 0, 0, 0);
      free[i] := true;
      owner := owner[i := Spare];
      assert State() == Release(old(State()), i);
    }

    /** Allocates three descriptors, or none if fewer than three are free. */
    method Alloc3Desc() returns (ok: bool, idx: seq<nat>)
      requires Ready()
      modifies this, free, desc
      ensures Ready() && SameRequests(old(State()), State())
      ensures ok <==> |Spares(old(owner))| >= 3
      ensures ok ==> LooseThree(State().owner, idx) && JustTaken(old(owner), owner, idx)
      ensures !ok ==> owner == old(owner) && free[..] == old(free[..])
    {
      hide Valid, Formatted, Rings;
      ghost var s := State();
      ShapeOf(s);
      idx := [];
      var i := 0;
      while i < 3
        invariant 0 <= i <= 3 && |idx| == i && Ready() && SameRequests(s, State()) && JustTaken(s.owner, owner, idx)
      {
        ghost var t := State();
        ShapeOf(t);
        var d := AllocDesc();
        if d < 0 {
          NoneSpare(s.owner, t.owner, idx);
          var j := 0;
          while j < i
            invariant 0 <= j <= i && Ready() && SameRequests(s, State()) && JustTaken(s.owner, owner, idx[j..])
          {
            ghost var u := State();
            ShapeOf(u);
            FreeDesc(idx[j]);
            Returned(s.owner, u.owner, idx, j);
            j := j + 1;
          }
          ShapeOf(State());
          assert owner == s.owner && idx[i..] == [];
          assert free[..] == s.free;
          return false, idx;
        }
        Alloced(s.owner, t.owner, idx, d);
        idx := idx + [d];
        i := i + 1;
      }
      ThreeSpare(s.owner, owner, idx);
      return true, idx;
    }

    /** The first half of virtio_disk_rw(), up to the store in the available ring: formats a request for
        buffer `b` and puts it in the next slot, where the device does not look yet. Without three free
        descriptors the caller has to sleep, and nothing changes. */
    method Submit(b: nat, blockno: Word, write: bool) returns (ok: bool, head: nat)
      requires Ready() && b != 0 && forall h | h in reqs :: reqs[h].buf != b && reqs[h].phase != Placed
      modifies this, free, desc, ops, info, avail
      ensures Ready() && queued == old(queued) && seen == old(seen) && completed == old(completed) &&
              taken == old(taken)
      ensures ok <==> |Spares(old(owner))| >= 3
      ensures Settled(old(owner)) ==> Settled(owner) && (ok <==> |old(reqs)| < 2)
      ensures ok ==> |owner| == |old(owner)| == NUM && forall i | 0 <= i < NUM ::
                owner[i] == old(owner)[i] || (old(owner)[i] == Spare && owner[i] == Part(head))
      ensures !ok ==> SameRequests(old(State()), State()) && owner == old(owner) && free[..] == old(free[..])
      ensures ok ==>
              head !in old(reqs) && busy == old(busy) + {b} &&
              Added(old(reqs), reqs, head, b, Op(write, blockno * 2 % 0x1_0000_0000))
    {
      hide Valid, Formatted, Rings, Spares, Settled, LooseThree, JustTaken, TakenBy;
      ghost var s := State();
      head := 0;
      var idx;
      ok, idx := Alloc3Desc();
      if ok {
        LooseFacts(s.owner, owner, idx);
        head := idx[0];
        Store(idx[0], idx[1], idx[2], b, Op(write, blockno * (BSIZE / 512) % 0x1_0000_0000));
      }
      if Settled(s.owner) {
        Capacity(s);
        StillSettled(s.owner, owner, ok, head);
      }
    }

    /** Formats three descriptors and stores the first in the available ring. */
    method Store(head: nat, i1: nat, i2: nat, b: nat, op: Op)
      requires Ready() && MayPlace(State(), head, i1, i2, b)
      modifies this, desc, ops, info, avail
      ensures Ready() && head !in old(reqs) && State() == Place(old(State()), head, i1, i2, b, op)
    {
      hide Valid, TakenBy;
      ghost var t := State();
      PlaceKeeps(t, head, i1, i2, b, op);
      Format(head, i1, i2, b, op);
      busy := busy + {b};
      owner := owner[head := Part(head)][i1 := Part(head)][i2 := Part(head)];
      reqs := reqs[head := Request(i1, i2, b, op, Placed)];
      SlotOf(queued);
      TakenOther(inDevice, t.reqs, head, reqs[head]);
      avail[availIdx % NUM] := head;
      assert State() == Place(t, head, i1, i2, b, op);
    }

    /** The store that makes a request visible to the device: the index of the available ring. */
    method Announce(head: nat)
      requires Ready() && head in reqs && reqs[head].phase == Placed
      modifies `availIdx, `queued, `reqs
      ensures Ready() && queued == old(queued) + 1 &&
              reqs == old(reqs)[head := WithPhase(old(reqs)[head], Queued(old(queued)))]
    {
      hide Valid, TakenBy;
      ghost var s := State();
      ShowKeeps(s, head);
      TakenOther(inDevice, reqs, head, WithPhase(reqs[head], Queued(queued)));
      SlotOf(queued);
      availIdx := (availIdx + 1) % 0x1_0000;
      reqs := reqs[head := WithPhase(reqs[head], Queued(queued))];
      queued := queued + 1;
      assert State() == Show(s, head);
    }

    /** Fills in the command header, the three descriptors and the driver's note. */
    method Format(head: nat, i1: nat, i2: nat, b: nat, op: Op)
      requires desc.Length == ops.Length == info.Length == NUM && head < NUM && i1 < NUM && i2 < NUM
      modifies desc, ops, info
      ensures desc[..] == old(desc[..])[head := Desc(Header(head), 16, F_NEXT, i1)]
                                       [i1 := Desc(Data(b), BSIZE, if op.write then F_NEXT else F_WRITE + F_NEXT, i2)]
                                       [i2 := Desc(Status(head), 1, F_WRITE, 0)]
      ensures ops[..] == old(ops[..])[head := op] && info[..] == old(info[..])[head := Info(b, 0xff)]
    {
      ops[head] := op;
      desc[head] := Desc(Header(head), 16, F_NEXT, i1);
      desc[i1] := Desc(Data(b), BSIZE, (if op.write then 0 else F_WRITE) + F_NEXT, i2);
      desc[i2] := Desc(Status(head), 1, F_WRITE, 0);
      info[head] := Info(b, 0xff);
    }

    /** One turn of virtio_disk_intr()'s loop: takes the next used-ring entry, if there is one, and marks
        the buffer of that request as done, or panics on a bad status. */
    method IntrStep() returns (b: nat, panic: bool)
      requires Ready()
      modifies this
      ensures Ready() && completed == old(completed) && queued == old(queued) && taken == old(taken) &&
              owner == old(owner)
      ensures inDevice == old(inDevice) && (panic ==> b == 0)
      ensures b == 0 ==> State() == old(State()) && (panic <==> seen != completed)
      ensures panic ==> exists h :: h in reqs && reqs[h].phase == Done(seen) && h < info.Length && info[h].status != 0
      ensures b != 0 ==> seen == old(seen) + 1 && busy == old(busy) - {b}
      ensures b != 0 ==> exists h :: h in old(reqs) && old(reqs)[h].phase == Done(old(seen)) && old(reqs)[h].buf == b &&
                                     reqs == old(reqs)[h := WithPhase(old(reqs)[h], Phase.Seen)]
    {
      hide Valid, Formatted, Rings, TakenBy;
      ghost var s := State();
      ShapeOf(s);
      WrapIndex(seen, completed);
      if seenIdx == usedIdx {
        return 0, false;
      }
      SeeKeeps(s);
      SlotOf(seen);
      var id := used[seenIdx % NUM];
      if info[id].status != 0 {
        return 0, true;
      }
      b, panic := info[id].b, false;
      BufferOf(s, id);
      TakenOther(inDevice, reqs, id, WithPhase(reqs[id], Phase.Seen));
      busy := busy - {b};
      seenIdx := (seenIdx + 1) % 0x1_0000;
      reqs := reqs[id := WithPhase(reqs[id], Phase.Seen)];
      seen := seen + 1;
      assert State() == See(s);
    }

    /** virtio_disk_intr(), with the device at work between any two turns of its loop: it ends, and then every
        request that was completed before the last look has been seen, unless one had a bad status. */
    method Intr() returns (panic: bool)
      requires Ready()
      modifies this, info, used
      ensures Ready() && owner == old(owner) && busy <= old(busy) && completed >= old(completed) &&
              SameRequestsBut(old(reqs), reqs)
      ensures !panic ==> seen == completed && forall h | h in reqs :: !reqs[h].phase.Done?
    {
      hide Valid, SameRequestsBut, TakenBy;
      ghost var before := reqs;
      ButReflexive(reqs);
      var b;
      b, panic := IntrStep();
      SeenOne(before, reqs, b);
      while b != 0
        invariant Ready() && owner == old(owner) && busy <= old(busy) && completed >= old(completed) &&
                  SameRequestsBut(before, reqs)
        invariant b == 0 && !panic ==> seen == completed
        decreases |Unseen(reqs)|, b
      {
        ghost var r := reqs;
        DeviceRuns();
        UnseenSame(r, reqs);
        ghost var t := reqs;
        b, panic := IntrStep();
        SeenOne(t, reqs, b);
        ButTransitive(before, r, t, reqs);
      }
      if !panic {
        NoneDone(State());
      }
    }

    /** The second half of virtio_disk_rw(), once b->disk is clear: frees the request's descriptors. */
    method Finish(head: nat)
      requires Ready() && head in reqs && reqs[head].buf !in busy
      modifies this, free, desc, info
      ensures Ready() && reqs == old(reqs) - {head} && busy == old(busy)
      ensures |owner| == |old(owner)| == NUM && forall i | 0 <= i < NUM ::
                owner[i] == if old(owner)[i] == Part(head) then Spare else old(owner)[i]
    {
      hide Valid, Rings, TakenBy;
      ghost var s := State();
      ShapeOf(s);
      SeenOf(s, head);
      TakenOther(inDevice, reqs, head, reqs[head]);
      RetireKeeps(s, head);
      ghost var r := reqs[head];
      info[head] := Info(0, info[head].status);
      owner := owner[head := Loose][r.d1 := Loose][r.d2 := Loose];
      reqs := reqs - {head};
      assert State() == Retire(s, head);
      ChainOf(s, head);
      PartsAre(s, head);
      FreeChain(head, r.d1, r.d2);
    }

    /** Frees a chain of descriptors, following the next fields. */
    method FreeChain(i: nat, ghost d1: nat, ghost d2: nat)
      requires Ready() && LooseThree(State().owner, [i, d1, d2]) && desc.Length == NUM
      requires desc[i].flags == F_NEXT && desc[i].next == d1
      requires desc[d1].flags % 2 == 1 && desc[d1].next == d2 && desc[d2].flags == F_WRITE
      modifies this, free, desc
      ensures Ready() && SameRequests(old(State()), State())
      ensures owner == old(owner)[i := Spare][d1 := Spare][d2 := Spare]
    {
      hide Valid, Formatted, Rings, TakenBy;
      ShapeOf(State());
      ghost var chain, k: nat := [i, d1, d2], 0;
      var c := i;
      while true
        invariant k < 3 && c == chain[k] && Ready() && SameRequests(old(State()), State()) && |owner| == NUM
        invariant forall j | 0 <= j < 3 :: owner[chain[j]] == if j < k then Spare else Loose
        invariant forall j | 0 <= j < NUM && j != i && j != d1 && j != d2 :: owner[j] == old(owner)[j]
        invariant forall j | k <= j < 3 :: desc[chain[j]] == old(desc[..])[chain[j]]
        decreases 3 - k
      {
        ShapeOf(State());
        var flag, nxt := desc[c].flags, desc[c].next;
        FreeDesc(c);
        if flag % 2 == 0 {
          break;
        }
        c := nxt;
        k := k + 1;
      }
    }

    /** The device takes the next request off the available ring and reads its descriptors: what it finds
        is the request as submitted. */
    method DeviceTake() returns (ok: bool, head: nat, op: Op, buf: nat, toDevice: bool)
      requires Ready()
      modifies this
      ensures Ready() && (ok <==> old(taken) < queued) && queued == old(queued) && owner == old(owner)
      ensures busy == old(busy) && completed == old(completed) && seen == old(seen) &&
              inDevice == old(inDevice) + if ok then {head} else {}
      ensures !ok ==> State() == old(State())
      ensures ok ==> head in old(reqs) && old(reqs)[head].phase == Queued(old(taken)) && taken == old(taken) + 1
      ensures ok ==> reqs == old(reqs)[head := WithPhase(old(reqs)[head], Taken)]
      ensures ok ==> op == reqs[head].op && buf == reqs[head].buf && toDevice == reqs[head].op.write
    {
      hide Valid, Rings, TakenBy;
      ghost var s := State();
      ShapeOf(s);
      WrapIndex(taken, queued);
      head, op, buf, toDevice := 0, Op(false, 0), 0, false;
      if takenIdx == availIdx {
        return false, head, op, buf, toDevice;
      }
      TakeKeeps(s);
      SlotOf(taken);
      head := avail[takenIdx % NUM];
      op, buf, toDevice := ReadRequest(head);
      takenIdx := (takenIdx + 1) % 0x1_0000;
      TakenOne(inDevice, reqs, head);
      inDevice := inDevice + {head};
      reqs := reqs[head := WithPhase(reqs[head], Taken)];
      taken := taken + 1;
      assert State() == Take(s);
      ok := true;
    }

    /** The device follows a chain from its head: the command header, and the buffer with its direction. */
    method ReadRequest(head: nat) returns (op: Op, buf: nat, toDevice: bool)
      requires Ready() && head in reqs
      ensures op == reqs[head].op && buf == reqs[head].buf && toDevice == reqs[head].op.write
    {
      hide Valid, TakenBy;
      ChainOf(State(), head);
      var d0 := desc[head];
      var d1 := desc[d0.next];
      op, buf, toDevice := ops[d0.addr.i], d1.addr.buf, d1.flags == F_NEXT;
    }

    /** The device's stores for a finished request: the status byte, the used-ring entry and its index. */
    method PutUsed(head: nat, status: nat)
      requires info.Length == used.Length == NUM && head < NUM && usedIdx == completed % 0x1_0000
      modifies info, used, `usedIdx
      ensures info[..] == old(info[..])[head := Info(old(info[head].b), status)]
      ensures used[..] == old(used[..])[completed % NUM := head] && usedIdx == (completed + 1) % 0x1_0000
    {
      SlotOf(completed);
      info[head] := Info(info[head].b, status);
      used[usedIdx % NUM] := head;
      usedIdx := (usedIdx + 1) % 0x1_0000;
    }

    /** The device finishes a request it has taken, in any order and with any status. */
    method DeviceComplete(head: nat, status: nat)
      requires Ready() && head in inDevice
      modifies this, info, used
      ensures Ready() && completed == old(completed) + 1 && seen == old(seen) && owner == old(owner) &&
              busy == old(busy)
      ensures head in old(reqs) && head < info.Length && info[head].status == status &&
              inDevice == old(inDevice) - {head}
      ensures reqs == old(reqs)[head := WithPhase(old(reqs)[head], Done(old(completed)))]
    {
      hide Valid, Formatted, Rings, TakenBy;
      ghost var s := State();
      ShapeOf(s);
      TakenIs(inDevice, reqs, head);
      TakenDone(inDevice, reqs, head, completed);
      CompleteKeeps(s, head, status);
      PutUsed(head, status);
      inDevice := inDevice - {head};
      reqs := reqs[head := WithPhase(reqs[head], Done(completed))];
      completed := completed + 1;
      assert State() == Complete(s, head, status);
    }

    /** The device at work: any number of requests taken and finished, in any order. */
    method DeviceRuns()
      requires Ready()
      modifies this, info, used
      ensures Ready() && owner == old(owner) && busy == old(busy) && seen == old(seen) && completed >= old(completed)
      ensures Progressed(old(reqs), reqs)
    {
      hide Valid, Progressed, TakenBy;
      ghost var before := reqs;
      ProgressNone(reqs);
      var steps: int := *;
      while steps > 0
        invariant Ready() && owner == old(owner) && busy == old(busy) && seen == old(seen) &&
                  completed >= old(completed)
        invariant Progressed(before, reqs)
      {
        var head: nat, status: nat := *, *;
        ghost var r := reqs;
        if head in inDevice {
          TakenIs(inDevice, reqs, head);
          DeviceComplete(head, status);
          ProgressOne(r, reqs, head);
        } else {
          var ok, h, op, buf, toDevice := DeviceTake();
          if ok {
            ProgressOne(r, reqs, h);
          } else {
            ProgressNone(r);
          }
        }
        ProgressAdds(before, r, reqs);
        steps := steps - 1;
      }
    }
  }

  /** `d` is the set of requests that the device has taken and not finished. */
  ghost predicate TakenBy(d: set<nat>, q: map<nat, Request>) {
    forall h {:trigger h in d} :: h in d <==> h in q && q[h].phase == Taken
  }

  /** A request that is and was not with the device changes, comes or goes. */
  lemma TakenOther(d: set<nat>, q: map<nat, Request>, h: nat, r: Request)
    requires TakenBy(d, q) && (h in q ==> q[h].phase != Taken) && r.phase != Taken
    ensures TakenBy(d, q[h := r]) && TakenBy(d, q - {h})
  {
  }

  lemma TakenOne(d: set<nat>, q: map<nat, Request>, h: nat)
    requires TakenBy(d, q) && h in q
    ensures TakenBy(d + {h}, q[h := WithPhase(q[h], Taken)])
  {
  }

  lemma TakenDone(d: set<nat>, q: map<nat, Request>, h: nat, n: nat)
    requires TakenBy(d, q) && h in q
    ensures TakenBy(d - {h}, q[h := WithPhase(q[h], Done(n))])
  {
  }

  lemma TakenIs(d: set<nat>, q: map<nat, Request>, h: nat)
    requires TakenBy(d, q)
    ensures h in d <==> h in q && q[h].phase == Taken
  {
  }

  /** One more request, placed in the ring but not announced. */
  ghost predicate Added(q: map<nat, Request>, r: map<nat, Request>, h: nat, b: nat, op: Op) {
    h in r && r == q[h := Request(r[h].d1, r[h].d2, b, op, Placed)]
  }

  /** What the device does to the requests: those queued or taken may get further. */
  ghost predicate Progressed(q: map<nat, Request>, r: map<nat, Request>) {
    && (forall h :: h in r <==> h in q)
    && (forall h | h in q ::
        r[h] == q[h] ||
        (r[h] == WithPhase(q[h], r[h].phase) && !q[h].phase.Seen? && !r[h].phase.Seen? && !r[h].phase.Placed?))
  }

  lemma ProgressNone(q: map<nat, Request>)
    ensures Progressed(q, q)
  {
  }

  lemma ProgressOne(q: map<nat, Request>, r: map<nat, Request>, h: nat)
    requires h in q && h in r && r == q[h := WithPhase(q[h], r[h].phase)] && !q[h].phase.Seen? &&
             (r[h].phase.Taken? || r[h].phase.Done?)
    ensures Progressed(q, r)
  {
  }

  lemma ProgressAdds(q: map<nat, Request>, r: map<nat, Request>, t: map<nat, Request>)
    requires Progressed(q, r) && Progressed(r, t)
    ensures Progressed(q, t)
  {
  }

  /** The same requests, though they may have got further. */
  ghost predicate SameRequestsBut(q: map<nat, Request>, r: map<nat, Request>) {
    (forall h :: h in r <==> h in q) && forall h | h in q :: r[h] == WithPhase(q[h], r[h].phase)
  }

  lemma ButReflexive(q: map<nat, Request>)
    ensures SameRequestsBut(q, q)
  {
  }

  lemma ButTransitive(p: map<nat, Request>, q: map<nat, Request>, r: map<nat, Request>, t: map<nat, Request>)
    requires SameRequestsBut(p, q) && Progressed(q, r) && SameRequestsBut(r, t)
    ensures SameRequestsBut(p, t)
  {
  }

  ghost function Unseen(q: map<nat, Request>): set<nat> { set h | h in q && !q[h].phase.Seen? }

  lemma UnseenSame(q: map<nat, Request>, r: map<nat, Request>)
    requires Progressed(q, r)
    ensures Unseen(r) == Unseen(q)
  {
  }

  /** Seeing a request leaves one less unseen. */
  lemma SeenOne(q: map<nat, Request>, r: map<nat, Request>, b: nat)
    requires b == 0 ==> r == q
    requires b != 0 ==> exists h :: h in q && q[h].phase.Done? && r == q[h := WithPhase(q[h], Phase.Seen)]
    ensures SameRequestsBut(q, r) && (b != 0 ==> |Unseen(r)| < |Unseen(q)|)
  {
    if b != 0 {
      var h :| h in q && q[h].phase.Done? && r == q[h := WithPhase(q[h], Phase.Seen)];
      assert Unseen(r) == Unseen(q) - {h} && h in Unseen(q);
    }
  }

  lemma NoneDone(s: Queue)
    requires Valid(s) && s.seen == s.completed
    ensures forall h | h in s.reqs :: !s.reqs[h].phase.Done?
  {
    hide Owned, AllFormatted;
    forall h | h in s.reqs
      ensures !s.reqs[h].phase.Done?
    {
      assert h in DoneAt(s.reqs) <==> s.reqs[h].phase.Done?;
    }
  }

  lemma LooseFacts(before: seq<Owner>, owner: seq<Owner>, idx: seq<nat>)
    requires LooseThree(owner, idx) && JustTaken(before, owner, idx)
    ensures |idx| == 3 && |before| == |owner| == NUM &&
            (forall j | 0 <= j < 3 :: idx[j] < NUM && owner[idx[j]] == Loose && before[idx[j]] == Spare)
    ensures idx[0] != idx[1] && idx[0] != idx[2] && idx[1] != idx[2]
    ensures forall i | 0 <= i < NUM :: i == idx[0] || i == idx[1] || i == idx[2] || owner[i] == before[i]
  {
  }

  lemma StillSettled(before: seq<Owner>, owner: seq<Owner>, ok: bool, head: nat)
    requires Settled(before) && |before| == |owner|
    requires if ok then forall i | 0 <= i < |owner| :: owner[i] == before[i] || owner[i] == Part(head)
             else owner == before
    ensures Settled(owner)
  {
  }

  lemma ShapeOf(s: Queue)
    requires Valid(s)
    ensures Shaped(s) && (forall i | 0 <= i < NUM :: s.free[i] <==> s.owner[i] == Spare)
    ensures s.taken <= s.queued <= s.taken + NUM && s.seen <= s.completed <= s.seen + NUM
  {
  }

  lemma EmptyQueue(s: Queue)
    requires Shaped(s) && s.reqs == map[] && s.queued == s.taken == s.completed == s.seen == 0
    requires forall i | 0 <= i < NUM :: s.free[i] && s.owner[i] == Spare
    ensures Valid(s)
  {
  }

  /** A 16-bit index finds the slot of its count, and counts on across the wrap. */
  lemma SlotOf(n: nat)
    ensures n % 0x1_0000 % NUM == n % NUM && (n % 0x1_0000 + 1) % 0x1_0000 == (n + 1) % 0x1_0000
  {
    WrapIndex(n, n);
  }

  /** Requests, rings and buffer flags are as they were. */
  ghost predicate SameRequests(s: Queue, t: Queue) {
    && Shaped(s) && Shaped(t)
    && t.reqs == s.reqs && t.ops == s.ops && t.info == s.info && t.avail == s.avail && t.used == s.used &&
       t.busy == s.busy
    && t.queued == s.queued && t.taken == s.taken && t.completed == s.completed && t.seen == s.seen
  }

  /** Three different descriptors in nobody's hands. */
  ghost predicate LooseThree(owner: seq<Owner>, idx: seq<nat>) {
    && |idx| == 3 && |owner| == NUM && idx[0] < NUM && idx[1] < NUM && idx[2] < NUM
    && idx[0] != idx[1] && idx[0] != idx[2] && idx[1] != idx[2]
    && owner[idx[0]] == Loose && owner[idx[1]] == Loose && owner[idx[2]] == Loose
  }

  /** The descriptors `idx`, which were free, are allocated; no other changed hands. */
  ghost predicate JustTaken(before: seq<Owner>, owner: seq<Owner>, idx: seq<nat>) {
    && |before| == |owner| == NUM
    && (forall j | 0 <= j < |idx| :: idx[j] < NUM && before[idx[j]] == Spare && owner[idx[j]] == Loose)
    && (forall j, k | 0 <= j < k < |idx| :: idx[j] != idx[k])
    && (forall i | 0 <= i < NUM :: i in idx || owner[i] == before[i])
  }

  lemma ThreeSpare(before: seq<Owner>, owner: seq<Owner>, idx: seq<nat>)
    requires JustTaken(before, owner, idx) && |idx| == 3
    ensures |Spares(before)| >= 3
  {
    CardinalityLe({idx[0], idx[1], idx[2]}, Spares(before));
  }

  lemma NoneSpare(before: seq<Owner>, owner: seq<Owner>, idx: seq<nat>)
    requires JustTaken(before, owner, idx) && |idx| < 3 && forall i | 0 <= i < NUM :: owner[i] != Spare
    ensures |Spares(before)| < 3
  {
    var some := if |idx| == 0 then {} else {idx[0], idx[|idx| - 1]};
    CardinalityLe(Spares(before), some);
  }

  /** The descriptors of a request are its three and no others. */
  lemma PartsAre(s: Queue, h: nat)
    requires Valid(s) && h in s.reqs
    ensures Shaped(s) && forall i | 0 <= i < NUM ::
            s.owner[i] == Part(h) <==> i == h || i == s.reqs[h].d1 || i == s.reqs[h].d2
  {
    hide AllFormatted, Rings;
    assert Three(s, h);
  }

  lemma Alloced(before: seq<Owner>, owner: seq<Owner>, idx: seq<nat>, d: nat)
    requires JustTaken(before, owner, idx) && d < NUM && owner[d] == Spare
    ensures JustTaken(before, owner[d := Loose], idx + [d])
  {
    assert d !in idx;
  }

  lemma Returned(before: seq<Owner>, owner: seq<Owner>, idx: seq<nat>, j: nat)
    requires j < |idx| && JustTaken(before, owner, idx[j..])
    ensures JustTaken(before, owner[idx[j] := Spare], idx[j + 1..])
  {
    var now, rest := owner[idx[j] := Spare], idx[j + 1..];
    assert forall k | 0 <= k < |rest| :: rest[k] == idx[j..][k + 1];
    assert idx[j..][0] == idx[j];
    forall i | 0 <= i < NUM
      ensures i in rest || now[i] == before[i]
    {
      if i != idx[j] && i in idx[j..] {
        var k :| 0 <= k < |idx[j..]| && idx[j..][k] == i;
        assert rest[k - 1] == i;
      }
    }
  }

  lemma BufferOf(s: Queue, h: nat)
    requires Valid(s) && h in s.reqs
    ensures s.reqs[h].buf != 0
  {
    assert Formatted(s, h);
  }

  lemma SeenOf(s: Queue, h: nat)
    requires Valid(s) && h in s.reqs && s.reqs[h].buf !in s.busy
    ensures s.reqs[h].phase == Seen
  {
    assert Formatted(s, h);
  }

  lemma ChainOf(s: Queue, h: nat)
    requires Valid(s) && h in s.reqs
    ensures Shaped(s) && Three(s, h) && Formatted(s, h)
  {
    hide Rings;
    RequestOf(s, h);
  }
}
