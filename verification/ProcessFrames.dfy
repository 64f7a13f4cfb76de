/** What a step of one CPU leaves alone: the invariant of the process machine follows from what happens
    to the processes a step touches. */
module ProcessFrames {
  import opened Common
  import opened Processes

  /** A step of CPU c changes at most that CPU, processes p and o, and locks. */
  ghost predicate Touches(s: System, t: System, c: nat, p: nat, o: nat) {
    && |t.procs| == |s.procs| && |t.cpus| == |s.cpus| && |t.conds| == |s.conds| && p < |s.procs| && o < |s.procs| &&
       c < |s.cpus|
    && (forall r {:trigger t.procs[r]} | 0 <= r < |s.procs| && r != p && r != o :: t.procs[r] == s.procs[r])
    && (forall d {:trigger t.cpus[d]} | 0 <= d < |s.cpus| && d != c :: t.cpus[d] == s.cpus[d])
    && (forall l {:trigger t.conds[l]} | 0 <= l < |s.conds| :: |t.conds[l].blocked| == |s.conds[l].blocked|)
  }

  /** The other process keeps its thread, unless that has no lock to lose. */
  predicate Bystander(q: Proc, r: Proc) {
    r.cpu == q.cpu && (r.pc == q.pc || (Parked(q.pc) && Parked(r.pc) && Makes(q.pc) == None && Makes(r.pc) == None))
  }

  lemma PlacedFrame(s: System, t: System, c: nat, p: nat, o: nat)
    requires AllPlaced(s) && Touches(s, t, c, p, o) && (s.cpus[c] == Sched || Current(s.cpus[c]) == Some(p))
    requires Placed(t, p) && Placed(t, o) && Agrees(t, c)
    requires (s.procs[p].pc.Forking? ==> s.procs[p].pc.np == o) && (o != p ==> Bystander(s.procs[o], t.procs[o]))
    requires s.cpus[c] == Sched ==> s.procs[p].cpu == None
    ensures AllPlaced(t)
  {
    assert Placed(s, p) && Agrees(s, c);
    forall r | 0 <= r < |t.procs|
      ensures Placed(t, r)
    {
      assert Placed(s, r);
    }
    forall d | 0 <= d < |t.cpus|
      ensures Agrees(t, d)
    {
      assert Agrees(s, d);
    }
  }

  /** The condition locks: c lets go of the one its thread held, and has the one its thread holds. */
  ghost predicate LockMoves(s: System, t: System, c: nat, was: Option<Lock>, now: Option<Lock>) {
    && (forall lk {:trigger Holder(t, lk)} ::
        Holder(t, lk) == if now == Some(lk) then Some(c) else if was == Some(lk) then None else Holder(s, lk))
    && (now.Some? ==> Exists(s, now.value) && (now == was || Holder(s, now.value) == None))
  }

  lemma LockFrame(s: System, t: System, c: nat, p: nat, o: nat, lk: Lock)
    requires Touches(s, t, c, p, o) && (s.cpus[c] == Sched || Current(s.cpus[c]) == Some(p)) && LockPlaced(s, lk)
    requires LockMoves(s, t, c, Held(s.procs[p].pc), Held(t.procs[p].pc)) &&
             (o != p ==> Bystander(s.procs[o], t.procs[o]))
    requires Held(t.procs[p].pc).Some? ==> t.cpus[c] == On(p)
    requires var h := Holder(s, lk); h.Some? && h.value == c ==> Held(s.procs[p].pc) == Some(lk)
    requires var h := Holder(s, lk);
             h.Some? && h.value < |s.cpus| && s.cpus[h.value].On? && s.cpus[h.value].p == p ==> h.value == c
    ensures LockPlaced(t, lk)
  {
  }

  lemma HoldFrame(s: System, t: System, c: nat, p: nat, o: nat, r: nat)
    requires Touches(s, t, c, p, o) && r < |s.procs| && ReallyHolds(s, r) &&
             (r != p ==> Held(s.procs[r].pc) == None || Held(s.procs[r].pc) != Held(s.procs[p].pc))
    requires LockMoves(s, t, c, Held(s.procs[p].pc), Held(t.procs[p].pc)) &&
             (o != p ==> Bystander(s.procs[o], t.procs[o]))
    requires (Held(t.procs[p].pc).Some? ==> t.procs[p].cpu == Some(c)) &&
             (Held(s.procs[r].pc).Some? ==> s.procs[r].cpu.Some?)
    ensures ReallyHolds(t, r)
  {
  }

  lemma LocksFrame(s: System, t: System, c: nat, p: nat, o: nat)
    requires AllPlaced(s) && LocksPlaced(s) && Touches(s, t, c, p, o) &&
             (s.cpus[c] == Sched || Current(s.cpus[c]) == Some(p))
    requires LockMoves(s, t, c, Held(s.procs[p].pc), Held(t.procs[p].pc)) &&
             (o != p ==> Bystander(s.procs[o], t.procs[o]))
    requires (Held(s.procs[p].pc).Some? ==> s.cpus[c] == On(p)) &&
             (Held(t.procs[p].pc).Some? ==> t.cpus[c] == On(p) && t.procs[p].cpu == Some(c))
    ensures LocksPlaced(t)
  {
    TouchesSizes(s, t, c, p, o);
    hide Touches, LockMoves, Bystander;
    assert Placed(s, p) && Agrees(s, c) && ReallyHolds(s, p);
    forall lk
      ensures LockPlaced(t, lk)
    {
      assert LockPlaced(s, lk);
      LockFrame(s, t, c, p, o, lk);
    }
    forall r | 0 <= r < |t.procs|
      ensures ReallyHolds(t, r)
    {
      assert ReallyHolds(s, r) && Placed(s, r);
      if r != p && Held(s.procs[r].pc).Some? && Held(s.procs[r].pc) == Held(s.procs[p].pc) {
        OneHolder(s, p, r);
      }
      HoldFrame(s, t, c, p, o, r);
    }
  }

  predicate SameEntry(q: Proc, r: Proc) { r.state == q.state && r.pc == q.pc && r.cpu == q.cpu && r.lock == q.lock }

  /** What the step must not do to a process being brought up, unless it is its maker that takes the step. */
  ghost predicate MakersUnhurt(s: System, t: System, p: nat, o: nat)
    requires p < |s.procs| == |t.procs| && o < |s.procs|
  {
    && (o != p ==> Bystander(s.procs[o], t.procs[o])) && (s.procs[p].cpu.Some? || s.procs[p].state != Used)
    && (o == p || s.procs[o].state != Used || SameEntry(s.procs[o], t.procs[o]) || Makes(s.procs[p].pc) == Some(o))
    && (var m := Makes(t.procs[p].pc);
        m == None || m == Makes(s.procs[p].pc) || (m.value < |s.procs| && s.procs[m.value].state == Unused))
  }

  lemma MakerFrame(s: System, t: System, c: nat, p: nat, o: nat, r: nat)
    requires Touches(s, t, c, p, o) && MakersUnhurt(s, t, p, o) && r < |s.procs| && r != p
    requires MakerOk(s, r) && SoleMaker(s, p, r)
    ensures MakerOk(t, r)
  {
  }

  lemma SoleMakerFrame(s: System, t: System, c: nat, p: nat, o: nat, q: nat, r: nat)
    requires Touches(s, t, c, p, o) && MakersUnhurt(s, t, p, o) && q < |s.procs| && r < |s.procs|
    requires SoleMaker(s, q, r) && MakerOk(s, q) && MakerOk(s, r)
    ensures SoleMaker(t, q, r)
  {
  }

  lemma MakersFrame(s: System, t: System, c: nat, p: nat, o: nat)
    requires Makers(s) && Touches(s, t, c, p, o) && MakerOk(t, p) && MakersUnhurt(s, t, p, o)
    ensures Makers(t)
  {
    TouchesSizes(s, t, c, p, o);
    hide Touches, MakersUnhurt;
    forall r | 0 <= r < |t.procs|
      ensures MakerOk(t, r)
    {
      assert MakerOk(s, r) && SoleMaker(s, p, r);
      if r != p {
        MakerFrame(s, t, c, p, o, r);
      }
    }
    forall q, r | 0 <= q < |t.procs| && 0 <= r < |t.procs|
      ensures SoleMaker(t, q, r)
    {
      assert SoleMaker(s, q, r) && MakerOk(s, q) && MakerOk(s, r);
      SoleMakerFrame(s, t, c, p, o, q, r);
    }
  }

  /** A process that starts to wait does so holding the channel's lock; one that is looked at does not start to wait. */
  ghost predicate WaitersFrame(s: System, t: System, p: nat, o: nat)
    requires p < |s.procs| == |t.procs| && o < |s.procs|
  {
    && (forall ch {:trigger Waiting(t.procs[p], ch)} ::
        Waiting(t.procs[p], ch) ==> Waiting(s.procs[p], ch) || Held(s.procs[p].pc) == Some(LockOf(ch)))
    && (o != p ==> forall ch {:trigger Waiting(t.procs[o], ch)} :: Waiting(t.procs[o], ch) ==> Waiting(s.procs[o], ch))
  }

  /** A scan starts at 0, and goes on past a process that does not wait. */
  ghost predicate ScanFrame(s: System, t: System, p: nat)
    requires p < |s.procs| == |t.procs|
  {
    var was, now := s.procs[p].pc, t.procs[p].pc;
    now.Waking? && now.i > 0 ==>
      was.Waking? && was.ch == now.ch &&
          (now.i == was.i || (now.i == was.i + 1 <= |t.procs| && !Waiting(t.procs[was.i], was.ch)))
  }

  /** Two threads do not hold the same condition lock. */
  lemma OneHolder(s: System, p: nat, q: nat)
    requires AllPlaced(s) && LocksPlaced(s) && p < |s.procs| && q < |s.procs| && Held(s.procs[p].pc).Some? &&
             Held(s.procs[p].pc) == Held(s.procs[q].pc)
    ensures p == q
  {
    assert ReallyHolds(s, p) && ReallyHolds(s, q) && Placed(s, p) && Placed(s, q);
  }

  lemma WakersFrame(s: System, t: System, c: nat, p: nat, o: nat)
    requires AllPlaced(s) && LocksPlaced(s) && WakersThorough(s) && Touches(s, t, c, p, o) && Placed(t, p)
    requires (o != p ==> Bystander(s.procs[o], t.procs[o])) && WaitersFrame(s, t, p, o) && ScanFrame(s, t, p)
    ensures WakersThorough(t)
  {
    forall q, r | 0 <= q < |t.procs| && 0 <= r < |t.procs|
      ensures Passed(t, q, r)
    {
      assert Passed(s, q, r) && Passed(s, p, r) && Placed(s, q);
      if q != p && s.procs[q].pc.Waking? && Held(s.procs[p].pc) == Held(s.procs[q].pc) {
        OneHolder(s, p, q);
      }
    }
  }

  /** A process that starts to wait finds its condition false. */
  ghost predicate FalseFor(t: System, p: nat, ch: Chan)
    requires p < |t.procs|
  {
    if ch.Cond? then Fails(t, ch.l, ch.k)
    else ch.p == p && forall j | 0 <= j < |t.procs| && t.procs[j].parent == Some(p) :: t.procs[j].state != Zombie
  }

  ghost predicate Unawaited(t: System, ch: Chan) {
    forall r {:trigger t.procs[r]} | 0 <= r < |t.procs| :: !Waiting(t.procs[r], ch)
  }

  /** Condition `k` of lock `l` holds, and did not before. */
  predicate Becomes(s: System, t: System, l: int, k: int) {
    && 0 <= l < |s.conds| && l < |t.conds| && 0 <= k < |s.conds[l].blocked| && k < |t.conds[l].blocked|
    && s.conds[l].blocked[k] && !t.conds[l].blocked[k]
  }

  /** Whatever becomes true is announced, and an announcement ends only when all have heard it. */
  ghost predicate Announces(s: System, t: System, p: nat, o: nat)
    requires p < |s.procs| == |t.procs| && o < |s.procs| && |s.conds| == |t.conds|
  {
    && (forall ch {:trigger Waiting(t.procs[p], ch)} ::
        Waiting(t.procs[p], ch) && !Waiting(s.procs[p], ch) ==> FalseFor(t, p, ch))
    && (forall l, k {:trigger Becomes(s, t, l, k)} | Becomes(s, t, l, k) :: BeingWoken(t, Cond(l, k)))
    && (forall i | (i == p || i == o) && t.procs[i].state == Zombie && t.procs[i].parent.Some? &&
                   (s.procs[i].state != Zombie || s.procs[i].parent != t.procs[i].parent) ::
          BeingWoken(t, Child(t.procs[i].parent.value)) || Unawaited(t, Child(t.procs[i].parent.value)))
    && (s.procs[p].pc.Waking? ==> var ch := s.procs[p].pc.ch;
        (t.procs[p].pc.Waking? && t.procs[p].pc.ch == ch) || Unawaited(t, ch))
  }

  /** A wakeup by another CPU goes on; one by this CPU goes on or has been heard by all. */
  lemma StillWoken(s: System, t: System, c: nat, p: nat, o: nat, ch: Chan)
    requires AllPlaced(s) && LocksPlaced(s) && Touches(s, t, c, p, o) &&
             (s.cpus[c] == Sched || Current(s.cpus[c]) == Some(p))
    requires LockMoves(s, t, c, Held(s.procs[p].pc), Held(t.procs[p].pc)) &&
             (o != p ==> Bystander(s.procs[o], t.procs[o]))
    requires Held(t.procs[p].pc).Some? ==> t.cpus[c] == On(p)
    requires Announces(s, t, p, o) && BeingWoken(s, ch)
    ensures BeingWoken(t, ch) || Unawaited(t, ch)
  {
    var h := Holder(s, LockOf(ch)).value;
    assert Agrees(s, h) && Placed(s, p) && Placed(s, o) && ReallyHolds(s, s.cpus[h].p) && ReallyHolds(s, p);
    var q := s.cpus[h].p;
    if Held(s.procs[p].pc) == Some(LockOf(ch)) {
      OneHolder(s, p, q);
    }
  }

  lemma ForgottenFrame(s: System, t: System, c: nat, p: nat, o: nat)
    requires AllPlaced(s) && LocksPlaced(s) && NobodyForgotten(s) && Touches(s, t, c, p, o) &&
             (s.cpus[c] == Sched || Current(s.cpus[c]) == Some(p))
    requires LockMoves(s, t, c, Held(s.procs[p].pc), Held(t.procs[p].pc)) &&
             (o != p ==> Bystander(s.procs[o], t.procs[o]))
    requires Held(t.procs[p].pc).Some? ==> t.cpus[c] == On(p)
    requires WaitersFrame(s, t, p, o) && Announces(s, t, p, o)
    ensures NobodyForgotten(t)
  {
    forall r, l, k | 0 <= r < |t.procs| && 0 <= l < |t.conds| && 0 <= k < |t.conds[l].blocked|
      ensures CondAwaited(t, r, l, k)
    {
      assert CondAwaited(s, r, l, k);
      assert Becomes(s, t, l, k) ==> BeingWoken(t, Cond(l, k));
      if BeingWoken(s, Cond(l, k)) {
        StillWoken(s, t, c, p, o, Cond(l, k));
      }
    }
    forall r, i | 0 <= r < |t.procs| && 0 <= i < |t.procs|
      ensures ChildAwaited(t, r, i)
    {
      assert ChildAwaited(s, r, i);
      if BeingWoken(s, Child(r)) {
        StillWoken(s, t, c, p, o, Child(r));
      }
    }
  }

  /** Processes get parents and become zombies only under wait_lock,
      and conditions come to hold only under their lock. */
  ghost predicate Guarded(s: System, t: System, p: nat, o: nat)
    requires p < |s.procs| == |t.procs| && o < |s.procs| && |s.conds| == |t.conds|
  {
    && (s.waitLock == None || Held(s.procs[p].pc) == Some(WaitLock) ||
        forall j | j == p || j == o ::
          && (t.procs[j].parent == s.procs[j].parent || (t.procs[j].parent == None && Parked(t.procs[j].pc)))
          && (t.procs[j].state == Zombie ==> s.procs[j].state == Zombie))
    && (forall l, k {:trigger Becomes(s, t, l, k)} | Becomes(s, t, l, k) ::
          s.conds[l].spin == None || Held(s.procs[p].pc) == Some(Spin(l)))
  }

  lemma KnowsFrame(s: System, t: System, c: nat, p: nat, o: nat)
    requires AllPlaced(s) && LocksPlaced(s) && AllKnow(s) && Touches(s, t, c, p, o)
    requires Knows(t, p) && (o != p ==> Bystander(s.procs[o], t.procs[o])) && Guarded(s, t, p, o)
    ensures AllKnow(t)
  {
    forall r | 0 <= r < |t.procs|
      ensures Knows(t, r)
    {
      assert Knows(s, r) && ReallyHolds(s, r) && Placed(s, r);
      if s.procs[r].pc.Doze? && s.procs[r].pc.ch.Cond? {
        var ch := s.procs[r].pc.ch;
        assert Becomes(s, t, ch.l, ch.k) || Fails(t, ch.l, ch.k);
      }
      if r != p && Held(s.procs[p].pc).Some? && Held(s.procs[p].pc) == Held(s.procs[r].pc) {
        OneHolder(s, p, r);
      }
    }
  }

  /** What a step has to show about the processes it touches: they and the locks are where the code has them, ... */
  ghost predicate FinePlaces(s: System, t: System, c: nat, p: nat, o: nat) {
    && Touches(s, t, c, p, o) && (s.cpus[c] == Sched || Current(s.cpus[c]) == Some(p)) &&
       (s.cpus[c] == Sched ==> s.procs[p].cpu == None)
    && Placed(t, p) && Placed(t, o) && Agrees(t, c)
    && (s.procs[p].pc.Forking? ==> s.procs[p].pc.np == o) && (o != p ==> Bystander(s.procs[o], t.procs[o]))
    && LockMoves(s, t, c, Held(s.procs[p].pc), Held(t.procs[p].pc))
    && (Held(s.procs[p].pc).Some? ==> s.cpus[c] == On(p)) &&
        (Held(t.procs[p].pc).Some? ==> t.cpus[c] == On(p) && t.procs[p].cpu == Some(c))
    && MakerOk(t, p) && MakersUnhurt(s, t, p, o) && SleepLocksHeld(t) && FreedOnce(t)
  }

  /** ... and nobody who waits is forgotten. */
  ghost predicate FineWaits(s: System, t: System, c: nat, p: nat, o: nat) {
    && Touches(s, t, c, p, o)
    && WaitersFrame(s, t, p, o) && ScanFrame(s, t, p) && Announces(s, t, p, o) && Knows(t, p) && Guarded(s, t, p, o)
  }

  lemma FineIsEnough(s: System, t: System, c: nat, p: nat, o: nat)
    requires Inv(s) && FinePlaces(s, t, c, p, o) && FineWaits(s, t, c, p, o)
    ensures Inv(t)
  {
    hide AllPlaced, LocksPlaced, Makers, WakersThorough, NobodyForgotten, AllKnow, SleepLocksHeld, FreedOnce;
    hide Touches, Placed, Agrees, Bystander, LockMoves, MakerOk, MakersUnhurt, WaitersFrame, ScanFrame, Announces;
    hide Knows, Guarded;
    TouchesSizes(s, t, c, p, o);
    PlacedFrame(s, t, c, p, o);
    LocksFrame(s, t, c, p, o);
    MakersFrame(s, t, c, p, o);
    WakersFrame(s, t, c, p, o);
    ForgottenFrame(s, t, c, p, o);
    KnowsFrame(s, t, c, p, o);
  }

  lemma TouchesSizes(s: System, t: System, c: nat, p: nat, o: nat)
    requires Touches(s, t, c, p, o)
    ensures |t.procs| == |s.procs| && |t.cpus| == |s.cpus| && |t.conds| == |s.conds| && p < |s.procs| &&
            o < |s.procs| && c < |s.cpus|
  {
  }

  /** wakeup() has looked at every process: nobody waits. */
  lemma AllHeard(s: System, p: nat)
    requires WakersThorough(s) && p < |s.procs| && s.procs[p].pc.Waking? && s.procs[p].pc.i == |s.procs|
    ensures Unawaited(s, s.procs[p].pc.ch)
  {
    forall r | 0 <= r < |s.procs|
      ensures !Waiting(s.procs[r], s.procs[p].pc.ch)
    {
      assert Passed(s, p, r);
    }
  }
}
