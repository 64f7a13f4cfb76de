/** Every step of the process machine keeps the invariant, and what follows for every run: a process is
    current on at most one CPU, is picked or freed only once it is off its stack, and no wakeup is lost. */
module ProcessSafety {
  import opened Common
  import opened Processes
  import opened ProcessFrames

  // ----- every step keeps the invariant -----

  lemma PickFine(s: System, t: System, c: nat, p: nat)
    requires Inv(s) && Pick(s, t, c, p)
    ensures Inv(t)
  {
    var o := p;
    assert Placed(s, p) && Placed(s, o) && Agrees(s, c) && ReallyHolds(s, p) && MakerOk(s, p) && Knows(s, p);
    FineIsEnough(s, t, c, p, o);
  }

  lemma SwitchInFine(s: System, t: System, c: nat, p: nat)
    requires Inv(s) && SwitchIn(s, t, c, p)
    ensures Inv(t)
  {
    var o := p;
    assert Placed(s, p) && Placed(s, o) && Agrees(s, c) && ReallyHolds(s, p) && MakerOk(s, p) && Knows(s, p);
    FineIsEnough(s, t, c, p, o);
  }

  lemma SwitchOutFine(s: System, t: System, c: nat, p: nat)
    requires Inv(s) && SwitchOut(s, t, c, p)
    ensures Inv(t)
  {
    var o := p;
    assert Placed(s, p) && Placed(s, o) && Agrees(s, c) && ReallyHolds(s, p) && MakerOk(s, p) && Knows(s, p);
    FineIsEnough(s, t, c, p, o);
  }

  lemma UnloadFine(s: System, t: System, c: nat, p: nat)
    requires Inv(s) && Unload(s, t, c, p)
    ensures Inv(t)
  {
    var o := p;
    assert Placed(s, p) && Placed(s, o) && Agrees(s, c) && ReallyHolds(s, p) && MakerOk(s, p) && Knows(s, p);
    FineIsEnough(s, t, c, p, o);
  }

  lemma YieldFine(s: System, t: System, c: nat, p: nat)
    requires Inv(s) && Yield(s, t, c, p)
    ensures Inv(t)
  {
    var o := p;
    assert Placed(s, p) && Placed(s, o) && Agrees(s, c) && ReallyHolds(s, p) && MakerOk(s, p) && Knows(s, p);
    FineIsEnough(s, t, c, p, o);
  }

  lemma ContinueFine(s: System, t: System, c: nat, p: nat)
    requires Inv(s) && Continue(s, t, c, p)
    ensures Inv(t)
  {
    var o := p;
    assert Placed(s, p) && Placed(s, o) && Agrees(s, c) && ReallyHolds(s, p) && MakerOk(s, p) && Knows(s, p);
    FineIsEnough(s, t, c, p, o);
  }

  lemma StartFine(s: System, t: System, c: nat, p: nat, ch: Chan)
    requires Inv(s) && Start(s, t, c, p, ch)
    ensures Inv(t)
  {
    var o := p;
    assert Placed(s, p) && Placed(s, o) && Agrees(s, c) && ReallyHolds(s, p) && MakerOk(s, p) && Knows(s, p);
    FineIsEnough(s, t, c, p, o);
  }

  lemma AcquireFine(s: System, t: System, c: nat, p: nat)
    requires Inv(s) && Acquire(s, t, c, p)
    ensures Inv(t)
  {
    var o := p;
    assert Placed(s, p) && Placed(s, o) && Agrees(s, c) && ReallyHolds(s, p) && MakerOk(s, p) && Knows(s, p);
    FineIsEnough(s, t, c, p, o);
  }

  lemma TakeSleepLockFine(s: System, t: System, c: nat, p: nat)
    requires Inv(s) && TakeSleepLock(s, t, c, p)
    ensures Inv(t)
  {
    var o := p;
    assert Placed(s, p) && Placed(s, o) && Agrees(s, c) && ReallyHolds(s, p) && MakerOk(s, p) && Knows(s, p);
    FineIsEnough(s, t, c, p, o);
  }

  lemma SleepEnterFine(s: System, t: System, c: nat, p: nat, k: nat)
    requires Inv(s) && SleepEnter(s, t, c, p, k)
    ensures Inv(t)
  {
    var o := p;
    assert Placed(s, p) && Placed(s, o) && Agrees(s, c) && ReallyHolds(s, p) && MakerOk(s, p) && Knows(s, p);
    FineIsEnough(s, t, c, p, o);
  }

  lemma SleepReleaseFine(s: System, t: System, c: nat, p: nat)
    requires Inv(s) && SleepRelease(s, t, c, p)
    ensures Inv(t)
  {
    var o := p;
    assert Placed(s, p) && Placed(s, o) && Agrees(s, c) && ReallyHolds(s, p) && MakerOk(s, p) && Knows(s, p);
    FineIsEnough(s, t, c, p, o);
  }

  lemma FallAsleepFine(s: System, t: System, c: nat, p: nat)
    requires Inv(s) && FallAsleep(s, t, c, p)
    ensures Inv(t)
  {
    var o := p;
    assert Placed(s, p) && Placed(s, o) && Agrees(s, c) && ReallyHolds(s, p) && MakerOk(s, p) && Knows(s, p);
    FineIsEnough(s, t, c, p, o);
  }

  lemma InterruptPlaces(s: System, t: System, c: nat, p: nat, l: nat)
    requires Inv(s) && Interrupt(s, t, c, p, l)
    ensures FinePlaces(s, t, c, p, p)
  {
    hide WakersThorough, NobodyForgotten, AllKnow;
    assert Placed(s, p) && Placed(s, p) && Agrees(s, c) && ReallyHolds(s, p) && MakerOk(s, p);
  }

  lemma InterruptWaits(s: System, t: System, c: nat, p: nat, l: nat)
    requires Inv(s) && Interrupt(s, t, c, p, l)
    ensures FineWaits(s, t, c, p, p)
  {
    hide WakersThorough, NobodyForgotten, SleepLocksHeld, FreedOnce;
    assert Placed(s, p) && Placed(s, p) && ReallyHolds(s, p) && MakerOk(s, p) && Knows(s, p);
  }

  lemma InterruptFine(s: System, t: System, c: nat, p: nat, l: nat)
    requires Inv(s) && Interrupt(s, t, c, p, l)
    ensures Inv(t)
  {
    hide Inv, FinePlaces, FineWaits;
    InterruptPlaces(s, t, c, p, l);
    InterruptWaits(s, t, c, p, l);
    FineIsEnough(s, t, c, p, p);
  }

  lemma SpoilFine(s: System, t: System, c: nat, p: nat, blocked: seq<bool>)
    requires Inv(s) && Spoil(s, t, c, p, blocked)
    ensures Inv(t)
  {
    var o := p;
    assert Placed(s, p) && Placed(s, o) && Agrees(s, c) && ReallyHolds(s, p) && MakerOk(s, p) && Knows(s, p);
    FineIsEnough(s, t, c, p, o);
  }

  lemma AnnouncePlaces(s: System, t: System, c: nat, p: nat, k: nat)
    requires Inv(s) && Announce(s, t, c, p, k)
    ensures FinePlaces(s, t, c, p, p)
  {
    hide WakersThorough, NobodyForgotten, AllKnow;
    assert Placed(s, p) && Placed(s, p) && Agrees(s, c) && ReallyHolds(s, p) && MakerOk(s, p);
  }

  lemma AnnounceWaits(s: System, t: System, c: nat, p: nat, k: nat)
    requires Inv(s) && Announce(s, t, c, p, k)
    ensures FineWaits(s, t, c, p, p)
  {
    hide WakersThorough, NobodyForgotten, SleepLocksHeld, FreedOnce;
    assert Placed(s, p) && Placed(s, p) && ReallyHolds(s, p) && MakerOk(s, p) && Knows(s, p);
  }

  lemma AnnounceFine(s: System, t: System, c: nat, p: nat, k: nat)
    requires Inv(s) && Announce(s, t, c, p, k)
    ensures Inv(t)
  {
    hide Inv, FinePlaces, FineWaits;
    AnnouncePlaces(s, t, c, p, k);
    AnnounceWaits(s, t, c, p, k);
    FineIsEnough(s, t, c, p, p);
  }

  lemma LeaveFine(s: System, t: System, c: nat, p: nat)
    requires Inv(s) && Leave(s, t, c, p)
    ensures Inv(t)
  {
    var o := p;
    assert Placed(s, p) && Placed(s, o) && Agrees(s, c) && ReallyHolds(s, p) && MakerOk(s, p) && Knows(s, p);
    FineIsEnough(s, t, c, p, o);
  }

  lemma FreeSleepLockFine(s: System, t: System, c: nat, p: nat, l: nat)
    requires Inv(s) && FreeSleepLock(s, t, c, p, l)
    ensures Inv(t)
  {
    var o := p;
    assert Placed(s, p) && Placed(s, o) && Agrees(s, c) && ReallyHolds(s, p) && MakerOk(s, p) && Knows(s, p);
    FineIsEnough(s, t, c, p, o);
  }

  /** A thread moves on within the code, holding the same locks. */
  lemma MovesOn(s: System, t: System, c: nat, p: nat, pc: Pc)
    requires Inv(s) && OnCpu(s, c, p) && t == WithProc(s, p, AtPc(s.procs[p], pc))
    requires Held(pc) == Held(s.procs[p].pc) && Held(pc).Some? && !pc.Doze? && !s.procs[p].pc.Doze?
    requires Knows(t, p) && ScanFrame(s, t, p) && StateFits(p, t.procs[p]) && Makes(pc) == Makes(s.procs[p].pc)
    requires s.procs[p].pc.Waking? ==> (pc.Waking? && pc.ch == s.procs[p].pc.ch) || Unawaited(t, s.procs[p].pc.ch)
    ensures Inv(t)
  {
    assert Placed(s, p) && Agrees(s, c) && ReallyHolds(s, p) && MakerOk(s, p);
    hide Knows, ScanFrame, Unawaited;
    FineIsEnough(s, t, c, p, p);
  }

  lemma WakeSleeperPlaces(s: System, t: System, c: nat, p: nat)
    requires Inv(s) && WakeOne(s, t, c, p) && s.procs[p].pc.i != p
    requires var q := s.procs[s.procs[p].pc.i]; q.state == Sleeping && q.chan == Some(s.procs[p].pc.ch)
    ensures FinePlaces(s, t, c, p, s.procs[p].pc.i)
  {
    hide WakersThorough, NobodyForgotten, AllKnow;
    assert Placed(s, p) && Placed(s, s.procs[p].pc.i) && Agrees(s, c) && ReallyHolds(s, p) && MakerOk(s, p);
  }

  lemma WakeSleeperWaits(s: System, t: System, c: nat, p: nat)
    requires Inv(s) && WakeOne(s, t, c, p) && s.procs[p].pc.i != p
    requires var q := s.procs[s.procs[p].pc.i]; q.state == Sleeping && q.chan == Some(s.procs[p].pc.ch)
    ensures FineWaits(s, t, c, p, s.procs[p].pc.i)
  {
    hide WakersThorough, NobodyForgotten, SleepLocksHeld, FreedOnce;
    assert Placed(s, p) && Placed(s, s.procs[p].pc.i) && ReallyHolds(s, p) && MakerOk(s, p) && Knows(s, p);
  }

  lemma WakeSleeperFine(s: System, t: System, c: nat, p: nat)
    requires Inv(s) && WakeOne(s, t, c, p) && s.procs[p].pc.i != p
    requires var q := s.procs[s.procs[p].pc.i]; q.state == Sleeping && q.chan == Some(s.procs[p].pc.ch)
    ensures Inv(t)
  {
    hide Inv, FinePlaces, FineWaits;
    WakeSleeperPlaces(s, t, c, p);
    WakeSleeperWaits(s, t, c, p);
    FineIsEnough(s, t, c, p, s.procs[p].pc.i);
  }

  lemma WakeOneFine(s: System, t: System, c: nat, p: nat)
    requires Inv(s) && WakeOne(s, t, c, p)
    ensures Inv(t)
  {
    var pc := s.procs[p].pc;
    var o := pc.i;
    assert Placed(s, p) && Placed(s, o) && Knows(s, p);
    if o != p && s.procs[o].state == Sleeping && s.procs[o].chan == Some(pc.ch) {
      WakeSleeperFine(s, t, c, p);
    } else {
      hide AllPlaced, LocksPlaced, Makers, WakersThorough, NobodyForgotten, AllKnow, SleepLocksHeld, FreedOnce;
      MovesOn(s, t, c, p, Waking(pc.ch, pc.i + 1, pc.after));
    }
  }

  lemma WakeDonePlaces(s: System, t: System, c: nat, p: nat)
    requires Inv(s) && WakeDone(s, t, c, p)
    ensures FinePlaces(s, t, c, p, p)
  {
    hide WakersThorough, NobodyForgotten;
    assert Placed(s, p) && Placed(s, p) && Agrees(s, c) && ReallyHolds(s, p) && MakerOk(s, p) && Knows(s, p);
  }

  lemma WakeDoneWaits(s: System, t: System, c: nat, p: nat)
    requires Inv(s) && WakeDone(s, t, c, p)
    ensures FineWaits(s, t, c, p, p)
  {
    hide NobodyForgotten, SleepLocksHeld, FreedOnce;
    assert Placed(s, p) && Placed(s, p) && ReallyHolds(s, p) && MakerOk(s, p) && Knows(s, p);
    AllHeard(s, p);
    assert forall r | 0 <= r < |s.procs| && r != p :: t.procs[r] == s.procs[r];
    assert Unawaited(t, s.procs[p].pc.ch);
  }

  lemma WakeDoneFine(s: System, t: System, c: nat, p: nat)
    requires Inv(s) && WakeDone(s, t, c, p)
    ensures Inv(t)
  {
    hide Inv, FinePlaces, FineWaits;
    WakeDonePlaces(s, t, c, p);
    WakeDoneWaits(s, t, c, p);
    FineIsEnough(s, t, c, p, p);
  }

  lemma StartExitFine(s: System, t: System, c: nat, p: nat)
    requires Inv(s) && StartExit(s, t, c, p)
    ensures Inv(t)
  {
    var o := p;
    assert Placed(s, p) && Placed(s, o) && Agrees(s, c) && ReallyHolds(s, p) && MakerOk(s, p) && Knows(s, p);
    FineIsEnough(s, t, c, p, o);
  }

  lemma OrphanPlaces(s: System, t: System, c: nat, p: nat)
    requires Inv(s) && ReparentOne(s, t, c, p) && s.procs[s.procs[p].pc.i].parent == Some(p)
    ensures FinePlaces(s, t, c, p, s.procs[p].pc.i)
  {
    var o := s.procs[p].pc.i;
    assert Placed(s, p) && Placed(s, o) && Agrees(s, c) && ReallyHolds(s, p) && MakerOk(s, p);
    hide AllPlaced, LocksPlaced, Makers, WakersThorough, NobodyForgotten, AllKnow;
  }

  lemma OrphanWaits(s: System, t: System, c: nat, p: nat)
    requires Inv(s) && ReparentOne(s, t, c, p) && s.procs[s.procs[p].pc.i].parent == Some(p)
    ensures FineWaits(s, t, c, p, s.procs[p].pc.i)
  {
    var o := s.procs[p].pc.i;
    assert Placed(s, p) && Placed(s, o) && Agrees(s, c) && ReallyHolds(s, p) && Knows(s, p);
    hide AllPlaced, LocksPlaced, Makers, WakersThorough, NobodyForgotten, AllKnow, SleepLocksHeld, FreedOnce;
  }

  lemma OrphanFine(s: System, t: System, c: nat, p: nat)
    requires Inv(s) && ReparentOne(s, t, c, p) && s.procs[s.procs[p].pc.i].parent == Some(p)
    ensures Inv(t)
  {
    hide Inv, FinePlaces, FineWaits;
    OrphanPlaces(s, t, c, p);
    OrphanWaits(s, t, c, p);
    FineIsEnough(s, t, c, p, s.procs[p].pc.i);
  }

  lemma ReparentOneFine(s: System, t: System, c: nat, p: nat)
    requires Inv(s) && ReparentOne(s, t, c, p)
    ensures Inv(t)
  {
    var i := s.procs[p].pc.i;
    if s.procs[i].parent == Some(p) {
      OrphanFine(s, t, c, p);
    } else {
      assert Placed(s, p);
      MovesOn(s, t, c, p, Reparent(i + 1));
    }
  }

  lemma WakeParentFine(s: System, t: System, c: nat, p: nat)
    requires Inv(s) && WakeParent(s, t, c, p)
    ensures Inv(t)
  {
    var o := p;
    assert Placed(s, p) && Placed(s, o) && Agrees(s, c) && ReallyHolds(s, p) && MakerOk(s, p) && Knows(s, p);
    FineIsEnough(s, t, c, p, o);
  }

  lemma ExitFine(s: System, t: System, c: nat, p: nat)
    requires Inv(s) && Exit(s, t, c, p)
    ensures Inv(t)
  {
    var o := p;
    assert Placed(s, p) && Placed(s, o) && Agrees(s, c) && ReallyHolds(s, p) && MakerOk(s, p) && Knows(s, p);
    AllHeard(s, p);
    assert forall r | 0 <= r < |s.procs| && r != p :: t.procs[r] == s.procs[r];
    assert Unawaited(t, s.procs[p].pc.ch);
    FineIsEnough(s, t, c, p, o);
  }

  lemma ReapPlaces(s: System, t: System, c: nat, p: nat)
    requires Inv(s) && ScanOne(s, t, c, p) && s.procs[s.procs[p].pc.i].parent == Some(p) &&
             s.procs[s.procs[p].pc.i].state == Zombie
    ensures FinePlaces(s, t, c, p, s.procs[p].pc.i)
  {
    hide WakersThorough, NobodyForgotten, AllKnow;
    assert Placed(s, p) && Placed(s, s.procs[p].pc.i) && Agrees(s, c) && ReallyHolds(s, p) && MakerOk(s, p);
  }

  lemma ReapWaits(s: System, t: System, c: nat, p: nat)
    requires Inv(s) && ScanOne(s, t, c, p) && s.procs[s.procs[p].pc.i].parent == Some(p) &&
             s.procs[s.procs[p].pc.i].state == Zombie
    ensures FineWaits(s, t, c, p, s.procs[p].pc.i)
  {
    hide WakersThorough, NobodyForgotten, SleepLocksHeld, FreedOnce;
    assert Placed(s, p) && Placed(s, s.procs[p].pc.i) && ReallyHolds(s, p) && MakerOk(s, p) && Knows(s, p);
  }

  lemma ReapFine(s: System, t: System, c: nat, p: nat)
    requires Inv(s) && ScanOne(s, t, c, p) && s.procs[s.procs[p].pc.i].parent == Some(p) &&
             s.procs[s.procs[p].pc.i].state == Zombie
    ensures Inv(t)
  {
    hide Inv, FinePlaces, FineWaits;
    ReapPlaces(s, t, c, p);
    ReapWaits(s, t, c, p);
    FineIsEnough(s, t, c, p, s.procs[p].pc.i);
  }

  lemma ScanOneFine(s: System, t: System, c: nat, p: nat)
    requires Inv(s) && ScanOne(s, t, c, p)
    ensures Inv(t)
  {
    var pc := s.procs[p].pc;
    var o := pc.i;
    if s.procs[o].parent == Some(p) && s.procs[o].state == Zombie {
      ReapFine(s, t, c, p);
    } else {
      assert Knows(s, p) && Placed(s, p);
      hide AllPlaced, LocksPlaced, Makers, WakersThorough, NobodyForgotten, AllKnow, SleepLocksHeld, FreedOnce;
      MovesOn(s, t, c, p, Scan(o + 1, pc.kids || s.procs[o].parent == Some(p)));
    }
  }

  lemma ScanStopFine(s: System, t: System, c: nat, p: nat)
    requires Inv(s) && ScanStop(s, t, c, p)
    ensures Inv(t)
  {
    var o := p;
    assert Placed(s, p) && Placed(s, o) && Agrees(s, c) && ReallyHolds(s, p) && MakerOk(s, p) && Knows(s, p);
    FineIsEnough(s, t, c, p, o);
  }

  lemma AllocPlaces(s: System, t: System, c: nat, p: nat, np: nat)
    requires Inv(s) && Alloc(s, t, c, p, np)
    ensures FinePlaces(s, t, c, p, np)
  {
    hide WakersThorough, NobodyForgotten, AllKnow;
    assert Placed(s, p) && Placed(s, np) && Agrees(s, c) && ReallyHolds(s, p) && MakerOk(s, p);
  }

  lemma AllocWaits(s: System, t: System, c: nat, p: nat, np: nat)
    requires Inv(s) && Alloc(s, t, c, p, np)
    ensures FineWaits(s, t, c, p, np)
  {
    hide WakersThorough, NobodyForgotten, SleepLocksHeld, FreedOnce;
    assert Placed(s, p) && Placed(s, np) && ReallyHolds(s, p) && MakerOk(s, p) && Knows(s, p);
  }

  lemma AllocFine(s: System, t: System, c: nat, p: nat, np: nat)
    requires Inv(s) && Alloc(s, t, c, p, np)
    ensures Inv(t)
  {
    hide Inv, FinePlaces, FineWaits;
    AllocPlaces(s, t, c, p, np);
    AllocWaits(s, t, c, p, np);
    FineIsEnough(s, t, c, p, np);
  }

  lemma ForkReleasePlaces(s: System, t: System, c: nat, p: nat)
    requires Inv(s) && ForkRelease(s, t, c, p)
    ensures FinePlaces(s, t, c, p, s.procs[p].pc.np)
  {
    hide WakersThorough, NobodyForgotten, AllKnow;
    assert Placed(s, p) && Placed(s, s.procs[p].pc.np) && Agrees(s, c) && ReallyHolds(s, p) && MakerOk(s, p);
  }

  lemma ForkReleaseWaits(s: System, t: System, c: nat, p: nat)
    requires Inv(s) && ForkRelease(s, t, c, p)
    ensures FineWaits(s, t, c, p, s.procs[p].pc.np)
  {
    hide WakersThorough, NobodyForgotten, SleepLocksHeld, FreedOnce;
    assert Placed(s, p) && Placed(s, s.procs[p].pc.np) && ReallyHolds(s, p) && MakerOk(s, p) && Knows(s, p);
  }

  lemma ForkReleaseFine(s: System, t: System, c: nat, p: nat)
    requires Inv(s) && ForkRelease(s, t, c, p)
    ensures Inv(t)
  {
    hide Inv, FinePlaces, FineWaits;
    ForkReleasePlaces(s, t, c, p);
    ForkReleaseWaits(s, t, c, p);
    FineIsEnough(s, t, c, p, s.procs[p].pc.np);
  }

  lemma ForkFailPlaces(s: System, t: System, c: nat, p: nat)
    requires Inv(s) && ForkFail(s, t, c, p)
    ensures FinePlaces(s, t, c, p, s.procs[p].pc.np)
  {
    hide WakersThorough, NobodyForgotten, AllKnow;
    assert Placed(s, p) && Placed(s, s.procs[p].pc.np) && Agrees(s, c) && ReallyHolds(s, p) && MakerOk(s, p);
  }

  lemma ForkFailWaits(s: System, t: System, c: nat, p: nat)
    requires Inv(s) && ForkFail(s, t, c, p)
    ensures FineWaits(s, t, c, p, s.procs[p].pc.np)
  {
    hide WakersThorough, NobodyForgotten, LocksPlaced, SleepLocksHeld, FreedOnce, AllKnow;
    assert Placed(s, p) && MakerOk(s, p);
  }

  lemma ForkFailFine(s: System, t: System, c: nat, p: nat)
    requires Inv(s) && ForkFail(s, t, c, p)
    ensures Inv(t)
  {
    hide Inv, ForkFail, FinePlaces, FineWaits;
    ForkFailPlaces(s, t, c, p);
    ForkFailWaits(s, t, c, p);
    ForkFailOther(s, t, c, p);
    FineIsEnough(s, t, c, p, s.procs[p].pc.np);
  }

  lemma ForkFailOther(s: System, t: System, c: nat, p: nat)
    requires ForkFail(s, t, c, p)
    ensures p < |s.procs| && s.procs[p].pc.Forking?
  {
  }

  lemma AdoptPlaces(s: System, t: System, c: nat, p: nat)
    requires Inv(s) && Adopt(s, t, c, p)
    ensures FinePlaces(s, t, c, p, s.procs[p].pc.np)
  {
    hide WakersThorough, NobodyForgotten, AllKnow;
    assert Placed(s, p) && Placed(s, s.procs[p].pc.np) && Agrees(s, c) && ReallyHolds(s, p) && MakerOk(s, p);
  }

  lemma AdoptWaits(s: System, t: System, c: nat, p: nat)
    requires Inv(s) && Adopt(s, t, c, p)
    ensures FineWaits(s, t, c, p, s.procs[p].pc.np)
  {
    hide WakersThorough, NobodyForgotten, SleepLocksHeld, FreedOnce;
    assert Placed(s, p) && Placed(s, s.procs[p].pc.np) && ReallyHolds(s, p) && MakerOk(s, p) && Knows(s, p);
  }

  lemma AdoptFine(s: System, t: System, c: nat, p: nat)
    requires Inv(s) && Adopt(s, t, c, p)
    ensures Inv(t)
  {
    hide Inv, FinePlaces, FineWaits;
    AdoptPlaces(s, t, c, p);
    AdoptWaits(s, t, c, p);
    FineIsEnough(s, t, c, p, s.procs[p].pc.np);
  }

  lemma LaunchPlaces(s: System, t: System, c: nat, p: nat)
    requires Inv(s) && Launch(s, t, c, p)
    ensures FinePlaces(s, t, c, p, s.procs[p].pc.np)
  {
    hide WakersThorough, NobodyForgotten, AllKnow;
    assert Placed(s, p) && Placed(s, s.procs[p].pc.np) && Agrees(s, c) && ReallyHolds(s, p) && MakerOk(s, p);
  }

  lemma LaunchWaits(s: System, t: System, c: nat, p: nat)
    requires Inv(s) && Launch(s, t, c, p)
    ensures FineWaits(s, t, c, p, s.procs[p].pc.np)
  {
    hide WakersThorough, NobodyForgotten, SleepLocksHeld, FreedOnce;
    assert Placed(s, p) && Placed(s, s.procs[p].pc.np) && ReallyHolds(s, p) && MakerOk(s, p) && Knows(s, p);
  }

  lemma LaunchFine(s: System, t: System, c: nat, p: nat)
    requires Inv(s) && Launch(s, t, c, p)
    ensures Inv(t)
  {
    hide Inv, FinePlaces, FineWaits;
    LaunchPlaces(s, t, c, p);
    LaunchWaits(s, t, c, p);
    FineIsEnough(s, t, c, p, s.procs[p].pc.np);
  }

  lemma KillFine(s: System, t: System, c: nat, p: nat, v: nat)
    requires Inv(s) && Kill(s, t, c, p, v)
    ensures Inv(t)
  {
    var o := v;
    assert Placed(s, p) && Placed(s, o) && Agrees(s, c) && ReallyHolds(s, p) && MakerOk(s, p) && Knows(s, p);
    FineIsEnough(s, t, c, p, o);
  }

  lemma StepKeeps(s: System, t: System, c: nat, p: nat, a: Action)
    requires Inv(s) && Step(s, t, c, p, a)
    ensures Inv(t)
  {
    hide Inv, Pick, SwitchIn, SwitchOut, Unload, Yield, Continue, Start, Acquire, TakeSleepLock, SleepEnter;
    hide SleepRelease, FallAsleep, Interrupt, Spoil, Leave;
    hide FreeSleepLock, Announce, WakeOne, WakeDone, StartExit, ReparentOne, WakeParent, Exit, ScanOne;
    hide ScanStop, Alloc, ForkRelease, ForkFail, Adopt, Launch, Kill;
    match a {
      case APick => PickFine(s, t, c, p);
      case ASwitchIn => SwitchInFine(s, t, c, p);
      case ASwitchOut => SwitchOutFine(s, t, c, p);
      case AUnload => UnloadFine(s, t, c, p);
      case AYield => YieldFine(s, t, c, p);
      case AContinue => ContinueFine(s, t, c, p);
      case AStart(ch) => StartFine(s, t, c, p, ch);
      case AAcquire => AcquireFine(s, t, c, p);
      case ATakeSleepLock => TakeSleepLockFine(s, t, c, p);
      case AInterrupt(l) => InterruptFine(s, t, c, p, l);
      case ASpoil(blocked) => SpoilFine(s, t, c, p, blocked);
      case AAnnounce(k) => AnnounceFine(s, t, c, p, k);
      case ALeave => LeaveFine(s, t, c, p);
      case ASleepEnter(k) => SleepEnterFine(s, t, c, p, k);
      case ASleepRelease => SleepReleaseFine(s, t, c, p);
      case AFallAsleep => FallAsleepFine(s, t, c, p);
      case AFreeSleepLock(l) => FreeSleepLockFine(s, t, c, p, l);
      case AWakeOne => WakeOneFine(s, t, c, p);
      case AWakeDone => WakeDoneFine(s, t, c, p);
      case AStartExit => StartExitFine(s, t, c, p);
      case AReparentOne => ReparentOneFine(s, t, c, p);
      case AWakeParent => WakeParentFine(s, t, c, p);
      case AExit => ExitFine(s, t, c, p);
      case AScanOne => ScanOneFine(s, t, c, p);
      case AScanStop => ScanStopFine(s, t, c, p);
      case AAlloc(np) => AllocFine(s, t, c, p, np);
      case AForkRelease => ForkReleaseFine(s, t, c, p);
      case AForkFail => ForkFailFine(s, t, c, p);
      case AAdopt => AdoptFine(s, t, c, p);
      case ALaunch => LaunchFine(s, t, c, p);
      case AKill(v) => KillFine(s, t, c, p, v);
    }
  }

  // ----- runs -----

  /** At the start every CPU is in the scheduler, nothing is locked, and only init is there, RUNNABLE. */
  ghost predicate Init(s: System) {
    && INIT < |s.procs| && s.waitLock == None
    && (forall c | 0 <= c < |s.cpus| :: s.cpus[c] == Sched)
    && (forall l | 0 <= l < |s.conds| ::
        s.conds[l].spin == None && s.conds[l].holder == None && (s.conds[l].mutex ==> s.conds[l].blocked == [false]))
    && (forall p | 0 <= p < |s.procs| ::
          s.procs[p] == if p == INIT then Proc(Runnable, None, None, Saved(Resume(Run)), None, None, 0, 0)
              else Proc(Unused, None, None, Gone, None, None, 0, 0))
  }

  lemma InitInv(s: System)
    requires Init(s)
    ensures Inv(s)
  {
  }

  ghost predicate Next(s: System, t: System) {
    exists c, p, a :: Step(s, t, c, p, a)
  }

  ghost predicate IsRun(run: seq<System>) {
    && run != [] && Init(run[0])
    && forall i {:trigger run[i]} | 0 <= i < |run| - 1 :: Next(run[i], run[i + 1])
  }

  lemma {:induction false} RunInv(run: seq<System>, i: nat)
    requires IsRun(run) && i < |run|
    ensures Inv(run[i])
  {
    hide Inv, Init;
    if i == 0 {
      InitInv(run[0]);
    } else {
      RunInv(run, i - 1);
      assert Next(run[i - 1], run[i - 1 + 1]);
      var c, p, a :| Step(run[i - 1], run[i], c, p, a);
      StepKeeps(run[i - 1], run[i], c, p, a);
    }
  }

  // ----- scheduling -----

  /** A process is c->proc of at most one CPU. */
  lemma OneCpu(run: seq<System>, i: nat, c: nat, d: nat)
    requires IsRun(run) && i < |run| && c < |run[i].cpus| && d < |run[i].cpus|
    requires Current(run[i].cpus[c]).Some? && Current(run[i].cpus[c]) == Current(run[i].cpus[d])
    ensures c == d
  {
    RunInv(run, i);
    assert Agrees(run[i], c) && Agrees(run[i], d);
  }

  /** A process whose lock is free is on a CPU only if it is RUNNING there. */
  lemma OffCpu(s: System, p: nat, c: nat)
    requires Inv(s) && FreeLock(s, p) && s.procs[p].state != Running && c < |s.cpus|
    ensures Current(s.cpus[c]) != Some(p) && s.procs[p].cpu == None && Parked(s.procs[p].pc)
  {
    assert Placed(s, p) && Agrees(s, c);
  }

  /** A CPU picks a process only once the last CPU has saved its context, left its stack and released its lock. */
  lemma PickedOffCpu(run: seq<System>, i: nat, t: System, c: nat, p: nat, d: nat)
    requires IsRun(run) && i < |run| && Pick(run[i], t, c, p) && d < |run[i].cpus|
    ensures Current(run[i].cpus[d]) != Some(p) && run[i].procs[p].pc.Saved?
  {
    RunInv(run, i);
    OffCpu(run[i], p, d);
    assert Placed(run[i], p);
  }

  lemma ReapedOffCpu(s: System, t: System, p: nat, k: nat)
    requires Inv(s) && p < |s.procs| && FreeLock(s, k) && s.procs[k].state == Zombie && Reap(s, t, p, k)
    ensures s.procs[k].cpu == None && s.procs[k].pc == Saved(Never)
    ensures t.procs[k].state == Unused && t.procs[k].freed == s.procs[k].freed + 1 == t.procs[k].died
  {
    assert Placed(s, k);
    hide AllPlaced, LocksPlaced, Makers, WakersThorough, NobodyForgotten, AllKnow, SleepLocksHeld;
  }

  /** kwait() frees a zombie only once it is off its stack for good, and each zombie once. */
  lemma FreedOffCpu(run: seq<System>, i: nat, t: System, c: nat, p: nat, d: nat)
    requires IsRun(run) && i < |run| && ScanOne(run[i], t, c, p) && d < |run[i].cpus|
    requires var k := run[i].procs[p].pc.i; run[i].procs[k].parent == Some(p) && run[i].procs[k].state == Zombie
    ensures var k := run[i].procs[p].pc.i;
            && Current(run[i].cpus[d]) != Some(k) && run[i].procs[k].pc == Saved(Never)
            && t.procs[k].state == Unused && t.procs[k].freed == run[i].procs[k].freed + 1 == t.procs[k].died
  {
    hide Inv, Reap, IsRun;
    RunInv(run, i);
    var k := run[i].procs[p].pc.i;
    OffCpu(run[i], k, d);
    ReapedOffCpu(run[i], t, p, k);
  }

  /** Each time a process becomes a zombie it is freed at most once. */
  lemma ZombiesFreedOnce(run: seq<System>, i: nat, p: nat)
    requires IsRun(run) && i < |run| && p < |run[i].procs|
    ensures run[i].procs[p].died == run[i].procs[p].freed + if run[i].procs[p].state == Zombie then 1 else 0
  {
    RunInv(run, i);
  }

  // ----- sleep and wakeup -----

  /** No lost wakeup, for any condition, also one that shares its lock with others or is announced by an interrupt
      handler: when it holds and nobody has its lock, nobody sleeps on it or is about to. */
  lemma NoSleeperLeft(run: seq<System>, i: nat, l: nat, k: nat, p: nat)
    requires IsRun(run) && i < |run| && l < |run[i].conds| && k < |run[i].conds[l].blocked| && p < |run[i].procs|
    requires run[i].conds[l].spin == None && !run[i].conds[l].blocked[k]
    ensures !Waiting(run[i].procs[p], Cond(l, k))
  {
    RunInv(run, i);
    assert CondAwaited(run[i], p, l, k);
  }

  /** No lost wakeup, for kwait(): a parent does not sleep on while it has a zombie child, unless wait_lock is held. */
  lemma NoParentLeft(run: seq<System>, i: nat, p: nat, k: nat)
    requires IsRun(run) && i < |run| && p < |run[i].procs| && k < |run[i].procs|
    requires run[i].waitLock == None && run[i].procs[k].parent == Some(p) && run[i].procs[k].state == Zombie
    ensures !Waiting(run[i].procs[p], Child(p))
  {
    RunInv(run, i);
    assert ChildAwaited(run[i], p, k);
  }

  /** When a wakeup() has gone through all processes, none sleeps on its channel or is about to. */
  lemma WakeupReachesAll(run: seq<System>, i: nat, p: nat, r: nat)
    requires IsRun(run) && i < |run| && p < |run[i].procs| && r < |run[i].procs|
    requires run[i].procs[p].pc.Waking? && run[i].procs[p].pc.i == |run[i].procs|
    ensures !Waiting(run[i].procs[r], run[i].procs[p].pc.ch)
  {
    RunInv(run, i);
    AllHeard(run[i], p);
  }

  /** A sleep lock goes from one holder to another only through being free. */
  lemma HolderKept(s: System, t: System, c: nat, p: nat, a: Action, l: nat)
    requires Inv(s) && Step(s, t, c, p, a) && l < |s.conds| && s.conds[l].holder.Some?
    ensures |t.conds| == |s.conds| &&
            (t.conds[l].holder == s.conds[l].holder ||
            (t.conds[l].holder == None && a == AFreeSleepLock(l) && s.conds[l].holder == Some(p)))
  {
    hide AllPlaced, LocksPlaced, Makers, WakersThorough, NobodyForgotten, AllKnow, FreedOnce;
  }

  /** Only a free sleep lock is taken. */
  lemma TakenWhenFree(run: seq<System>, i: nat, t: System, c: nat, p: nat)
    requires IsRun(run) && i < |run| && TakeSleepLock(run[i], t, c, p)
    ensures var l := run[i].procs[p].pc.l; run[i].conds[l].holder == None && t.conds[l].holder == Some(p)
  {
    RunInv(run, i);
  }
}
