/** Scheduling, sleep and wakeup, exit and wait of kernel/proc.c, and the sleep locks of
    kernel/sleeplock.c, as a state machine. A step is what a CPU does from taking a spin lock (or from
    a context switch) up to the next such point; any interleaving of steps of all CPUs is a run. */
module Processes {
  import opened Common

  datatype State = Unused | Used | Sleeping | Runnable | Running | Zombie

  /** What a process sleeps on: condition `k` of those checked under lock `l`, or (in kwait) itself. */
  datatype Chan = Cond(l: nat, k: nat) | Child(p: nat)

  /** The spin locks that protect conditions: any number of them, and wait_lock. */
  datatype Lock = Spin(l: nat) | WaitLock

  function LockOf(ch: Chan): Lock { if ch.Cond? then Spin(ch.l) else WaitLock }

  /** What a thread does once it is switched in again: go back to the loop around sleep(), carry on where it
      was preempted, or nothing, ever. */
  datatype Cont = Retry(ch: Chan) | Resume(pc: Pc) | Never

  /** What follows a wakeup(): releasing the lock, more code under the lock, the rest of reparent(), or the end of
      kexit(). */
  datatype Then = Unlock | Hold(back: Pc) | Orphans(i: nat) | Die

  /** Where the kernel thread of a process is.
      Run: outside the code modelled, holding no lock. Want(ch): about to take the lock of ch.
      Check(l, back): in acquiresleep(), another loop around sleep(), or an interrupt handler, holding lock l;
      it returns to back. Scan(i, kids): in kwait(), at process i.
      Doze(ch), Dozing(ch): in sleep(), before and after giving up the lock. Off(k): about to switch out.
      Saved(k): switched out. Resumed(k): just switched in. Waking(ch, i, then): in wakeup(), at process i.
      Reparent(i): in reparent(). Forking(np), Forked(np), Adopted(np): in kfork(). Gone: no thread. */
  datatype Pc =
    | Run | Want(ch: Chan) | Check(l: nat, back: Pc) | Scan(i: nat, kids: bool) | Doze(ch: Chan) | Dozing(ch: Chan)
    | Off(k: Cont) | Saved(k: Cont) | Resumed(k: Cont) | Waking(ch: Chan, i: nat, after: Then) | Reparent(i: nat)
    | Forking(np: nat) | Forked(np: nat) | Adopted(np: nat) | Gone

  /** What a CPU executes: the scheduler, the scheduler about to switch to a process, a process's thread,
      or the scheduler just switched to from a process. */
  datatype Mode = Sched | Loading(p: nat) | On(p: nat) | Back(p: nat)

  /** A process: its table entry, its thread, who holds p->lock, and the CPU that has it as c->proc. `died` and
      `freed` count how often it became a zombie and how often kwait() freed it. */
  datatype Proc = Proc(state: State, chan: Option<Chan>, parent: Option<nat>, pc: Pc, lock: Option<nat>,
                       cpu: Option<nat>, died: nat, freed: nat)

  /** A spin lock, and whether processes have to wait for each of the conditions that are checked under it. A
      sleep lock has `mutex` set, one condition, and a holder when it is taken; any other state that is checked
      and changed under one lock, and announced by wakeup() when it becomes fit, has it clear: the two ends of a
      pipe, the log, the descriptors and the buffers of the disk, the ticks. */
  datatype Guard = Guard(spin: Option<nat>, blocked: seq<bool>, holder: Option<nat>, mutex: bool)

  datatype System = System(procs: seq<Proc>, cpus: seq<Mode>, conds: seq<Guard>, waitLock: Option<nat>)

  const INIT := 0   // initproc

  /** The process a CPU has as c->proc. */
  function Current(m: Mode): Option<nat> {
    match m case Sched => None case Loading(p) => Some(p) case On(p) => Some(p) case Back(p) => Some(p)
  }

  // ----- steps -----

  predicate OnCpu(s: System, c: nat, p: nat) { c < |s.cpus| && s.cpus[c] == On(p) && p < |s.procs| }

  predicate FreeLock(s: System, p: nat) { p < |s.procs| && s.procs[p].lock == None }

  function Holder(s: System, lk: Lock): Option<nat> {
    match lk
    case WaitLock => s.waitLock
    case Spin(l) => if l < |s.conds| then s.conds[l].spin else None
  }

  function WithHolder(s: System, lk: Lock, h: Option<nat>): System {
    match lk
    case WaitLock => System(s.procs, s.cpus, s.conds, h)
    case Spin(l) => if l < |s.conds| then WithCond(s, l,
                    Guard(h, s.conds[l].blocked, s.conds[l].holder, s.conds[l].mutex)) else s
  }

  function WithCond(s: System, l: nat, d: Guard): System
    requires l < |s.conds|
  {
    System(s.procs, s.cpus, s.conds[l := d], s.waitLock)
  }

  predicate Exists(s: System, lk: Lock) { lk.Spin? ==> lk.l < |s.conds| }

  function WithProc(s: System, p: nat, q: Proc): System
    requires p < |s.procs|
  {
    System(s.procs[p := q], s.cpus, s.conds, s.waitLock)
  }

  function WithCpu(s: System, c: nat, m: Mode): System
    requires c < |s.cpus|
  {
    System(s.procs, s.cpus[c := m], s.conds, s.waitLock)
  }

  function AtPc(q: Proc, pc: Pc): Proc { Proc(q.state, q.chan, q.parent, pc, q.lock, q.cpu, q.died, q.freed) }

  /** scheduler(): takes p->lock, finds p RUNNABLE and makes it c->proc. */
  ghost predicate Pick(s: System, t: System, c: nat, p: nat) {
    && c < |s.cpus| && s.cpus[c] == Sched && FreeLock(s, p) && s.procs[p].state == Runnable
    && var q := s.procs[p];
       t == WithCpu(WithProc(s, p, Proc(Running, q.chan, q.parent, q.pc, Some(c), Some(c), q.died, q.freed)), c,
           Loading(p))
  }

  /** scheduler(): switches to the chosen process's stack. */
  ghost predicate SwitchIn(s: System, t: System, c: nat, p: nat) {
    && c < |s.cpus| && s.cpus[c] == Loading(p) && p < |s.procs| && s.procs[p].pc.Saved?
    && t == WithCpu(WithProc(s, p, AtPc(s.procs[p], Resumed(s.procs[p].pc.k))), c, On(p))
  }

  /** sched(): switches from a process's stack to the scheduler's. */
  ghost predicate SwitchOut(s: System, t: System, c: nat, p: nat) {
    && OnCpu(s, c, p) && s.procs[p].pc.Off?
    && t == WithCpu(WithProc(s, p, AtPc(s.procs[p], Saved(s.procs[p].pc.k))), c, Back(p))
  }

  /** scheduler(): clears c->proc and releases p->lock. */
  ghost predicate Unload(s: System, t: System, c: nat, p: nat) {
    && c < |s.cpus| && s.cpus[c] == Back(p) && p < |s.procs|
    && var q := s.procs[p];
       t == WithCpu(WithProc(s, p, Proc(q.state, q.chan, q.parent, q.pc, None, None, q.died, q.freed)), c, Sched)
  }

  /** Where the thread holds no spin lock, so that a timer interrupt can take the CPU away: outside the code
      modelled, before it takes a condition lock (on first entry or after sleeping), and between the locks of
      kfork(). */
  predicate Preemptible(pc: Pc) { pc == Run || pc.Want? || pc.Forked? || pc.Adopted? }

  /** yield(), called or on a timer interrupt: takes p->lock and becomes RUNNABLE. */
  ghost predicate Yield(s: System, t: System, c: nat, p: nat) {
    && OnCpu(s, c, p) && Preemptible(s.procs[p].pc) && FreeLock(s, p)
    && var q := s.procs[p];
       t == WithProc(s, p, Proc(Runnable, q.chan, q.parent, Off(Resume(q.pc)), Some(c), q.cpu, q.died, q.freed))
  }

  /** What follows sched() in sleep(), yield() or forkret(): sleep() clears the channel, and p->lock is released. */
  ghost predicate Continue(s: System, t: System, c: nat, p: nat) {
    && OnCpu(s, c, p) && s.procs[p].pc.Resumed?
    && var q := s.procs[p];
       var next := if q.pc.k.Retry? then Want(q.pc.k.ch) else if q.pc.k.Resume? then q.pc.k.pc else Run;
       t == WithProc(s, p,
           Proc(q.state, if q.pc.k.Retry? then None else q.chan, q.parent, next, None, q.cpu, q.died, q.freed))
  }

  /** The start of acquiresleep(l) or kwait(). */
  ghost predicate Start(s: System, t: System, c: nat, p: nat, ch: Chan) {
    && OnCpu(s, c, p) && s.procs[p].pc == Run && Exists(s, LockOf(ch)) && (ch.Child? ==> ch.p == p)
    && t == WithProc(s, p, AtPc(s.procs[p], Want(ch)))
  }

  /** Takes the condition lock. */
  ghost predicate Acquire(s: System, t: System, c: nat, p: nat) {
    && OnCpu(s, c, p) && s.procs[p].pc.Want? && Exists(s, LockOf(s.procs[p].pc.ch)) &&
       Holder(s, LockOf(s.procs[p].pc.ch)) == None
    && var ch := s.procs[p].pc.ch;
       t == WithHolder(WithProc(s, p, AtPc(s.procs[p], if ch.Cond? then Check(ch.l, Run) else Scan(0, false))),
                       LockOf(ch), Some(c))
  }

  /** An interrupt comes, and its handler takes a condition lock. */
  ghost predicate Interrupt(s: System, t: System, c: nat, p: nat, l: nat) {
    && OnCpu(s, c, p) && Preemptible(s.procs[p].pc) && l < |s.conds| && !s.conds[l].mutex && s.conds[l].spin == None
    && t == WithHolder(WithProc(s, p, AtPc(s.procs[p], Check(l, s.procs[p].pc))), Spin(l), Some(c))
  }

  /** acquiresleep(): the sleep lock is free, and taken. */
  ghost predicate TakeSleepLock(s: System, t: System, c: nat, p: nat) {
    && OnCpu(s, c, p) && s.procs[p].pc.Check? && s.procs[p].pc.l < |s.conds|
    && s.conds[s.procs[p].pc.l].mutex && s.conds[s.procs[p].pc.l].blocked == [false]
    && var l := s.procs[p].pc.l;
       t == System(s.procs[p := AtPc(s.procs[p], Run)], s.cpus, s.conds[l := Guard(None, [true], Some(p), true)],
           s.waitLock)
  }

  /** The thread makes conditions fail. */
  ghost predicate Spoil(s: System, t: System, c: nat, p: nat, blocked: seq<bool>) {
    && OnCpu(s, c, p) && s.procs[p].pc.Check? && s.procs[p].pc.l < |s.conds| && !s.conds[s.procs[p].pc.l].mutex
    && var l := s.procs[p].pc.l;
       && |blocked| == |s.conds[l].blocked| && (forall k | 0 <= k < |blocked| && s.conds[l].blocked[k] :: blocked[k])
       && t == WithCond(s, l, Guard(s.conds[l].spin, blocked, s.conds[l].holder, false))
  }

  /** The thread makes a condition hold and starts wakeup(). */
  ghost predicate Announce(s: System, t: System, c: nat, p: nat, k: nat) {
    && OnCpu(s, c, p) && s.procs[p].pc.Check? && s.procs[p].pc.l < |s.conds| && !s.conds[s.procs[p].pc.l].mutex
    && k < |s.conds[s.procs[p].pc.l].blocked|
    && var l := s.procs[p].pc.l;
       t == System(s.procs[p := AtPc(s.procs[p], Waking(Cond(l, k), 0, Hold(s.procs[p].pc.back)))], s.cpus,
           s.conds[l := Guard(s.conds[l].spin, s.conds[l].blocked[k := false], s.conds[l].holder, false)], s.waitLock)
  }

  /** The thread releases the lock, and goes on where it came from. */
  ghost predicate Leave(s: System, t: System, c: nat, p: nat) {
    && OnCpu(s, c, p) && s.procs[p].pc.Check? && s.procs[p].pc.l < |s.conds| && !s.conds[s.procs[p].pc.l].mutex
    && t == WithHolder(WithProc(s, p, AtPc(s.procs[p], s.procs[p].pc.back)), Spin(s.procs[p].pc.l), None)
  }

  /** The condition a thread is about to sleep on. */
  function SleepsOn(p: nat, pc: Pc, k: nat): Option<Chan> {
    match pc case Check(l, _) => Some(Cond(l, k)) case Scan(_, _) => Some(Child(p)) case _ => None
  }

  /** sleep(): takes p->lock, with the condition lock still held: condition `k` does not hold, or kwait() found
      children but no zombie among them. */
  ghost predicate SleepEnter(s: System, t: System, c: nat, p: nat, k: nat) {
    && OnCpu(s, c, p) && FreeLock(s, p)
    && match s.procs[p].pc {
         case Check(l, back) => l < |s.conds| && k < |s.conds[l].blocked| && s.conds[l].blocked[k] && back == Run
         case Scan(i, kids) => i == |s.procs| && kids
         case _ => false
       }
    && var q := s.procs[p];
       t == WithProc(s, p,
           Proc(q.state, q.chan, q.parent, Doze(SleepsOn(p, q.pc, k).value), Some(c), q.cpu, q.died, q.freed))
  }

  /** sleep(): releases the condition lock. */
  ghost predicate SleepRelease(s: System, t: System, c: nat, p: nat) {
    && OnCpu(s, c, p) && s.procs[p].pc.Doze?
    && t == WithHolder(WithProc(s, p, AtPc(s.procs[p], Dozing(s.procs[p].pc.ch))), LockOf(s.procs[p].pc.ch), None)
  }

  /** sleep(): sets the channel and the state. */
  ghost predicate FallAsleep(s: System, t: System, c: nat, p: nat) {
    && OnCpu(s, c, p) && s.procs[p].pc.Dozing?
    && var q := s.procs[p];
       t == WithProc(s, p, Proc(Sleeping, Some(q.pc.ch), q.parent, Off(Retry(q.pc.ch)), q.lock, q.cpu, q.died, q.freed))
  }

  /** releasesleep(): takes the inner lock, frees the sleep lock and starts wakeup(). */
  ghost predicate FreeSleepLock(s: System, t: System, c: nat, p: nat, l: nat) {
    && OnCpu(s, c, p) && s.procs[p].pc == Run && l < |s.conds| && s.conds[l].mutex && s.conds[l].holder == Some(p) &&
       s.conds[l].spin == None
    && t == System(s.procs[p := AtPc(s.procs[p], Waking(Cond(l, 0), 0, Unlock))], s.cpus,
       s.conds[l := Guard(Some(c), [false], None, true)], s.waitLock)
  }

  /** wakeup(): looks at process i, under its lock, and makes it RUNNABLE if it sleeps on the channel. */
  ghost predicate WakeOne(s: System, t: System, c: nat, p: nat) {
    && OnCpu(s, c, p) && s.procs[p].pc.Waking? && s.procs[p].pc.i < |s.procs|
    && var pc := s.procs[p].pc;
       var s1 := WithProc(s, p, AtPc(s.procs[p], Waking(pc.ch, pc.i + 1, pc.after)));
       if pc.i == p then t == s1
       else
         && FreeLock(s, pc.i)
         && var q := s.procs[pc.i];
            t == if q.state == Sleeping && q.chan == Some(pc.ch)
                 then WithProc(s1, pc.i, Proc(Runnable, q.chan, q.parent, q.pc, q.lock, q.cpu, q.died, q.freed)) else s1
  }

  function HeldIndex(ch: Chan): nat { if ch.Cond? then ch.l else 0 }

  /** The end of releasesleep(), of a wakeup() with more to do under the lock, or of one in reparent(). */
  ghost predicate WakeDone(s: System, t: System, c: nat, p: nat) {
    && OnCpu(s, c, p) && s.procs[p].pc.Waking? && s.procs[p].pc.i == |s.procs| && !s.procs[p].pc.after.Die?
    && var pc := s.procs[p].pc;
       t == if pc.after.Unlock? then WithHolder(WithProc(s, p, AtPc(s.procs[p], Run)), LockOf(pc.ch), None)
            else if pc.after.Hold? then WithProc(s, p, AtPc(s.procs[p], Check(HeldIndex(pc.ch), pc.after.back)))
            else WithProc(s, p, AtPc(s.procs[p], Reparent(pc.after.i)))
  }

  /** kexit() takes wait_lock. A process holds no sleep lock when it exits, and init does not exit. */
  ghost predicate StartExit(s: System, t: System, c: nat, p: nat) {
    && OnCpu(s, c, p) && s.procs[p].pc == Run && p != INIT && s.procs[p].parent.Some? && s.waitLock == None
    && (forall l | 0 <= l < |s.conds| :: s.conds[l].holder != Some(p))
    && t == WithHolder(WithProc(s, p, AtPc(s.procs[p], Reparent(0))), WaitLock, Some(c))
  }

  /** reparent(): passes process i on to init if it is a child, and wakes init. */
  ghost predicate ReparentOne(s: System, t: System, c: nat, p: nat) {
    && OnCpu(s, c, p) && s.procs[p].pc.Reparent? && s.procs[p].pc.i < |s.procs|
    && var i := s.procs[p].pc.i;
       if s.procs[i].parent == Some(p) then
         var q := s.procs[i];
         var s1 := WithProc(s, i, Proc(q.state, q.chan, Some(INIT), q.pc, q.lock, q.cpu, q.died, q.freed));
         t == WithProc(s1, p, AtPc(s1.procs[p], Waking(Child(INIT), 0, Orphans(i + 1))))
       else t == WithProc(s, p, AtPc(s.procs[p], Reparent(i + 1)))
  }

  /** kexit() starts to wake its parent. */
  ghost predicate WakeParent(s: System, t: System, c: nat, p: nat) {
    && OnCpu(s, c, p) && s.procs[p].pc.Reparent? && s.procs[p].pc.i == |s.procs| && s.procs[p].parent.Some?
    && t == WithProc(s, p, AtPc(s.procs[p], Waking(Child(s.procs[p].parent.value), 0, Die)))
  }

  /** kexit() takes p->lock, becomes a zombie and releases wait_lock. */
  ghost predicate Exit(s: System, t: System, c: nat, p: nat) {
    && OnCpu(s, c, p) && s.procs[p].pc.Waking? && s.procs[p].pc.i == |s.procs| && s.procs[p].pc.after.Die? &&
       FreeLock(s, p)
    && var q := s.procs[p];
       t == WithHolder(WithProc(s, p, Proc(Zombie, q.chan, q.parent, Off(Never), Some(c), q.cpu, q.died + 1, q.freed)),
           WaitLock, None)
  }

  /** kwait() looks at process i: not a child, a child (under its lock) that is no zombie, or one that is,
      which it frees. */
  ghost predicate ScanOne(s: System, t: System, c: nat, p: nat) {
    && OnCpu(s, c, p) && s.procs[p].pc.Scan? && s.procs[p].pc.i < |s.procs|
    && var pc := s.procs[p].pc;
       if s.procs[pc.i].parent != Some(p) then t == WithProc(s, p, AtPc(s.procs[p], Scan(pc.i + 1, pc.kids)))
       else
         && FreeLock(s, pc.i)
         && var q := s.procs[pc.i];
            if q.state == Zombie then Reap(s, t, p, pc.i)
            else t == WithProc(s, p, AtPc(s.procs[p], Scan(pc.i + 1, true)))
  }

  /** freeproc() of child i, and the end of kwait(). */
  ghost predicate Reap(s: System, t: System, p: nat, i: nat)
    requires p < |s.procs| && i < |s.procs|
  {
    var q := s.procs[i];
    var s1 := WithProc(s, i, Proc(Unused, None, None, Gone, q.lock, q.cpu, q.died, q.freed + 1));
    p != i && t == WithHolder(WithProc(s1, p, AtPc(s.procs[p], Run)), WaitLock, None)
  }

  predicate ZombieChild(s: System, p: nat, i: nat) {
    FreeLock(s, i) && s.procs[i].parent == Some(p) && s.procs[i].state == Zombie
  }

  /** kwait() gives up: no children, killed, or unable to copy out the status of the zombie it found. */
  ghost predicate ScanStop(s: System, t: System, c: nat, p: nat) {
    && OnCpu(s, c, p) && s.procs[p].pc.Scan?
    && (s.procs[p].pc.i == |s.procs| || ZombieChild(s, p, s.procs[p].pc.i))
    && t == WithHolder(WithProc(s, p, AtPc(s.procs[p], Run)), WaitLock, None)
  }

  /** allocproc(): takes an UNUSED process, with its lock. */
  ghost predicate Alloc(s: System, t: System, c: nat, p: nat, np: nat) {
    && OnCpu(s, c, p) && s.procs[p].pc == Run && FreeLock(s, np) && s.procs[np].state == Unused && np != p
    && var q := s.procs[np];
       var s1 := WithProc(s, np, Proc(Used, q.chan, q.parent, Saved(Resume(Run)), Some(c), q.cpu, q.died, q.freed));
       t == WithProc(s1, p, AtPc(s.procs[p], Forking(np)))
  }

  /** kfork() releases the child's lock, then sets its parent under wait_lock, then makes it RUNNABLE under its own. */
  ghost predicate ForkRelease(s: System, t: System, c: nat, p: nat) {
    && OnCpu(s, c, p) && s.procs[p].pc.Forking? && s.procs[p].pc.np < |s.procs| && s.procs[p].pc.np != p
    && var np := s.procs[p].pc.np;
       var q := s.procs[np];
       t == WithProc(WithProc(s, np, Proc(q.state, q.chan, q.parent, q.pc, None, q.cpu, q.died, q.freed)), p,
           AtPc(s.procs[p], Forked(np)))
  }

  /** kfork() runs out of memory: freeproc() of the child, which never ran. */
  ghost predicate ForkFail(s: System, t: System, c: nat, p: nat) {
    && OnCpu(s, c, p) && s.procs[p].pc.Forking? && s.procs[p].pc.np < |s.procs| && s.procs[p].pc.np != p
    && var np := s.procs[p].pc.np;
       var q := s.procs[np];
       t == WithProc(WithProc(s, np, Proc(Unused, None, None, Gone, None, q.cpu, q.died, q.freed)), p,
           AtPc(s.procs[p], Run))
  }

  ghost predicate Adopt(s: System, t: System, c: nat, p: nat) {
    && OnCpu(s, c, p) && s.procs[p].pc.Forked? && s.procs[p].pc.np < |s.procs| && s.procs[p].pc.np != p &&
       s.waitLock == None
    && var np := s.procs[p].pc.np;
       var q := s.procs[np];
       t == WithProc(WithProc(s, np, Proc(q.state, q.chan, Some(p), q.pc, q.lock, q.cpu, q.died, q.freed)), p,
           AtPc(s.procs[p], Adopted(np)))
  }

  ghost predicate Launch(s: System, t: System, c: nat, p: nat) {
    && OnCpu(s, c, p) && s.procs[p].pc.Adopted? && FreeLock(s, s.procs[p].pc.np) && s.procs[p].pc.np != p
    && var np := s.procs[p].pc.np;
       var q := s.procs[np];
       t == WithProc(WithProc(s, np, Proc(Runnable, q.chan, q.parent, q.pc, q.lock, q.cpu, q.died, q.freed)), p,
           AtPc(s.procs[p], Run))
  }

  /** kkill(): a sleeping victim is made RUNNABLE. */
  ghost predicate Kill(s: System, t: System, c: nat, p: nat, v: nat) {
    && OnCpu(s, c, p) && s.procs[p].pc == Run && FreeLock(s, v) && s.procs[v].state == Sleeping
    && var q := s.procs[v];
       t == WithProc(s, v, Proc(Runnable, q.chan, q.parent, q.pc, q.lock, q.cpu, q.died, q.freed))
  }

  datatype Action =
    | APick | ASwitchIn | ASwitchOut | AUnload | AYield | AContinue | AStart(ch: Chan) | AAcquire | ATakeSleepLock
    | AInterrupt(l: nat) | ASpoil(blocked: seq<bool>) | AAnnounce(k: nat) | ALeave | ASleepEnter(k: nat)
    | ASleepRelease | AFallAsleep | AFreeSleepLock(l: nat) | AWakeOne
    | AWakeDone | AStartExit | AReparentOne | AWakeParent | AExit
    | AScanOne | AScanStop | AAlloc(np: nat) | AForkRelease | AForkFail | AAdopt | ALaunch | AKill(v: nat)

  /** One step, by CPU c, of or for process p. */
  ghost predicate Step(s: System, t: System, c: nat, p: nat, a: Action) {
    match a
    case APick => Pick(s, t, c, p)
    case ASwitchIn => SwitchIn(s, t, c, p)
    case ASwitchOut => SwitchOut(s, t, c, p)
    case AUnload => Unload(s, t, c, p)
    case AYield => Yield(s, t, c, p)
    case AContinue => Continue(s, t, c, p)
    case AStart(ch) => Start(s, t, c, p, ch)
    case AAcquire => Acquire(s, t, c, p)
    case ATakeSleepLock => TakeSleepLock(s, t, c, p)
    case AInterrupt(l) => Interrupt(s, t, c, p, l)
    case ASpoil(blocked) => Spoil(s, t, c, p, blocked)
    case AAnnounce(k) => Announce(s, t, c, p, k)
    case ALeave => Leave(s, t, c, p)
    case ASleepEnter(k) => SleepEnter(s, t, c, p, k)
    case ASleepRelease => SleepRelease(s, t, c, p)
    case AFallAsleep => FallAsleep(s, t, c, p)
    case AFreeSleepLock(l) => FreeSleepLock(s, t, c, p, l)
    case AWakeOne => WakeOne(s, t, c, p)
    case AWakeDone => WakeDone(s, t, c, p)
    case AStartExit => StartExit(s, t, c, p)
    case AReparentOne => ReparentOne(s, t, c, p)
    case AWakeParent => WakeParent(s, t, c, p)
    case AExit => Exit(s, t, c, p)
    case AScanOne => ScanOne(s, t, c, p)
    case AScanStop => ScanStop(s, t, c, p)
    case AAlloc(np) => Alloc(s, t, c, p, np)
    case AForkRelease => ForkRelease(s, t, c, p)
    case AForkFail => ForkFail(s, t, c, p)
    case AAdopt => Adopt(s, t, c, p)
    case ALaunch => Launch(s, t, c, p)
    case AKill(v) => Kill(s, t, c, p, v)
  }

  // ----- the invariant -----

  /** The thread holds its own process's lock. */
  predicate HoldsOwn(pc: Pc) { pc.Doze? || pc.Dozing? || pc.Off? || pc.Resumed? }

  predicate Parked(pc: Pc) { pc.Saved? || pc.Gone? }

  /** The condition lock the thread holds. */
  function Held(pc: Pc): Option<Lock> {
    match pc
    case Check(l, _) => Some(Spin(l))
    case Scan(_, _) => Some(WaitLock)
    case Doze(ch) => Some(LockOf(ch))
    case Waking(ch, _, _) => Some(LockOf(ch))
    case Reparent(_) => Some(WaitLock)
    case _ => None
  }

  /** Where a thread is, or was preempted or interrupted. */
  function Inside(pc: Pc): Pc {
    match pc
    case Check(_, back) => back
    case Waking(_, _, th) => if th.Hold? then th.back else pc
    case Off(k) => if k.Resume? then k.pc else pc
    case Saved(k) => if k.Resume? then k.pc else pc
    case Resumed(k) => if k.Resume? then k.pc else pc
    case _ => pc
  }

  /** The process a thread is bringing up. */
  function Makes(pc: Pc): Option<nat> {
    match Inside(pc)
    case Forking(np) => Some(np)
    case Forked(np) => Some(np)
    case Adopted(np) => Some(np)
    case _ => None
  }

  /** The state a process may be in, given its thread. */
  predicate StateFits(p: nat, q: Proc) {
    match q.pc
    case Gone => q.state == Unused
    case Saved(k) => ParkedFits(p, q, k)
    case Off(k) => ParkedFits(p, q, k) && q.state != Running && q.state != Used && (k.Retry? ==> q.state == Sleeping)
    case Resumed(k) => q.state == Running && k != Never && (k.Retry? && k.ch.Child? ==> k.ch.p == p) &&
                       (k.Resume? ==> ResumeFits(p, k.pc))
    case Want(ch) => q.state == Running && (ch.Child? ==> ch.p == p)
    case Check(_, back) => q.state == Running && ResumeFits(p, back)
    case Waking(_, _, th) => q.state == Running && (th.Hold? ==> ResumeFits(p, th.back))
    case Doze(ch) => q.state == Running && (ch.Child? ==> ch.p == p)
    case Dozing(ch) => q.state == Running && (ch.Child? ==> ch.p == p)
    case _ => q.state == Running
  }

  predicate ResumeFits(p: nat, pc: Pc) { Preemptible(pc) && (pc.Want? && pc.ch.Child? ==> pc.ch.p == p) }

  predicate ParkedFits(p: nat, q: Proc, k: Cont) {
    match k
    case Never => q.state == Zombie
    case Resume(pc) => ResumeFits(p, pc) && (q.state == Runnable || q.state == Running || q.state == Used)
    case Retry(ch) => (ch.Child? ==> ch.p == p) &&
                      (q.state == Runnable || q.state == Running || (q.state == Sleeping && q.chan == Some(ch)))
  }

  /** A process and the CPU that has it as c->proc agree, p->lock is held exactly where the code holds it,
      and the process is RUNNING exactly between being picked and giving up the CPU. */
  ghost predicate Placed(s: System, p: nat)
    requires p < |s.procs|
  {
    var q := s.procs[p];
    && StateFits(p, q)
    && match q.cpu {
         case None =>
           && Parked(q.pc) && q.state != Running
           && (q.lock.Some? ==>
               q.state == Used && q.lock.value < |s.cpus| && s.cpus[q.lock.value].On? &&
               s.cpus[q.lock.value].p < |s.procs| &&
                                s.procs[s.cpus[q.lock.value].p].pc == Forking(p))
         case Some(c) =>
           && c < |s.cpus| && Current(s.cpus[c]) == Some(p)
           && match s.cpus[c] {
                case Loading(_) => q.pc.Saved? && q.state == Running && q.lock == Some(c)
                case On(_) => !Parked(q.pc) && q.lock == if HoldsOwn(q.pc) then Some(c) else None
                case Back(_) => q.pc.Saved? && q.state != Running && q.state != Used && q.lock == Some(c)
                case Sched => true
              }
       }
  }

  ghost predicate Agrees(s: System, c: nat)
    requires c < |s.cpus|
  {
    Current(s.cpus[c]).Some? ==>
        Current(s.cpus[c]).value < |s.procs| && s.procs[Current(s.cpus[c]).value].cpu == Some(c)
  }

  ghost predicate AllPlaced(s: System) {
    && (forall p {:trigger Placed(s, p)} | 0 <= p < |s.procs| :: Placed(s, p))
    && (forall c {:trigger Agrees(s, c)} | 0 <= c < |s.cpus| :: Agrees(s, c))
  }

  /** A condition lock is held by a CPU whose thread is where the code holds it ... */
  ghost predicate LockPlaced(s: System, lk: Lock) {
    var h := Holder(s, lk);
    h.Some? ==>
        h.value < |s.cpus| && s.cpus[h.value].On? && s.cpus[h.value].p < |s.procs| &&
        Held(s.procs[s.cpus[h.value].p].pc) == Some(lk)
  }

  /** ... and where the code holds it, it is held. */
  ghost predicate ReallyHolds(s: System, p: nat)
    requires p < |s.procs|
  {
    var lk := Held(s.procs[p].pc);
    lk.Some? ==> Exists(s, lk.value) && Holder(s, lk.value) == s.procs[p].cpu
  }

  ghost predicate LocksPlaced(s: System) {
    && (forall lk {:trigger LockPlaced(s, lk)} :: LockPlaced(s, lk))
    && (forall p {:trigger ReallyHolds(s, p)} | 0 <= p < |s.procs| :: ReallyHolds(s, p))
  }

  /** The process a thread is bringing up is USED and on no CPU ... */
  ghost predicate MakerOk(s: System, p: nat)
    requires p < |s.procs|
  {
    var m := Makes(s.procs[p].pc);
    m.Some? ==>
      && m.value < |s.procs| && m.value != p
      && var q := s.procs[m.value];
         q.state == Used && q.pc == Saved(Resume(Run)) && q.cpu == None &&
             q.lock == if s.procs[p].pc.Forking? then s.procs[p].cpu else None
  }

  /** ... and no other thread is bringing it up. */
  ghost predicate SoleMaker(s: System, p: nat, r: nat)
    requires p < |s.procs| && r < |s.procs|
  {
    Makes(s.procs[p].pc).Some? && Makes(s.procs[p].pc) == Makes(s.procs[r].pc) ==> p == r
  }

  ghost predicate Makers(s: System) {
    && (forall p {:trigger MakerOk(s, p)} | 0 <= p < |s.procs| :: MakerOk(s, p))
    && (forall p, r {:trigger SoleMaker(s, p, r)} | 0 <= p < |s.procs| && 0 <= r < |s.procs| :: SoleMaker(s, p, r))
  }

  /** The process sleeps on the channel, or will before it lets go of p->lock. */
  predicate Waiting(q: Proc, ch: Chan) { (q.state == Sleeping && q.chan == Some(ch)) || q.pc == Dozing(ch) }

  /** wakeup() leaves nobody behind: a process it has passed does not wait on its channel. */
  ghost predicate Passed(s: System, p: nat, r: nat)
    requires p < |s.procs| && r < |s.procs|
  {
    s.procs[p].pc.Waking? && r < s.procs[p].pc.i ==> !Waiting(s.procs[r], s.procs[p].pc.ch)
  }

  ghost predicate WakersThorough(s: System) {
    forall p, r {:trigger Passed(s, p, r)} | 0 <= p < |s.procs| && 0 <= r < |s.procs| :: Passed(s, p, r)
  }

  /** A wakeup() on the channel is under way, by whoever holds the channel's lock. */
  ghost predicate BeingWoken(s: System, ch: Chan) {
    var h := Holder(s, LockOf(ch));
    && h.Some? && h.value < |s.cpus| && s.cpus[h.value].On? && s.cpus[h.value].p < |s.procs|
    && s.procs[s.cpus[h.value].p].pc.Waking? && s.procs[s.cpus[h.value].p].pc.ch == ch
  }

  /** While a process waits for a condition, it does not hold or a wakeup is under way; */
  ghost predicate CondAwaited(s: System, p: nat, l: nat, k: nat)
    requires p < |s.procs| && l < |s.conds| && k < |s.conds[l].blocked|
  {
    Waiting(s.procs[p], Cond(l, k)) && !s.conds[l].blocked[k] ==> BeingWoken(s, Cond(l, k))
  }

  /** while a process waits in kwait(), no child is a zombie or a wakeup is under way. */
  ghost predicate ChildAwaited(s: System, p: nat, i: nat)
    requires p < |s.procs| && i < |s.procs|
  {
    Waiting(s.procs[p], Child(p)) && s.procs[i].parent == Some(p) && s.procs[i].state == Zombie ==>
        BeingWoken(s, Child(p))
  }

  ghost predicate NobodyForgotten(s: System) {
    && (forall p, l, k {:trigger CondAwaited(s, p, l, k)} |
          0 <= p < |s.procs| && 0 <= l < |s.conds| && 0 <= k < |s.conds[l].blocked| :: CondAwaited(s, p, l, k))
    && (forall p, i {:trigger ChildAwaited(s, p, i)} | 0 <= p < |s.procs| && 0 <= i < |s.procs| ::
        ChildAwaited(s, p, i))
  }

  /** Condition `k` of lock `l` does not hold. */
  predicate Fails(s: System, l: nat, k: nat) { l < |s.conds| && k < |s.conds[l].blocked| && s.conds[l].blocked[k] }

  /** What the code has found out so far under the lock it holds. */
  ghost predicate Knows(s: System, p: nat)
    requires p < |s.procs|
  {
    match s.procs[p].pc
    case Scan(i, _) => i <= |s.procs| &&
                       forall j | 0 <= j < i && s.procs[j].parent == Some(p) :: s.procs[j].state != Zombie
    case Doze(ch) => if ch.Cond? then Fails(s, ch.l, ch.k)
                     else forall j | 0 <= j < |s.procs| && s.procs[j].parent == Some(p) :: s.procs[j].state != Zombie
    case Waking(ch, i, th) => i <= |s.procs| &&
                              (th.Die? ==> s.procs[p].parent.Some? && ch == Child(s.procs[p].parent.value))
                              && (th.Orphans? ==> ch.Child? && th.i <= |s.procs|)
                              && (th.Unlock? || th.Hold? ==> ch.Cond?)
    case Reparent(i) => i <= |s.procs|
    case _ => true
  }

  ghost predicate AllKnow(s: System) {
    forall p {:trigger Knows(s, p)} | 0 <= p < |s.procs| :: Knows(s, p)
  }

  /** A sleep lock is taken exactly when it has a holder; other locks have none. */
  ghost predicate SleepLocksHeld(s: System) {
    forall l | 0 <= l < |s.conds| :: LockSound(s.conds[l])
  }

  predicate LockSound(g: Guard) {
    (g.mutex ==> |g.blocked| == 1) && (g.holder.Some? <==> g.mutex && g.blocked == [true])
  }

  /** Each time a process became a zombie it has been freed once, or is still a zombie. */
  ghost predicate FreedOnce(s: System) {
    forall p | 0 <= p < |s.procs| :: s.procs[p].died == s.procs[p].freed + if s.procs[p].state == Zombie then 1 else 0
  }

  ghost predicate Inv(s: System) {
    && AllPlaced(s) && LocksPlaced(s) && Makers(s) && WakersThorough(s) && NobodyForgotten(s) && AllKnow(s)
    && SleepLocksHeld(s) && FreedOnce(s)
  }
}
