/** What the scheduler's steps achieve: locks are given back, sleepers are woken or
    killed out of their sleep, and whoever is to run can be run by any CPU. */
module Dispatch {
  import opened Basics
  import opened Scheduler

  // ---- Who holds a process lock gives it back ----

  /** The lock of `p` is held only where the code holds it. */
  ghost predicate OwnerOk(s: State, p: nat)
    requires Shape(s) && p < |s.st|
  {
    && (s.lock[p].Some? ==>
          var c := s.lock[p].value;
          c < |s.cpu| && (s.cpu[c] == Look(p) || s.cpu[c] == Back(p) || (s.cpu[c] == Gave(p) && Held(s.loc[p]))))
    && s.loc[p] != Resumed(InExit)
  }

  ghost predicate Owners(s: State) {
    Shape(s) && forall p :: 0 <= p < |s.st| ==> OwnerOk(s, p)
  }

  lemma OwnerStep(s: State, e: Event, p: nat)
    requires Inv(s) && Owners(s) && Enabled(s, e) && p < |s.st|
    ensures Shape(Step(s, e)) && p < |Step(s, e).st| && OwnerOk(Step(s, e), p)
  {
    hide Wakes, Step, OwnerOk, CpuOk, ProcOk;
    OnlySubject(s, e);
    assert OwnerOk(s, p) && ProcOk(s.st[p], s.chan[p], s.loc[p]);
    hide Procs, Owners;
    if !HasCpu(e) {
      OwnerNoCpu(s, e, p);
    } else {
      assert CpuOk(s, e.c);
      if BySched(e) {
        OwnerSched(s, e, p);
      } else {
        OwnerCpu(s, e, p);
      }
    }
  }

  lemma OwnerNoCpu(s: State, e: Event, p: nat)
    requires Enabled(s, e) && !HasCpu(e) && p < |s.st| && OwnerOk(s, p)
    ensures Shape(Step(s, e)) && p < |Step(s, e).st| && OwnerOk(Step(s, e), p)
  {
  }

  lemma OwnerSched(s: State, e: Event, p: nat)
    requires Enabled(s, e) && BySched(e) && p < |s.st| && OwnerOk(s, p) && CpuOk(s, e.c)
    requires ProcOk(s.st[p], s.chan[p], s.loc[p])
    ensures Shape(Step(s, e)) && p < |Step(s, e).st| && OwnerOk(Step(s, e), p)
  {
  }

  lemma OwnerCpu(s: State, e: Event, p: nat)
    requires Enabled(s, e) && HasCpu(e) && !BySched(e) && p < |s.st| && OwnerOk(s, p) && CpuOk(s, e.c)
    ensures Shape(Step(s, e)) && p < |Step(s, e).st| && OwnerOk(Step(s, e), p)
  {
  }

  lemma StepOwners(s: State, e: Event)
    requires Inv(s) && Owners(s) && Enabled(s, e)
    ensures Owners(Step(s, e))
  {
    hide Step, Enabled, OwnerOk, Inv;
    OnlySubject(s, e);
    forall p | 0 <= p < |s.st|
      ensures OwnerOk(Step(s, e), p)
    {
      OwnerStep(s, e, p);
    }
  }

  lemma {:induction false} RunOwners(s: State, es: seq<Event>)
    requires Inv(s) && Owners(s) && IsRun(s, es)
    ensures Inv(Run(s, es)) && Owners(Run(s, es))
    decreases |es|
  {
    hide Inv, Owners, Step, Enabled;
    if es != [] {
      StepInv(s, es[0]);
      StepOwners(s, es[0]);
      RunOwners(Step(s, es[0]), es[1..]);
    }
  }

  lemma BootOwners(n: nat, m: nat)
    ensures Owners(Boot(n, m))
  {
  }

  /** On every run: who holds the lock of a process is looking at it, or is that
      process between taking its lock and getting off, or onto, a CPU. */
  lemma LocksHeld(n: nat, m: nat, es: seq<Event>)
    requires IsRun(Boot(n, m), es)
    ensures Inv(Run(Boot(n, m), es)) && Owners(Run(Boot(n, m), es))
  {
    hide Inv, Owners, IsRun, Run;
    BootInv(n, m);
    BootOwners(n, m);
    RunOwners(Boot(n, m), es);
  }

  /** Steps until the CPU that holds the lock of `p` has given it back. */
  ghost function Rank(s: State, c: nat, p: nat): (n: nat)
    requires Shape(s) && p < |s.st| && c < |s.cpu|
  {
    match s.cpu[c]
    case Look(_) => if s.st[p] == RUNNABLE then 2 else 1
    case Gave(_) =>
      (match s.loc[p]
       case SleepHeld(_) => 4
       case Switching(_) => 2
       case Resumed(_) => 1
       case _ => 3)
    case _ => 1
  }

  /** What that CPU does next. */
  ghost function NextHeld(s: State, c: nat, p: nat): (e: Event)
    requires Shape(s) && p < |s.st| && c < |s.cpu|
  {
    match s.cpu[c]
    case Look(_) => if s.st[p] == RUNNABLE then Pick(c) else Skip(c)
    case Gave(_) =>
      (match s.loc[p]
       case YieldHeld => YieldSet(c)
       case SleepHeld(_) => SleepRelease(c)
       case SleepReleased(_) => SleepSet(c)
       case ExitHeld => ExitSet(c)
       case Switching(_) => Swtch(c)
       case _ => Resume(c))
    case _ => Finish(c)
  }

  lemma HeldStep(s: State, c: nat, p: nat)
    requires Inv(s) && Owners(s) && p < |s.st| && s.lock[p] == Some(c)
    ensures c < |s.cpu| && Enabled(s, NextHeld(s, c, p))
    ensures var r := Step(s, NextHeld(s, c, p));
            && Shape(r) && p < |r.st| && c < |r.cpu|
            && (r.lock[p].None? || (r.lock[p] == Some(c) && Rank(r, c, p) < Rank(s, c, p)))
  {
    hide Wakes;
    assert OwnerOk(s, p) && ProcOk(s.st[p], s.chan[p], s.loc[p]) && CpuOk(s, c);
    hide Procs, Cpus, Owners;
  }

  /** All these are steps of CPU `c`. */
  ghost predicate By(es: seq<Event>, c: nat) {
    forall i :: 0 <= i < |es| ==> HasCpu(es[i]) && es[i].c == c
  }

  /** Whoever holds a process lock can give it back by steps of its own, whatever the
      others do or do not. */
  lemma {:induction false} LockComesBack(s: State, c: nat, p: nat) returns (es: seq<Event>)
    requires Inv(s) && Owners(s) && Shape(s) && p < |s.st| && s.lock[p] == Some(c) && c < |s.cpu|
    ensures By(es, c) && IsRun(s, es)
    ensures var r := Run(s, es); Shape(r) && p < |r.st| && r.lock[p].None?
    decreases Rank(s, c, p)
  {
    hide Inv, Owners, Step, Enabled, Rank;
    var e := NextHeld(s, c, p);
    HeldStep(s, c, p);
    StepInv(s, e);
    StepOwners(s, e);
    if Step(s, e).lock[p].None? {
      es := [];
    } else {
      es := LockComesBack(Step(s, e), c, p);
    }
    RunFirst(s, e, es);
    es := [e] + es;
  }

  lemma RunFirst(s: State, e: Event, es: seq<Event>)
    requires Enabled(s, e) && IsRun(Step(s, e), es)
    ensures IsRun(s, [e] + es) && Run(s, [e] + es) == Run(Step(s, e), es)
  {
    assert ([e] + es)[1..] == es;
  }

  ghost predicate Leads(s: State, e: Event, r: State) {
    Enabled(s, e) && Step(s, e) == r
  }

  /** Three, four or five steps one after the other. */
  lemma Run3(s: State, e0: Event, s1: State, e1: Event, s2: State, e2: Event, s3: State)
    requires Leads(s, e0, s1) && Leads(s1, e1, s2) && Leads(s2, e2, s3)
    ensures IsRun(s, [e0, e1, e2]) && Run(s, [e0, e1, e2]) == s3
  {
    hide Step, Enabled;
    RunFirst(s2, e2, []);
    RunFirst(s1, e1, [e2]);
    RunFirst(s, e0, [e1, e2]);
    assert [e0] + [e1, e2] == [e0, e1, e2] && [e1] + [e2] == [e1, e2] && [e2] + [] == [e2];
  }

  lemma Run4(s: State, e0: Event, s1: State, e1: Event, s2: State, e2: Event, s3: State, e3: Event, s4: State)
    requires Leads(s, e0, s1) && Leads(s1, e1, s2) && Leads(s2, e2, s3) && Leads(s3, e3, s4)
    ensures IsRun(s, [e0, e1, e2, e3]) && Run(s, [e0, e1, e2, e3]) == s4
  {
    hide Step, Enabled;
    Run3(s1, e1, s2, e2, s3, e3, s4);
    RunFirst(s, e0, [e1, e2, e3]);
    assert [e0] + [e1, e2, e3] == [e0, e1, e2, e3];
  }

  lemma Run5(s: State, e0: Event, s1: State, e1: Event, s2: State, e2: Event, s3: State, e3: Event, s4: State,
             e4: Event,
             s5: State)
    requires Leads(s, e0, s1) && Leads(s1, e1, s2) && Leads(s2, e2, s3) && Leads(s3, e3, s4) && Leads(s4, e4, s5)
    ensures IsRun(s, [e0, e1, e2, e3, e4]) && Run(s, [e0, e1, e2, e3, e4]) == s5
  {
    hide Step, Enabled;
    Run4(s1, e1, s2, e2, s3, e3, s4, e4, s5);
    RunFirst(s, e0, [e1, e2, e3, e4]);
    assert [e0] + [e1, e2, e3, e4] == [e0, e1, e2, e3, e4];
  }

  // ---- What the calls of a process come to ----

  /** Process `p`, at `l`, runs on CPU `c`. */
  predicate On(s: State, c: nat, p: nat, l: Loc) {
    Shape(s) && c < |s.cpu| && p < |s.st| && s.cpu[c] == Gave(p) && s.loc[p] == l
  }

  lemma Twice<T>(q: seq<T>, p: nat, x: T, y: T)
    requires p < |q|
    ensures q[p := x][p := y] == q[p := y]
  {
  }

  lemma Restored<T>(q: seq<T>, p: nat, x: T)
    requires p < |q|
    ensures q[p := x][p := q[p]] == q
  {
  }

  lemma LeadsRelease(s: State, c: nat, p: nat, ch: nat)
    requires On(s, c, p, SleepHeld(ch))
    ensures Leads(s, SleepRelease(c), s.(loc := s.loc[p := SleepReleased(ch)], lk := s.lk - {ch}))
  {
  }

  lemma LeadsSleep(s: State, c: nat, p: nat, ch: nat)
    requires On(s, c, p, SleepReleased(ch))
    ensures Leads(s, SleepSet(c), s.(st := s.st[p := SLEEPING], chan := s.chan[p := Some(ch)],
                                     loc := s.loc[p := Switching(InSleep(ch))]))
  {
  }

  /** The way off the CPU, once the state is set. */
  lemma SwitchOut(s: State, c: nat, p: nat, site: Site)
    requires On(s, c, p, Switching(site)) && s.lock[p] == Some(c)
    ensures var s1 := s.(loc := s.loc[p := Parked(site)], cpu := s.cpu[c := Back(p)]);
            && Leads(s, Swtch(c), s1)
            && Leads(s1, Finish(c), s1.(lock := s.lock[p := None], cpu := s.cpu[c := Loop]))
  {
    Twice(s.cpu, c, Back(p), Loop);
  }

  /** sleep: the process is off its CPU and asleep on the channel, with the condition's
      lock and its own given back, and nothing else is different. */
  lemma SleepRun(s: State, c: nat, ch: nat)
    requires Enabled(s, SleepLock(c, ch))
    ensures var es, p := [SleepLock(c, ch), SleepRelease(c), SleepSet(c), Swtch(c), Finish(c)], s.cpu[c].p;
            && IsRun(s, es)
            && Run(s, es) == s.(st := s.st[p := SLEEPING], chan := s.chan[p := Some(ch)],
                                loc := s.loc[p := Parked(InSleep(ch))], cpu := s.cpu[c := Loop], lk := s.lk - {ch})
  {
    var p := s.cpu[c].p;
    var s1 := s.(lock := s.lock[p := Some(c)], loc := s.loc[p := SleepHeld(ch)]);
    assert Leads(s, SleepLock(c, ch), s1) && s.lock[p] == None && On(s1, c, p, SleepHeld(ch));
    hide IsRun, Run, Step, Enabled, Leads;
    var s2 := s1.(loc := s.loc[p := SleepReleased(ch)], lk := s.lk - {ch});
    Twice(s.loc, p, SleepHeld(ch), SleepReleased(ch));
    LeadsRelease(s1, c, p, ch);
    var s3 := s2.(st := s.st[p := SLEEPING], chan := s.chan[p := Some(ch)], loc := s.loc[p := Switching(InSleep(ch))]);
    Twice(s.loc, p, SleepReleased(ch), Switching(InSleep(ch)));
    LeadsSleep(s2, c, p, ch);
    var s4 := s3.(loc := s.loc[p := Parked(InSleep(ch))], cpu := s.cpu[c := Back(p)]);
    Twice(s.loc, p, Switching(InSleep(ch)), Parked(InSleep(ch)));
    Restored(s.lock, p, Some(c));
    SwitchOut(s3, c, p, InSleep(ch));
    var s5 := s4.(lock := s.lock, cpu := s.cpu[c := Loop]);
    Run5(s, SleepLock(c, ch), s1, SleepRelease(c), s2, SleepSet(c), s3, Swtch(c), s4, Finish(c), s5);
  }

  /** yield: off the CPU and ready to run again. */
  lemma YieldRun(s: State, c: nat)
    requires Enabled(s, YieldLock(c))
    ensures var es, p := [YieldLock(c), YieldSet(c), Swtch(c), Finish(c)], s.cpu[c].p;
            && IsRun(s, es)
            && Run(s, es) == s.(st := s.st[p := RUNNABLE], loc := s.loc[p := Parked(InYield)], cpu := s.cpu[c := Loop])
  {
    var p := s.cpu[c].p;
    var s1 := s.(lock := s.lock[p := Some(c)], loc := s.loc[p := YieldHeld]);
    assert Leads(s, YieldLock(c), s1) && s.lock[p] == None;
    var s2 := s1.(st := s.st[p := RUNNABLE], loc := s.loc[p := Switching(InYield)]);
    Twice(s.loc, p, YieldHeld, Switching(InYield));
    assert Leads(s1, YieldSet(c), s2) && On(s2, c, p, Switching(InYield));
    hide IsRun, Run, Step, Enabled, Leads;
    var s3 := s2.(loc := s.loc[p := Parked(InYield)], cpu := s.cpu[c := Back(p)]);
    Twice(s.loc, p, Switching(InYield), Parked(InYield));
    Restored(s.lock, p, Some(c));
    SwitchOut(s2, c, p, InYield);
    var s4 := s3.(lock := s.lock, cpu := s.cpu[c := Loop]);
    Run4(s, YieldLock(c), s1, YieldSet(c), s2, Swtch(c), s3, Finish(c), s4);
  }

  /** exit: off the CPU and dead. */
  lemma ExitRun(s: State, c: nat)
    requires Enabled(s, ExitLock(c))
    ensures var es, p := [ExitLock(c), ExitSet(c), Swtch(c), Finish(c)], s.cpu[c].p;
            && IsRun(s, es)
            && Run(s, es) == s.(st := s.st[p := ZOMBIE], loc := s.loc[p := Parked(InExit)], cpu := s.cpu[c := Loop])
  {
    var p := s.cpu[c].p;
    var s1 := s.(lock := s.lock[p := Some(c)], loc := s.loc[p := ExitHeld]);
    assert Leads(s, ExitLock(c), s1) && s.lock[p] == None;
    var s2 := s1.(st := s.st[p := ZOMBIE], loc := s.loc[p := Switching(InExit)]);
    Twice(s.loc, p, ExitHeld, Switching(InExit));
    assert Leads(s1, ExitSet(c), s2) && On(s2, c, p, Switching(InExit));
    hide IsRun, Run, Step, Enabled, Leads;
    var s3 := s2.(loc := s.loc[p := Parked(InExit)], cpu := s.cpu[c := Back(p)]);
    Twice(s.loc, p, Switching(InExit), Parked(InExit));
    Restored(s.lock, p, Some(c));
    SwitchOut(s2, c, p, InExit);
    var s4 := s3.(lock := s.lock, cpu := s.cpu[c := Loop]);
    Run4(s, ExitLock(c), s1, ExitSet(c), s2, Swtch(c), s3, Finish(c), s4);
  }

  /** A process that may run and whose lock is free has its context saved. */
  lemma RunnableParked(s: State, p: nat)
    requires Inv(s) && p < |s.st| && s.st[p] == RUNNABLE && s.lock[p].None?
    ensures s.loc[p].Parked? && !s.loc[p].site.InExit?
  {
    assert ProcOk(s.st[p], s.chan[p], s.loc[p]);
    FreeLock(s, p);
  }

  lemma LeadsLook(s: State, c: nat, p: nat)
    requires Shape(s) && p < |s.st| && s.st[p] == RUNNABLE && s.lock[p].None? && c < |s.cpu| && s.cpu[c].Loop?
    requires s.loc[p].Parked?
    ensures var s1 := s.(lock := s.lock[p := Some(c)], cpu := s.cpu[c := Look(p)]);
            && Leads(s, Acquire(c, p), s1)
            && Leads(s1, Pick(c), s1.(st := s.st[p := RUNNING], loc := s.loc[p := Resumed(s.loc[p].site)],
                                      cpu := s.cpu[c := Gave(p)]))
  {
    Twice(s.cpu, c, Look(p), Gave(p));
  }

  lemma LeadsResume(s: State, c: nat, p: nat, site: Site)
    requires On(s, c, p, Resumed(site)) && !site.InExit?
    ensures Leads(s, Resume(c), s.(lock := s.lock[p := None],
                                   loc := s.loc[p := if site.InSleep? then Relock(site.ch) else InKernel],
                                   chan := if site.InSleep? then s.chan[p := None] else s.chan))
  {
  }

  /** A process that may run and whose lock is free can be taken by any CPU in its
      loop: it goes on where it was, out of sleep with its channel cleared and the
      condition's lock to be taken. */
  lemma DispatchRun(s: State, c: nat, p: nat)
    requires Inv(s) && p < |s.st| && s.st[p] == RUNNABLE && s.lock[p].None? && c < |s.cpu| && s.cpu[c].Loop?
    ensures s.loc[p].Parked?
    ensures var es, site := [Acquire(c, p), Pick(c), Resume(c)], s.loc[p].site;
            && IsRun(s, es)
            && Run(s, es) == s.(st := s.st[p := RUNNING], cpu := s.cpu[c := Gave(p)],
                                chan := if site.InSleep? then s.chan[p := None] else s.chan,
                                loc := s.loc[p := if site.InSleep? then Relock(site.ch) else InKernel])
  {
    hide IsRun, Run, Step, Enabled, Leads, Procs, Cpus, Wakes;
    RunnableParked(s, p);
    var site := s.loc[p].site;
    var s1 := s.(lock := s.lock[p := Some(c)], cpu := s.cpu[c := Look(p)]);
    var s2 := s1.(st := s.st[p := RUNNING], loc := s.loc[p := Resumed(site)], cpu := s.cpu[c := Gave(p)]);
    LeadsLook(s, c, p);
    var l := if site.InSleep? then Relock(site.ch) else InKernel;
    var s3 := s2.(lock := s.lock, loc := s.loc[p := l], chan := if site.InSleep? then s.chan[p := None] else s.chan);
    Twice(s.loc, p, Resumed(site), l);
    Restored(s.lock, p, Some(c));
    LeadsResume(s2, c, p, site);
    Run3(s, Acquire(c, p), s1, Pick(c), s2, Resume(c), s3);
  }

  /** kill: a sleeper is to run again, with its context saved, and any CPU in its loop
      can take it; nobody else is affected. */
  lemma KilledRuns(s: State, p: nat, c: nat)
    requires Inv(s) && Enabled(s, Kill(p)) && c < |s.cpu| && s.cpu[c].Loop?
    ensures var r := Step(s, Kill(p));
            && Inv(r) && |r.st| == |s.st| && r.st[p] != SLEEPING
            && (forall q :: 0 <= q < |s.st| && (q != p || s.st[p] != SLEEPING) ==> r.st[q] == s.st[q])
            && (s.st[p] == SLEEPING ==>
                  IsRun(r, [Acquire(c, p), Pick(c), Resume(c)])
                  && Run(r, [Acquire(c, p), Pick(c), Resume(c)]).cpu == s.cpu[c := Gave(p)])
  {
    StepInv(s, Kill(p));
    var r := Step(s, Kill(p));
    if s.st[p] == SLEEPING {
      hide Inv;
      DispatchRun(r, c, p);
    }
  }

  /** fork and wait's freeproc: an unused slot becomes a process any CPU can take, and a
      dead one an unused slot. */
  lemma BornAndReaped(s: State, p: nat, c: nat)
    requires Inv(s) && c < |s.cpu| && s.cpu[c].Loop?
    ensures Enabled(s, Fork(p)) ==> IsRun(Step(s, Fork(p)), [Acquire(c, p), Pick(c), Resume(c)])
    ensures Enabled(s, Reap(p)) ==> Enabled(Step(s, Reap(p)), Fork(p))
  {
    hide IsRun, Run;
    if Enabled(s, Fork(p)) {
      StepInv(s, Fork(p));
      hide Inv;
      DispatchRun(Step(s, Fork(p)), c, p);
    }
  }

  /** A process back from sleep takes the condition's lock, and then may look at the
      condition; taking and dropping that lock, and using the condition up, work as
      one expects. */
  lemma ConditionLock(s: State, c: nat, ch: nat)
    requires Inv(s) && At(s, c)
    ensures Enabled(s, GetLk(c)) && s.loc[s.cpu[c].p] == Relock(ch) ==> Enabled(Step(s, GetLk(c)), Consume(c, ch))
    ensures Enabled(s, TakeLk(c, ch)) ==> Enabled(Step(s, TakeLk(c, ch)), Consume(c, ch))
    ensures Enabled(s, DropLk(c, ch)) ==> Enabled(Step(s, DropLk(c, ch)), TakeLk(c, ch))
    ensures Enabled(s, Consume(c, ch)) && s.lock[s.cpu[c].p].None? ==>
              Enabled(Step(s, Consume(c, ch)), SleepLock(c, ch))
  {
  }

  // ---- A wakeup call reaches everybody once ----

  /** At step `i` of the run the call `w` on channel `ch` looks at process `p`. */
  ghost predicate LooksAt(s: State, es: seq<Event>, i: nat, w: nat, ch: nat, p: nat)
    requires IsRun(s, es)
  {
    i < |es| && es[i] == WakeOne(w) && IsRun(s, es[..i])
    && var u := Run(s, es[..i]); w in u.wakers && u.wakers[w] == Waker(ch, p)
  }

  lemma {:induction false} RunPrefix(s: State, es: seq<Event>, i: nat)
    requires IsRun(s, es) && i <= |es|
    ensures IsRun(s, es[..i])
    ensures i < |es| ==> Enabled(Run(s, es[..i]), es[i]) && IsRun(s, es[..i + 1])
                         && Run(s, es[..i + 1]) == Step(Run(s, es[..i]), es[i])
    decreases |es|
  {
    hide Step, Enabled;
    if i == 0 {
      if es != [] {
        assert es[..1] == [es[0]] && [es[0]][1..] == [] && es[..0] == [];
      }
    } else {
      RunPrefix(Step(s, es[0]), es[1..], i - 1);
      assert es[..i][1..] == es[1..][..i - 1];
      if i < |es| {
        assert es[..i + 1][1..] == es[1..][..i];
      }
    }
  }

  /** What the call does there: a process asleep on its channel may run again; nobody
      else's state changes. */
  lemma LookedAt(s: State, es: seq<Event>, i: nat, w: nat, ch: nat, p: nat)
    requires IsRun(s, es) && LooksAt(s, es, i, w, ch, p)
    ensures IsRun(s, es[..i + 1])
    ensures var u, v := Run(s, es[..i]), Run(s, es[..i + 1]);
            && Shape(u) && p < |u.st| == |v.st| && v.loc == u.loc && v.chan == u.chan && v.cpu == u.cpu
            && v.lock == u.lock
            && (u.st[p] == SLEEPING && u.chan[p] == Some(ch) ==> v.st[p] == RUNNABLE)
            && forall q :: 0 <= q < |u.st| && !(q == p && u.st[p] == SLEEPING && u.chan[p] == Some(ch)) ==>
                 v.st[q] == u.st[q]
  {
    hide IsRun, Run;
    RunPrefix(s, es, i);
  }

  /** Between two states of a call it looks at every process on the way exactly once,
      whatever happens beside it. */
  lemma {:induction false} ScanReaches(s: State, es: seq<Event>, w: nat, ch: nat, a: nat, b: nat, p: nat)
    requires IsRun(s, es) && w in s.wakers && s.wakers[w] == Waker(ch, a) && WakeEnd(w) !in es
    requires w in Run(s, es).wakers && Run(s, es).wakers[w] == Waker(ch, b)
    ensures a <= b
    ensures a <= p < b <==> exists i :: LooksAt(s, es, i, w, ch, p)
    ensures forall i, j :: LooksAt(s, es, i, w, ch, p) && LooksAt(s, es, j, w, ch, p) ==> i == j
    decreases |es|
  {
    if es == [] {
    } else {
      var e, t, rest := es[0], Step(s, es[0]), es[1..];
      WakerStep(s, e, w, ch, a);
      assert WakeEnd(w) !in rest;
      var a' := t.wakers[w].next;
      ScanReaches(t, rest, w, ch, a', b, p);
      hide Step, Enabled, LooksAt, IsRun, Run;
      LooksFirst(s, es, w, ch, a, p);
      forall i: nat
        ensures LooksAt(s, es, i + 1, w, ch, p) <==> LooksAt(t, rest, i, w, ch, p)
      {
        LooksLater(s, es, i, w, ch, p);
      }
      if i: nat :| LooksAt(t, rest, i, w, ch, p) {
        assert LooksAt(s, es, i + 1, w, ch, p);
      }
      forall i: nat | LooksAt(s, es, i, w, ch, p)
        ensures i == 0 || LooksAt(t, rest, i - 1, w, ch, p)
      {
        if i > 0 {
          assert LooksAt(s, es, (i - 1) + 1, w, ch, p);
        }
      }
    }
  }

  lemma LooksFirst(s: State, es: seq<Event>, w: nat, ch: nat, a: nat, p: nat)
    requires IsRun(s, es) && es != [] && w in s.wakers && s.wakers[w] == Waker(ch, a)
    ensures LooksAt(s, es, 0, w, ch, p) <==> es[0] == WakeOne(w) && p == a
  {
    assert es[..0] == [];
  }

  lemma LooksLater(s: State, es: seq<Event>, i: nat, w: nat, ch: nat, p: nat)
    requires IsRun(s, es) && es != []
    ensures LooksAt(s, es, i + 1, w, ch, p) <==> LooksAt(Step(s, es[0]), es[1..], i, w, ch, p)
  {
    hide Step, Enabled;
    if i + 1 < |es| {
      assert es[..i + 1][1..] == es[1..][..i];
      RunPrefix(s, es, i + 1);
      RunPrefix(Step(s, es[0]), es[1..], i);
    }
  }

  lemma WakerStep(s: State, e: Event, w: nat, ch: nat, a: nat)
    requires Enabled(s, e) && w in s.wakers && s.wakers[w] == Waker(ch, a) && e != WakeEnd(w)
    ensures w in Step(s, e).wakers && Step(s, e).wakers[w] == Waker(ch, if e == WakeOne(w) then a + 1 else a)
  {
  }

  /** So a whole call, from its begin to its end, looks at everybody exactly once. */
  lemma WholeScan(s: State, es: seq<Event>, w: nat, ch: nat, p: nat)
    requires Enabled(s, WakeBegin(w, ch)) && IsRun(Step(s, WakeBegin(w, ch)), es) && WakeEnd(w) !in es
    requires Enabled(Run(Step(s, WakeBegin(w, ch)), es), WakeEnd(w)) && p < |s.st|
    ensures var t := Step(s, WakeBegin(w, ch));
            && ch in t.cond && (exists i :: LooksAt(t, es, i, w, ch, p))
            && (forall i, j :: LooksAt(t, es, i, w, ch, p) && LooksAt(t, es, j, w, ch, p) ==> i == j)
            && w !in Step(Run(t, es), WakeEnd(w)).wakers
  {
    var t := Step(s, WakeBegin(w, ch));
    RunShape(t, es);
    WakerRun(t, es, w, ch, 0);
    ScanReaches(t, es, w, ch, 0, |s.st|, p);
  }

  lemma {:induction false} WakerRun(s: State, es: seq<Event>, w: nat, ch: nat, a: nat)
    requires IsRun(s, es) && w in s.wakers && s.wakers[w] == Waker(ch, a) && WakeEnd(w) !in es
    ensures w in Run(s, es).wakers && Run(s, es).wakers[w].ch == ch
    decreases |es|
  {
    if es != [] {
      WakerStep(s, es[0], w, ch, a);
      hide Step, Enabled;
      WakerRun(Step(s, es[0]), es[1..], w, ch, Step(s, es[0]).wakers[w].next);
    }
  }
}
