/** The multi-CPU hand-off of the RISC-V kernel: per-CPU schedulers, a process
    lock carried across swtch, sleep and wakeup. Every step is what one CPU does
    between two points where another can look; a critical section that only
    touches what its lock protects is one step. Processes and CPUs are numbered
    from zero, any number of each. */
module Scheduler {
  import opened Basics

  datatype ProcState = UNUSED | SLEEPING | RUNNABLE | RUNNING | ZOMBIE

  /** Where a process called sched() from, so where swtch will bring it back. */
  datatype Site = InYield | InSleep(ch: nat) | InForkret | InExit

  /** How far a process' kernel thread has come. `Parked` is the only place where
      its registers are in p->context; `Garbage` is a thread resumed from a
      context that had not been saved. */
  datatype Loc =
    | Absent
    | InKernel
    | YieldHeld
    | SleepHeld(ch: nat)
    | SleepReleased(ch: nat)
    | ExitHeld
    | Switching(site: Site)
    | Parked(site: Site)
    | Resumed(site: Site)
    | Relock(ch: nat)
    | Garbage

  /** Scheduler loop; holding the lock of a process it looks at; running a
      process; back from that process' swtch with its lock still held. */
  datatype Cpu = Loop | Look(p: nat) | Gave(p: nat) | Back(p: nat)

  /** A wakeup(chan) call that has scanned processes below `next`. */
  datatype Waker = Waker(ch: nat, next: nat)

  /** p->state, p->chan, p->lock (which CPU holds it) and the thread of each
      process; the CPUs; which process holds each channel's condition lock; the
      channels whose condition is true; wakeup calls in progress. */
  datatype State = State(
    st: seq<ProcState>, chan: seq<Option<nat>>, lock: seq<Option<nat>>, loc: seq<Loc>,
    cpu: seq<Cpu>, lk: map<nat, nat>, cond: set<nat>, wakers: map<nat, Waker>)

  datatype Event =
    | Acquire(c: nat, p: nat)          // scheduler takes p->lock
    | Skip(c: nat)                     // not RUNNABLE: lets it go
    | Pick(c: nat)                     // RUNNABLE: RUNNING, swtch to it
    | Finish(c: nat)                   // swtch came back: release p->lock
    | YieldLock(c: nat) | YieldSet(c: nat)
    | TakeLk(c: nat, ch: nat) | DropLk(c: nat, ch: nat) | Consume(c: nat, ch: nat)
    | SleepLock(c: nat, ch: nat) | SleepRelease(c: nat) | SleepSet(c: nat)
    | ExitLock(c: nat) | ExitSet(c: nat)
    | Swtch(c: nat)
    | Resume(c: nat)
    | GetLk(c: nat)
    | WakeBegin(w: nat, ch: nat)       // condition made true under its lock
    | WakeOne(w: nat)                  // one turn of wakeup's loop
    | WakeEnd(w: nat)
    | Kill(p: nat)
    | Fork(p: nat)
    | Reap(p: nat)

  predicate Held(l: Loc) {
    l.YieldHeld? || l.SleepHeld? || l.SleepReleased? || l.ExitHeld? || l.Switching? || l.Resumed?
  }

  predicate OnCpu(l: Loc) {
    Held(l) || l.InKernel? || l.Relock?
  }

  predicate Shape(s: State) {
    |s.st| == |s.chan| == |s.lock| == |s.loc|
  }

  /** CPU `c` runs a process that is at `l`. */
  predicate At(s: State, c: nat) {
    Shape(s) && c < |s.cpu| && s.cpu[c].Gave? && s.cpu[c].p < |s.st|
  }

  predicate Enabled(s: State, e: Event) {
    Shape(s) && match e
    case Acquire(c, p) => c < |s.cpu| && s.cpu[c].Loop? && p < |s.st| && s.lock[p].None?
    case Skip(c) => c < |s.cpu| && s.cpu[c].Look? && s.cpu[c].p < |s.st| && s.st[s.cpu[c].p] != RUNNABLE
    case Pick(c) => c < |s.cpu| && s.cpu[c].Look? && s.cpu[c].p < |s.st| && s.st[s.cpu[c].p] == RUNNABLE
    case Finish(c) => c < |s.cpu| && s.cpu[c].Back? && s.cpu[c].p < |s.st|
    case YieldLock(c) => At(s, c) && s.loc[s.cpu[c].p].InKernel? && s.lock[s.cpu[c].p].None?
    case YieldSet(c) => At(s, c) && s.loc[s.cpu[c].p].YieldHeld?
    case TakeLk(c, ch) => At(s, c) && s.loc[s.cpu[c].p].InKernel? && ch !in s.lk
    case DropLk(c, ch) => At(s, c) && s.loc[s.cpu[c].p].InKernel? && ch in s.lk && s.lk[ch] == s.cpu[c].p
    case Consume(c, ch) => At(s, c) && s.loc[s.cpu[c].p].InKernel? && ch in s.lk && s.lk[ch] == s.cpu[c].p
    case SleepLock(c, ch) =>
      At(s, c) && s.loc[s.cpu[c].p].InKernel? && ch in s.lk && s.lk[ch] == s.cpu[c].p && ch !in s.cond
      && s.lock[s.cpu[c].p].None?
    case SleepRelease(c) => At(s, c) && s.loc[s.cpu[c].p].SleepHeld?
    case SleepSet(c) => At(s, c) && s.loc[s.cpu[c].p].SleepReleased?
    case ExitLock(c) => At(s, c) && s.loc[s.cpu[c].p].InKernel? && s.lock[s.cpu[c].p].None?
    case ExitSet(c) => At(s, c) && s.loc[s.cpu[c].p].ExitHeld?
    case Swtch(c) => At(s, c) && s.loc[s.cpu[c].p].Switching?
    case Resume(c) => At(s, c) && s.loc[s.cpu[c].p].Resumed? && !s.loc[s.cpu[c].p].site.InExit?
    case GetLk(c) => At(s, c) && s.loc[s.cpu[c].p].Relock? && s.loc[s.cpu[c].p].ch !in s.lk
    case WakeBegin(w, ch) => w !in s.wakers && ch !in s.lk
    case WakeOne(w) => w in s.wakers && s.wakers[w].next < |s.st| && s.lock[s.wakers[w].next].None?
    case WakeEnd(w) => w in s.wakers && s.wakers[w].next == |s.st|
    case Kill(p) => p < |s.st| && s.lock[p].None?
    case Fork(p) => p < |s.st| && s.lock[p].None? && s.st[p] == UNUSED
    case Reap(p) => p < |s.st| && s.lock[p].None? && s.st[p] == ZOMBIE
  }

  function Unlock(s: State, p: nat): (r: State)
    requires p < |s.lock|
  {
    s.(lock := s.lock[p := None])
  }

  function Lock(s: State, p: nat, c: nat): (r: State)
    requires p < |s.lock|
  {
    s.(lock := s.lock[p := Some(c)])
  }

  function Goto(s: State, p: nat, l: Loc): (r: State)
    requires p < |s.loc|
  {
    s.(loc := s.loc[p := l])
  }

  function Set(s: State, p: nat, t: ProcState): (r: State)
    requires p < |s.st|
  {
    s.(st := s.st[p := t])
  }

  /** What wakeup does to one process it has locked. */
  function Woken(t: ProcState, at: Option<nat>, ch: nat): (r: ProcState) {
    if t == SLEEPING && at == Some(ch) then RUNNABLE else t
  }

  function Step(s: State, e: Event): (r: State)
    requires Enabled(s, e)
  {
    match e
    case Acquire(c, p) => Lock(s, p, c).(cpu := s.cpu[c := Look(p)])
    case Skip(c) => Unlock(s, s.cpu[c].p).(cpu := s.cpu[c := Loop])
    case Pick(c) =>
      var p := s.cpu[c].p;
      var l := if s.loc[p].Parked? then Resumed(s.loc[p].site) else Garbage;
      Goto(Set(s, p, RUNNING), p, l).(cpu := s.cpu[c := Gave(p)])
    case Finish(c) => Unlock(s, s.cpu[c].p).(cpu := s.cpu[c := Loop])
    case YieldLock(c) => Goto(Lock(s, s.cpu[c].p, c), s.cpu[c].p, YieldHeld)
    case YieldSet(c) => Goto(Set(s, s.cpu[c].p, RUNNABLE), s.cpu[c].p, Switching(InYield))
    case TakeLk(c, ch) => s.(lk := s.lk[ch := s.cpu[c].p])
    case DropLk(c, ch) => s.(lk := s.lk - {ch})
    case Consume(c, ch) => s.(cond := s.cond - {ch})
    case SleepLock(c, ch) => Goto(Lock(s, s.cpu[c].p, c), s.cpu[c].p, SleepHeld(ch))
    case SleepRelease(c) =>
      var p := s.cpu[c].p;
      Goto(s, p, SleepReleased(s.loc[p].ch)).(lk := s.lk - {s.loc[p].ch})
    case SleepSet(c) =>
      var p := s.cpu[c].p;
      Goto(Set(s, p, SLEEPING), p, Switching(InSleep(s.loc[p].ch))).(chan := s.chan[p := Some(s.loc[p].ch)])
    case ExitLock(c) => Goto(Lock(s, s.cpu[c].p, c), s.cpu[c].p, ExitHeld)
    case ExitSet(c) => Goto(Set(s, s.cpu[c].p, ZOMBIE), s.cpu[c].p, Switching(InExit))
    case Swtch(c) =>
      var p := s.cpu[c].p;
      Goto(s, p, Parked(s.loc[p].site)).(cpu := s.cpu[c := Back(p)])
    case Resume(c) =>
      var p := s.cpu[c].p;
      if s.loc[p].site.InSleep?
      then Goto(Unlock(s, p), p, Relock(s.loc[p].site.ch)).(chan := s.chan[p := None])
      else Goto(Unlock(s, p), p, InKernel)
    case GetLk(c) =>
      var p := s.cpu[c].p;
      Goto(s, p, InKernel).(lk := s.lk[s.loc[p].ch := p])
    case WakeBegin(w, ch) => s.(cond := s.cond + {ch}, wakers := s.wakers[w := Waker(ch, 0)])
    case WakeOne(w) =>
      var k := s.wakers[w];
      Set(s, k.next, Woken(s.st[k.next], s.chan[k.next], k.ch)).(wakers := s.wakers[w := k.(next := k.next + 1)])
    case WakeEnd(w) => s.(wakers := s.wakers - {w})
    case Kill(p) => if s.st[p] == SLEEPING then Set(s, p, RUNNABLE) else s
    case Fork(p) => Goto(Set(s, p, RUNNABLE), p, Parked(InForkret))
    case Reap(p) => Goto(Set(s, p, UNUSED), p, Absent).(chan := s.chan[p := None])
  }

  // ---- The invariant ----

  /** State and channel of a process against how far its thread has come. */
  ghost predicate ProcOk(t: ProcState, at: Option<nat>, l: Loc) {
    match l
    case Absent => t == UNUSED
    case Switching(site) => SiteState(t, at, site)
    case Parked(site) => SiteState(t, at, site) || (site.InSleep? && t == RUNNABLE)
    case Garbage => false
    case _ => t == RUNNING
  }

  ghost predicate SiteState(t: ProcState, at: Option<nat>, site: Site) {
    match site
    case InYield => t == RUNNABLE
    case InForkret => t == RUNNABLE
    case InSleep(ch) => t == SLEEPING && at == Some(ch)
    case InExit => t == ZOMBIE
  }

  ghost predicate CpuOk(s: State, c: nat)
    requires Shape(s) && c < |s.cpu|
  {
    match s.cpu[c]
    case Loop => true
    case Look(p) => p < |s.st| && s.lock[p] == Some(c) && !Held(s.loc[p])
    case Gave(p) => p < |s.st| && OnCpu(s.loc[p]) && (Held(s.loc[p]) ==> s.lock[p] == Some(c))
    case Back(p) => p < |s.st| && s.lock[p] == Some(c) && s.loc[p].Parked?
  }

  ghost predicate Running(s: State, p: nat) {
    exists c :: 0 <= c < |s.cpu| && s.cpu[c] == Gave(p)
  }

  ghost predicate Procs(s: State)
    requires Shape(s)
  {
    && (forall p :: 0 <= p < |s.st| ==> ProcOk(s.st[p], s.chan[p], s.loc[p]))
    && (forall p :: 0 <= p < |s.st| && OnCpu(s.loc[p]) ==> Running(s, p))
  }

  ghost predicate Cpus(s: State)
    requires Shape(s)
  {
    && (forall c :: 0 <= c < |s.cpu| ==> CpuOk(s, c))
    && (forall c, d :: 0 <= c < d < |s.cpu| && s.cpu[c].Gave? ==> s.cpu[c] != s.cpu[d])
  }

  /** Process `p` has given up the condition lock of `ch` and will be, or is,
      asleep on it. */
  ghost predicate Waits(t: ProcState, at: Option<nat>, l: Loc, ch: nat) {
    l == SleepReleased(ch) || (t == SLEEPING && at == Some(ch))
  }

  ghost predicate Coming(wakers: map<nat, Waker>, ch: nat, p: nat) {
    exists w :: w in wakers && wakers[w].ch == ch && wakers[w].next <= p
  }

  ghost predicate Wakes(s: State)
    requires Shape(s)
  {
    && (forall p, ch :: 0 <= p < |s.st| && ch in s.cond && Waits(s.st[p], s.chan[p], s.loc[p], ch) ==>
          Coming(s.wakers, ch, p))
    && (forall p :: 0 <= p < |s.st| && s.loc[p].SleepHeld? ==>
          s.loc[p].ch in s.lk && s.lk[s.loc[p].ch] == p && s.loc[p].ch !in s.cond)
  }

  ghost predicate Inv(s: State) {
    Shape(s) && Procs(s) && Cpus(s) && Wakes(s)
  }

  // ---- Every step keeps it ----

  /** A process whose lock is free is at none of the places that hold it. */
  lemma FreeLock(s: State, p: nat)
    requires Inv(s) && p < |s.st| && s.lock[p].None?
    ensures !Held(s.loc[p])
    ensures forall c :: 0 <= c < |s.cpu| ==> s.cpu[c] != Look(p) && s.cpu[c] != Back(p)
    ensures !OnCpu(s.loc[p]) ==> forall c :: 0 <= c < |s.cpu| ==> s.cpu[c] != Gave(p)
  {
    hide Wakes;
    forall c | 0 <= c < |s.cpu|
      ensures s.cpu[c] != Look(p) && s.cpu[c] != Back(p)
      ensures s.cpu[c] == Gave(p) ==> OnCpu(s.loc[p]) && !Held(s.loc[p])
    {
      assert CpuOk(s, c);
    }
  }

  /** The events that happen on a CPU, rather than in a waker or a killer. */
  predicate HasCpu(e: Event) {
    !(e.WakeBegin? || e.WakeOne? || e.WakeEnd? || e.Kill? || e.Fork? || e.Reap?)
  }

  /** The process a CPU acts on in this step, with what is known of its lock. */
  ghost function Subject(s: State, e: Event): (p: nat)
    requires Enabled(s, e)
  {
    match e
    case Acquire(_, p) => p
    case WakeBegin(_, _) => 0
    case WakeOne(w) => s.wakers[w].next
    case WakeEnd(_) => 0
    case Kill(p) => p
    case Fork(p) => p
    case Reap(p) => p
    case _ => s.cpu[e.c].p
  }

  /** Entries of other processes are untouched. */
  lemma OnlySubject(s: State, e: Event)
    requires Enabled(s, e)
    ensures Shape(Step(s, e)) && |Step(s, e).st| == |s.st| && |Step(s, e).cpu| == |s.cpu|
    ensures forall q :: 0 <= q < |s.st| && q != Subject(s, e) ==>
              && Step(s, e).st[q] == s.st[q] && Step(s, e).chan[q] == s.chan[q]
              && Step(s, e).lock[q] == s.lock[q] && Step(s, e).loc[q] == s.loc[q]
    ensures forall d :: 0 <= d < |s.cpu| && Step(s, e).cpu[d] != s.cpu[d] ==>
              && (s.cpu[d].Loop? || s.cpu[d].p == Subject(s, e))
              && (Step(s, e).cpu[d].Loop? || Step(s, e).cpu[d].p == Subject(s, e))
  {
  }

  /** Events of a scheduler loop. */
  predicate BySched(e: Event) {
    e.Acquire? || e.Skip? || e.Pick? || e.Finish?
  }

  /** Events by which a process goes into and out of sleep(). */
  predicate BySleeper(e: Event) {
    e.SleepLock? || e.SleepRelease? || e.SleepSet? || e.Resume? || e.GetLk?
  }

  lemma SubjectSched(s: State, e: Event)
    requires Shape(s) && Enabled(s, e) && BySched(e) && CpuOk(s, e.c)
    requires var p := Subject(s, e); p < |s.st| ==> ProcOk(s.st[p], s.chan[p], s.loc[p])
    ensures var p, r := Subject(s, e), Step(s, e);
            p < |s.st| ==> |r.st| == |s.st| && Shape(r) && ProcOk(r.st[p], r.chan[p], r.loc[p])
  {
  }

  lemma SubjectSleeper(s: State, e: Event)
    requires Shape(s) && Enabled(s, e) && BySleeper(e) && CpuOk(s, e.c)
    requires var p := Subject(s, e); p < |s.st| ==> ProcOk(s.st[p], s.chan[p], s.loc[p])
    ensures var p, r := Subject(s, e), Step(s, e);
            p < |s.st| ==> |r.st| == |s.st| && Shape(r) && ProcOk(r.st[p], r.chan[p], r.loc[p])
  {
  }

  lemma SubjectOther(s: State, e: Event)
    requires Shape(s) && Enabled(s, e) && HasCpu(e) && !BySched(e) && !BySleeper(e) && CpuOk(s, e.c)
    requires var p := Subject(s, e); p < |s.st| ==> ProcOk(s.st[p], s.chan[p], s.loc[p])
    ensures var p, r := Subject(s, e), Step(s, e);
            p < |s.st| ==> |r.st| == |s.st| && Shape(r) && ProcOk(r.st[p], r.chan[p], r.loc[p])
  {
  }

  lemma SubjectNoCpu(s: State, e: Event)
    requires Shape(s) && Enabled(s, e) && !HasCpu(e)
    requires var p := Subject(s, e);
             p < |s.st| ==> ProcOk(s.st[p], s.chan[p], s.loc[p]) && (s.lock[p].None? ==> !Held(s.loc[p]))
    ensures var p, r := Subject(s, e), Step(s, e);
            p < |s.st| ==> |r.st| == |s.st| && Shape(r) && ProcOk(r.st[p], r.chan[p], r.loc[p])
  {
  }

  lemma SubjectOk(s: State, e: Event)
    requires Inv(s) && Enabled(s, e)
    ensures var p, r := Subject(s, e), Step(s, e);
            p < |s.st| ==> |r.st| == |s.st| && Shape(r) && ProcOk(r.st[p], r.chan[p], r.loc[p])
  {
    hide Wakes, Step, ProcOk, CpuOk, Held, OnCpu;
    var p := Subject(s, e);
    if p < |s.st| && s.lock[p].None? {
      FreeLock(s, p);
    }
    if !HasCpu(e) {
      SubjectNoCpu(s, e);
    } else if BySched(e) {
      SubjectSched(s, e);
    } else if BySleeper(e) {
      SubjectSleeper(s, e);
    } else {
      SubjectOther(s, e);
    }
  }

  lemma ProcsStep(s: State, e: Event)
    requires Inv(s) && Enabled(s, e)
    ensures var r := Step(s, e);
            Shape(r) && forall p :: 0 <= p < |r.st| ==> ProcOk(r.st[p], r.chan[p], r.loc[p])
  {
    hide Wakes, Cpus, Step, Enabled, ProcOk;
    OnlySubject(s, e);
    SubjectOk(s, e);
  }

  /** CPU `d` after the step, from what it was before. */
  lemma CpuStep(s: State, e: Event, d: nat)
    requires Inv(s) && Enabled(s, e) && d < |s.cpu|
    ensures var r := Step(s, e); Shape(r) && d < |r.cpu| && CpuOk(r, d)
  {
    hide Wakes, Step, ProcOk, CpuOk, Held, OnCpu;
    var p := Subject(s, e);
    if p < |s.st| && s.lock[p].None? {
      FreeLock(s, p);
    }
    if !HasCpu(e) {
      CpuNoCpu(s, e, d);
    } else if d != e.c {
      OtherCpu(s, e, d);
    } else {
      ThisCpu(s, e);
    }
  }

  lemma ThisCpu(s: State, e: Event)
    requires Shape(s) && Enabled(s, e) && HasCpu(e) && CpuOk(s, e.c)
    requires var p := Subject(s, e);
             && p < |s.st| && ProcOk(s.st[p], s.chan[p], s.loc[p])
             && (s.lock[p].None? ==> !Held(s.loc[p]))
    ensures var r := Step(s, e); Shape(r) && e.c < |r.cpu| && CpuOk(r, e.c)
  {
  }

  lemma CpuNoCpu(s: State, e: Event, d: nat)
    requires Shape(s) && Enabled(s, e) && !HasCpu(e) && d < |s.cpu| && CpuOk(s, d)
    requires var p := Subject(s, e);
             p < |s.st| ==> ProcOk(s.st[p], s.chan[p], s.loc[p]) && (s.lock[p].None? ==> !Held(s.loc[p]))
    ensures var r := Step(s, e); Shape(r) && d < |r.cpu| && CpuOk(r, d)
  {
  }

  /** A CPU other than the one that acts. */
  lemma OtherCpu(s: State, e: Event, d: nat)
    requires Shape(s) && Enabled(s, e) && HasCpu(e) && d < |s.cpu| && d != e.c
    requires CpuOk(s, d) && CpuOk(s, e.c) && (s.cpu[e.c].Gave? ==> s.cpu[d] != s.cpu[e.c])
    requires var p := Subject(s, e);
             && p < |s.st| && ProcOk(s.st[p], s.chan[p], s.loc[p])
             && (s.lock[p].None? ==> !Held(s.loc[p]))
    ensures var r := Step(s, e); Shape(r) && d < |r.cpu| && CpuOk(r, d)
  {
    if BySched(e) {
      assert Step(s, e).cpu[d] == s.cpu[d];
    }
  }

  lemma GaveOnce(s: State, e: Event)
    requires Inv(s) && Enabled(s, e)
    ensures var r := Step(s, e);
            forall c, d :: 0 <= c < d < |r.cpu| && r.cpu[c].Gave? ==> r.cpu[c] != r.cpu[d]
  {
    hide Wakes;
    var r := Step(s, e);
    if e.Pick? {
      var p := s.cpu[e.c].p;
      assert CpuOk(s, e.c);
      assert ProcOk(s.st[p], s.chan[p], s.loc[p]);
      forall d | 0 <= d < |s.cpu|
        ensures s.cpu[d] != Gave(p)
      {
        assert CpuOk(s, d);
      }
    }
  }

  lemma RunningStep(s: State, e: Event, p: nat)
    requires Inv(s) && Enabled(s, e) && p < |s.st|
    ensures var r := Step(s, e); Shape(r) && p < |r.st| && (OnCpu(r.loc[p]) ==> Running(r, p))
  {
    hide Wakes;
    var r := Step(s, e);
    OnlySubject(s, e);
    if OnCpu(r.loc[p]) {
      if OnCpu(s.loc[p]) {
        assert Running(s, p);
        var c :| 0 <= c < |s.cpu| && s.cpu[c] == Gave(p);
        assert CpuOk(s, c);
        assert r.cpu[c] == Gave(p);
      } else {
        assert ProcOk(s.st[p], s.chan[p], s.loc[p]);
        assert r.cpu[e.c] == Gave(p);
      }
    }
  }

  /** Whoever waits on `ch` after the step did so before, or has just released a
      condition lock under which the condition was false. */
  lemma WaitsBefore(s: State, e: Event, p: nat, ch: nat)
    requires Inv(s) && Enabled(s, e) && p < |s.st|
    requires var r := Step(s, e);
             Shape(r) && p < |r.st| && ch in r.cond && Waits(r.st[p], r.chan[p], r.loc[p], ch)
    ensures Waits(s.st[p], s.chan[p], s.loc[p], ch)
    ensures ch in s.cond || e.WakeBegin?
    ensures !(e.WakeOne? && s.wakers[e.w].next == p && s.wakers[e.w].ch == ch)
  {
    if s.lock[p].None? {
      FreeLock(s, p);
    }
    hide Cpus;
  }

  lemma WakesStep(s: State, e: Event, p: nat, ch: nat)
    requires Inv(s) && Enabled(s, e) && p < |s.st|
    requires var r := Step(s, e);
             Shape(r) && p < |r.st| && ch in r.cond && Waits(r.st[p], r.chan[p], r.loc[p], ch)
    ensures Coming(Step(s, e).wakers, ch, p)
  {
    WaitsBefore(s, e, p, ch);
    hide Procs, Cpus, Waits;
    var r := Step(s, e);
    if ch in s.cond {
      assert Coming(s.wakers, ch, p) by {
        hide Step;
      }
      var w :| w in s.wakers && s.wakers[w].ch == ch && s.wakers[w].next <= p;
      assert w in r.wakers && r.wakers[w].ch == ch && r.wakers[w].next <= p;
    } else {
      assert r.wakers[e.w] == Waker(ch, 0);
    }
  }

  lemma SleepHeldStep(s: State, e: Event, p: nat)
    requires Inv(s) && Enabled(s, e) && p < |s.st|
    ensures var r := Step(s, e);
            && Shape(r) && p < |r.st|
            && (r.loc[p].SleepHeld? ==> r.loc[p].ch in r.lk && r.lk[r.loc[p].ch] == p && r.loc[p].ch !in r.cond)
  {
    hide Cpus, Procs;
  }

  lemma StepInv(s: State, e: Event)
    requires Inv(s) && Enabled(s, e)
    ensures Inv(Step(s, e))
  {
    hide Step, Enabled, ProcOk, CpuOk, Waits, Coming, OnCpu;
    var r := Step(s, e);
    OnlySubject(s, e);
    ProcsStep(s, e);
    GaveOnce(s, e);
    forall p | 0 <= p < |r.st|
      ensures OnCpu(r.loc[p]) ==> Running(r, p)
      ensures r.loc[p].SleepHeld? ==> r.loc[p].ch in r.lk && r.lk[r.loc[p].ch] == p && r.loc[p].ch !in r.cond
    {
      RunningStep(s, e, p);
      SleepHeldStep(s, e, p);
    }
    forall c | 0 <= c < |r.cpu|
      ensures CpuOk(r, c)
    {
      CpuStep(s, e, c);
    }
    forall p, ch | 0 <= p < |r.st| && ch in r.cond && Waits(r.st[p], r.chan[p], r.loc[p], ch)
      ensures Coming(r.wakers, ch, p)
    {
      WakesStep(s, e, p, ch);
    }
  }

  // ---- Runs ----

  /** `n` unused process slots and `m` CPUs in their scheduler loops. */
  ghost function Boot(n: nat, m: nat): (s: State) {
    State(seq(n, _ => UNUSED), seq(n, _ => None), seq(n, _ => None), seq(n, _ => Absent),
          seq(m, _ => Loop), map[], {}, map[])
  }

  ghost predicate IsRun(s: State, es: seq<Event>)
    decreases |es|
  {
    es != [] ==> Enabled(s, es[0]) && IsRun(Step(s, es[0]), es[1..])
  }

  ghost function Run(s: State, es: seq<Event>): (r: State)
    requires IsRun(s, es)
    decreases |es|
  {
    if es == [] then s else Run(Step(s, es[0]), es[1..])
  }

  lemma {:induction false} RunInv(s: State, es: seq<Event>)
    requires Inv(s) && IsRun(s, es)
    ensures Inv(Run(s, es))
    decreases |es|
  {
    hide Inv, Step, Enabled;
    if es != [] {
      StepInv(s, es[0]);
      RunInv(Step(s, es[0]), es[1..]);
    }
  }

  /** The hand-off is safe on every interleaving: no process is current on two
      CPUs, a process free to be picked up has its context saved and is on no
      CPU, a dead one free to be reaped is on no CPU, and no thread is ever
      resumed from a context that was not saved. */
  lemma HandOffSafe(n: nat, m: nat, es: seq<Event>, p: nat)
    requires IsRun(Boot(n, m), es) && p < n
    ensures var s := Run(Boot(n, m), es);
            && Shape(s) && |s.st| == n && s.loc[p] != Garbage
            && (forall c, d :: 0 <= c < |s.cpu| && 0 <= d < |s.cpu| && s.cpu[c] == Gave(p) == s.cpu[d] ==> c == d)
            && (s.st[p] == RUNNABLE && s.lock[p].None? ==> s.loc[p].Parked?)
            && (s.st[p] == ZOMBIE && s.lock[p].None? ==> s.loc[p] == Parked(InExit))
            && (s.loc[p].Parked? ==> forall c :: 0 <= c < |s.cpu| ==> s.cpu[c] != Gave(p))
  {
    hide Step, Enabled, Wakes;
    var b, s := Boot(n, m), Run(Boot(n, m), es);
    BootInv(n, m);
    RunInv(b, es);
    RunShape(b, es);
    assert ProcOk(s.st[p], s.chan[p], s.loc[p]);
    if s.lock[p].None? {
      FreeLock(s, p);
    }
    forall c | 0 <= c < |s.cpu| && s.cpu[c] == Gave(p)
      ensures !s.loc[p].Parked?
    {
      assert CpuOk(s, c);
    }
  }

  /** No wakeup is lost: a process asleep on a channel whose condition is true
      has a wakeup call coming that has not passed it; when no wakeup call is in
      progress, nobody sleeps on a true condition. */
  lemma NoLostWakeup(n: nat, m: nat, es: seq<Event>, p: nat, ch: nat)
    requires IsRun(Boot(n, m), es) && p < n
    ensures var s := Run(Boot(n, m), es);
            && Shape(s) && |s.st| == n
            && (s.st[p] == SLEEPING && s.chan[p] == Some(ch) && ch in s.cond ==>
                  s.wakers != map[] && Coming(s.wakers, ch, p))
  {
    hide Step, Enabled, Procs, Cpus;
    var b, s := Boot(n, m), Run(Boot(n, m), es);
    BootInv(n, m);
    RunInv(b, es);
    RunShape(b, es);
    assert s.st[p] == SLEEPING && s.chan[p] == Some(ch) ==> Waits(s.st[p], s.chan[p], s.loc[p], ch);
  }

  lemma BootInv(n: nat, m: nat)
    ensures Inv(Boot(n, m))
  {
  }

  lemma {:induction false} RunShape(s: State, es: seq<Event>)
    requires IsRun(s, es) && Shape(s)
    ensures Shape(Run(s, es)) && |Run(s, es).st| == |s.st|
    decreases |es|
  {
    hide Step, Enabled;
    if es != [] {
      OnlySubject(s, es[0]);
      RunShape(Step(s, es[0]), es[1..]);
    }
  }
}
