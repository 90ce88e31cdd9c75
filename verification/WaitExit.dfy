/** Parents and children of the RISC-V kernel: fork, exit, wait and kill as they
    interleave, with the locks exit and wait hold. A process in wait keeps its own
    lock over the scan of the table and sleeps on itself; a process in exit takes
    its parent's lock, then its own, gives its children to init and wakes the
    parent it locked. A critical section that only touches what its lock protects
    is one step. Processes are numbered from zero, any number of them. */
module WaitExit {
  import opened Basics

  /** SLEEPING in wait; LIVE is any other state of a process that has not exited. */
  datatype ProcState = UNUSED | LIVE | SLEEPING | ZOMBIE

  /** How far a process has come. In wait: scanning, with the child it looks at
      locked, asleep. In exit: init to be woken, parent to be read, read, locked;
      both locked and children below `i` given away; dead with its lock held, as
      the scheduler lets go of it; dead. */
  datatype Pc =
    | Absent
    | Run
    | Scan(i: nat, kids: bool)
    | AtChild(i: nat)
    | Asleep
    | WakesInit
    | ReadsParent
    | GotParent(o: nat)
    | HasParent(o: nat)
    | Both(o: nat, i: nat)
    | Dying
    | Gone

  /** p->state, p->parent, p->lock (who holds it), p->killed; `to` is the process a
      dead one woke when it exited, `late` whether a process was given to init
      when it had already read its parent. */
  datatype State = State(
    init: nat, st: seq<ProcState>, par: seq<Option<nat>>, lock: seq<Option<nat>>, killed: seq<bool>,
    pc: seq<Pc>, to: seq<nat>, late: seq<bool>)

  datatype Event =
    | Fork(p: nat, c: nat)
    | Wait(p: nat)            // wait takes p->lock
    | Pass(p: nat)            // not a child: the next one
    | Enter(p: nat)           // a child: its lock
    | Leave(p: nat)           // not dead: lets it go
    | Reap(p: nat)            // dead: freed, wait returns
    | NoCopy(p: nat)          // dead, but its status cannot be copied out: wait fails
    | NoWait(p: nat)          // no children, or killed: wait returns
    | Sleep(p: nat)           // sleep(p, &p->lock)
    | Awake(p: nat)           // picked up again, its lock held
    | Exit(p: nat)
    | WakeInit(p: nat)
    | ReadParent(p: nat)
    | LockParent(p: nat)
    | LockSelf(p: nat)
    | Skip(p: nat)            // reparent: not a child
    | Give(p: nat)            // reparent: a child, given to init
    | Die(p: nat)             // wakeup1, ZOMBIE, the parent's lock released
    | Switch(p: nat)          // the scheduler releases p->lock
    | Kill(p: nat)

  ghost predicate Shape(s: State) {
    && |s.st| == |s.par| == |s.lock| == |s.killed| == |s.pc| == |s.to| == |s.late| && s.init < |s.st|
    && forall p :: 0 <= p < |s.pc| ==> InTable(s.pc[p], |s.st|)
  }

  predicate InTable(l: Pc, n: nat) {
    match l
    case Scan(i, _) => i <= n
    case AtChild(i) => i < n
    case GotParent(o) => o < n
    case HasParent(o) => o < n
    case Both(o, i) => o < n && i <= n
    case _ => true
  }

  predicate Free(s: State, x: nat) {
    x < |s.lock| && s.lock[x].None?
  }

  ghost predicate Enabled(s: State, e: Event) {
    Shape(s) && e.p < |s.st| && var l := s.pc[e.p]; match e
    case Fork(p, c) => l.Run? && c < |s.st| && c != p && s.st[c] == UNUSED && Free(s, c)
    case Wait(p) => l.Run? && Free(s, p)
    case Pass(p) => l.Scan? && l.i < |s.st| && s.par[l.i] != Some(p)
    case Enter(p) => l.Scan? && l.i < |s.st| && s.par[l.i] == Some(p) && Free(s, l.i)
    case Leave(p) => l.AtChild? && s.st[l.i] != ZOMBIE
    case Reap(p) => l.AtChild? && s.st[l.i] == ZOMBIE
    case NoCopy(p) => l.AtChild? && s.st[l.i] == ZOMBIE
    case NoWait(p) => l.Scan? && l.i == |s.st| && (!l.kids || s.killed[p])
    case Sleep(p) => l.Scan? && l.i == |s.st| && l.kids && !s.killed[p]
    case Awake(p) => l.Asleep? && s.st[p] == LIVE && Free(s, p)
    case Exit(p) => l.Run? && p != s.init
    case WakeInit(p) => l.WakesInit? && Free(s, s.init)
    case ReadParent(p) => l.ReadsParent? && Free(s, p) && s.par[p].Some? && s.par[p].value < |s.st|
    case LockParent(p) => l.GotParent? && Free(s, l.o)
    case LockSelf(p) => l.HasParent? && Free(s, p)
    case Skip(p) => l.Both? && l.i < |s.st| && s.par[l.i] != Some(p)
    case Give(p) => l.Both? && l.i < |s.st| && s.par[l.i] == Some(p) && Free(s, l.i)
    case Die(p) => l.Both? && l.i == |s.st|
    case Switch(p) => l.Dying?
    case Kill(p) => Free(s, p)
  }

  function Goto(s: State, p: nat, l: Pc): (r: State)
    requires p < |s.pc|
  {
    s.(pc := s.pc[p := l])
  }

  function Lock(s: State, x: nat, p: nat): (r: State)
    requires x < |s.lock|
  {
    s.(lock := s.lock[x := Some(p)])
  }

  function Unlock(s: State, x: nat): (r: State)
    requires x < |s.lock|
  {
    s.(lock := s.lock[x := None])
  }

  /** wakeup1: SLEEPING on itself becomes RUNNABLE. */
  function Woken(s: State, x: nat): (r: State)
    requires x < |s.st|
  {
    if s.st[x] == SLEEPING then s.(st := s.st[x := LIVE]) else s
  }

  /** Whom a process in exit is to wake, or a dead one woke. */
  ghost function Target(s: State, c: nat): (o: Option<nat>)
    requires Shape(s) && c < |s.st|
  {
    match s.pc[c]
    case GotParent(o) => Some(o)
    case HasParent(o) => Some(o)
    case Both(o, _) => Some(o)
    case Dying => Some(s.to[c])
    case Gone => Some(s.to[c])
    case _ => None
  }

  ghost function Step(s: State, e: Event): (r: State)
    requires Enabled(s, e)
  {
    var p, l := e.p, s.pc[e.p];
    match e
    case Fork(_, c) =>
      s.(st := s.st[c := LIVE], par := s.par[c := Some(p)], pc := s.pc[c := Run], killed := s.killed[c := false],
         late := s.late[c := false])
    case Wait(_) => Goto(Lock(s, p, p), p, Scan(0, false))
    case Pass(_) => Goto(s, p, Scan(l.i + 1, l.kids))
    case Enter(_) => Goto(Lock(s, l.i, p), p, AtChild(l.i))
    case Leave(_) => Goto(Unlock(s, l.i), p, Scan(l.i + 1, true))
    case Reap(_) =>
      Goto(Goto(Unlock(Unlock(s, l.i), p), l.i, Absent), p, Run)
      .(st := s.st[l.i := UNUSED], par := s.par[l.i := None], late := s.late[l.i := false])
    case NoCopy(_) => Goto(Unlock(Unlock(s, l.i), p), p, Run)
    case NoWait(_) => Goto(Unlock(s, p), p, Run)
    case Sleep(_) => Goto(Unlock(s, p), p, Asleep).(st := s.st[p := SLEEPING])
    case Awake(_) => Goto(Lock(s, p, p), p, Scan(0, false))
    case Exit(_) => Goto(s, p, WakesInit)
    case WakeInit(_) => Goto(Woken(s, s.init), p, ReadsParent)
    case ReadParent(_) => Goto(s, p, GotParent(s.par[p].value))
    case LockParent(_) => Goto(Lock(s, l.o, p), p, HasParent(l.o))
    case LockSelf(_) => Goto(Lock(s, p, p), p, Both(l.o, 0))
    case Skip(_) => Goto(s, p, Both(l.o, l.i + 1))
    case Give(_) =>
      Goto(s, p, Both(l.o, l.i + 1))
      .(par := s.par[l.i := Some(s.init)], late := s.late[l.i := Target(s, l.i).Some?])
    case Die(_) =>
      var w := Woken(s, l.o);
      Goto(Unlock(w, l.o), p, Dying).(st := w.st[p := ZOMBIE], to := s.to[p := l.o])
    case Switch(_) => Goto(Unlock(s, p), p, Gone)
    case Kill(_) => Woken(s, p).(killed := s.killed[p := true])
  }

  // ---- The invariant ----

  /** Which locks a process holds at `l`. */
  predicate Holds(l: Pc, p: nat, x: nat) {
    match l
    case Scan(_, _) => x == p
    case AtChild(i) => x == p || x == i
    case HasParent(o) => x == o
    case Both(o, _) => x == p || x == o
    case Dying => x == p
    case _ => false
  }

  /** A process has the lock exactly where the code holds it. */
  ghost predicate LockOk(s: State, p: nat, x: nat)
    requires Shape(s) && p < |s.st| && x < |s.st|
  {
    s.lock[x] == Some(p) <==> Holds(s.pc[p], p, x)
  }

  /** State and place of a process agree, and a process at a child's lock is its
      parent. */
  ghost predicate ProcOk(s: State, p: nat)
    requires Shape(s) && p < |s.st|
  {
    && (s.st[p] == UNUSED <==> s.pc[p].Absent?)
    && (s.st[p] == ZOMBIE <==> s.pc[p].Dying? || s.pc[p].Gone?)
    && (s.st[p] == SLEEPING ==> s.pc[p].Asleep?)
    && (s.pc[p].AtChild? ==> s.pc[p].i != p && s.par[s.pc[p].i] == Some(p))
    && (p == s.init ==> !InExit(s.pc[p]) && s.st[p] != UNUSED)
  }

  predicate InExit(l: Pc) {
    l.WakesInit? || l.ReadsParent? || l.GotParent? || l.HasParent? || l.Both? || l.Dying? || l.Gone?
  }

  /** Nobody is their own parent; init has none; and whoever is not init's child is
      the child it was when it read its parent. */
  ghost predicate ParentOk(s: State, c: nat)
    requires Shape(s) && c < |s.st|
  {
    && (s.par[c].Some? ==> s.par[c].value < |s.st| && s.par[c].value != c)
    && (s.st[c] == UNUSED ==> s.par[c].None?)
    && (c == s.init ==> s.par[c].None?)
    && (c != s.init && s.st[c] != UNUSED ==> s.par[c].Some?)
    && (Target(s, c).Some? ==> Target(s, c).value != c && (s.par[c] == Target(s, c) || s.par[c] == Some(s.init)))
  }

  /** A child of init will wake, or woke, somebody else exactly if it was given away
      too late. */
  ghost predicate LateOk(s: State, c: nat)
    requires Shape(s) && c < |s.st|
  {
    && (Target(s, c).Some? ==> Target(s, c).value < |s.st|)
    && (s.late[c] <==> Target(s, c).Some? && s.par[c] == Some(s.init) && Target(s, c).value != s.init)
  }

  /** Process `p` has looked at `c` and will not again before it sleeps, or
      sleeps. */
  ghost predicate Passed(s: State, p: nat, c: nat)
    requires Shape(s) && p < |s.st|
  {
    || (s.pc[p].Scan? && c < s.pc[p].i)
    || (s.pc[p].AtChild? && c < s.pc[p].i)
    || s.st[p] == SLEEPING
  }

  /** A dead child a process has passed over woke somebody else. */
  ghost predicate NotMissed(s: State, p: nat, c: nat)
    requires Shape(s) && p < |s.st| && c < |s.st|
  {
    s.par[c] == Some(p) && s.st[c] == ZOMBIE && Passed(s, p, c) ==> s.to[c] != p
  }

  ghost predicate Inv(s: State) {
    && Shape(s)
    && (forall p, x :: 0 <= p < |s.st| && 0 <= x < |s.st| ==> LockOk(s, p, x))
    && (forall p :: 0 <= p < |s.st| ==> ProcOk(s, p))
    && (forall c :: 0 <= c < |s.st| ==> ParentOk(s, c) && LateOk(s, c))
    && (forall p, c :: 0 <= p < |s.st| && 0 <= c < |s.st| ==> NotMissed(s, p, c))
  }

  // ---- Every step keeps it ----

  ghost predicate Sizes(s: State, n: nat) {
    |s.st| == |s.par| == |s.lock| == |s.killed| == |s.pc| == |s.to| == |s.late| == n && s.init < n
  }

  lemma SizesStep(s: State, e: Event)
    requires Enabled(s, e)
    ensures Sizes(Step(s, e), |s.st|) && Step(s, e).init == s.init
  {
    assert InTable(s.pc[e.p], |s.st|);
  }

  lemma PlaceStep(s: State, e: Event, p: nat)
    requires Enabled(s, e) && p < |s.st|
    ensures |Step(s, e).pc| == |s.st| && InTable(Step(s, e).pc[p], |s.st|)
  {
    assert InTable(s.pc[p], |s.st|) && InTable(s.pc[e.p], |s.st|);
  }

  lemma ShapeStep(s: State, e: Event)
    requires Enabled(s, e)
    ensures Shape(Step(s, e)) && |Step(s, e).st| == |s.st| && Step(s, e).init == s.init
  {
    hide Step, InTable;
    SizesStep(s, e);
    forall p | 0 <= p < |s.st|
      ensures InTable(Step(s, e).pc[p], |s.st|)
    {
      PlaceStep(s, e, p);
    }
  }

  /** The other process a step is about: a child, a parent or init. */
  ghost function Other(s: State, e: Event): (x: nat)
    requires Enabled(s, e)
    ensures x < |s.st|
  {
    var l := s.pc[e.p];
    match e
    case Fork(_, c) => c
    case Enter(_) => l.i
    case Leave(_) => l.i
    case Reap(_) => l.i
    case NoCopy(_) => l.i
    case WakeInit(_) => s.init
    case LockParent(_) => l.o
    case LockSelf(_) => l.o
    case Give(_) => l.i
    case Die(_) => l.o
    case _ => e.p
  }

  /** What the invariant says of a process. */
  ghost predicate Facts(s: State, x: nat)
    requires Shape(s) && x < |s.st|
  {
    ProcOk(s, x) && ParentOk(s, x)
  }

  /** Steps of wait. */
  predicate InWait(e: Event) {
    e.Wait? || e.Pass? || e.Enter? || e.Leave? || e.Reap? || e.NoCopy? || e.NoWait? || e.Sleep? || e.Awake?
  }

  /** Steps of exit that take or give up locks, or change parents. */
  predicate InExiting(e: Event) {
    e.ReadParent? || e.LockParent? || e.LockSelf? || e.Give? || e.Die? || e.Switch?
  }

  lemma Known(s: State, x: nat)
    requires Inv(s) && x < |s.st|
    ensures Facts(s, x)
  {
  }

  lemma KnownLock(s: State, p: nat, x: nat)
    requires Inv(s) && p < |s.st| && x < |s.st|
    ensures LockOk(s, p, x)
  {
  }

  lemma LockWait(s: State, e: Event, p: nat, x: nat)
    requires Enabled(s, e) && InWait(e) && p < |s.st| && x < |s.st| && Facts(s, e.p) && Facts(s, Other(s, e))
    requires LockOk(s, p, x) && LockOk(s, e.p, x) && LockOk(s, Other(s, e), x) && LockOk(s, e.p, Other(s, e))
    ensures Shape(Step(s, e)) && p < |Step(s, e).st| && x < |Step(s, e).st| && LockOk(Step(s, e), p, x)
  {
    ShapeStep(s, e);
  }

  lemma LockExit(s: State, e: Event, p: nat, x: nat)
    requires Enabled(s, e) && InExiting(e) && p < |s.st| && x < |s.st| && Facts(s, e.p) && Facts(s, Other(s, e))
    requires LockOk(s, p, x) && LockOk(s, e.p, x) && LockOk(s, Other(s, e), x) && LockOk(s, e.p, Other(s, e))
    ensures Shape(Step(s, e)) && p < |Step(s, e).st| && x < |Step(s, e).st| && LockOk(Step(s, e), p, x)
  {
    ShapeStep(s, e);
  }

  lemma LockRest(s: State, e: Event, p: nat, x: nat)
    requires Enabled(s, e) && !InWait(e) && !InExiting(e) && p < |s.st| && x < |s.st| && Facts(s, e.p)
    requires Facts(s, Other(s, e))
    requires LockOk(s, p, x) && LockOk(s, e.p, x) && LockOk(s, Other(s, e), x) && LockOk(s, e.p, Other(s, e))
    ensures Shape(Step(s, e)) && p < |Step(s, e).st| && x < |Step(s, e).st| && LockOk(Step(s, e), p, x)
  {
    ShapeStep(s, e);
  }

  lemma ProcWait(s: State, e: Event, p: nat)
    requires Enabled(s, e) && InWait(e) && p < |s.st| && Facts(s, p) && Facts(s, e.p) && Facts(s, Other(s, e))
    requires (s.pc[p].AtChild? ==> Facts(s, s.pc[p].i))
    ensures Shape(Step(s, e)) && p < |Step(s, e).st| && ProcOk(Step(s, e), p)
  {
    ShapeStep(s, e);
  }

  lemma ProcExit(s: State, e: Event, p: nat)
    requires Enabled(s, e) && InExiting(e) && p < |s.st| && Facts(s, p) && Facts(s, e.p) && Facts(s, Other(s, e))
    requires (s.pc[p].AtChild? ==> Facts(s, s.pc[p].i))
    ensures Shape(Step(s, e)) && p < |Step(s, e).st| && ProcOk(Step(s, e), p)
  {
    ShapeStep(s, e);
  }

  lemma ProcRest(s: State, e: Event, p: nat)
    requires Enabled(s, e) && !InWait(e) && !InExiting(e) && p < |s.st| && Facts(s, p) && Facts(s, e.p)
    requires Facts(s, Other(s, e)) && (s.pc[p].AtChild? ==> Facts(s, s.pc[p].i))
    ensures Shape(Step(s, e)) && p < |Step(s, e).st| && ProcOk(Step(s, e), p)
  {
    ShapeStep(s, e);
  }

  lemma ParentReap(s: State, e: Event, c: nat)
    requires Enabled(s, e) && e.Reap? && c < |s.st| && Facts(s, c) && Facts(s, e.p) && Facts(s, Other(s, e))
    requires Facts(s, s.init)
    ensures Shape(Step(s, e)) && c < |Step(s, e).st| && ParentOk(Step(s, e), c)
  {
    ShapeStep(s, e);
  }

  lemma ParentWait(s: State, e: Event, c: nat)
    requires Enabled(s, e) && InWait(e) && !e.Reap? && c < |s.st| && Facts(s, c) && Facts(s, e.p)
    requires Facts(s, Other(s, e)) && Facts(s, s.init)
    ensures Shape(Step(s, e)) && c < |Step(s, e).st| && ParentOk(Step(s, e), c)
  {
    ShapeStep(s, e);
  }

  lemma ParentGive(s: State, e: Event, c: nat)
    requires Enabled(s, e) && e.Give? && c < |s.st| && Facts(s, c) && Facts(s, e.p) && Facts(s, Other(s, e))
    requires Facts(s, s.init)
    ensures Shape(Step(s, e)) && c < |Step(s, e).st| && ParentOk(Step(s, e), c)
  {
    ShapeStep(s, e);
  }

  lemma ParentDead(s: State, e: Event, c: nat)
    requires Enabled(s, e) && e.Die? && c < |s.st| && Facts(s, c) && Facts(s, e.p)
    requires Facts(s, Other(s, e)) && Facts(s, s.init)
    ensures Shape(Step(s, e)) && c < |Step(s, e).st| && ParentOk(Step(s, e), c)
  {
    ShapeStep(s, e);
  }

  lemma LateWait(s: State, e: Event, c: nat)
    requires Enabled(s, e) && InWait(e) && c < |s.st| && Facts(s, c) && Facts(s, e.p) && LateOk(s, c)
    requires Facts(s, Other(s, e))
    ensures Shape(Step(s, e)) && c < |Step(s, e).st| && LateOk(Step(s, e), c)
  {
    hide ParentOk;
    ShapeStep(s, e);
  }

  lemma LateExit(s: State, e: Event, c: nat)
    requires Enabled(s, e) && InExiting(e) && !e.Give? && c < |s.st| && Facts(s, c) && Facts(s, e.p) && LateOk(s, c)
    ensures Shape(Step(s, e)) && c < |Step(s, e).st| && LateOk(Step(s, e), c)
  {
    ShapeStep(s, e);
  }

  lemma LateGive(s: State, e: Event, c: nat)
    requires Enabled(s, e) && e.Give? && c < |s.st| && Facts(s, c) && Facts(s, e.p) && LateOk(s, c)
    ensures Shape(Step(s, e)) && c < |Step(s, e).st| && LateOk(Step(s, e), c)
  {
    ShapeStep(s, e);
  }

  lemma LateRest(s: State, e: Event, c: nat)
    requires Enabled(s, e) && !InWait(e) && !InExiting(e) && c < |s.st| && Facts(s, c) && Facts(s, e.p) && LateOk(s, c)
    requires Facts(s, Other(s, e))
    ensures Shape(Step(s, e)) && c < |Step(s, e).st| && LateOk(Step(s, e), c)
  {
    ShapeStep(s, e);
  }

  lemma LateStep(s: State, e: Event, c: nat)
    requires Inv(s) && Enabled(s, e) && c < |s.st|
    ensures Shape(Step(s, e)) && c < |Step(s, e).st| && LateOk(Step(s, e), c)
  {
    hide Step, Facts, LockOk, ProcOk, ParentOk, LateOk, NotMissed;
    Known(s, c);
    Known(s, e.p);
    Known(s, Other(s, e));
    if InWait(e) {
      LateWait(s, e, c);
    } else if e.Give? {
      LateGive(s, e, c);
    } else if InExiting(e) {
      LateExit(s, e, c);
    } else {
      LateRest(s, e, c);
    }
  }

  lemma ParentSwitch(s: State, e: Event, c: nat)
    requires Enabled(s, e) && e.Switch? && c < |s.st| && Facts(s, c) && Facts(s, e.p)
    ensures Shape(Step(s, e)) && c < |Step(s, e).st| && ParentOk(Step(s, e), c)
  {
    ShapeStep(s, e);
  }

  lemma ParentLocks(s: State, e: Event, c: nat)
    requires Enabled(s, e) && (e.ReadParent? || e.LockParent? || e.LockSelf?) && c < |s.st| && Facts(s, c)
    requires Facts(s, e.p) && Facts(s, Other(s, e)) && Facts(s, s.init)
    ensures Shape(Step(s, e)) && c < |Step(s, e).st| && ParentOk(Step(s, e), c)
  {
    ShapeStep(s, e);
  }

  lemma ParentRest(s: State, e: Event, c: nat)
    requires Enabled(s, e) && !InWait(e) && !InExiting(e) && c < |s.st| && Facts(s, c) && Facts(s, e.p)
    requires Facts(s, Other(s, e)) && Facts(s, s.init)
    ensures Shape(Step(s, e)) && c < |Step(s, e).st| && ParentOk(Step(s, e), c)
  {
    ShapeStep(s, e);
  }

  lemma LockStep(s: State, e: Event, p: nat, x: nat)
    requires Inv(s) && Enabled(s, e) && p < |s.st| && x < |s.st|
    ensures Shape(Step(s, e)) && p < |Step(s, e).st| && x < |Step(s, e).st| && LockOk(Step(s, e), p, x)
  {
    hide Step, Facts, LockOk, ProcOk, ParentOk, LateOk, NotMissed;
    Known(s, e.p);
    Known(s, Other(s, e));
    KnownLock(s, p, x);
    KnownLock(s, e.p, x);
    KnownLock(s, Other(s, e), x);
    KnownLock(s, e.p, Other(s, e));
    if InWait(e) {
      LockWait(s, e, p, x);
    } else if InExiting(e) {
      LockExit(s, e, p, x);
    } else {
      LockRest(s, e, p, x);
    }
  }

  lemma ProcStep(s: State, e: Event, p: nat)
    requires Inv(s) && Enabled(s, e) && p < |s.st|
    ensures Shape(Step(s, e)) && p < |Step(s, e).st| && ProcOk(Step(s, e), p)
  {
    hide Step, Facts, LockOk, ProcOk, ParentOk, LateOk, NotMissed;
    Known(s, p);
    Known(s, e.p);
    Known(s, Other(s, e));
    if s.pc[p].AtChild? {
      Known(s, s.pc[p].i);
    }
    if InWait(e) {
      ProcWait(s, e, p);
    } else if InExiting(e) {
      ProcExit(s, e, p);
    } else {
      ProcRest(s, e, p);
    }
  }

  lemma ParentStep(s: State, e: Event, c: nat)
    requires Inv(s) && Enabled(s, e) && c < |s.st|
    ensures Shape(Step(s, e)) && c < |Step(s, e).st| && ParentOk(Step(s, e), c)
  {
    hide Step, Facts, LockOk, ProcOk, ParentOk, LateOk, NotMissed;
    Known(s, c);
    Known(s, e.p);
    Known(s, Other(s, e));
    Known(s, s.init);
    if e.Reap? {
      ParentReap(s, e, c);
    } else if InWait(e) {
      ParentWait(s, e, c);
    } else if InExiting(e) {
      if e.Give? {
        ParentGive(s, e, c);
      } else if e.Die? {
        ParentDead(s, e, c);
      } else if e.Switch? {
        ParentSwitch(s, e, c);
      } else {
        ParentLocks(s, e, c);
      }
    } else {
      ParentRest(s, e, c);
    }
  }

  /** A process that dies holds the lock of the one it wakes, which is therefore
      neither scanning nor, afterwards, asleep. */
  lemma MissedDie(s: State, e: Event, p: nat, c: nat)
    requires Inv(s) && Enabled(s, e) && e.Die? && p < |s.st| && c < |s.st|
    ensures Shape(Step(s, e)) && p < |Step(s, e).st| && c < |Step(s, e).st| && NotMissed(Step(s, e), p, c)
  {
    ShapeStep(s, e);
    assert NotMissed(s, p, c) && Facts(s, p) && Facts(s, e.p) && LockOk(s, p, p) && LockOk(s, e.p, Other(s, e));
    hide Inv;
  }

  /** A dead child given to init did not wake it. */
  lemma MissedGive(s: State, e: Event, p: nat, c: nat)
    requires Inv(s) && Enabled(s, e) && e.Give? && p < |s.st| && c < |s.st|
    ensures Shape(Step(s, e)) && p < |Step(s, e).st| && c < |Step(s, e).st| && NotMissed(Step(s, e), p, c)
  {
    ShapeStep(s, e);
    assert NotMissed(s, p, c) && Facts(s, c) && Facts(s, e.p);
    hide Inv, LockOk;
  }

  lemma MissedWait(s: State, e: Event, p: nat, c: nat)
    requires Inv(s) && Enabled(s, e) && InWait(e) && p < |s.st| && c < |s.st|
    ensures Shape(Step(s, e)) && p < |Step(s, e).st| && c < |Step(s, e).st| && NotMissed(Step(s, e), p, c)
  {
    ShapeStep(s, e);
    assert NotMissed(s, p, c) && ProcOk(s, p) && ProcOk(s, e.p);
    hide Inv;
  }

  lemma MissedOther(s: State, e: Event, p: nat, c: nat)
    requires Inv(s) && Enabled(s, e) && !InWait(e) && !e.Die? && !e.Give? && p < |s.st| && c < |s.st|
    ensures Shape(Step(s, e)) && p < |Step(s, e).st| && c < |Step(s, e).st| && NotMissed(Step(s, e), p, c)
  {
    ShapeStep(s, e);
    assert NotMissed(s, p, c) && ProcOk(s, p) && ProcOk(s, e.p);
    hide Inv;
  }

  lemma MissedStep(s: State, e: Event, p: nat, c: nat)
    requires Inv(s) && Enabled(s, e) && p < |s.st| && c < |s.st|
    ensures Shape(Step(s, e)) && p < |Step(s, e).st| && c < |Step(s, e).st| && NotMissed(Step(s, e), p, c)
  {
    hide Inv, Step, Enabled, NotMissed, Shape;
    if e.Die? {
      MissedDie(s, e, p, c);
    } else if e.Give? {
      MissedGive(s, e, p, c);
    } else if InWait(e) {
      MissedWait(s, e, p, c);
    } else {
      MissedOther(s, e, p, c);
    }
  }

  lemma StepInv(s: State, e: Event)
    requires Inv(s) && Enabled(s, e)
    ensures Inv(Step(s, e))
  {
    hide Step, Enabled, LockOk, ProcOk, ParentOk, LateOk, NotMissed;
    ShapeStep(s, e);
    var r := Step(s, e);
    forall x | 0 <= x < |r.st|
      ensures ProcOk(r, x) && ParentOk(r, x) && LateOk(r, x)
    {
      ProcStep(s, e, x);
      ParentStep(s, e, x);
      LateStep(s, e, x);
    }
    forall p, c | 0 <= p < |r.st| && 0 <= c < |r.st|
      ensures LockOk(r, p, c) && NotMissed(r, p, c)
    {
      LockStep(s, e, p, c);
      MissedStep(s, e, p, c);
    }
  }

  // ---- Runs ----

  /** Process `init` runs; the other slots are unused. */
  ghost function Boot(n: nat, init: nat): (s: State)
    requires init < n
  {
    State(init, seq(n, _ => UNUSED)[init := LIVE], seq(n, _ => None), seq(n, _ => None), seq(n, _ => false),
          seq(n, _ => Absent)[init := Run], seq(n, _ => 0), seq(n, _ => false))
  }

  ghost predicate IsRun(s: State, es: seq<Event>)
    decreases |es|
  {
    es != [] ==> Enabled(s, es[0]) && IsRun(Step(s, es[0]), es[1..])
  }

  ghost function After(s: State, es: seq<Event>): (r: State)
    requires IsRun(s, es)
    decreases |es|
  {
    if es == [] then s else After(Step(s, es[0]), es[1..])
  }

  lemma {:induction false} RunInv(s: State, es: seq<Event>)
    requires Inv(s) && IsRun(s, es)
    ensures Inv(After(s, es)) && |After(s, es).st| == |s.st| && After(s, es).init == s.init
    decreases |es|
  {
    hide Inv, Step, Enabled;
    if es != [] {
      StepInv(s, es[0]);
      ShapeStep(s, es[0]);
      RunInv(Step(s, es[0]), es[1..]);
    }
  }

  lemma BootInv(n: nat, init: nat)
    requires init < n
    ensures Inv(Boot(n, init))
  {
  }

  /** On every interleaving: a process asleep in wait has no dead child that woke
      it, and unless it is init no dead child at all. A dead child a sleeping init
      does have had read its parent before it was given away, and woke that one. */
  lemma NoLostChild(n: nat, init: nat, es: seq<Event>, p: nat, c: nat)
    requires init < n && IsRun(Boot(n, init), es) && p < n && c < n
    ensures var s := After(Boot(n, init), es);
            && Shape(s) && |s.st| == n
            && (s.st[p] == SLEEPING && s.par[c] == Some(p) && s.st[c] == ZOMBIE ==>
                  p == init && s.late[c] && s.to[c] < n && s.to[c] != init && s.to[c] != c && c != init)
  {
    hide Step, Enabled, LockOk;
    BootInv(n, init);
    RunInv(Boot(n, init), es);
    var s := After(Boot(n, init), es);
    assert ProcOk(s, p) && ProcOk(s, c) && ParentOk(s, c) && LateOk(s, c) && NotMissed(s, p, c);
  }

  /** Locks are never taken twice, and a process in wait or exit that has not
      reached its sleep or its death holds its own lock where the code says so:
      no dead process is reaped before the scheduler let go of it. */
  lemma ReapedIsGone(s: State, p: nat)
    requires Inv(s) && p < |s.st| && s.pc[p].AtChild? && s.st[s.pc[p].i] == ZOMBIE
    ensures s.pc[s.pc[p].i].Gone?
  {
    var c := s.pc[p].i;
    assert ProcOk(s, p) && ProcOk(s, c) && LockOk(s, p, c) && LockOk(s, c, c);
  }

  lemma {:induction false} RunConcat(s: State, es: seq<Event>, e: Event)
    requires IsRun(s, es) && Enabled(After(s, es), e)
    ensures IsRun(s, es + [e]) && After(s, es + [e]) == Step(After(s, es), e)
    decreases |es|
  {
    hide Step, Enabled;
    if es == [] {
      assert es + [e] == [e] && [e][1..] == [];
    } else {
      assert (es + [e])[1..] == es[1..] + [e];
      RunConcat(Step(s, es[0]), es[1..], e);
    }
  }
}
