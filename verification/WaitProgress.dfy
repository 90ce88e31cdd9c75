/** What exit, wait and kill achieve: init is woken by everybody who exits, a killed
    process does not stay asleep in wait, and whoever is in wait or exit gets on. */
module WaitProgress {
  import opened Basics
  import opened WaitExit

  // ---- Whom a step wakes ----

  /** exit wakes init, and kill the process it kills; no other state changes, and a
      killed process in wait can go on at once. */
  lemma Woke(s: State, e: Event)
    requires Enabled(s, e) && (e.WakeInit? || e.Kill?)
    ensures var r, x := Step(s, e), if e.Kill? then e.p else s.init;
            && |r.st| == |s.st| && r.st[x] == (if s.st[x] == SLEEPING then LIVE else s.st[x])
            && r.st[x] != SLEEPING && (forall q :: 0 <= q < |s.st| && q != x ==> r.st[q] == s.st[q])
            && (e.Kill? ==> r.killed[e.p] && (s.st[e.p] == SLEEPING && s.pc[e.p].Asleep? ==> Enabled(r, Awake(e.p))))
  {
    assert InTable(s.pc[e.p], |s.st|);
  }

  /** A child starts out running and not killed. */
  lemma Born(s: State, p: nat, c: nat)
    requires Enabled(s, Fork(p, c))
    ensures var r := Step(s, Fork(p, c));
            && r.st[c] == LIVE && r.pc[c] == Run && r.par[c] == Some(p) && !r.killed[c] && !r.late[c]
            && Enabled(r, Wait(c)) && (c != s.init ==> Enabled(r, Exit(c)))
  {
  }

  // ---- init sleeps only after everybody's waking ----

  lemma {:induction false} RunLast(s: State, es: seq<Event>)
    requires IsRun(s, es) && es != []
    ensures var m := |es| - 1; IsRun(s, es[..m]) && Enabled(After(s, es[..m]), es[m])
                               && After(s, es) == Step(After(s, es[..m]), es[m])
    decreases |es|
  {
    hide Step, Enabled;
    var m := |es| - 1;
    if m == 0 {
      assert es[..0] == [] && es[1..] == [];
    } else {
      RunLast(Step(s, es[0]), es[1..]);
      assert es[..m][1..] == es[1..][..m - 1];
    }
  }

  /** Who sleeps has gone to sleep, and has not been woken since. */
  lemma SleepStep(s: State, e: Event, x: nat)
    requires Enabled(s, e) && x < |s.st| && Sizes(Step(s, e), |s.st|) && Step(s, e).st[x] == SLEEPING
    ensures e == Sleep(x) || (s.st[x] == SLEEPING && !(e.WakeInit? && x == s.init) && e != Kill(x))
  {
    assert InTable(s.pc[e.p], |s.st|);
  }

  /** If init sleeps, it went to sleep after every process that exited had woken it. */
  lemma {:induction false} AsleepSince(n: nat, init: nat, es: seq<Event>, i: nat)
    requires init < n && IsRun(Boot(n, init), es) && i < |es| && es[i].WakeInit?
    requires var s := After(Boot(n, init), es); Sizes(s, n) && s.st[init] == SLEEPING
    ensures exists k :: i < k < |es| && es[k] == Sleep(init)
    decreases |es|
  {
    hide Step, Enabled;
    var b, m := Boot(n, init), |es| - 1;
    RunLast(b, es);
    BootInv(n, init);
    RunInv(b, es[..m]);
    var u := After(b, es[..m]);
    SizesStep(u, es[m]);
    SleepStep(u, es[m], init);
    if es[m] == Sleep(init) {
      assert i < m;
    } else {
      assert i < m && es[..m][i] == es[i];
      AsleepSince(n, init, es[..m], i);
      var k :| i < k < m && es[..m][k] == Sleep(init);
      assert es[k] == Sleep(init);
    }
  }

  /** A process past that point of exit has woken init. */
  predicate PastWaking(l: Pc) {
    InExit(l) && !l.WakesInit?
  }

  lemma {:induction false} HasWoken(n: nat, init: nat, es: seq<Event>, x: nat)
    requires init < n && IsRun(Boot(n, init), es) && x < n
    requires var s := After(Boot(n, init), es); Sizes(s, n) && PastWaking(s.pc[x])
    ensures exists i :: 0 <= i < |es| && es[i] == WakeInit(x)
    decreases |es|
  {
    hide Step, Enabled;
    var b, m := Boot(n, init), |es| - 1;
    if es == [] {
      assert false;
    } else {
      RunLast(b, es);
      BootInv(n, init);
      RunInv(b, es[..m]);
      var u := After(b, es[..m]);
      PastStep(u, es[m], x);
      if es[m] != WakeInit(x) {
        HasWoken(n, init, es[..m], x);
        var i :| 0 <= i < m && es[..m][i] == WakeInit(x);
        assert es[i] == WakeInit(x);
      }
    }
  }

  lemma PastStep(s: State, e: Event, x: nat)
    requires Inv(s) && Enabled(s, e) && x < |s.st| && Sizes(Step(s, e), |s.st|) && PastWaking(Step(s, e).pc[x])
    ensures e == WakeInit(x) || PastWaking(s.pc[x])
  {
    assert InTable(s.pc[e.p], |s.st|);
    hide Inv;
  }

  /** A dead child that a sleeping init has did wake init when it began to exit, and
      init went to sleep again after that. */
  lemma MissedSlept(n: nat, init: nat, es: seq<Event>, c: nat)
    requires init < n && IsRun(Boot(n, init), es) && c < n
    requires var s := After(Boot(n, init), es); Sizes(s, n) && s.st[init] == SLEEPING && s.st[c] == ZOMBIE
    ensures exists i, k :: 0 <= i < k < |es| && es[i] == WakeInit(c) && es[k] == Sleep(init)
  {
    hide Step, Enabled;
    BootInv(n, init);
    RunInv(Boot(n, init), es);
    assert ProcOk(After(Boot(n, init), es), c);
    HasWoken(n, init, es, c);
    var i :| 0 <= i < |es| && es[i] == WakeInit(c);
    AsleepSince(n, init, es, i);
  }

  // ---- Whoever is in wait or exit gets on ----

  /** Inside wait or exit, and not asleep. */
  predicate Busy(l: Pc) {
    !(l.Absent? || l.Run? || l.Asleep? || l.Gone?)
  }

  /** The next step of its code. */
  ghost function NextOwn(s: State, p: nat): (e: Event)
    requires Shape(s) && p < |s.st| && Busy(s.pc[p])
  {
    match s.pc[p]
    case Scan(i, kids) =>
      if i < |s.st| then if s.par[i] == Some(p) then Enter(p) else Pass(p)
      else if kids && !s.killed[p] then Sleep(p) else NoWait(p)
    case AtChild(i) => if s.st[i] == ZOMBIE then Reap(p) else Leave(p)
    case WakesInit => WakeInit(p)
    case ReadsParent => ReadParent(p)
    case GotParent(_) => LockParent(p)
    case HasParent(_) => LockSelf(p)
    case Both(_, i) => if i == |s.st| then Die(p) else if s.par[i] == Some(p) then Give(p) else Skip(p)
    case Dying => Switch(p)
    case _ => Kill(p)
  }

  /** The lock it has to wait for, if any. */
  ghost function Awaits(s: State, p: nat): (x: Option<nat>)
    requires Shape(s) && p < |s.st| && Busy(s.pc[p])
  {
    match s.pc[p]
    case Scan(i, _) => if i < |s.st| && s.par[i] == Some(p) then Some(i) else None
    case WakesInit => Some(s.init)
    case ReadsParent => Some(p)
    case GotParent(o) => Some(o)
    case HasParent(_) => Some(p)
    case Both(_, i) => if i < |s.st| && s.par[i] == Some(p) then Some(i) else None
    case _ => None
  }

  /** Steps left until the call is over, or the process asleep. */
  function Left(l: Pc, n: nat): (k: int) {
    match l
    case Scan(i, _) => 2 * (n - i) + 2
    case AtChild(i) => 2 * (n - i) + 1
    case WakesInit => n + 6
    case ReadsParent => n + 5
    case GotParent(_) => n + 4
    case HasParent(_) => n + 3
    case Both(_, i) => n - i + 2
    case Dying => 1
    case _ => 0
  }

  /** The step `e` of `p` can be made and brings it nearer to the end of its call. */
  ghost predicate Advances(s: State, p: nat, e: Event)
    requires p < |s.pc|
  {
    && e.p == p && Enabled(s, e) && |Step(s, e).pc| == |s.st|
    && 0 <= Left(Step(s, e).pc[p], |s.st|) < Left(s.pc[p], |s.st|)
  }

  lemma GetsOnInWait(s: State, p: nat)
    requires Shape(s) && p < |s.st| && ProcOk(s, p) && ParentOk(s, p) && (s.pc[p].Scan? || s.pc[p].AtChild?)
    requires Awaits(s, p).Some? ==> Free(s, Awaits(s, p).value)
    ensures Advances(s, p, NextOwn(s, p))
  {
    assert InTable(s.pc[p], |s.st|);
  }

  lemma GetsOnInExit(s: State, p: nat)
    requires Shape(s) && p < |s.st| && ProcOk(s, p) && ParentOk(s, p) && Busy(s.pc[p]) && InExit(s.pc[p])
    requires Awaits(s, p).Some? ==> Free(s, Awaits(s, p).value)
    ensures Advances(s, p, NextOwn(s, p))
  {
    assert InTable(s.pc[p], |s.st|);
  }

  /** A process in wait or exit waits for at most one lock; once that is free its next
      step can be made, and brings it nearer to the end of the call. */
  lemma GetsOn(s: State, p: nat)
    requires Inv(s) && p < |s.st| && Busy(s.pc[p])
    requires Awaits(s, p).Some? ==> Free(s, Awaits(s, p).value)
    ensures Advances(s, p, NextOwn(s, p))
  {
    hide Advances, NextOwn, Awaits, ProcOk, ParentOk, LockOk, LateOk, NotMissed;
    assert ParentOk(s, p) && ProcOk(s, p);
    if s.pc[p].Scan? || s.pc[p].AtChild? {
      GetsOnInWait(s, p);
    } else {
      GetsOnInExit(s, p);
    }
  }

  /** wait that cannot hand out the status of a dead child is over, and the child is
      there to be found by the next one. */
  lemma CopyFails(s: State, p: nat)
    requires Inv(s) && Enabled(s, NoCopy(p))
    ensures var r, c := Step(s, NoCopy(p)), s.pc[p].i;
            && Enabled(r, Wait(p)) && c < |r.st| == |s.st| && r.st == s.st && r.par == s.par
            && r.st[c] == ZOMBIE && r.par[c] == Some(p) && Free(r, c)
  {
    assert ProcOk(s, p) && InTable(s.pc[p], |s.st|);
    ShapeStep(s, NoCopy(p));
  }

  /** A process woken in wait scans again from the start. */
  lemma ScansAgain(s: State, p: nat)
    requires Inv(s) && p < |s.st| && s.pc[p].Asleep? && s.st[p] != SLEEPING && Free(s, p)
    ensures Enabled(s, Awake(p)) && Step(s, Awake(p)).pc == s.pc[p := Scan(0, false)]
  {
    assert ProcOk(s, p);
  }
}
