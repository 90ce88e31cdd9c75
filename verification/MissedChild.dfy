/** A run after which init sleeps on a dead child, for any number of processes and any
    init among them, and exactly when there is one. */
module MissedChild {
  import opened Basics
  import opened WaitExit

  /** One process, and one that is not there. */
  datatype Proc = Proc(st: ProcState, par: Option<nat>, lock: Option<nat>, pc: Pc, to: nat, late: bool)

  const IDLE: Proc := Proc(UNUSED, None, None, Absent, 0, false)

  /** States of `n` processes in which only three, init, `a` and `c`, are there, and
      whether init has slept on the way there. */
  datatype Three = Three(n: nat, init: nat, a: nat, c: nat, i: Proc, p: Proc, q: Proc, slept: bool) {
    ghost predicate Ok() { init < n && a < c < n && init != a && init != c }

    ghost function Of(x: nat): (r: Proc) {
      if x == init then i else if x == a then p else if x == c then q else IDLE
    }

    /** With another description of one of the three, or another place for it. */
    ghost function Put(x: nat, r: Proc): (t: Three) {
      if x == init then this.(i := r) else if x == a then this.(p := r) else this.(q := r)
    }

    ghost function At(x: nat, l: Pc): (t: Three) { Put(x, Of(x).(pc := l)) }

    ghost predicate Has(x: nat) { x == init || x == a || x == c }
  }

  ghost function Make(t: Three): (s: State) {
    State(t.init, seq(t.n, x requires 0 <= x => t.Of(x).st), seq(t.n, x requires 0 <= x => t.Of(x).par),
          seq(t.n, x requires 0 <= x => t.Of(x).lock), seq(t.n, _ => false), seq(t.n, x requires 0 <= x => t.Of(x).pc),
          seq(t.n, x requires 0 <= x => t.Of(x).to), seq(t.n, x requires 0 <= x => t.Of(x).late))
  }

  /** Process `x` is in state `s` as described. */
  ghost predicate Agrees(s: State, x: nat, r: Proc)
    requires Sizes(s, |s.st|) && x < |s.st|
  {
    && s.st[x] == r.st && s.par[x] == r.par && s.lock[x] == r.lock && !s.killed[x] && s.pc[x] == r.pc
    && s.to[x] == r.to && s.late[x] == r.late
  }

  /** The three are in state `s` as described. */
  ghost predicate ThreeAgree(s: State, t: Three) {
    && Sizes(s, t.n) && s.init == t.init && t.Ok()
    && Agrees(s, t.init, t.i) && Agrees(s, t.a, t.p) && Agrees(s, t.c, t.q)
  }

  lemma Made(t: Three, x: nat)
    requires t.Ok() && x < t.n
    ensures Sizes(Make(t), t.n) && Agrees(Make(t), x, t.Of(x))
  {
  }

  lemma MadeThree(t: Three)
    requires t.Ok()
    ensures ThreeAgree(Make(t), t)
  {
    hide Make, Agrees;
    Made(t, t.init);
    Made(t, t.a);
    Made(t, t.c);
    assert Make(t).init == t.init by { MadeInit(t); }
  }

  lemma MadeInit(t: Three)
    ensures Make(t).init == t.init
  {
  }

  /** The run `es` from boot leads to the state `t` describes. */
  ghost predicate Gets(es: seq<Event>, t: Three) {
    && t.Ok() && Gives(es, t.n, t.init, Make(t)) && Shape(Make(t)) && ThreeAgree(Make(t), t)
    && (t.slept || Sleep(t.init) !in es)
  }

  ghost predicate Gives(es: seq<Event>, n: nat, init: nat, s: State)
    requires init < n
  {
    IsRun(Boot(n, init), es) && After(Boot(n, init), es) == s
  }

  lemma Same(s: State, t: Three)
    requires Sizes(s, t.n) && s.init == t.init && forall x: nat :: x < t.n ==> Agrees(s, x, t.Of(x))
    ensures s == Make(t)
  {
    var r := Make(t);
    assert s.st == r.st && s.par == r.par && s.lock == r.lock && s.pc == r.pc && s.to == r.to && s.late == r.late;
    assert s.killed == r.killed by {
      forall x: nat | x < t.n
        ensures s.killed[x] == r.killed[x]
      {
        assert Agrees(s, x, t.Of(x));
      }
    }
  }

  /** A step leaves those it is not about as they were. */
  lemma Unaffected(s: State, e: Event, x: nat, r: Proc)
    requires Enabled(s, e) && x < |s.st| && x != e.p && x != Other(s, e) && Agrees(s, x, r)
    ensures Sizes(Step(s, e), |s.st|) && Agrees(Step(s, e), x, r)
  {
    SizesStep(s, e);
  }

  lemma Next(es: seq<Event>, t: Three, e: Event, r: Three) returns (fs: seq<Event>)
    requires Gets(es, t) && Enabled(Make(t), e) && t.Has(e.p) && t.Has(Other(Make(t), e))
    requires r == t.(i := r.i, p := r.p, q := r.q, slept := r.slept) && ThreeAgree(Step(Make(t), e), r)
    requires t.slept || e == Sleep(t.init) ==> r.slept
    ensures Gets(fs, r) && es <= fs
  {
    hide Step, Enabled, Agrees, Other, Make, IsRun, After, Boot;
    ShapeStep(Make(t), e);
    forall x: nat | x < t.n
      ensures Agrees(Step(Make(t), e), x, r.Of(x))
    {
      if x != t.init && x != t.a && x != t.c {
        Made(t, x);
        Unaffected(Make(t), e, x, t.Of(x));
      }
    }
    Same(Step(Make(t), e), r);
    RunConcat(Boot(t.n, t.init), es, e);
    fs := es + [e];
  }

  // What single steps make of the three.

  lemma DoFork(es: seq<Event>, t: Three, x: nat, y: nat) returns (fs: seq<Event>)
    requires Gets(es, t) && t.Has(x) && t.Of(x).pc.Run? && t.Has(y) && y != x && t.Of(y) == IDLE
    ensures Gets(fs, t.Put(y, Child(x, Run))) && es <= fs
  {
    hide Gives, Make, IsRun, After, Boot;
    fs := Next(es, t, Fork(x, y), t.Put(y, Child(x, Run)));
  }

  lemma DoExit(es: seq<Event>, t: Three, x: nat) returns (fs: seq<Event>)
    requires Gets(es, t) && t.Has(x) && x != t.init && t.Of(x).pc.Run?
    ensures Gets(fs, t.At(x, WakesInit)) && es <= fs
  {
    hide Gives, Make, IsRun, After, Boot;
    fs := Next(es, t, Exit(x), t.At(x, WakesInit));
  }

  lemma DoWakeInit(es: seq<Event>, t: Three, x: nat) returns (fs: seq<Event>)
    requires Gets(es, t) && t.Has(x) && t.Of(x).pc.WakesInit? && t.i.lock.None? && t.i.st == LIVE
    ensures Gets(fs, t.At(x, ReadsParent)) && es <= fs
  {
    hide Gives, Make, IsRun, After, Boot;
    fs := Next(es, t, WakeInit(x), t.At(x, ReadsParent));
  }

  lemma DoRead(es: seq<Event>, t: Three, x: nat, o: nat) returns (fs: seq<Event>)
    requires Gets(es, t) && t.Has(x) && t.Of(x).pc.ReadsParent? && t.Of(x).lock.None? && t.Of(x).par == Some(o)
    requires t.Has(o)
    ensures Gets(fs, t.At(x, GotParent(o))) && es <= fs
  {
    hide Gives, Make, IsRun, After, Boot;
    fs := Next(es, t, ReadParent(x), t.At(x, GotParent(o)));
  }

  lemma DoLockInit(es: seq<Event>, t: Three) returns (fs: seq<Event>)
    requires Gets(es, t) && t.p.pc == GotParent(t.init) && t.i.lock.None?
    ensures Gets(fs, t.(i := t.i.(lock := Some(t.a)), p := t.p.(pc := HasParent(t.init)))) && es <= fs
  {
    hide Gives, Make, IsRun, After, Boot;
    fs := Next(es, t, LockParent(t.a), t.(i := t.i.(lock := Some(t.a)), p := t.p.(pc := HasParent(t.init))));
  }

  lemma DoLockGone(es: seq<Event>, t: Three) returns (fs: seq<Event>)
    requires Gets(es, t) && t.q.pc == GotParent(t.a) && t.p.lock.None?
    ensures Gets(fs, t.(p := t.p.(lock := Some(t.c)), q := t.q.(pc := HasParent(t.a)))) && es <= fs
  {
    hide Gives, Make, IsRun, After, Boot;
    fs := Next(es, t, LockParent(t.c), t.(p := t.p.(lock := Some(t.c)), q := t.q.(pc := HasParent(t.a))));
  }

  lemma DoLockSelf(es: seq<Event>, t: Three, x: nat, o: nat) returns (fs: seq<Event>)
    requires Gets(es, t) && t.Has(x) && t.Of(x).pc == HasParent(o) && t.Has(o) && t.Of(x).lock.None?
    ensures Gets(fs, t.Put(x, t.Of(x).(lock := Some(x), pc := Both(o, 0)))) && es <= fs
  {
    hide Gives, Make, IsRun, After, Boot;
    fs := Next(es, t, LockSelf(x), t.Put(x, t.Of(x).(lock := Some(x), pc := Both(o, 0))));
  }

  lemma DoGive(es: seq<Event>, t: Three) returns (fs: seq<Event>)
    requires Gets(es, t) && t.p.pc == Both(t.init, t.c) && t.q.par == Some(t.a) && t.q.lock.None?
    requires t.q.pc == GotParent(t.a)
    ensures Gets(fs, t.(p := t.p.(pc := Both(t.init, t.c + 1)), q := t.q.(par := Some(t.init), late := true)))
    ensures es <= fs
  {
    hide Gives, Make, IsRun, After, Boot;
    var r := t.(p := t.p.(pc := Both(t.init, t.c + 1)), q := t.q.(par := Some(t.init), late := true));
    fs := Next(es, t, Give(t.a), r);
  }

  lemma DoDie(es: seq<Event>, t: Three) returns (fs: seq<Event>)
    requires Gets(es, t) && t.p.pc == Both(t.init, t.n) && t.i.st != SLEEPING
    ensures Gets(fs, t.(i := t.i.(lock := None), p := t.p.(st := ZOMBIE, pc := Dying, to := t.init))) && es <= fs
  {
    hide Gives, Make, IsRun, After, Boot;
    fs := Next(es, t, Die(t.a), t.(i := t.i.(lock := None), p := t.p.(st := ZOMBIE, pc := Dying, to := t.init)));
  }

  lemma DoDieLate(es: seq<Event>, t: Three) returns (fs: seq<Event>)
    requires Gets(es, t) && t.q.pc == Both(t.a, t.n) && t.p.st != SLEEPING
    ensures Gets(fs, t.(p := t.p.(lock := None), q := t.q.(st := ZOMBIE, pc := Dying, to := t.a))) && es <= fs
  {
    hide Gives, Make, IsRun, After, Boot;
    fs := Next(es, t, Die(t.c), t.(p := t.p.(lock := None), q := t.q.(st := ZOMBIE, pc := Dying, to := t.a)));
  }

  lemma DoSwitch(es: seq<Event>, t: Three) returns (fs: seq<Event>)
    requires Gets(es, t) && t.p.pc.Dying?
    ensures Gets(fs, t.(p := t.p.(lock := None, pc := Gone))) && es <= fs
  {
    hide Gives, Make, IsRun, After, Boot;
    fs := Next(es, t, Switch(t.a), t.(p := t.p.(lock := None, pc := Gone)));
  }

  lemma DoWait(es: seq<Event>, t: Three) returns (fs: seq<Event>)
    requires Gets(es, t) && t.i.pc.Run? && t.i.lock.None?
    ensures Gets(fs, t.(i := t.i.(lock := Some(t.init), pc := Scan(0, false)))) && es <= fs
  {
    hide Gives, Make, IsRun, After, Boot;
    fs := Next(es, t, Wait(t.init), t.(i := t.i.(lock := Some(t.init), pc := Scan(0, false))));
  }

  lemma DoEnter(es: seq<Event>, t: Three, x: nat, kids: bool) returns (fs: seq<Event>)
    requires Gets(es, t) && (x == t.a || x == t.c) && t.i.pc == Scan(x, kids) && t.Of(x).par == Some(t.init)
    requires t.Of(x).lock.None?
    ensures Gets(fs, t.Put(x, t.Of(x).(lock := Some(t.init))).At(t.init, AtChild(x))) && es <= fs
  {
    hide Gives, Make, IsRun, After, Boot;
    fs := Next(es, t, Enter(t.init), t.Put(x, t.Of(x).(lock := Some(t.init))).At(t.init, AtChild(x)));
  }

  lemma DoReap(es: seq<Event>, t: Three) returns (fs: seq<Event>)
    requires Gets(es, t) && t.i.pc == AtChild(t.a) && t.p.st == ZOMBIE
    ensures Gets(fs, t.(i := t.i.(lock := None, pc := Run), p := IDLE.(to := t.p.to))) && es <= fs
  {
    hide Gives, Make, IsRun, After, Boot;
    fs := Next(es, t, Reap(t.init), t.(i := t.i.(lock := None, pc := Run), p := IDLE.(to := t.p.to)));
  }

  lemma DoLeave(es: seq<Event>, t: Three) returns (fs: seq<Event>)
    requires Gets(es, t) && t.i.pc == AtChild(t.c) && t.q.st != ZOMBIE
    ensures Gets(fs, t.(i := t.i.(pc := Scan(t.c + 1, true)), q := t.q.(lock := None))) && es <= fs
  {
    hide Gives, Make, IsRun, After, Boot;
    fs := Next(es, t, Leave(t.init), t.(i := t.i.(pc := Scan(t.c + 1, true)), q := t.q.(lock := None)));
  }

  lemma DoSleep(es: seq<Event>, t: Three) returns (fs: seq<Event>)
    requires Gets(es, t) && t.i.pc == Scan(t.n, true)
    ensures Gets(fs, t.(i := t.i.(st := SLEEPING, lock := None, pc := Asleep), slept := true)) && es <= fs
  {
    hide Gives, Make, IsRun, After, Boot;
    fs := Next(es, t, Sleep(t.init), t.(i := t.i.(st := SLEEPING, lock := None, pc := Asleep), slept := true));
  }

  lemma DoPass(es: seq<Event>, t: Three, from: nat, kids: bool) returns (fs: seq<Event>)
    requires Gets(es, t) && t.i.pc == Scan(from, kids) && from < t.n && t.Of(from).par != Some(t.init)
    ensures Gets(fs, t.At(t.init, Scan(from + 1, kids))) && es <= fs
  {
    hide Gives, Make, IsRun, After, Boot;
    Made(t, from);
    fs := Next(es, t, Pass(t.init), t.At(t.init, Scan(from + 1, kids)));
  }

  lemma DoSkip(es: seq<Event>, t: Three, x: nat, o: nat, from: nat) returns (fs: seq<Event>)
    requires Gets(es, t) && t.Has(x) && t.Of(x).pc == Both(o, from) && from < t.n && t.Of(from).par != Some(x)
    ensures Gets(fs, t.At(x, Both(o, from + 1))) && es <= fs
  {
    hide Gives, Make, IsRun, After, Boot;
    Made(t, from);
    fs := Next(es, t, Skip(x), t.At(x, Both(o, from + 1)));
  }

  /** A scan passes everybody who is not a child. */
  lemma {:induction false} PassTo(es: seq<Event>, t: Three, from: nat, end: nat, kids: bool) returns (fs: seq<Event>)
    requires Gets(es, t) && t.i.pc == Scan(from, kids) && from <= end <= t.n
    requires forall x: nat :: from <= x < end ==> t.Of(x).par != Some(t.init)
    ensures Gets(fs, t.At(t.init, Scan(end, kids))) && es <= fs
    decreases end - from
  {
    hide Gets;
    fs := es;
    if from < end {
      fs := DoPass(fs, t, from, kids);
      var r := t.At(t.init, Scan(from + 1, kids));
      assert forall x: nat :: r.Of(x).par == t.Of(x).par;
      fs := PassTo(fs, r, from + 1, end, kids);
    }
  }

  /** Reparenting passes them likewise. */
  lemma {:induction false} SkipTo(es: seq<Event>, t: Three, x: nat, o: nat, from: nat, end: nat)
    returns (fs: seq<Event>)
    requires Gets(es, t) && t.Has(x) && t.Of(x).pc == Both(o, from) && from <= end <= t.n
    requires forall y: nat :: from <= y < end ==> t.Of(y).par != Some(x)
    ensures Gets(fs, t.At(x, Both(o, end))) && es <= fs
    decreases end - from
  {
    hide Gets;
    fs := es;
    if from < end {
      fs := DoSkip(fs, t, x, o, from);
      var r := t.At(x, Both(o, from + 1));
      assert forall y: nat :: r.Of(y).par == t.Of(y).par;
      fs := SkipTo(fs, r, x, o, from + 1, end);
    }
  }

  /** Process `x` exits as far as reading its parent. */
  lemma DoLeaving(es: seq<Event>, t: Three, x: nat, o: nat) returns (fs: seq<Event>)
    requires Gets(es, t) && t.Has(x) && x != t.init && t.Of(x).pc.Run? && t.Of(x).lock.None?
    requires t.i.lock.None? && t.i.st == LIVE && t.Of(x).par == Some(o) && t.Has(o)
    ensures Gets(fs, t.At(x, GotParent(o))) && es <= fs
  {
    hide Gets;
    fs := DoExit(es, t, x);
    fs := DoWakeInit(fs, t.At(x, WakesInit), x);
    fs := DoRead(fs, t.At(x, WakesInit).At(x, ReadsParent), x, o);
  }

  // The run. Process `c` is a child of `a`, a child of init.
  const INIT: Proc := Proc(LIVE, None, None, Run, 0, false)

  function Child(par: nat, l: Pc): (r: Proc) { Proc(LIVE, Some(par), None, l, 0, false) }

  /** Both have begun to exit: `c` first, so that it has read its parent. */
  ghost function Leaving(n: nat, z: nat, a: nat, c: nat): (t: Three) {
    Three(n, z, a, c, INIT, Child(z, GotParent(z)), Child(a, GotParent(a)), false)
  }

  lemma Miss1(n: nat, z: nat, a: nat, c: nat) returns (es: seq<Event>)
    requires z < n && a < c < n && z != a && z != c
    ensures Gets(es, Leaving(n, z, a, c))
  {
    var t := Three(n, z, a, c, INIT, IDLE, IDLE, false);
    es := [];
    Same(Boot(n, z), t);
    MadeThree(t);
    hide Gets;
    es := DoFork(es, t, z, a);
    es := DoFork(es, t.(p := Child(z, Run)), a, c);
    es := DoLeaving(es, t.(p := Child(z, Run), q := Child(a, Run)), c, a);
    es := DoLeaving(es, t.(p := Child(z, Run), q := Child(a, GotParent(a))), a, z);
  }

  /** `a` has given its child to init, and is dead. */
  ghost function Given(n: nat, z: nat, a: nat, c: nat): (t: Three) {
    Three(n, z, a, c, INIT, Proc(ZOMBIE, Some(z), None, Gone, z, false),
          Proc(LIVE, Some(z), None, GotParent(a), 0, true), false)
  }

  lemma Miss2(es: seq<Event>, n: nat, z: nat, a: nat, c: nat) returns (fs: seq<Event>)
    requires Leaving(n, z, a, c).Ok() && Gets(es, Leaving(n, z, a, c))
    ensures Gets(fs, Given(n, z, a, c)) && es <= fs
  {
    hide Gets;
    fs := DoLockInit(es, Leaving(n, z, a, c));
    fs := DoLockSelf(fs, Leaving(n, z, a, c).(i := INIT.(lock := Some(a)), p := Child(z, HasParent(z))), a, z);
    var t := Three(n, z, a, c, INIT.(lock := Some(a)), Proc(LIVE, Some(z), Some(a), Both(z, 0), 0, false),
                   Child(a, GotParent(a)), false);
    fs := SkipTo(fs, t, a, z, 0, c);
    fs := DoGive(fs, t.At(a, Both(z, c)));
    t := t.(p := t.p.(pc := Both(z, c + 1)), q := Given(n, z, a, c).q);
    fs := SkipTo(fs, t, a, z, c + 1, n);
    fs := DoDie(fs, t.At(a, Both(z, n)));
    fs := DoSwitch(fs, Given(n, z, a, c).(p := Proc(ZOMBIE, Some(z), Some(a), Dying, z, false)));
  }

  /** Init has reaped it, found the other child alive, and sleeps. */
  ghost function Sleeping(n: nat, z: nat, a: nat, c: nat): (t: Three) {
    Three(n, z, a, c, Proc(SLEEPING, None, None, Asleep, 0, false), IDLE.(to := z),
          Proc(LIVE, Some(z), None, GotParent(a), 0, true), true)
  }

  lemma Miss3(es: seq<Event>, n: nat, z: nat, a: nat, c: nat) returns (fs: seq<Event>)
    requires Given(n, z, a, c).Ok() && Gets(es, Given(n, z, a, c))
    ensures Gets(fs, Sleeping(n, z, a, c)) && es <= fs
  {
    hide Gets;
    fs := DoWait(es, Given(n, z, a, c));
    var t := Given(n, z, a, c).(i := INIT.(lock := Some(z), pc := Scan(0, false)));
    fs := PassTo(fs, t, 0, a, false);
    t := t.At(z, Scan(a, false));
    fs := DoEnter(fs, t, a, false);
    fs := DoReap(fs, t.Put(a, t.p.(lock := Some(z))).At(z, AtChild(a)));
    t := Sleeping(n, z, a, c).(i := INIT, slept := false);
    fs := DoWait(fs, t);
    t := t.(i := INIT.(lock := Some(z), pc := Scan(0, false)));
    fs := PassTo(fs, t, 0, c, false);
    t := t.At(z, Scan(c, false));
    fs := DoEnter(fs, t, c, false);
    fs := DoLeave(fs, t.Put(c, t.q.(lock := Some(z))).At(z, AtChild(c)));
    t := t.At(z, Scan(c + 1, true));
    fs := PassTo(fs, t, c + 1, n, true);
    fs := DoSleep(fs, t.At(z, Scan(n, true)));
  }

  /** The child dies, and wakes the slot its parent had. */
  ghost function Missed(n: nat, z: nat, a: nat, c: nat): (t: Three) {
    Sleeping(n, z, a, c).(q := Proc(ZOMBIE, Some(z), Some(c), Dying, a, true))
  }

  lemma Miss4(es: seq<Event>, n: nat, z: nat, a: nat, c: nat) returns (fs: seq<Event>)
    requires Sleeping(n, z, a, c).Ok() && Gets(es, Sleeping(n, z, a, c))
    ensures Gets(fs, Missed(n, z, a, c)) && es <= fs
  {
    hide Gets;
    var t := Sleeping(n, z, a, c);
    fs := DoLockGone(es, t);
    fs := DoLockSelf(fs, t.(p := t.p.(lock := Some(c)), q := t.q.(pc := HasParent(a))), c, a);
    t := t.(p := t.p.(lock := Some(c)), q := t.q.(lock := Some(c), pc := Both(a, 0)));
    fs := SkipTo(fs, t, c, a, 0, n);
    fs := DoDieLate(fs, t.At(c, Both(a, n)));
  }

  /** After `es` init sleeps, and its child `c` is dead, given to init when it had
      read its parent, or not. */
  ghost predicate Misses(n: nat, init: nat, es: seq<Event>, c: nat, late: bool)
    requires init < n
  {
    IsRun(Boot(n, init), es) && c < n && var s := After(Boot(n, init), es);
    && |s.st| == |s.par| == |s.late| == n && s.st[init] == SLEEPING && s.par[c] == Some(init) && s.st[c] == ZOMBIE
    && s.late[c] == late
  }

  /** Whatever the number of processes and whichever is init: there is a run after
      which init sleeps on a dead child exactly if there are three processes or
      more, and then it is a child that had read its parent when that parent gave
      it away. */
  lemma MissedIff(n: nat, init: nat, late: bool)
    requires init < n
    ensures (exists es, c :: Misses(n, init, es, c, late)) <==> n >= 3 && late
  {
    hide Step, Enabled, Boot, IsRun, After;
    if n >= 3 && late {
      var a := if init == 0 then 1 else 0;
      var c := if init <= 1 then 2 else 1;
      var es := Miss1(n, init, a, c);
      es := Miss2(es, n, init, a, c);
      es := Miss3(es, n, init, a, c);
      es := Miss4(es, n, init, a, c);
      assert Misses(n, init, es, c, late);
    } else {
      forall es, c: nat
        ensures !Misses(n, init, es, c, late)
      {
        if IsRun(Boot(n, init), es) && c < n {
          NoLostChild(n, init, es, init, c);
        }
      }
    }
  }

  /** It need not sleep before the child is given away: here it has not slept at all
      by then, and misses the child all the same. */
  lemma SleepsLater(n: nat, init: nat) returns (es: seq<Event>, fs: seq<Event>, c: nat)
    requires init < n && n >= 3
    ensures IsRun(Boot(n, init), es) && c < n && Sleep(init) !in es
    ensures var s := After(Boot(n, init), es); Sizes(s, n) && s.par[c] == Some(init) && s.late[c]
    ensures es <= fs && Misses(n, init, fs, c, true)
  {
    hide Step, Enabled, Boot, IsRun, After;
    var a := if init == 0 then 1 else 0;
    c := if init <= 1 then 2 else 1;
    es := Miss1(n, init, a, c);
    es := Miss2(es, n, init, a, c);
    fs := Miss3(es, n, init, a, c);
    var gs := Miss4(fs, n, init, a, c);
    assert es <= gs by { Prefixes(es, fs, gs); }
    fs := gs;
  }

  lemma Prefixes(es: seq<Event>, fs: seq<Event>, gs: seq<Event>)
    requires es <= fs <= gs
    ensures es <= gs
  {
  }
}
