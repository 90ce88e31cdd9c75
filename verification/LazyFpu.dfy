/** Lazy switching of the floating-point unit on x86, as steps of any number of
    processes on any number of CPUs, against a kernel that gives every process
    registers of its own. An image is the whole FXSAVE area as one value. */
module LazyFpu {
  import opened Basics

  type Pid = nat
  type Cpu = nat
  type Image = int

  /** A CPU: the process it runs, fpu_owner, CR0.TS and the register contents. */
  datatype Core = Core(cur: Option<Pid>, owner: Option<Pid>, ts: bool, hw: Image)

  /** A process: fpu_used, fpu_state, and whether exit has dropped its state. */
  datatype Proc = Proc(used: bool, saved: Image, dying: bool)

  datatype State = State(core: map<Cpu, Core>, proc: map<Pid, Proc>)

  /** Registers per process; a process that has not used them has none. */
  type Eager = map<Pid, Image>

  datatype Event =
    | SwitchIn(c: Cpu, p: Pid)
    | SwitchOut(c: Cpu)
    | Trap(c: Cpu, init: Image)
    | Use(c: Cpu, x: Image)
    | Fork(c: Cpu, child: Pid)
    | Exit(c: Cpu)

  predicate Idle(s: State, p: Pid) {
    forall c :: c in s.core ==> s.core[c].cur != Some(p)
  }

  /** A process starts running only after it was switched out elsewhere; with
      `early` also before, as when it is queued ahead of its context switch.
      A floating-point instruction traps while TS is set; otherwise it replaces
      the registers' contents. The kernel itself uses no floating point, so a
      process that is exiting does not either. */
  predicate Enabled(s: State, e: Event, early: bool) {
    match e
    case SwitchIn(c, p) =>
      c in s.core && s.core[c].cur == None && p in s.proc && !s.proc[p].dying && (early || Idle(s, p))
    case SwitchOut(c) => c in s.core && s.core[c].cur.Some? && s.core[c].cur.value in s.proc
    case Trap(c, _) => Runs(s, c) && s.core[c].ts && (s.core[c].owner.Some? ==> s.core[c].owner.value in s.proc)
    case Use(c, _) => Runs(s, c) && !s.core[c].ts
    case Fork(c, child) => Runs(s, c) && child !in s.proc
    case Exit(c) => Runs(s, c)
  }

  predicate Runs(s: State, c: Cpu) {
    c in s.core && s.core[c].cur.Some? && s.core[c].cur.value in s.proc && !s.proc[s.core[c].cur.value].dying
  }

  /** fpu_switch_away on CPU `c`: what the registers hold for the current
      process is written back, and the next use traps. */
  function SwitchAway(s: State, c: Cpu): (r: State)
    requires c in s.core && (s.core[c].cur.Some? ==> s.core[c].cur.value in s.proc)
  {
    var k := s.core[c];
    if k.cur.Some? && k.owner == k.cur then
      State(s.core[c := Core(k.cur, None, true, k.hw)],
            s.proc[k.cur.value := Proc(true, k.hw, s.proc[k.cur.value].dying)])
    else State(s.core[c := Core(k.cur, k.owner, true, k.hw)], s.proc)
  }

  /** fpu_nm: another owner's registers are saved, the process' own restored, or
      on first use initialised. */
  function Nm(s: State, c: Cpu, init: Image): (r: State)
    requires Runs(s, c) && (s.core[c].owner.Some? ==> s.core[c].owner.value in s.proc)
  {
    var k := s.core[c];
    var p := k.cur.value;
    if k.owner == Some(p) then State(s.core[c := Core(k.cur, k.owner, false, k.hw)], s.proc)
    else
      var q := if k.owner.Some? then s.proc[k.owner.value := Proc(true, k.hw, s.proc[k.owner.value].dying)] else s.proc;
      if q[p].used then State(s.core[c := Core(k.cur, Some(p), false, q[p].saved)], q)
      else State(s.core[c := Core(k.cur, Some(p), false, init)], q[p := Proc(true, q[p].saved, q[p].dying)])
  }

  /** fpu_fork on CPU `c`, whose current process is the parent. */
  function ForkFpu(s: State, c: Cpu, child: Pid): (r: State)
    requires Runs(s, c) && child !in s.proc
  {
    var k := s.core[c];
    var p := k.cur.value;
    var par := s.proc[p];
    if !par.used && k.owner != Some(p) then State(s.core, s.proc[child := Proc(false, 0, false)])
    else if k.owner == Some(p) then
      State(s.core[c := Core(k.cur, k.owner, false, k.hw)],
            s.proc[p := Proc(true, k.hw, par.dying)][child := Proc(true, k.hw, false)])
    else State(s.core, s.proc[child := Proc(true, par.saved, false)])
  }

  /** fpu_drop: no CPU's registers count as this process' any more. */
  function Drop(core: map<Cpu, Core>, p: Pid): (r: map<Cpu, Core>)
    ensures forall c :: c in r <==> c in core
    ensures forall c :: c in r ==>
              r[c] == Core(core[c].cur, if core[c].owner == Some(p) then None else core[c].owner,
                                            core[c].ts, core[c].hw)
  {
    map c | c in core ::
      Core(core[c].cur, if core[c].owner == Some(p) then None else core[c].owner, core[c].ts, core[c].hw)
  }

  function Step(s: State, e: Event): (r: State)
    requires Enabled(s, e, true)
  {
    match e
    case SwitchIn(c, p) =>
      var k := s.core[c];
      SwitchAway(State(s.core[c := Core(Some(p), k.owner, k.ts, k.hw)], s.proc), c)
    case SwitchOut(c) =>
      var r := SwitchAway(s, c);
      var k := r.core[c];
      State(r.core[c := Core(None, k.owner, k.ts, k.hw)], r.proc)
    case Trap(c, init) => Nm(s, c, init)
    case Use(c, x) =>
      var k := s.core[c];
      State(s.core[c := Core(k.cur, k.owner, k.ts, x)], s.proc)
    case Fork(c, child) => ForkFpu(s, c, child)
    case Exit(c) =>
      var p := s.core[c].cur.value;
      State(Drop(s.core, p), s.proc[p := Proc(s.proc[p].used, s.proc[p].saved, true)])
  }

  /** The same event with registers of one's own: only uses and forks matter,
      and the first use finds whatever the initialisation left. */
  function EagerStep(m: Eager, s: State, e: Event): (r: Eager)
    requires Enabled(s, e, true)
  {
    match e
    case Trap(c, init) => if s.core[c].cur.value in m then m else m[s.core[c].cur.value := init]
    case Use(c, x) => m[s.core[c].cur.value := x]
    case Fork(c, child) => if s.core[c].cur.value in m then m[child := m[s.core[c].cur.value]] else m
    case _ => m
  }

  // ---- The invariant ----

  /** The owner of a CPU's registers is its current process, exactly while TS is
      clear and it is not exiting. */
  ghost predicate CoreOk(s: State, c: Cpu)
    requires c in s.core
  {
    var k := s.core[c];
    && (k.cur.Some? ==> k.cur.value in s.proc)
    && (k.owner.Some? ==> k.owner == k.cur && !k.ts)
    && (k.cur.Some? && k.cur.value in s.proc && !s.proc[k.cur.value].dying && !k.ts ==> k.owner == k.cur)
  }

  ghost predicate OneCpu(s: State) {
    forall c, d :: c in s.core && d in s.core && s.core[c].cur.Some? && s.core[c].cur == s.core[d].cur ==> c == d
  }

  ghost predicate Owns(s: State, c: Cpu, p: Pid) {
    c in s.core && s.core[c].owner == Some(p)
  }

  /** A process' image is in the registers it owns, or else in its saved area. */
  ghost predicate ProcOk(s: State, m: Eager, p: Pid)
    requires p in s.proc
  {
    && (p in m <==> s.proc[p].used)
    && (forall c :: Owns(s, c, p) ==> p in m && s.core[c].hw == m[p])
    && (p in m && !s.proc[p].dying && (forall c :: !Owns(s, c, p)) ==> s.proc[p].saved == m[p])
  }

  ghost predicate Inv(s: State, m: Eager) {
    && (forall c :: c in s.core ==> CoreOk(s, c)) && OneCpu(s)
    && (forall p :: p in s.proc ==> ProcOk(s, m, p)) && (forall p :: p in m ==> p in s.proc)
  }

  /** What a process about to use its registers finds there. */
  ghost predicate SeesOwn(s: State, m: Eager, e: Event)
    requires Enabled(s, e, true)
  {
    e.Use? ==> s.core[e.c].cur.value in m && s.core[e.c].hw == m[s.core[e.c].cur.value]
  }

  lemma UseSeesOwn(s: State, m: Eager, c: Cpu, x: Image)
    requires Inv(s, m) && Enabled(s, Use(c, x), false)
    ensures SeesOwn(s, m, Use(c, x))
  {
    assert CoreOk(s, c);
    assert Owns(s, c, s.core[c].cur.value);
    assert ProcOk(s, m, s.core[c].cur.value);
  }

  /** On a trap the registers are nobody's, so the branch that saves another
      process' registers is never taken. */
  lemma NoForeignOwner(s: State, m: Eager, c: Cpu, init: Image)
    requires Inv(s, m) && Enabled(s, Trap(c, init), false)
    ensures s.core[c].owner == None
  {
    assert CoreOk(s, c);
  }

  // ---- Each step keeps it ----

  lemma SwitchInInv(s: State, m: Eager, c: Cpu, p: Pid)
    requires Inv(s, m) && Enabled(s, SwitchIn(c, p), false)
    ensures Inv(Step(s, SwitchIn(c, p)), m)
  {
    var r := Step(s, SwitchIn(c, p));
    assert CoreOk(s, c);
    assert r == State(s.core[c := Core(Some(p), None, true, s.core[c].hw)], s.proc);
    forall d, q
      ensures Owns(r, d, q) <==> Owns(s, d, q)
    {
    }
    forall d | d in r.core
      ensures CoreOk(r, d)
    {
      assert CoreOk(s, d);
    }
    forall q | q in r.proc
      ensures ProcOk(r, m, q)
    {
      assert ProcOk(s, m, q);
    }
  }

  lemma SwitchOutInv(s: State, m: Eager, c: Cpu)
    requires Inv(s, m) && Enabled(s, SwitchOut(c), false)
    ensures Inv(Step(s, SwitchOut(c)), m)
  {
    var r := Step(s, SwitchOut(c));
    var k := s.core[c];
    var p := k.cur.value;
    assert CoreOk(s, c);
    assert r.core == s.core[c := Core(None, None, true, k.hw)];
    OnlyOwner(s, m, c, p);
    forall d, q
      ensures Owns(r, d, q) <==> Owns(s, d, q) && d != c
    {
    }
    forall d | d in r.core
      ensures CoreOk(r, d)
    {
      assert CoreOk(s, d);
    }
    forall q | q in r.proc
      ensures ProcOk(r, m, q)
    {
      assert ProcOk(s, m, q);
    }
  }

  /** Only the CPU a process runs on can hold its registers. */
  lemma OnlyOwner(s: State, m: Eager, c: Cpu, p: Pid)
    requires Inv(s, m) && c in s.core && s.core[c].cur == Some(p)
    ensures forall d :: Owns(s, d, p) ==> d == c
  {
    forall d | Owns(s, d, p)
      ensures d == c
    {
      assert CoreOk(s, d);
    }
  }

  lemma TrapInv(s: State, m: Eager, c: Cpu, init: Image)
    requires Inv(s, m) && Enabled(s, Trap(c, init), false)
    ensures Inv(Step(s, Trap(c, init)), EagerStep(m, s, Trap(c, init)))
  {
    var r, m' := Step(s, Trap(c, init)), EagerStep(m, s, Trap(c, init));
    var p := s.core[c].cur.value;
    NoForeignOwner(s, m, c, init);
    OnlyOwner(s, m, c, p);
    assert forall d :: !Owns(s, d, p);
    assert ProcOk(s, m, p);
    forall d, q
      ensures Owns(r, d, q) <==> Owns(s, d, q) || (d == c && q == p)
    {
    }
    forall d | d in r.core
      ensures CoreOk(r, d)
    {
      assert CoreOk(s, d);
    }
    forall q | q in r.proc
      ensures ProcOk(r, m', q)
    {
      assert ProcOk(s, m, q);
      assert Owns(r, c, p);
    }
  }

  lemma UseInv(s: State, m: Eager, c: Cpu, x: Image)
    requires Inv(s, m) && Enabled(s, Use(c, x), false)
    ensures Inv(Step(s, Use(c, x)), EagerStep(m, s, Use(c, x)))
  {
    var r, m' := Step(s, Use(c, x)), EagerStep(m, s, Use(c, x));
    var p := s.core[c].cur.value;
    assert CoreOk(s, c);
    assert Owns(s, c, p);
    OnlyOwner(s, m, c, p);
    forall d, q
      ensures Owns(r, d, q) <==> Owns(s, d, q)
    {
    }
    forall d | d in r.core
      ensures CoreOk(r, d)
    {
      assert CoreOk(s, d);
    }
    forall q | q in r.proc
      ensures ProcOk(r, m', q)
    {
      assert ProcOk(s, m, q);
      assert Owns(r, c, q) ==> q == p;
    }
  }

  lemma ForkInv(s: State, m: Eager, c: Cpu, child: Pid)
    requires Inv(s, m) && Enabled(s, Fork(c, child), false)
    ensures Inv(Step(s, Fork(c, child)), EagerStep(m, s, Fork(c, child)))
  {
    var r, m' := Step(s, Fork(c, child)), EagerStep(m, s, Fork(c, child));
    var p := s.core[c].cur.value;
    assert CoreOk(s, c);
    assert ProcOk(s, m, p);
    OnlyOwner(s, m, c, p);
    assert s.core[c].owner == Some(p) ==> Owns(s, c, p);
    forall d, q
      ensures Owns(r, d, q) <==> Owns(s, d, q)
    {
    }
    forall d | d in r.core
      ensures CoreOk(r, d) && r.core[d].owner != Some(child)
    {
      assert CoreOk(s, d);
    }
    forall q | q in r.proc
      ensures ProcOk(r, m', q)
    {
      if q != child {
        assert ProcOk(s, m, q);
      }
    }
  }

  lemma ExitInv(s: State, m: Eager, c: Cpu)
    requires Inv(s, m) && Enabled(s, Exit(c), false)
    ensures Inv(Step(s, Exit(c)), m)
  {
    var r := Step(s, Exit(c));
    var p := s.core[c].cur.value;
    OnlyOwner(s, m, c, p);
    forall d, q
      ensures Owns(r, d, q) <==> Owns(s, d, q) && q != p
    {
    }
    forall d | d in r.core
      ensures CoreOk(r, d)
    {
      assert CoreOk(s, d);
    }
    forall q | q in r.proc
      ensures ProcOk(r, m, q)
    {
      assert ProcOk(s, m, q);
    }
  }

  lemma StepInv(s: State, m: Eager, e: Event)
    requires Inv(s, m) && Enabled(s, e, false)
    ensures Enabled(s, e, true) && Inv(Step(s, e), EagerStep(m, s, e)) && SeesOwn(s, m, e)
  {
    hide Inv, Step;
    match e
    case SwitchIn(c, p) => SwitchInInv(s, m, c, p);
    case SwitchOut(c) => SwitchOutInv(s, m, c);
    case Trap(c, init) => TrapInv(s, m, c, init);
    case Use(c, x) =>
      UseInv(s, m, c, x);
      UseSeesOwn(s, m, c, x);
    case Fork(c, child) => ForkInv(s, m, c, child);
    case Exit(c) => ExitInv(s, m, c);
  }

  // ---- Whole runs ----

  ghost predicate Run(s: State, es: seq<Event>)
    decreases |es|
  {
    es == [] || (Enabled(s, es[0], false) && Enabled(s, es[0], true) && Run(Step(s, es[0]), es[1..]))
  }

  /** Every use in the run finds what the eager kernel would have there. */
  ghost predicate AlwaysOwn(s: State, m: Eager, es: seq<Event>)
    requires Run(s, es)
    decreases |es|
  {
    es == [] || (SeesOwn(s, m, es[0]) && AlwaysOwn(Step(s, es[0]), EagerStep(m, s, es[0]), es[1..]))
  }

  ghost predicate Init(s: State) {
    && (forall c :: c in s.core ==> s.core[c].cur == None && s.core[c].owner == None)
    && (forall p :: p in s.proc ==> !s.proc[p].used)
  }

  lemma {:induction false} LazyIsEager(s: State, m: Eager, es: seq<Event>)
    requires Inv(s, m) && Run(s, es)
    ensures AlwaysOwn(s, m, es)
    decreases |es|
  {
    if es != [] {
      StepInv(s, m, es[0]);
      hide Inv, Step;
      LazyIsEager(Step(s, es[0]), EagerStep(m, s, es[0]), es[1..]);
    }
  }

  /** From boot, over every run: a process finds its own registers each time. */
  lemma LazyFromBoot(s: State, es: seq<Event>)
    requires Init(s) && Run(s, es)
    ensures AlwaysOwn(s, map[], es)
  {
    assert Inv(s, map[]) by {
      forall p | p in s.proc
        ensures ProcOk(s, map[], p)
      {
      }
    }
    LazyIsEager(s, map[], es);
  }

  /** A process switched out is on no CPU, and the CPU it was on is free. */
  lemma SwitchedOut(s: State, m: Eager, c: Cpu)
    requires Inv(s, m) && Runs(s, c) && Enabled(s, SwitchOut(c), true)
    ensures var p, r := s.core[c].cur.value, Step(s, SwitchOut(c));
            && Inv(r, m) && Idle(r, p) && p in r.proc && !r.proc[p].dying && c in r.core && r.core[c].cur == None
            && forall d :: d in s.core && d != c ==> d in r.core && r.core[d] == s.core[d]
  {
    SwitchOutInv(s, m, c);
    assert forall b :: b in s.core && b != c ==> s.core[b].cur != s.core[c].cur;
    hide Inv;
  }

  /** A process on no CPU can be switched in on any free one; its first use there
      traps, and then finds its image, or if it had none the initial one. */
  lemma SwitchedIn(s: State, m: Eager, d: Cpu, p: Pid, init: Image)
    requires Inv(s, m) && Enabled(s, SwitchIn(d, p), false) && Enabled(s, SwitchIn(d, p), true)
    ensures var s1 := Step(s, SwitchIn(d, p));
            && Enabled(s1, Trap(d, init), false) && Enabled(s1, Trap(d, init), true)
            && (forall x :: !Enabled(s1, Use(d, x), true))
            && var s2 := Step(s1, Trap(d, init));
               (forall x :: Enabled(s2, Use(d, x), false)) && s2.core[d].hw == if p in m then m[p] else init
  {
    SwitchInInv(s, m, d, p);
    var s1, e := Step(s, SwitchIn(d, p)), Trap(d, init);
    assert CoreOk(s, d) && s1.core[d] == Core(Some(p), None, true, s.core[d].hw) && s1.proc == s.proc;
    assert ProcOk(s1, m, p) && CoreOk(s1, d);
    TrapInv(s1, m, d, init);
    hide Inv;
  }

  /** So a process can move from any CPU to any that is free and keeps its image. */
  lemma Migrates(s: State, m: Eager, c: Cpu, d: Cpu, init: Image)
    requires Inv(s, m) && Enabled(s, SwitchOut(c), true) && Runs(s, c) && d in s.core
    requires (d == c || s.core[d].cur == None)
    ensures var p, s1 := s.core[c].cur.value, Step(s, SwitchOut(c));
            && Enabled(s1, SwitchIn(d, p), false) && Enabled(s1, SwitchIn(d, p), true)
            && Enabled(Step(s1, SwitchIn(d, p)), Trap(d, init), true)
            && var s3 := Step(Step(s1, SwitchIn(d, p)), Trap(d, init));
               (forall x :: Enabled(s3, Use(d, x), false)) && s3.core[d].hw == if p in m then m[p] else init
  {
    hide Inv, Step;
    SwitchedOut(s, m, c);
    SwitchedIn(Step(s, SwitchOut(c)), m, d, s.core[c].cur.value, init);
  }

  /** A child can be run on any free CPU, and finds what its parent had when it was
      forked, if that had anything. */
  lemma ForkedRuns(s: State, m: Eager, c: Cpu, child: Pid, d: Cpu, init: Image)
    requires Inv(s, m) && Enabled(s, Fork(c, child), false) && d in s.core && s.core[d].cur == None
    ensures var p, s1 := s.core[c].cur.value, Step(s, Fork(c, child));
            && Enabled(s1, SwitchIn(d, child), false) && Enabled(s1, SwitchIn(d, child), true)
            && Enabled(Step(s1, SwitchIn(d, child)), Trap(d, init), true)
            && var s3 := Step(Step(s1, SwitchIn(d, child)), Trap(d, init));
               (forall x :: Enabled(s3, Use(d, x), false)) && s3.core[d].hw == if p in m then m[p] else init
  {
    var e := Fork(c, child);
    var s1, m1 := Step(s, e), EagerStep(m, s, e);
    ForkInv(s, m, c, child);
    assert CanRunChild(s1, d, child) && child !in m by {
      assert forall b :: b in s.core ==> CoreOk(s, b);
    }
    hide Inv, Step;
    SwitchedIn(s1, m1, d, child, init);
  }

  ghost predicate CanRunChild(s: State, d: Cpu, p: Pid) {
    Enabled(s, SwitchIn(d, p), false) && Enabled(s, SwitchIn(d, p), true)
  }

  /** An exiting process leaves no CPU's registers counting as its own, and is not run
      again. */
  lemma ExitDrops(s: State, m: Eager, c: Cpu, d: Cpu)
    requires Inv(s, m) && Enabled(s, Exit(c), false)
    ensures var p, r := s.core[c].cur.value, Step(s, Exit(c));
            !Owns(r, d, p) && !Enabled(r, SwitchIn(d, p), true) && (forall x :: !Enabled(r, Use(c, x), true))
  {
  }

  /** Run elsewhere before its switch-out, a process finds its registers exactly
      if no CPU still holds a newer image than its saved one. */
  lemma EarlySwitchIff(s: State, m: Eager, c: Cpu, p: Pid, init: Image)
    requires Inv(s, m) && Enabled(s, SwitchIn(c, p), true) && p in m
    ensures var r := Step(s, SwitchIn(c, p));
            && Enabled(r, Trap(c, init), true)
            && (Step(r, Trap(c, init)).core[c].hw == m[p] <==>
                forall d :: Owns(s, d, p) ==> s.core[d].hw == s.proc[p].saved)
  {
    assert CoreOk(s, c) && ProcOk(s, m, p);
    var r := Step(s, SwitchIn(c, p));
    assert r == State(s.core[c := Core(Some(p), None, true, s.core[c].hw)], s.proc);
    assert Step(r, Trap(c, init)).core[c].hw == s.proc[p].saved;
    if forall d :: !Owns(s, d, p) {
      assert s.proc[p].saved == m[p];
    }
  }

  /** Two CPUs, and a process that has not used the registers. */
  ghost const Idle2: State :=
    State(map[0 := Core(None, None, false, 0), 1 := Core(None, None, true, 0)], map[1 := Proc(false, 0, false)])

  /** From the start: a process runs on one CPU, traps and sets its registers; run on
      the other before it was switched out, it finds an image that is not its own. */
  lemma EarlySwitchLoses()
    ensures var es := [SwitchIn(0, 1), Trap(0, 5), Use(0, 7)];
            && Init(Idle2) && Run(Idle2, es)
            && var s := Step(Step(Step(Idle2, es[0]), es[1]), es[2]);
               && Enabled(s, SwitchIn(1, 1), true) && !Enabled(s, SwitchIn(1, 1), false)
               && Enabled(Step(s, SwitchIn(1, 1)), Trap(1, 5), true)
               && s.core[0].hw == 7 && Step(Step(s, SwitchIn(1, 1)), Trap(1, 5)).core[1].hw == 0
  {
    var es := [SwitchIn(0, 1), Trap(0, 5), Use(0, 7)];
    var s1 := Step(Idle2, es[0]);
    var s2 := Step(s1, es[1]);
    var s3 := Step(s2, es[2]);
    assert es[1..] == [es[1], es[2]] && es[1..][1..] == [es[2]] && [es[2]][1..] == [];
    assert 0 in s3.core && s3.core[0].cur == Some(1) && !Idle(s3, 1);
    assert Run(s3, []) && Run(s2, [es[2]]) && Run(s1, [es[1], es[2]]);
  }
}
