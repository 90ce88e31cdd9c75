/** What processes can do with copy-on-write memory: each has the pages, with the
    access, that a kernel copying at fork would give it; a write to any page it
    may write is served; and whatever it does in the kernel comes to an end. */
module CowAccess {
  import opened Pages
  import opened CowMemory

  // ---- The pages and rights of the eager kernel ----

  /** The pages of each process in the eager kernel, and whether it may write them. */
  type Rights = map<Key, bool>

  ghost function RightsOf(w: Rights, p: Pid, c: Pid): (r: Rights)
    ensures forall k :: k in r <==> k.p == c && Key(p, k.page) in w
    ensures forall k :: k in r ==> r[k] == w[Key(p, k.page)]
  {
    var ks := set j | j in w && j.p == p :: Key(c, j.page);
    assert forall va: nat :: Key(p, va) in w ==> Key(c, va) in ks;
    map k | k in ks :: w[Key(p, k.page)]
  }

  /** Fork gives the child what the parent has; faults change nothing. */
  ghost function RightsStep(w: Rights, e: Event): (r: Rights) {
    match e
    case Demand(p, va, _, writable) => w[Key(p, va) := writable]
    case ForkStart(p, c) => w + RightsOf(w, p, c)
    case UnmapPut(p, va) => w - {Key(p, va)}
    case Reap(p) => map k | k in w && k.p != p :: w[k]
    case _ => w
  }

  /** A process being built or torn down. */
  predicate Partial(a: Act) {
    a.Embryo? || a.Exiting? || (a.Unmapped? && a.dying)
  }

  /** A page of a process is mapped, or about to be again at the end of a fault. */
  ghost predicate Present(s: State, k: Key) {
    k in s.live || (k.p in s.act && (Partial(s.act[k.p]) || (s.act[k.p].Dropped? && s.act[k.p].va == k.page)))
  }

  /** What a process in the kernel relies on. */
  ghost predicate Keeps(a: Act, w: Rights, p: Pid) {
    match a
    case Forking(c) => forall va: nat :: SameRight(w, Key(p, va), Key(c, va))
    case Dropped(va, _) => Key(p, va) in w && w[Key(p, va)]
    case _ => true
  }

  ghost predicate SameRight(w: Rights, k: Key, c: Key) {
    (k in w <==> c in w) && (k in w ==> w[k] == w[c])
  }

  ghost predicate EntriesRight(live: map<Key, Pte>, w: Rights) {
    forall k :: k in live ==> k in w && (w[k] <==> !ReadOnly(live[k]))
  }

  ghost predicate AllPresent(s: State, w: Rights) {
    forall k :: k in w ==> k.p in s.act && Present(s, k)
  }

  ghost predicate AllKeep(act: map<Pid, Act>, w: Rights) {
    forall p :: p in act ==> Keeps(act[p], w, p)
  }

  /** A child under construction has somebody who constructs it. */
  ghost predicate Parented(act: map<Pid, Act>) {
    forall c :: c in act && act[c] == Embryo ==> HasParent(act, c)
  }

  ghost predicate HasParent(act: map<Pid, Act>, c: Pid) {
    exists p :: p in act && act[p] == Forking(c)
  }

  ghost predicate Full(s: State, w: Rights) {
    EntriesRight(s.live, w) && AllPresent(s, w) && AllKeep(s.act, w) && Parented(s.act)
  }

  // ---- Every step keeps them ----

  ghost predicate EntryRight(live: map<Key, Pte>, w: Rights, k: Key) {
    k in live ==> k in w && (w[k] <==> !ReadOnly(live[k]))
  }

  lemma EntriesStep(s: State, m: Eager, w: Rights, e: Event)
    requires Inv(false, s, m) && Full(s, w) && Enabled(s, e)
    ensures EntriesRight(Step(s, e).live, RightsStep(w, e))
  {
    hide Counts, Exclusive, HoldOk, OneParent, StaleOk, Refines, Present, Step, RightsStep;
    assert ActOk(s, m, e.p) && Keeps(s.act[e.p], w, e.p);
    assert forall k :: k in s.live ==> EntryRight(s.live, w, k);
    forall k | k in Step(s, e).live
      ensures EntryRight(Step(s, e).live, RightsStep(w, e), k)
    {
      assert k in s.live ==> k.p in s.act;
      if IsFork(e) {
        EntryFork(s, m, w, e, k);
      } else {
        EntryOther(s, m, w, e, k);
      }
    }
  }

  predicate IsFork(e: Event) {
    e.ForkStart? || e.ForkPage? || e.ForkEnd? || e.ForkFail? || e.ForkMapFail?
  }

  lemma EntryFork(s: State, m: Eager, w: Rights, e: Event, k: Key)
    requires Enabled(s, e) && IsFork(e) && e.p in s.act && Keeps(s.act[e.p], w, e.p)
    requires EntryRight(s.live, w, k) && (k in s.live ==> k.p in s.act) && k in Step(s, e).live
    requires (e.ForkPage? ==> EntryRight(s.live, w, Key(e.p, e.va)))
    ensures EntryRight(Step(s, e).live, RightsStep(w, e), k)
  {
    if e.ForkPage? {
      assert SameRight(w, Key(e.p, e.va), Key(s.act[e.p].child, e.va));
    }
  }

  lemma EntryOther(s: State, m: Eager, w: Rights, e: Event, k: Key)
    requires Enabled(s, e) && !IsFork(e) && e.p in s.act && ActOk(s, m, e.p) && Keeps(s.act[e.p], w, e.p)
    requires EntryRight(s.live, w, k) && k in Step(s, e).live
    ensures EntryRight(Step(s, e).live, RightsStep(w, e), k)
  {
  }

  lemma PresentStep(s: State, m: Eager, w: Rights, e: Event)
    requires Inv(false, s, m) && Full(s, w) && Enabled(s, e)
    ensures AllPresent(Step(s, e), RightsStep(w, e))
  {
    hide Counts, Exclusive, HoldOk, OneParent, StaleOk, Refines, Present, Step, RightsStep, KeysOk;
    assert ActOk(s, m, e.p) && Keeps(s.act[e.p], w, e.p);
    hide ActsOk, AllKeep;
    forall k | k in RightsStep(w, e)
      ensures k.p in Step(s, e).act && Present(Step(s, e), k)
    {
      var j := Key(e.p, k.page);
      assert k in w ==> k.p in s.act && Present(s, k);
      assert j in w ==> Present(s, j);
      if IsFork(e) {
        PageFork(s, m, w, e, k);
      } else {
        PageOther(s, m, w, e, k);
      }
    }
  }

  lemma PageFork(s: State, m: Eager, w: Rights, e: Event, k: Key)
    requires Enabled(s, e) && IsFork(e) && e.p in s.act && ActOk(s, m, e.p) && Keeps(s.act[e.p], w, e.p)
    requires k in RightsStep(w, e) && (k in w ==> k.p in s.act && Present(s, k))
    requires Key(e.p, k.page) in w ==> Present(s, Key(e.p, k.page))
    ensures k.p in Step(s, e).act && Present(Step(s, e), k)
  {
    if e.ForkEnd? && k.p == s.act[e.p].child {
      var j := Key(e.p, k.page);
      assert k == Key(k.p, j.page);
      assert SameRight(w, j, k);
    }
  }

  lemma PageOther(s: State, m: Eager, w: Rights, e: Event, k: Key)
    requires Enabled(s, e) && !IsFork(e) && e.p in s.act && ActOk(s, m, e.p)
    requires k in RightsStep(w, e) && (k in w ==> k.p in s.act && Present(s, k))
    ensures k.p in Step(s, e).act && Present(Step(s, e), k)
  {
    if k.p != e.p {
      assert k.p in Step(s, e).act && Step(s, e).act[k.p] == s.act[k.p];
    }
  }

  lemma KeepsStep(s: State, m: Eager, w: Rights, e: Event)
    requires Inv(false, s, m) && Full(s, w) && Enabled(s, e)
    ensures AllKeep(Step(s, e).act, RightsStep(w, e))
  {
    hide Counts, Exclusive, HoldOk, StaleOk, Refines, Present;
    var r, w' := Step(s, e), RightsStep(w, e);
    forall p | p in r.act
      ensures Keeps(r.act[p], w', p)
    {
      if p in s.act {
        assert ActOk(s, m, p) && Keeps(s.act[p], w, p);
      }
      if e.p in s.act {
        assert ActOk(s, m, e.p);
      }
      KeepsOne(s, m, w, e, p);
    }
  }

  lemma KeepsOne(s: State, m: Eager, w: Rights, e: Event, p: Pid)
    requires EntriesRight(s.live, w) && AllPresent(s, w) && Enabled(s, e) && OneParent(s.act)
    requires p in Step(s, e).act && (p in s.act ==> ActOk(s, m, p) && Keeps(s.act[p], w, p))
    requires e.p in s.act && ActOk(s, m, e.p)
    ensures Keeps(Step(s, e).act[p], RightsStep(w, e), p)
  {
    hide Present;
    var a := Step(s, e).act[p];
    if a.Forking? {
      if p in s.act && s.act[p] == a {
        forall va: nat
          ensures SameRight(RightsStep(w, e), Key(p, va), Key(a.child, va))
        {
          assert SameRight(w, Key(p, va), Key(a.child, va));
          StillForking(s, m, w, e, p, a.child, va);
        }
      } else {
        assert e == ForkStart(p, a.child);
        forall va: nat
          ensures SameRight(RightsStep(w, e), Key(p, va), Key(a.child, va))
        {
          assert Key(a.child, va) !in w;
        }
      }
    } else if a.Dropped? {
      StillDropped(s, m, w, e, p);
    }
  }

  lemma StillForking(s: State, m: Eager, w: Rights, e: Event, p: Pid, c: Pid, va: nat)
    requires Enabled(s, e) && e.p in s.act && p in s.act && s.act[p] == Forking(c) && ActOk(s, m, p)
    requires p in Step(s, e).act && Step(s, e).act[p] == Forking(c) && ActOk(s, m, e.p)
    requires SameRight(w, Key(p, va), Key(c, va))
    ensures SameRight(RightsStep(w, e), Key(p, va), Key(c, va))
  {
  }

  lemma StillDropped(s: State, m: Eager, w: Rights, e: Event, p: Pid)
    requires Enabled(s, e) && e.p in s.act && p in Step(s, e).act && Step(s, e).act[p].Dropped?
    requires EntriesRight(s.live, w) && p in s.act && ActOk(s, m, p) && Keeps(s.act[p], w, p)
    ensures Keeps(Step(s, e).act[p], RightsStep(w, e), p)
  {
  }

  lemma ParentedStep(s: State, m: Eager, w: Rights, e: Event)
    requires Inv(false, s, m) && Full(s, w) && Enabled(s, e)
    ensures Parented(Step(s, e).act)
  {
    hide Counts, Exclusive, HoldOk, OneParent, StaleOk, Refines, Present, KeysOk, AllPresent, EntriesRight, AllKeep,
         Step, HasParent;
    assert ActOk(s, m, e.p);
    hide ActsOk;
    forall c | c in Step(s, e).act && Step(s, e).act[c] == Embryo
      ensures HasParent(Step(s, e).act, c)
    {
      ParentStep(s, m, e, c);
    }
  }

  lemma ParentStep(s: State, m: Eager, e: Event, c: Pid)
    requires Enabled(s, e) && e.p in s.act && ActOk(s, m, e.p) && c in Step(s, e).act && Step(s, e).act[c] == Embryo
    requires c in s.act && s.act[c] == Embryo ==> HasParent(s.act, c)
    ensures HasParent(Step(s, e).act, c)
  {
    var act := Step(s, e).act;
    if c in s.act && s.act[c] == Embryo {
      var p :| p in s.act && s.act[p] == Forking(c);
      assert p in act && act[p] == Forking(c);
    } else {
      assert act[e.p] == Forking(c);
    }
  }

  lemma StepFull(s: State, m: Eager, w: Rights, e: Event)
    requires Inv(false, s, m) && Full(s, w) && Enabled(s, e)
    ensures Full(Step(s, e), RightsStep(w, e))
  {
    hide Inv, Step, Enabled, RightsStep;
    EntriesStep(s, m, w, e);
    PresentStep(s, m, w, e);
    KeepsStep(s, m, w, e);
    ParentedStep(s, m, w, e);
  }

  ghost function RightsRun(w: Rights, es: seq<Event>): (r: Rights)
    decreases |es|
  {
    if es == [] then w else RightsRun(RightsStep(w, es[0]), es[1..])
  }

  lemma SameKeys(s: State, m: Eager, w: Rights, e: Event)
    requires Inv(false, s, m) && Enabled(s, e) && w.Keys == m.Keys
    ensures RightsStep(w, e).Keys == EagerStep(m, e).Keys
  {
    hide Counts, Exclusive, HoldOk, OneParent, StaleOk, ActsOk, KeysOk;
    forall k
      ensures k in RightsStep(w, e) <==> k in EagerStep(m, e)
    {
      assert forall j :: j in w <==> j in m;
    }
  }

  lemma {:induction false} RunFull(s: State, m: Eager, w: Rights, es: seq<Event>)
    requires Inv(false, s, m) && Full(s, w) && IsRun(s, es) && w.Keys == m.Keys
    ensures Full(Run(s, es), RightsRun(w, es)) && RightsRun(w, es).Keys == EagerRun(m, es).Keys
    decreases |es|
  {
    hide Inv, Enabled, Step, Full, RightsStep, EagerStep;
    if es != [] {
      StepInv(false, s, m, es[0]);
      StepFull(s, m, w, es[0]);
      SameKeys(s, m, w, es[0]);
      RunFull(Step(s, es[0]), EagerStep(m, es[0]), RightsStep(w, es[0]), es[1..]);
    }
  }

  /** Whatever forks, faults and unmappings there were, a process that is not in the
      kernel has exactly the pages it would have had each fork copied memory at
      once, and can write, at once or after a fault, exactly those it could. */
  lemma SameAccess(es: seq<Event>, k: Key)
    requires IsRun(Boot, es) && k.p in Run(Boot, es).act && Run(Boot, es).act[k.p] == Idle
    ensures var s, m, w := Run(Boot, es), EagerRun(map[], es), RightsRun(map[], es);
            && (k in s.live <==> k in m) && (k in m <==> k in w)
            && (k in s.live ==> (s.live[k].w || s.live[k].cow <==> w[k]))
            && forall c :: c in s.act && s.act[c] == Embryo ==> HasParent(s.act, c)
  {
    hide Enabled, Step, EagerStep, RightsStep;
    BootInv(false);
    RunFull(Boot, map[], map[], es);
    assert k in RightsRun(map[], es) <==> k in RightsRun(map[], es).Keys;
    assert k in EagerRun(map[], es) <==> k in EagerRun(map[], es).Keys;
  }

  // ---- Faults are served ----

  /** When a fault is over, whatever others did meanwhile, the page can be written. */
  lemma FaultOver(s: State, m: Eager, e: Event, x: Content)
    requires Inv(false, s, m) && Enabled(s, e) && (e.CowTake? || e.CowSet?)
    ensures Enabled(Step(s, e), Store(e.p, s.act[e.p].va, x))
  {
    hide Exclusive, HoldOk, OneParent, StaleOk, Refines, KeysOk;
    assert ActOk(s, m, e.p);
    EntriesAllocated(s);
    hide Counts;
  }

  /** So can a page mapped on demand exactly if it was to be; it is empty at first. */
  lemma DemandOver(s: State, e: Event, x: Content)
    requires Enabled(s, e) && e.Demand?
    ensures var r, k := Step(s, e), Key(e.p, e.va);
            && k in r.live && r.live[k].frame in r.mem && r.mem[r.live[k].frame] == 0
            && (Enabled(r, Store(e.p, e.va, x)) <==> e.writable)
  {
  }

  /** A fault on a page nobody else maps copies nothing. */
  lemma TakenIfSole(s: State, m: Eager, p: Pid, va: nat)
    requires Inv(false, s, m) && Enabled(s, CowRead(p, va))
    ensures var k, r := Key(p, va), Step(s, CowRead(p, va));
            && (r.act[p] == Sole(va) <==> forall j :: j in s.live && s.live[j].frame == s.live[k].frame ==> j == k)
            && (r.act[p] == Sole(va) || r.act[p] == Shared(va))
  {
    hide Exclusive, HoldOk, OneParent, StaleOk, Refines, KeysOk, ActsOk;
    var k := Key(p, va);
    var f := s.live[k].frame;
    if s.rc[f] == 1 {
      CountOne(s, k);
    } else {
      assert CountOk(s.rc[f], Refs(s.live, f), f in s.hold);
      assert k in Refs(s.live, f);
      assert (forall j :: j in s.live && s.live[j].frame == f ==> j == k) ==> Refs(s.live, f) == {k};
    }
  }

  /** All these are steps of `p`. */
  ghost predicate Own(es: seq<Event>, p: Pid) {
    forall i :: 0 <= i < |es| ==> es[i].p == p
  }

  /** The fault handler run to its end, with a free frame at hand. */
  function Fault(s: State, p: Pid, va: nat, f: Frame): (es: seq<Event>)
    requires Enabled(s, CowRead(p, va))
  {
    if s.rc[s.live[Key(p, va)].frame] == 1 then [CowRead(p, va), CowTake(p)]
    else [CowRead(p, va), CowCopy(p, f), CowPut(p), CowSet(p)]
  }

  /** A page was made writable and nothing else changed that a process can see. */
  ghost predicate MadeWritable(s: State, r: State, k: Key) {
    && k in s.live && k in r.live && r.live == s.live[k := Pte(r.live[k].frame, true, false)]
    && k.p in r.act && r.act[k.p] == Idle
    && s.live[k].frame in s.mem && r.live[k].frame in r.mem && r.mem[r.live[k].frame] == s.mem[s.live[k].frame]
  }

  /** It can run, and then the page can be written, holds what it held, and all other
      pages are as they were. */
  lemma FaultServed(s: State, m: Eager, p: Pid, va: nat, f: Frame)
    requires Inv(false, s, m) && Enabled(s, CowRead(p, va)) && f !in s.mem
    ensures var es := Fault(s, p, va, f); Own(es, p) && IsRun(s, es) && MadeWritable(s, Run(s, es), Key(p, va))
    ensures forall x :: Enabled(Run(s, Fault(s, p, va, f)), Store(p, va, x))
  {
    hide Inv, Step, Enabled, MadeWritable;
    StepInv(false, s, m, CowRead(p, va));
    Reading(s, m, p, va);
    if s.rc[s.live[Key(p, va)].frame] == 1 {
      SoleServed(s, m, p, va, f);
    } else {
      var e0, s1 := CowRead(p, va), Step(s, CowRead(p, va));
      SharedServed(s1, EagerStep(m, e0), p, va, f);
      RunFirst(s, e0, [CowCopy(p, f), CowPut(p), CowSet(p)]);
      assert [e0] + [CowCopy(p, f), CowPut(p), CowSet(p)] == Fault(s, p, va, f);
      SameMemory(s, s1, Run(s, Fault(s, p, va, f)), Key(p, va));
    }
    hide IsRun, Run;
    var r := Run(s, Fault(s, p, va, f));
    forall x
      ensures Enabled(r, Store(p, va, x))
    {
      CanStore(s, r, p, va, x);
    }
  }

  lemma SoleServed(s: State, m: Eager, p: Pid, va: nat, f: Frame)
    requires Inv(false, s, m) && Enabled(s, CowRead(p, va)) && s.rc[s.live[Key(p, va)].frame] == 1
    ensures var es := Fault(s, p, va, f); Own(es, p) && IsRun(s, es) && MadeWritable(s, Run(s, es), Key(p, va))
  {
    hide Inv, Step, Enabled, MadeWritable;
    var e0, e1 := CowRead(p, va), CowTake(p);
    var s1 := Step(s, e0);
    StepInv(false, s, m, e0);
    Reading(s, m, p, va);
    NeverPanics(s1, EagerStep(m, e0), e1);
    RunFirst(s1, e1, []);
    RunFirst(s, e0, [e1]);
    assert [e0] + [e1] == Fault(s, p, va, f) && [e1] + [] == [e1];
    Taking(s, s1, p, va);
  }

  lemma Reading(s: State, m: Eager, p: Pid, va: nat)
    requires Inv(false, s, m) && Enabled(s, CowRead(p, va))
    ensures Key(p, va) in s.live && s.live[Key(p, va)].frame in s.rc
    ensures var r := Step(s, CowRead(p, va));
            && r.live == s.live && r.mem == s.mem && p in r.act && s.live[Key(p, va)].frame in s.mem
            && r.act[p] == if s.rc[s.live[Key(p, va)].frame] == 1 then Sole(va) else Shared(va)
  {
    EntriesAllocated(s);
  }

  lemma Taking(s: State, s1: State, p: Pid, va: nat)
    requires Enabled(s1, CowTake(p)) && s1.act[p] == Sole(va) && s1.live == s.live && s1.mem == s.mem
    requires s.live[Key(p, va)].frame in s.mem
    ensures MadeWritable(s, Step(s1, CowTake(p)), Key(p, va))
  {
  }

  lemma SameMemory(s: State, s1: State, r: State, k: Key)
    requires MadeWritable(s1, r, k) && s1.live == s.live && s1.mem == s.mem
    ensures MadeWritable(s, r, k)
  {
  }

  lemma CanStore(s: State, r: State, p: Pid, va: nat, x: Content)
    requires MadeWritable(s, r, Key(p, va))
    ensures Enabled(r, Store(p, va, x))
  {
  }

  lemma SharedServed(s: State, m: Eager, p: Pid, va: nat, f: Frame)
    requires Inv(false, s, m) && p in s.act && s.act[p] == Shared(va) && f !in s.mem
    ensures var es := [CowCopy(p, f), CowPut(p), CowSet(p)]; IsRun(s, es) && MadeWritable(s, Run(s, es), Key(p, va))
  {
    var k, e0, e1, e2 := Key(p, va), CowCopy(p, f), CowPut(p), CowSet(p);
    hide Inv, Step, Enabled, MadeWritable;
    SharedEntry(s, m, p, va);
    NeverPanics(s, m, e0);
    var s1 := Step(s, e0);
    StepInv(false, s, m, e0);
    Copying(s, p, f);
    NeverPanics(s1, EagerStep(m, e0), e1);
    var s2 := Step(s1, e1);
    Putting(s1, p, f);
    CanSet(s2, p);
    var s3 := Step(s2, e2);
    RunFirst(s2, e2, []);
    RunFirst(s1, e1, [e2]);
    RunFirst(s, e0, [e1, e2]);
    assert [e0] + [e1, e2] == [e0, e1, e2] && [e1] + [e2] == [e1, e2];
    Setting(s, s2, p, va, f);
  }

  lemma SharedEntry(s: State, m: Eager, p: Pid, va: nat)
    requires Inv(false, s, m) && p in s.act && s.act[p] == Shared(va)
    ensures Key(p, va) in s.live && s.live[Key(p, va)].frame in s.mem
  {
    hide Exclusive, HoldOk, OneParent, StaleOk, Refines, KeysOk;
    assert ActOk(s, m, p);
    EntriesAllocated(s);
  }

  lemma Copying(s: State, p: Pid, f: Frame)
    requires Enabled(s, CowCopy(p, f))
    ensures var r, va := Step(s, CowCopy(p, f)), s.act[p].va;
            && r.live == s.live && p in r.act && r.act[p] == Copied(va, f)
            && f in r.mem && r.mem[f] == s.mem[s.live[Key(p, va)].frame]
            && r.live[Key(p, va)].frame != f && Ready(r, CowPut(p))
  {
  }

  lemma Putting(s: State, p: Pid, f: Frame)
    requires Enabled(s, CowPut(p)) && s.act[p].f == f && f in s.mem && s.live[Key(p, s.act[p].va)].frame != f
    ensures var r, va := Step(s, CowPut(p)), s.act[p].va;
            && r.live == s.live - {Key(p, va)} && p in r.act && r.act[p] == Dropped(va, f)
            && f in r.mem && r.mem[f] == s.mem[f]
  {
  }

  lemma CanSet(s: State, p: Pid)
    requires p in s.act && s.act[p].Dropped?
    ensures Enabled(s, CowSet(p))
  {
  }

  lemma Setting(s: State, s2: State, p: Pid, va: nat, f: Frame)
    requires Key(p, va) in s.live && s.live[Key(p, va)].frame in s.mem
    requires Enabled(s2, CowSet(p)) && s2.act[p] == Dropped(va, f) && s2.live == s.live - {Key(p, va)}
    requires f in s2.mem && s2.mem[f] == s.mem[s.live[Key(p, va)].frame]
    ensures MadeWritable(s, Step(s2, CowSet(p)), Key(p, va))
  {
  }

  // ---- Everything comes to an end ----

  ghost function PagesOf(live: map<Key, Pte>, p: Pid): (s: set<Key>)
    ensures forall k :: k in s <==> k in live && k.p == p
  {
    set k | k in live && k.p == p
  }

  /** Steps left until a process is out of the kernel, or gone. */
  ghost function Work(s: State, p: Pid): (n: nat)
    requires p in s.act
  {
    match s.act[p]
    case Copied(_, _) => 2
    case Unmapped(_, dying) => if dying then 2 * |PagesOf(s.live, p)| + 2 else 1
    case Exiting => 2 * |PagesOf(s.live, p)| + 1
    case Idle => 0
    case _ => 1
  }

  /** In every state a process that is in the kernel, and is not a child under
      construction, has a step of its own that brings it nearer to the end: no
      other process can keep it there. */
  lemma CanFinish(s: State, m: Eager, p: Pid) returns (e: Event)
    requires Inv(false, s, m) && p in s.act && s.act[p] != Idle && s.act[p] != Embryo
    ensures e.p == p && Enabled(s, e) && (p in Step(s, e).act ==> Work(Step(s, e), p) < Work(s, p))
  {
    hide Inv;
    if s.act[p] != Exiting {
      e := NextOwn(s.act[p], p);
      NeverPanics(s, m, e);
      hide PagesOf;
      OneLess(s, p, e);
    } else if PagesOf(s.live, p) != {} {
      var k :| k in PagesOf(s.live, p);
      assert k == Key(p, k.page);
      e := UnmapPut(p, k.page);
      NeverPanics(s, m, e);
      PageLess(s, p, k);
    } else {
      assert forall k :: k in s.live ==> k !in PagesOf(s.live, p);
      e := Reap(p);
    }
  }

  /** What a process inside a call can always do next. */
  function NextOwn(a: Act, p: Pid): (e: Event)
    requires a != Idle && a != Embryo && a != Exiting
  {
    match a
    case Sole(_) => CowTake(p)
    case Shared(_) => CowFail(p)
    case Copied(_, _) => CowPut(p)
    case Dropped(_, _) => CowSet(p)
    case Unmapped(_, _) => UnmapClear(p)
    case Forking(_) => ForkFail(p)
  }

  lemma OneLess(s: State, p: Pid, e: Event)
    requires p in s.act && s.act[p] != Idle && s.act[p] != Embryo && s.act[p] != Exiting
    requires e == NextOwn(s.act[p], p) && Enabled(s, e)
    ensures p in Step(s, e).act ==> Work(Step(s, e), p) < Work(s, p)
  {
    hide PagesOf;
    assert s.act[p].Unmapped? ==> Step(s, e).live == s.live;
  }

  lemma PageLess(s: State, p: Pid, k: Key)
    requires p in s.act && s.act[p] == Exiting && k == Key(p, k.page) && Enabled(s, UnmapPut(p, k.page))
    ensures var r := Step(s, UnmapPut(p, k.page)); p in r.act && Work(r, p) < Work(s, p)
  {
    var r := Step(s, UnmapPut(p, k.page));
    assert r.live == s.live - {k};
    assert PagesOf(r.live, p) == PagesOf(s.live, p) - {k};
  }

  /** A process that exits is gone after steps of its own, and its pages with it;
      those of the others are as they were. */
  lemma {:induction false} ExitServed(s: State, m: Eager, p: Pid) returns (es: seq<Event>)
    requires Inv(false, s, m) && p in s.act && (s.act[p] == Idle || s.act[p] == Exiting || Partial(s.act[p]))
    requires s.act[p] != Embryo
    ensures Own(es, p) && IsRun(s, es)
    ensures var r := Run(s, es);
            && p !in r.act && (forall k :: k in r.live <==> k in s.live && k.p != p)
            && forall k :: k in r.live ==> r.live[k] == s.live[k]
    decreases s.act[p] == Idle, Work(s, p)
  {
    hide Inv, Step, Enabled, Work;
    var e;
    if s.act[p] == Idle {
      e := Exit(p);
      CanExit(s, p);
    } else {
      e := CanFinish(s, m, p);
      Leaving(s, p, e);
    }
    StepInv(false, s, m, e);
    if p in Step(s, e).act {
      es := ExitServed(Step(s, e), EagerStep(m, e), p);
    } else {
      es := [];
      OwnGone(Step(s, e), EagerStep(m, e), p);
    }
    RunFirst(s, e, es);
    es := [e] + es;
  }

  lemma CanExit(s: State, p: Pid)
    requires p in s.act && s.act[p] == Idle
    ensures Enabled(s, Exit(p))
    ensures var r := Step(s, Exit(p)); p in r.act && r.act[p] == Exiting && r.live == s.live
  {
  }

  lemma Leaving(s: State, p: Pid, e: Event)
    requires Enabled(s, e) && e.p == p && (s.act[p] == Exiting || (s.act[p].Unmapped? && s.act[p].dying))
    ensures var r := Step(s, e);
            && (p in r.act ==> r.act[p] == Exiting || (r.act[p].Unmapped? && r.act[p].dying))
            && (forall k: Key :: k.p != p ==> (k in r.live <==> k in s.live))
            && (forall k :: k in r.live ==> k in s.live && r.live[k] == s.live[k])
  {
  }

  lemma OwnGone(s: State, m: Eager, p: Pid)
    requires Inv(false, s, m) && p !in s.act
    ensures forall k :: k in s.live ==> k.p != p
  {
  }

  /** Pages of the parent that the child does not have yet. */
  ghost function Missing(live: map<Key, Pte>, p: Pid, c: Pid): (s: set<Key>)
    ensures forall k :: k in s <==> k in live && k.p == p && Key(c, k.page) !in live
  {
    set k | k in live && k.p == p && Key(c, k.page) !in live
  }

  /** A fork that finds memory completes: from any point on, the parent's own steps
      lead to where both run and the child has every page of the parent. */
  lemma {:induction false} ForkServed(s: State, m: Eager, p: Pid, c: Pid) returns (es: seq<Event>)
    requires Inv(false, s, m) && p in s.act && s.act[p] == Forking(c)
    ensures Own(es, p) && IsRun(s, es)
    ensures var r := Run(s, es);
            && p in r.act && r.act[p] == Idle && c in r.act && r.act[c] == Idle
            && forall va: nat :: Key(p, va) in s.live ==> Key(p, va) in r.live && Key(c, va) in r.live
    decreases |Missing(s.live, p, c)|
  {
    hide Inv, Step, Enabled, Missing;
    if k :| k in Missing(s.live, p, c) {
      var e := ForkPage(p, k.page);
      assert k == Key(p, k.page);
      CanFork(s, m, p, c);
      NeverPanics(s, m, e);
      StepInv(false, s, m, e);
      ForkedMore(s, p, c, k);
      es := ForkServed(Step(s, e), EagerStep(m, e), p, c);
      RunFirst(s, e, es);
      es := [e] + es;
    } else {
      var e := ForkEnd(p);
      ForkEnds(s, m, p, c);
      RunFirst(s, e, []);
      es := [e];
      assert [e] + [] == es;
    }
  }

  lemma CanFork(s: State, m: Eager, p: Pid, c: Pid)
    requires Inv(false, s, m) && p in s.act && s.act[p] == Forking(c)
    ensures p != c && c in s.act
    ensures forall va: nat :: Key(p, va) in s.live && Key(c, va) !in s.live ==> Ready(s, ForkPage(p, va))
  {
    hide Counts, Exclusive, HoldOk, OneParent, StaleOk, Refines, KeysOk;
    assert ActOk(s, m, p);
    hide Inv, ActsOk;
  }

  lemma ForkEnds(s: State, m: Eager, p: Pid, c: Pid)
    requires Inv(false, s, m) && p in s.act && s.act[p] == Forking(c) && forall k :: k !in Missing(s.live, p, c)
    ensures Enabled(s, ForkEnd(p))
    ensures var r := Step(s, ForkEnd(p));
            && p in r.act && r.act[p] == Idle && c in r.act && r.act[c] == Idle && r.live == s.live
            && forall va: nat :: Key(p, va) in s.live ==> Key(c, va) in s.live
  {
    hide Counts, Exclusive, HoldOk, OneParent, StaleOk, Refines, KeysOk;
    assert ActOk(s, m, p);
    hide Inv, ActsOk;
    forall va: nat | Key(p, va) in s.live
      ensures Key(c, va) in s.live
    {
      assert Key(p, va) !in Missing(s.live, p, c);
    }
    forall k | k in s.live && k.p == p
      ensures Key(c, k.page) in s.live
    {
      assert k == Key(p, k.page);
    }
  }

  lemma ForkedMore(s: State, p: Pid, c: Pid, k: Key)
    requires Enabled(s, ForkPage(p, k.page)) && s.act[p] == Forking(c) && p != c && k in Missing(s.live, p, c)
    ensures var r := Step(s, ForkPage(p, k.page));
            && p in r.act && r.act[p] == Forking(c) && r.live.Keys == s.live.Keys + {Key(c, k.page)}
            && |Missing(r.live, p, c)| < |Missing(s.live, p, c)|
  {
    assert k == Key(p, k.page);
    var r := Step(s, ForkPage(p, k.page));
    forall j
      ensures j in Missing(r.live, p, c) <==> j in Missing(s.live, p, c) && j != k
    {
      assert j.p == p ==> j == Key(p, j.page);
    }
    assert Missing(s.live, p, c) == Missing(r.live, p, c) + {k};
  }
}
