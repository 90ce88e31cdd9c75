/** Copy-on-write memory of the x86 kernel as interleaved steps of any number of
    processes on any number of CPUs, against a kernel whose fork copies memory
    at once. A step is what one CPU does under pmm_lock or between two points
    where another CPU can look; page contents are single values, so a store
    covers any change of bytes within a page. */
module CowMemory {
  import opened Pages

  type Content = int

  /** What a process is doing inside the kernel. `Sole` and `Shared` remember
      what uvm_cow_fault read from the reference count; `Copied` has the copy;
      `Dropped` has given up its reference but not yet changed the entry;
      `Unmapped` likewise in unmappages. `Embryo` is a fork child being built. */
  datatype Act =
    | Idle
    | Sole(va: nat)
    | Shared(va: nat)
    | Copied(va: nat, f: Frame)
    | Dropped(va: nat, f: Frame)
    | Unmapped(va: nat, dying: bool)
    | Forking(child: Pid)
    | Embryo
    | Exiting

  /** Page tables are `live` and `stale` together: a stale entry still names a
      frame whose reference is gone. `hold` says which process has allocated a
      frame for a copy and not yet mapped it. Frames outside `mem` are free. */
  datatype State = State(
    mem: map<Frame, Content>, rc: map<Frame, nat>,
    live: map<Key, Pte>, stale: map<Key, Pte>,
    hold: map<Frame, Pid>, act: map<Pid, Act>)

  /** The eager kernel: every process has its own copy of its memory. */
  type Eager = map<Key, Content>

  datatype Event =
    | Store(p: Pid, va: nat, x: Content)
    | CopyoutReadOnly(p: Pid, va: nat, x: Content)
    | Demand(p: Pid, va: nat, f: Frame, writable: bool)
    | CowRead(p: Pid, va: nat)
    | CowTake(p: Pid)
    | CowCopy(p: Pid, f: Frame)
    | CowFail(p: Pid)
    | CowPut(p: Pid)
    | CowSet(p: Pid)
    | ForkStart(p: Pid, c: Pid)
    | ForkPage(p: Pid, va: nat)
    | ForkEnd(p: Pid)
    | ForkFail(p: Pid)
    | ForkMapFail(p: Pid, va: nat)
    | Exit(p: Pid)
    | UnmapPut(p: Pid, va: nat)
    | UnmapClear(p: Pid)
    | Reap(p: Pid)

  // ---- Reference counts ----

  ghost function Refs(live: map<Key, Pte>, f: Frame): (r: set<Key>)
    ensures forall k :: k in r <==> k in live && live[k].frame == f
  {
    set k | k in live && live[k].frame == f
  }

  function Get(s: State, f: Frame): (r: State)
    requires f in s.rc
  {
    s.(rc := s.rc[f := s.rc[f] + 1])
  }

  /** put_page: at count zero the frame is free again. */
  function Put(s: State, f: Frame): (r: State)
    requires f in s.rc && s.rc[f] > 0
  {
    if s.rc[f] == 1 then s.(rc := s.rc - {f}, mem := s.mem - {f})
    else s.(rc := s.rc[f := s.rc[f] - 1])
  }

  function Alloc(s: State, f: Frame, x: Content): (r: State) {
    s.(mem := s.mem[f := x], rc := s.rc[f := 1])
  }

  // ---- Steps ----

  predicate Enabled(s: State, e: Event) {
    match e
    case Store(p, va, _) =>
      p in s.act && s.act[p] == Idle && Key(p, va) in s.live && s.live[Key(p, va)].w
      && s.live[Key(p, va)].frame in s.mem
    case CopyoutReadOnly(p, va, _) =>
      p in s.act && s.act[p] == Idle && Key(p, va) in s.live && ReadOnly(s.live[Key(p, va)])
      && s.live[Key(p, va)].frame in s.mem
    case Demand(p, va, f, _) =>
      p in s.act && s.act[p] == Idle && Key(p, va) !in s.live && Key(p, va) !in s.stale && f !in s.mem
    case CowRead(p, va) =>
      p in s.act && s.act[p] == Idle && Key(p, va) in s.live && s.live[Key(p, va)].cow
      && s.live[Key(p, va)].frame in s.rc
    case CowTake(p) =>
      p in s.act && s.act[p].Sole? && Key(p, s.act[p].va) in s.live
    case CowCopy(p, f) =>
      p in s.act && s.act[p].Shared? && Key(p, s.act[p].va) in s.live
      && s.live[Key(p, s.act[p].va)].frame in s.mem && f !in s.mem
    case CowFail(p) =>
      p in s.act && s.act[p].Shared?
    case CowPut(p) =>
      p in s.act && s.act[p].Copied? && Key(p, s.act[p].va) in s.live
      && (var f := s.live[Key(p, s.act[p].va)].frame; f in s.rc && s.rc[f] > 0)
    case CowSet(p) =>
      p in s.act && s.act[p].Dropped?
    case ForkStart(p, c) =>
      p in s.act && s.act[p] == Idle && c !in s.act
    case ForkPage(p, va) =>
      p in s.act && s.act[p].Forking? && Key(p, va) in s.live && Key(s.act[p].child, va) !in s.live
      && s.live[Key(p, va)].frame in s.rc
    case ForkEnd(p) =>
      p in s.act && s.act[p].Forking?
      && forall k :: k in s.live && k.p == p ==> Key(s.act[p].child, k.page) in s.live
    case ForkFail(p) =>
      p in s.act && s.act[p].Forking?
    case ForkMapFail(p, va) =>
      p in s.act && s.act[p].Forking? && Key(p, va) in s.live
    case Exit(p) =>
      p in s.act && s.act[p] == Idle
    case UnmapPut(p, va) =>
      p in s.act && (s.act[p] == Idle || s.act[p] == Exiting) && Key(p, va) in s.live
      && (var f := s.live[Key(p, va)].frame; f in s.rc && s.rc[f] > 0)
    case UnmapClear(p) =>
      p in s.act && s.act[p].Unmapped?
    case Reap(p) =>
      p in s.act && s.act[p] == Exiting && forall k :: k in s.live ==> k.p != p
  }

  function Step(s: State, e: Event): (r: State)
    requires Enabled(s, e)
  {
    match e
    case Store(p, va, x) => s.(mem := s.mem[s.live[Key(p, va)].frame := x])
    case CopyoutReadOnly(p, va, x) => s.(mem := s.mem[s.live[Key(p, va)].frame := x])
    case Demand(p, va, f, writable) =>
      Alloc(s, f, 0).(live := s.live[Key(p, va) := Pte(f, writable, false)])
    case CowRead(p, va) =>
      s.(act := s.act[p := if s.rc[s.live[Key(p, va)].frame] == 1 then Sole(va) else Shared(va)])
    case CowTake(p) =>
      var k := Key(p, s.act[p].va);
      s.(live := s.live[k := s.live[k].(w := true, cow := false)], act := s.act[p := Idle])
    case CowCopy(p, f) =>
      var va := s.act[p].va;
      Alloc(s, f, s.mem[s.live[Key(p, va)].frame]).(hold := s.hold[f := p], act := s.act[p := Copied(va, f)])
    case CowFail(p) => s.(act := s.act[p := Idle])
    case CowPut(p) =>
      var k := Key(p, s.act[p].va);
      Put(s, s.live[k].frame).(live := s.live - {k}, stale := s.stale[k := s.live[k]],
                               act := s.act[p := Dropped(k.page, s.act[p].f)])
    case CowSet(p) =>
      var k := Key(p, s.act[p].va);
      var f := s.act[p].f;
      s.(live := s.live[k := Pte(f, true, false)], stale := s.stale - {k},
         hold := s.hold - {f}, act := s.act[p := Idle])
    case ForkStart(p, c) => s.(act := s.act[c := Embryo][p := Forking(c)])
    case ForkPage(p, va) =>
      var k := Key(p, va);
      var u := Guarded(s.live[k]);
      Get(s, u.frame).(live := s.live[k := u][Key(s.act[p].child, va) := u])
    case ForkEnd(p) => s.(act := s.act[s.act[p].child := Idle][p := Idle])
    case ForkFail(p) => s.(act := s.act[s.act[p].child := Exiting][p := Idle])
    case ForkMapFail(p, va) =>
      var k := Key(p, va);
      s.(live := s.live[k := Guarded(s.live[k])], act := s.act[s.act[p].child := Exiting][p := Idle])
    case Exit(p) => s.(act := s.act[p := Exiting])
    case UnmapPut(p, va) =>
      var k := Key(p, va);
      Put(s, s.live[k].frame).(live := s.live - {k}, stale := s.stale[k := s.live[k]],
                               act := s.act[p := Unmapped(va, s.act[p] == Exiting)])
    case UnmapClear(p) =>
      s.(stale := s.stale - {Key(p, s.act[p].va)},
         act := s.act[p := if s.act[p].dying then Exiting else Idle])
    case Reap(p) => s.(act := s.act - {p})
  }

  /** Process `p`'s memory as memory of process `c`. */
  ghost function CopyOf(m: Eager, p: Pid, c: Pid): (r: Eager)
    ensures forall k :: k in r <==> k.p == c && Key(p, k.page) in m
    ensures forall k :: k in r ==> r[k] == m[Key(p, k.page)]
  {
    var ks := set j | j in m && j.p == p :: Key(c, j.page);
    assert forall va: nat :: Key(p, va) in m ==> Key(c, va) in ks;
    map k | k in ks :: m[Key(p, k.page)]
  }

  /** The same event on the eager kernel: fork copies at once, a store changes
      the storing process' copy only, and faults change nothing. */
  ghost function EagerStep(m: Eager, e: Event): (r: Eager) {
    match e
    case Store(p, va, x) => m[Key(p, va) := x]
    case CopyoutReadOnly(p, va, x) => m[Key(p, va) := x]
    case Demand(p, va, _, _) => m[Key(p, va) := 0]
    case ForkStart(p, c) => m + CopyOf(m, p, c)
    case UnmapPut(p, va) => m - {Key(p, va)}
    case Reap(p) => map k | k in m && k.p != p :: m[k]
    case _ => m
  }

  // ---- The invariant ----

  /** The count of a frame with entries `r`, held by a copying process or not. */
  ghost predicate CountOk(n: nat, r: set<Key>, held: bool) {
    n > 0 && n == |r| + (if held then 1 else 0) && (held ==> r == {})
  }

  /** Exact accounting: a frame's count is the number of live entries naming it,
      plus one while a process holds it for a copy; what is counted is allocated
      and nothing else. */
  ghost predicate Counts(mem: map<Frame, Content>, rc: map<Frame, nat>, live: map<Key, Pte>, hold: map<Frame, Pid>) {
    && mem.Keys == rc.Keys
    && (forall k :: k in live ==> live[k].frame in rc)
    && (forall f :: f in hold ==> f in rc)
    && (forall f :: f in rc ==> CountOk(rc[f], Refs(live, f), f in hold))
  }

  /** A page mapped writable has exactly one mapping, and read-only pages share
      no frame with the others. */
  ghost predicate Exclusive(live: map<Key, Pte>) {
    && (forall k :: k in live ==> !(live[k].w && live[k].cow))
    && (forall k, j :: k in live && j in live && live[k].frame == live[j].frame ==>
          (live[k].w ==> k == j) && (ReadOnly(live[k]) <==> ReadOnly(live[j])))
  }

  ghost predicate ActOk(s: State, m: Eager, p: Pid)
    requires p in s.act
  {
    match s.act[p]
    case Sole(va) =>
      var k := Key(p, va);
      k in s.live && s.live[k].cow && forall j :: j in s.live && s.live[j].frame == s.live[k].frame ==> j == k
    case Shared(va) => Key(p, va) in s.live && s.live[Key(p, va)].cow
    case Copied(va, f) =>
      var k := Key(p, va);
      k in s.live && s.live[k].cow && f in s.hold && s.hold[f] == p && f in s.mem && k in m && s.mem[f] == m[k]
    case Dropped(va, f) =>
      var k := Key(p, va);
      k !in s.live && f in s.hold && s.hold[f] == p && f in s.mem && k in m && s.mem[f] == m[k]
    case Unmapped(va, _) => Key(p, va) !in s.live
    case Forking(c) =>
      && c in s.act && s.act[c] == Embryo && c != p
      && (forall va: nat :: Key(p, va) in m ==> Key(c, va) in m && m[Key(c, va)] == m[Key(p, va)])
    case _ => true
  }

  predicate Holding(a: Act, f: Frame) {
    (a.Copied? || a.Dropped?) && a.f == f
  }

  ghost predicate ActsOk(s: State, m: Eager) {
    forall p :: p in s.act ==> ActOk(s, m, p)
  }

  /** A frame held for a copy is held by a process making one. */
  ghost predicate HoldOk(hold: map<Frame, Pid>, act: map<Pid, Act>) {
    forall f :: f in hold ==> hold[f] in act && Holding(act[hold[f]], f)
  }

  ghost predicate KeysOk(live: map<Key, Pte>, m: Eager, act: map<Pid, Act>) {
    (forall k :: k in live ==> k.p in act) && (forall k :: k in m ==> k.p in act)
  }

  ghost predicate OneParent(act: map<Pid, Act>) {
    forall p, q :: p in act && q in act && act[p].Forking? && act[q] == act[p] ==> p == q
  }

  /** Stale entries belong to the one page their process is busy with, so an
      idle process' table is its live entries. */
  ghost predicate StaleOk(stale: map<Key, Pte>, act: map<Pid, Act>) {
    forall k :: k in stale ==>
      k.p in act && (act[k.p].Dropped? || act[k.p].Unmapped?) && act[k.p].va == k.page
  }

  /** Every page a process can write or will be given a copy of, or with `all`
      every page, holds what the eager kernel holds. */
  ghost predicate Refines(all: bool, mem: map<Frame, Content>, live: map<Key, Pte>, m: Eager) {
    && (forall k :: k in live ==> k in m)
    && (forall k :: k in live && (all || !ReadOnly(live[k])) ==>
          live[k].frame in mem && mem[live[k].frame] == m[k])
  }

  ghost predicate Inv(all: bool, s: State, m: Eager) {
    && Counts(s.mem, s.rc, s.live, s.hold) && Exclusive(s.live)
    && HoldOk(s.hold, s.act) && KeysOk(s.live, m, s.act) && OneParent(s.act) && StaleOk(s.stale, s.act)
    && ActsOk(s, m) && Refines(all, s.mem, s.live, m)
  }

  // ---- Counts, change by change ----

  lemma CountsFlags(mem: map<Frame, Content>, rc: map<Frame, nat>, live: map<Key, Pte>, hold: map<Frame, Pid>,
                    k: Key, t: Pte)
    requires Counts(mem, rc, live, hold) && k in live && t.frame == live[k].frame
    ensures Counts(mem, rc, live[k := t], hold)
  {
    assert forall f :: Refs(live[k := t], f) == Refs(live, f);
  }

  lemma CountsStore(s: State, k: Key, x: Content)
    requires Counts(s.mem, s.rc, s.live, s.hold) && k in s.live
    ensures Counts(s.mem[s.live[k].frame := x], s.rc, s.live, s.hold)
  {
  }

  /** A new entry for a frame. */
  lemma CountsAdd(mem: map<Frame, Content>, rc: map<Frame, nat>, live: map<Key, Pte>, hold: map<Frame, Pid>,
                  mem': map<Frame, Content>, rc': map<Frame, nat>, hold': map<Frame, Pid>, k: Key, t: Pte)
    requires Counts(mem, rc, live, hold) && k !in live
    requires mem'.Keys == rc'.Keys == rc.Keys + {t.frame} && t.frame !in hold' && hold'.Keys == hold.Keys - {t.frame}
    requires rc'[t.frame] == |Refs(live, t.frame)| + 1
    requires forall f :: f in rc && f != t.frame ==> rc'[f] == rc[f]
    ensures Counts(mem', rc', live[k := t], hold')
  {
    hide CountOk;
    forall f | f in rc'
      ensures CountOk(rc'[f], Refs(live[k := t], f), f in hold')
    {
      if f == t.frame {
        AddedCount(live, k, t);
      } else {
        assert Refs(live[k := t], f) == Refs(live, f);
        assert f in hold' <==> f in hold;
      }
    }
  }

  lemma AddedCount(live: map<Key, Pte>, k: Key, t: Pte)
    requires k !in live
    ensures CountOk(|Refs(live, t.frame)| + 1, Refs(live[k := t], t.frame), false)
  {
    assert Refs(live[k := t], t.frame) == Refs(live, t.frame) + {k};
  }

  lemma CountsHold(s: State, p: Pid, f: Frame, x: Content)
    requires Counts(s.mem, s.rc, s.live, s.hold) && f !in s.mem
    ensures Counts(s.mem[f := x], s.rc[f := 1], s.live, s.hold[f := p])
  {
    assert Refs(s.live, f) == {};
  }

  lemma DroppedCount(live: map<Key, Pte>, k: Key, n: nat, held: bool)
    requires k in live && CountOk(n, Refs(live, live[k].frame), held)
    ensures !held && n > 0
    ensures n == 1 ==> Refs(live - {k}, live[k].frame) == {}
    ensures n > 1 ==> CountOk(n - 1, Refs(live - {k}, live[k].frame), held)
  {
    var f := live[k].frame;
    assert k in Refs(live, f);
    assert Refs(live - {k}, f) == Refs(live, f) - {k};
    assert |Refs(live, f) - {k}| == |Refs(live, f)| - 1;
  }

  lemma CountsPut(s: State, k: Key)
    requires Counts(s.mem, s.rc, s.live, s.hold) && k in s.live
    ensures var f := s.live[k].frame; f in s.rc && s.rc[f] > 0
    ensures var r := Put(s, s.live[k].frame); Counts(r.mem, r.rc, s.live - {k}, s.hold)
  {
    hide CountOk, Refs;
    var f := s.live[k].frame;
    DroppedCount(s.live, k, s.rc[f], f in s.hold);
    if s.rc[f] == 1 {
      CountsFree(s.mem, s.rc, s.live, s.hold, k);
    } else {
      CountsDec(s.mem, s.rc, s.live, s.hold, k);
    }
  }

  lemma CountsFree(mem: map<Frame, Content>, rc: map<Frame, nat>, live: map<Key, Pte>, hold: map<Frame, Pid>, k: Key)
    requires Counts(mem, rc, live, hold) && k in live && live[k].frame !in hold
    requires Refs(live - {k}, live[k].frame) == {}
    ensures Counts(mem - {live[k].frame}, rc - {live[k].frame}, live - {k}, hold)
  {
    hide CountOk;
    var f := live[k].frame;
    assert forall j :: j in live - {k} && live[j].frame == f ==> j in Refs(live - {k}, f);
    forall g | g in rc - {f}
      ensures CountOk(rc[g], Refs(live - {k}, g), g in hold)
    {
      SameRefs(live, k, g);
    }
  }

  lemma CountsDec(mem: map<Frame, Content>, rc: map<Frame, nat>, live: map<Key, Pte>, hold: map<Frame, Pid>, k: Key)
    requires Counts(mem, rc, live, hold) && k in live && rc[live[k].frame] > 1
    requires CountOk(rc[live[k].frame] - 1, Refs(live - {k}, live[k].frame), live[k].frame in hold)
    ensures Counts(mem, rc[live[k].frame := rc[live[k].frame] - 1], live - {k}, hold)
  {
    hide CountOk, Refs;
    var f := live[k].frame;
    forall g | g in rc && g != f
      ensures CountOk(rc[g], Refs(live - {k}, g), g in hold)
    {
      SameRefs(live, k, g);
    }
  }

  lemma SameRefs(live: map<Key, Pte>, k: Key, g: Frame)
    requires k in live && live[k].frame != g
    ensures Refs(live - {k}, g) == Refs(live, g)
  {
  }

  // ---- Exclusive, change by change ----

  lemma ExclusiveFresh(live: map<Key, Pte>, k: Key, t: Pte)
    requires Exclusive(live) && Refs(live, t.frame) == {} && !(t.w && t.cow)
    ensures Exclusive(live[k := t])
  {
    assert forall j :: j in live ==> j !in Refs(live, t.frame);
  }

  lemma ExclusiveLess(live: map<Key, Pte>, k: Key)
    requires Exclusive(live)
    ensures Exclusive(live - {k})
  {
  }

  lemma ExclusiveTake(live: map<Key, Pte>, k: Key)
    requires Exclusive(live) && k in live && live[k].cow
    requires forall j :: j in live && live[j].frame == live[k].frame ==> j == k
    ensures Exclusive(live[k := live[k].(w := true, cow := false)])
  {
  }

  lemma ExclusiveGuard(live: map<Key, Pte>, k: Key)
    requires Exclusive(live) && k in live
    ensures Exclusive(live[k := Guarded(live[k])])
  {
  }

  lemma ExclusiveShare(live: map<Key, Pte>, k: Key, c: Key)
    requires Exclusive(live) && k in live && c !in live
    ensures Exclusive(live[k := Guarded(live[k])][c := Guarded(live[k])])
  {
    ExclusiveGuard(live, k);
  }

  // ---- What a step of one process leaves of the others ----

  ghost predicate LocalAct(act: map<Pid, Act>, act': map<Pid, Act>, x: set<Pid>) {
    && (forall q :: q in act && q !in x ==> q in act' && act'[q] == act[q])
    && (forall q :: q in act' && q !in x ==> q in act)
    && (forall q :: q in act && q !in x && act[q].Forking? ==> act[q].child !in x)
  }

  ghost predicate LocalLive(live: map<Key, Pte>, live': map<Key, Pte>, x: set<Pid>) {
    && (forall k :: k in live && k.p !in x ==> k in live' && live'[k] == live[k])
    && (forall k :: k in live' && k.p !in x ==> k in live)
  }

  ghost predicate LocalImage(m: Eager, n: Eager, x: set<Pid>) {
    && (forall k :: k in m && k.p !in x ==> k in n && n[k] == m[k])
    && (forall k :: k in n && k.p !in x ==> k in m)
  }

  ghost predicate LocalCopies(hold: map<Frame, Pid>, mem: map<Frame, Content>,
                              hold': map<Frame, Pid>, mem': map<Frame, Content>, x: set<Pid>)
  {
    forall f :: f in hold && hold[f] !in x && f in mem ==>
      f in hold' && hold'[f] == hold[f] && f in mem' && mem'[f] == mem[f]
  }

  /** A frame with a single entry, outside `x`, still has that one only. */
  ghost predicate LocalSole(live: map<Key, Pte>, live': map<Key, Pte>, x: set<Pid>) {
    forall k, j :: k in live && k.p !in x && j in live' && live'[j].frame == live[k].frame && j != k ==>
      exists i :: i in live && i != k && live[i].frame == live[k].frame
  }

  ghost predicate Local(s: State, m: Eager, r: State, n: Eager, x: set<Pid>) {
    && LocalAct(s.act, r.act, x) && LocalLive(s.live, r.live, x) && LocalImage(m, n, x)
    && LocalCopies(s.hold, s.mem, r.hold, r.mem, x) && LocalSole(s.live, r.live, x)
  }

  lemma OtherOk(s: State, m: Eager, r: State, n: Eager, x: set<Pid>, q: Pid)
    requires q in s.act && ActOk(s, m, q) && q !in x && Local(s, m, r, n, x)
    ensures q in r.act && ActOk(r, n, q)
  {
  }

  lemma OthersOk(s: State, m: Eager, r: State, n: Eager, x: set<Pid>)
    requires ActsOk(s, m) && Local(s, m, r, n, x)
    requires forall q :: q in x && q in r.act ==> ActOk(r, n, q)
    ensures ActsOk(r, n)
  {
    hide ActOk;
    forall q | q in r.act && q !in x
      ensures ActOk(r, n, q)
    {
      OtherOk(s, m, r, n, x, q);
    }
  }

  lemma SameLive(live: map<Key, Pte>, x: set<Pid>)
    ensures LocalLive(live, live, x) && LocalSole(live, live, x)
  {
  }

  lemma SameImage(m: Eager, x: set<Pid>)
    ensures LocalImage(m, m, x)
  {
  }

  lemma SetImage(m: Eager, k: Key, x: Content)
    ensures LocalImage(m, m[k := x], {k.p})
  {
  }

  lemma SameCopies(hold: map<Frame, Pid>, mem: map<Frame, Content>, x: set<Pid>)
    ensures LocalCopies(hold, mem, hold, mem, x)
  {
  }

  /** Process `p`, not a child under construction, changes its activity. */
  lemma SetAct(s: State, m: Eager, p: Pid, a: Act)
    requires ActsOk(s, m) && p in s.act && s.act[p] != Embryo
    ensures LocalAct(s.act, s.act[p := a], {p})
  {
    forall q | q in s.act && s.act[q].Forking?
      ensures s.act[q].child != p
    {
      assert ActOk(s, m, q);
    }
  }

  lemma StoreCopies(s: State, k: Key, x: Content, p: Pid)
    requires Counts(s.mem, s.rc, s.live, s.hold) && k in s.live
    ensures LocalCopies(s.hold, s.mem, s.hold, s.mem[s.live[k].frame := x], {p})
  {
    assert k in Refs(s.live, s.live[k].frame);
  }

  lemma AllocCopies(s: State, f: Frame, x: Content, p: Pid)
    requires f !in s.mem
    ensures LocalCopies(s.hold, s.mem, s.hold, s.mem[f := x], {p})
    ensures LocalCopies(s.hold, s.mem, s.hold[f := p], s.mem[f := x], {p})
  {
  }

  lemma PutCopies(s: State, k: Key, p: Pid)
    requires Counts(s.mem, s.rc, s.live, s.hold) && k in s.live
    requires s.rc[s.live[k].frame] > 0
    ensures LocalCopies(s.hold, s.mem, s.hold, Put(s, s.live[k].frame).mem, {p})
  {
    assert k in Refs(s.live, s.live[k].frame);
  }

  lemma FlagsLive(live: map<Key, Pte>, k: Key, t: Pte)
    requires k in live && t.frame == live[k].frame
    ensures LocalLive(live, live[k := t], {k.p}) && LocalSole(live, live[k := t], {k.p})
  {
  }

  lemma FreshLive(live: map<Key, Pte>, k: Key, t: Pte)
    requires forall j :: j in live ==> live[j].frame != t.frame
    ensures LocalLive(live, live[k := t], {k.p}) && LocalSole(live, live[k := t], {k.p})
  {
  }

  lemma LessLive(live: map<Key, Pte>, k: Key)
    ensures LocalLive(live, live - {k}, {k.p}) && LocalSole(live, live - {k}, {k.p})
  {
  }

  // ---- Links and refinement, change by change ----

  lemma ActLinks(s: State, m: Eager, p: Pid, a: Act)
    requires HoldOk(s.hold, s.act) && OneParent(s.act) && StaleOk(s.stale, s.act) && p in s.act
    requires !s.act[p].Copied? && !s.act[p].Dropped? && !s.act[p].Unmapped? && !a.Forking?
    ensures HoldOk(s.hold, s.act[p := a]) && OneParent(s.act[p := a]) && StaleOk(s.stale, s.act[p := a])
  {
  }

  lemma HoldLinks(s: State, p: Pid, va: nat, f: Frame)
    requires HoldOk(s.hold, s.act) && OneParent(s.act) && StaleOk(s.stale, s.act) && p in s.act
    requires s.act[p].Shared? && f !in s.hold
    ensures var act := s.act[p := Copied(va, f)]; HoldOk(s.hold[f := p], act) && OneParent(act) && StaleOk(s.stale, act)
  {
  }

  lemma DropLinks(s: State, p: Pid, k: Key, a: Act, t: Pte)
    requires HoldOk(s.hold, s.act) && OneParent(s.act) && StaleOk(s.stale, s.act) && p in s.act && k.p == p
    requires if s.act[p].Copied? then a == Dropped(k.page, s.act[p].f)
             else !s.act[p].Dropped? && !s.act[p].Unmapped? && a.Unmapped? && a.va == k.page
    ensures var act := s.act[p := a]; HoldOk(s.hold, act) && OneParent(act) && StaleOk(s.stale[k := t], act)
  {
  }

  lemma SetLinks(s: State, p: Pid, k: Key, f: Frame)
    requires HoldOk(s.hold, s.act) && OneParent(s.act) && StaleOk(s.stale, s.act) && p in s.act
    requires k.p == p && s.act[p] == Dropped(k.page, f) && f in s.hold && s.hold[f] == p
    ensures var act := s.act[p := Idle];
            && HoldOk(s.hold - {f}, act) && OneParent(act) && StaleOk(s.stale - {k}, act)
            && LocalCopies(s.hold, s.mem, s.hold - {f}, s.mem, {p})
  {
  }

  lemma KeysGrow(live: map<Key, Pte>, m: Eager, act: map<Pid, Act>, live': map<Key, Pte>, n: Eager, act': map<Pid, Act>)
    requires KeysOk(live, m, act) && act.Keys <= act'.Keys
    requires forall k :: k in live' ==> k in live || k.p in act'
    requires forall k :: k in n ==> k in m || k.p in act'
    ensures KeysOk(live', n, act')
  {
  }

  lemma RefinesStore(all: bool, mem: map<Frame, Content>, live: map<Key, Pte>, m: Eager, k: Key, x: Content)
    requires Refines(all, mem, live, m) && Exclusive(live) && k in live && (live[k].w || (!all && ReadOnly(live[k])))
    ensures Refines(all, mem[live[k].frame := x], live, m[k := x])
  {
  }

  lemma RefinesFlags(all: bool, mem: map<Frame, Content>, live: map<Key, Pte>, m: Eager, k: Key, t: Pte)
    requires Refines(all, mem, live, m) && k in live && t.frame == live[k].frame && (ReadOnly(live[k]) <==> ReadOnly(t))
    ensures Refines(all, mem, live[k := t], m)
  {
  }

  lemma RefinesAlloc(all: bool, mem: map<Frame, Content>, live: map<Key, Pte>, m: Eager, f: Frame, x: Content)
    requires Refines(all, mem, live, m) && f !in mem
    ensures Refines(all, mem[f := x], live, m)
  {
  }

  lemma RefinesAdd(all: bool, mem: map<Frame, Content>, live: map<Key, Pte>, m: Eager, k: Key, t: Pte, x: Content)
    requires Refines(all, mem, live, m) && k !in live && t.frame in mem && mem[t.frame] == x
    ensures Refines(all, mem, live[k := t], m[k := x])
  {
  }

  lemma RefinesPut(all: bool, s: State, m: Eager, k: Key)
    requires Refines(all, s.mem, s.live, m) && Counts(s.mem, s.rc, s.live, s.hold) && k in s.live
    requires s.rc[s.live[k].frame] > 0
    ensures Refines(all, Put(s, s.live[k].frame).mem, s.live - {k}, m)
    ensures Refines(all, Put(s, s.live[k].frame).mem, s.live - {k}, m - {k})
  {
    var f := s.live[k].frame;
    if s.rc[f] == 1 {
      CountOne(s, k);
    }
  }

  /** A frame whose count is one has one entry. */
  lemma CountOne(s: State, k: Key)
    requires Counts(s.mem, s.rc, s.live, s.hold) && k in s.live && s.rc[s.live[k].frame] == 1
    ensures forall j :: j in s.live && s.live[j].frame == s.live[k].frame ==> j == k
  {
    var f := s.live[k].frame;
    DroppedCount(s.live, k, s.rc[f], f in s.hold);
    assert forall j :: j in s.live && j != k && s.live[j].frame == f ==> j in Refs(s.live - {k}, f);
  }

  // ---- Every step keeps the invariant ----

  lemma OnStore(all: bool, s: State, m: Eager, p: Pid, k: Key, x: Content, r: State)
    requires Inv(all, s, m) && p in s.act && s.act[p] == Idle && k in s.live && k.p == p
    requires s.live[k].w || (!all && ReadOnly(s.live[k]))
    requires r == s.(mem := s.mem[s.live[k].frame := x])
    ensures Inv(all, r, m[k := x])
  {
    hide Exclusive, Refines, LocalAct, LocalLive, LocalSole, LocalCopies, ActsOk, StaleOk, HoldOk, OneParent,
         LocalImage, KeysOk, Counts;
    CountsStore(s, k, x);
    KeysGrow(s.live, m, s.act, s.live, m[k := x], s.act);
    SetImage(m, k, x);
    RefinesStore(all, s.mem, s.live, m, k, x);
    assert s.act[p := Idle] == s.act;
    SetAct(s, m, p, Idle);
    SameLive(s.live, {p});
    StoreCopies(s, k, x, p);
    OthersOk(s, m, r, m[k := x], {p});
  }

  lemma OnDemand(all: bool, s: State, m: Eager, p: Pid, k: Key, f: Frame, w: bool, r: State)
    requires Inv(all, s, m) && p in s.act && s.act[p] == Idle && k !in s.live && k.p == p && f !in s.mem
    requires r == Alloc(s, f, 0).(live := s.live[k := Pte(f, w, false)])
    ensures Inv(all, r, m[k := 0])
  {
    hide Exclusive, Refines, LocalAct, LocalLive, LocalSole, LocalCopies, ActsOk, StaleOk, HoldOk, OneParent;
    hide LocalImage, Counts, KeysOk;
    FreshFrame(s, f);
    CountsAdd(s.mem, s.rc, s.live, s.hold, r.mem, r.rc, r.hold, k, r.live[k]);
    ExclusiveFresh(s.live, k, r.live[k]);
    KeysGrow(s.live, m, s.act, r.live, m[k := 0], s.act);
    SetImage(m, k, 0);
    RefinesAlloc(all, s.mem, s.live, m, f, 0);
    RefinesAdd(all, r.mem, s.live, m, k, r.live[k], 0);
    assert s.act[p := Idle] == s.act;
    SetAct(s, m, p, Idle);
    FreshLive(s.live, k, r.live[k]);
    AllocCopies(s, f, 0, p);
    OthersOk(s, m, r, m[k := 0], {p});
  }

  lemma FreshFrame(s: State, f: Frame)
    requires Counts(s.mem, s.rc, s.live, s.hold) && f !in s.mem
    ensures Refs(s.live, f) == {} && f !in s.hold && f !in s.rc && s.mem.Keys == s.rc.Keys
    ensures forall j :: j in s.live ==> s.live[j].frame != f
  {
  }

  /** A step that only changes what process `p` is doing. */
  lemma OnAct(all: bool, s: State, m: Eager, p: Pid, a: Act, r: State)
    requires Inv(all, s, m) && p in s.act && s.act[p] != Embryo && r == s.(act := s.act[p := a])
    requires !s.act[p].Copied? && !s.act[p].Dropped? && !s.act[p].Unmapped? && !a.Forking?
    requires ActOk(r, m, p)
    ensures Inv(all, r, m)
  {
    hide *;
    OnActParts(all, s, m, p, a, r);
  }

  lemma OnActParts(all: bool, s: State, m: Eager, p: Pid, a: Act, r: State)
    requires Inv(all, s, m) && p in s.act && s.act[p] != Embryo && r == s.(act := s.act[p := a])
    requires !s.act[p].Copied? && !s.act[p].Dropped? && !s.act[p].Unmapped? && !a.Forking?
    requires ActOk(r, m, p)
    ensures Inv(all, r, m)
  {
    hide Exclusive, Counts, Refines, LocalAct, LocalLive, LocalSole, LocalImage, LocalCopies, ActsOk, ActOk,
         StaleOk, HoldOk, OneParent;
    ActLinks(s, m, p, a);
    SetAct(s, m, p, a);
    SameLive(s.live, {p});
    SameImage(m, {p});
    SameCopies(s.hold, s.mem, {p});
    OthersOk(s, m, r, m, {p});
  }

  lemma OnCowRead(all: bool, s: State, m: Eager, p: Pid, k: Key, r: State)
    requires Inv(all, s, m) && p in s.act && s.act[p] == Idle && k in s.live && k.p == p && s.live[k].cow
    requires s.live[k].frame in s.rc
    requires r == s.(act := s.act[p := if s.rc[s.live[k].frame] == 1 then Sole(k.page) else Shared(k.page)])
    ensures Inv(all, r, m)
  {
    hide Exclusive, Refines, ActsOk, StaleOk, HoldOk, OneParent, KeysOk, CountOk;
    if s.rc[s.live[k].frame] == 1 {
      CountOne(s, k);
    }
    OnAct(all, s, m, p, r.act[p], r);
  }

  lemma OnCowTake(all: bool, s: State, m: Eager, p: Pid, k: Key, r: State)
    requires Inv(all, s, m) && p in s.act && s.act[p].Sole? && k == Key(p, s.act[p].va) && k in s.live
    requires r == s.(live := s.live[k := s.live[k].(w := true, cow := false)], act := s.act[p := Idle])
    ensures Inv(all, r, m)
  {
    hide Exclusive, Counts, Refines, LocalAct, LocalLive, LocalSole, LocalImage, LocalCopies, StaleOk, HoldOk,
         OneParent;
    assert ActOk(s, m, p);
    hide ActsOk;
    CountsFlags(s.mem, s.rc, s.live, s.hold, k, r.live[k]);
    ExclusiveTake(s.live, k);
    RefinesFlags(all, s.mem, s.live, m, k, r.live[k]);
    ActLinks(s, m, p, Idle);
    SetAct(s, m, p, Idle);
    FlagsLive(s.live, k, r.live[k]);
    SameImage(m, {p});
    SameCopies(s.hold, s.mem, {p});
    OthersOk(s, m, r, m, {p});
  }

  lemma OnCowCopy(all: bool, s: State, m: Eager, p: Pid, k: Key, f: Frame, r: State)
    requires Inv(all, s, m) && p in s.act && s.act[p].Shared? && k == Key(p, s.act[p].va) && k in s.live && f !in s.mem
    requires s.live[k].frame in s.mem
    requires r == Alloc(s, f, s.mem[s.live[k].frame]).(hold := s.hold[f := p], act := s.act[p := Copied(k.page, f)])
    ensures Inv(all, r, m)
  {
    hide Exclusive, Counts, LocalAct, LocalLive, LocalSole, LocalImage, LocalCopies;
    assert ActOk(s, m, p);
    hide ActsOk;
    var x := s.mem[s.live[k].frame];
    assert x == m[k];
    hide Refines, HoldOk, StaleOk, OneParent, KeysOk;
    FreshFrame(s, f);
    HoldLinks(s, p, k.page, f);
    KeysGrow(s.live, m, s.act, s.live, m, r.act);
    CountsHold(s, p, f, x);
    RefinesAlloc(all, s.mem, s.live, m, f, x);
    SetAct(s, m, p, Copied(k.page, f));
    SameLive(s.live, {p});
    SameImage(m, {p});
    AllocCopies(s, f, x, p);
    OthersOk(s, m, r, m, {p});
  }

  lemma ActAt(s: State, m: Eager, p: Pid)
    requires ActsOk(s, m) && p in s.act
    ensures ActOk(s, m, p)
  {
  }

  lemma OnCowPut(all: bool, s: State, m: Eager, p: Pid, k: Key, r: State)
    requires Inv(all, s, m) && p in s.act && s.act[p].Copied? && k == Key(p, s.act[p].va) && k in s.live
    requires s.live[k].frame in s.rc && s.rc[s.live[k].frame] > 0
    requires r == Put(s, s.live[k].frame).(live := s.live - {k}, stale := s.stale[k := s.live[k]],
                                           act := s.act[p := Dropped(k.page, s.act[p].f)])
    ensures Inv(all, r, m)
  {
    hide Exclusive, Counts, Refines, LocalAct, LocalLive, LocalSole, LocalImage;
    hide ActsOk, HoldOk, StaleOk, OneParent, KeysOk, LocalCopies;
    ActAt(s, m, p);
    DropLinks(s, p, k, r.act[p], s.live[k]);
    KeysGrow(s.live, m, s.act, r.live, m, r.act);
    CountsPut(s, k);
    ExclusiveLess(s.live, k);
    RefinesPut(all, s, m, k);
    SetAct(s, m, p, Dropped(k.page, s.act[p].f));
    LessLive(s.live, k);
    SameImage(m, {p});
    PutCopies(s, k, p);
    PutKeepsCopy(s, k, s.act[p].f);
    OthersOk(s, m, r, m, {p});
  }

  lemma PutKeepsCopy(s: State, k: Key, f: Frame)
    requires Counts(s.mem, s.rc, s.live, s.hold) && k in s.live && f in s.hold && f in s.mem
    requires s.live[k].frame in s.rc && s.rc[s.live[k].frame] > 0
    ensures var r := Put(s, s.live[k].frame); f in r.mem && r.mem[f] == s.mem[f]
  {
    assert k in Refs(s.live, s.live[k].frame);
  }

  lemma OnCowSet(all: bool, s: State, m: Eager, p: Pid, k: Key, f: Frame, r: State)
    requires Inv(all, s, m) && p in s.act && s.act[p].Dropped? && k == Key(p, s.act[p].va) && f == s.act[p].f
    requires r == s.(live := s.live[k := Pte(f, true, false)], stale := s.stale - {k},
                     hold := s.hold - {f}, act := s.act[p := Idle])
    ensures Inv(all, r, m)
  {
    hide Exclusive, Counts, Refines, LocalAct, LocalLive, LocalSole, LocalImage;
    hide ActsOk, HoldOk, StaleOk, OneParent, KeysOk, LocalCopies;
    ActAt(s, m, p);
    HeldUnmapped(s, f);
    SetLinks(s, p, k, f);
    KeysGrow(s.live, m, s.act, r.live, m, r.act);
    CountsAdd(s.mem, s.rc, s.live, s.hold, r.mem, r.rc, r.hold, k, r.live[k]);
    ExclusiveFresh(s.live, k, r.live[k]);
    RefinesAdd(all, s.mem, s.live, m, k, r.live[k], m[k]);
    assert m[k := m[k]] == m;
    SetAct(s, m, p, Idle);
    FreshLive(s.live, k, r.live[k]);
    SameImage(m, {p});
    OthersOk(s, m, r, m, {p});
  }

  lemma HeldUnmapped(s: State, f: Frame)
    requires Counts(s.mem, s.rc, s.live, s.hold) && f in s.hold
    ensures f in s.rc && s.rc[f] == 1 && Refs(s.live, f) == {}
    ensures s.rc.Keys == s.mem.Keys
    ensures forall j :: j in s.live ==> s.live[j].frame != f
  {
    forall j | j in s.live
      ensures s.live[j].frame != f
    {
      assert j !in Refs(s.live, f);
    }
  }

  lemma OnForkStart(all: bool, s: State, m: Eager, p: Pid, c: Pid, r: State)
    requires Inv(all, s, m) && p in s.act && s.act[p] == Idle && c !in s.act
    requires r == s.(act := s.act[c := Embryo][p := Forking(c)])
    ensures Inv(all, r, m + CopyOf(m, p, c))
  {
    hide Exclusive, Counts, LocalAct, LocalLive, LocalSole, LocalCopies, ActsOk, StaleOk, HoldOk, OneParent,
         LocalImage, KeysOk, Refines;
    var n := m + CopyOf(m, p, c);
    BeginLinks(s, m, p, c);
    ForkImage(all, s, m, p, c);
    SameLive(s.live, {p, c});
    SameCopies(s.hold, s.mem, {p, c});
    OthersOk(s, m, r, n, {p, c});
  }

  lemma ForkImage(all: bool, s: State, m: Eager, p: Pid, c: Pid)
    requires KeysOk(s.live, m, s.act) && Refines(all, s.mem, s.live, m) && p in s.act && c !in s.act
    ensures var n := m + CopyOf(m, p, c);
            && KeysOk(s.live, n, s.act[c := Embryo][p := Forking(c)]) && Refines(all, s.mem, s.live, n)
            && LocalImage(m, n, {p, c})
            && forall va: nat :: Key(p, va) in n ==> Key(c, va) in n && n[Key(c, va)] == n[Key(p, va)]
  {
  }

  lemma BeginLinks(s: State, m: Eager, p: Pid, c: Pid)
    requires ActsOk(s, m) && HoldOk(s.hold, s.act) && OneParent(s.act) && StaleOk(s.stale, s.act)
    requires p in s.act && s.act[p] == Idle && c !in s.act
    ensures var act := s.act[c := Embryo][p := Forking(c)];
            && LocalAct(s.act, act, {p, c}) && HoldOk(s.hold, act) && OneParent(act) && StaleOk(s.stale, act)
  {
    forall q | q in s.act && s.act[q].Forking?
      ensures s.act[q].child != p && s.act[q].child != c
    {
      assert ActOk(s, m, q);
    }
  }

  /** Parent `p` and child `c` of a fork in progress: no other fork touches them. */
  lemma ForkPair(s: State, m: Eager, p: Pid, c: Pid, a: Act, b: Act)
    requires ActsOk(s, m) && OneParent(s.act) && HoldOk(s.hold, s.act) && StaleOk(s.stale, s.act)
    requires p in s.act && s.act[p] == Forking(c)
    requires a == Forking(c) || !a.Forking?
    requires !b.Forking?
    ensures c in s.act && c != p && s.act[c] == Embryo
    ensures var act := s.act[c := b][p := a];
            && LocalAct(s.act, act, {p, c}) && HoldOk(s.hold, act) && OneParent(act) && StaleOk(s.stale, act)
  {
    hide ActsOk, ActOk;
    ForkAlone(s, m, p, c);
  }

  /** No other fork is about parent or child. */
  lemma ForkAlone(s: State, m: Eager, p: Pid, c: Pid)
    requires ActsOk(s, m) && OneParent(s.act) && p in s.act && s.act[p] == Forking(c)
    ensures c in s.act && c != p && s.act[c] == Embryo
    ensures forall q :: q in s.act && q != p && s.act[q].Forking? ==> s.act[q].child != p && s.act[q].child != c
  {
    assert ActOk(s, m, p);
    forall q | q in s.act && q != p && s.act[q].Forking?
      ensures s.act[q].child != p && s.act[q].child != c
    {
      assert ActOk(s, m, q);
      assert s.act[q] != s.act[p];
    }
  }

  lemma OnForkPage(all: bool, s: State, m: Eager, p: Pid, k: Key, c: Key, r: State)
    requires Inv(all, s, m) && p in s.act && s.act[p] == Forking(c.p) && k.p == p && c.page == k.page
    requires k in s.live && c !in s.live && s.live[k].frame in s.rc
    requires var u := Guarded(s.live[k]); r == Get(s, u.frame).(live := s.live[k := u][c := u])
    ensures Inv(all, r, m)
  {
    hide Exclusive, Counts, Refines, LocalAct, LocalLive, LocalSole, LocalImage, LocalCopies,
         StaleOk, HoldOk, OneParent;
    var u := Guarded(s.live[k]);
    assert ActOk(s, m, p);
    hide ActsOk;
    ForkPair(s, m, p, c.p, Forking(c.p), Embryo);
    assert s.act[c.p := Embryo][p := Forking(c.p)] == s.act;
    SharedCount(s, k);
    CountsFlags(s.mem, s.rc, s.live, s.hold, k, u);
    CountsAdd(s.mem, s.rc, s.live[k := u], s.hold, r.mem, r.rc, r.hold, c, u);
    ExclusiveShare(s.live, k, c);
    RefinesShare(all, s.mem, s.live, m, k, c);
    ShareLive(s.live, k, c);
    SameImage(m, {p, c.p});
    SameCopies(s.hold, s.mem, {p, c.p});
    OthersOk(s, m, r, m, {p, c.p});
  }

  lemma SharedCount(s: State, k: Key)
    requires Counts(s.mem, s.rc, s.live, s.hold) && k in s.live
    ensures var t := Guarded(s.live[k]);
            && t.frame == s.live[k].frame && t.frame in s.rc && t.frame !in s.hold && s.mem.Keys == s.rc.Keys
            && s.rc[t.frame] == |Refs(s.live[k := t], t.frame)|
  {
    var t := Guarded(s.live[k]);
    assert k in Refs(s.live, t.frame);
    assert Refs(s.live[k := t], t.frame) == Refs(s.live, t.frame);
  }

  lemma RefinesShare(all: bool, mem: map<Frame, Content>, live: map<Key, Pte>, m: Eager, k: Key, c: Key)
    requires Refines(all, mem, live, m) && k in live && c !in live && live[k].frame in mem
    requires k in m ==> c in m && m[c] == m[k]
    ensures Refines(all, mem, live[k := Guarded(live[k])][c := Guarded(live[k])], m)
  {
  }

  lemma ShareLive(live: map<Key, Pte>, k: Key, c: Key)
    requires k in live && c !in live
    ensures var live' := live[k := Guarded(live[k])][c := Guarded(live[k])];
            LocalLive(live, live', {k.p, c.p}) && LocalSole(live, live', {k.p, c.p})
  {
  }

  /** A fork in progress ends, well or not; `b` is what becomes of the child. */
  lemma OnForkDone(all: bool, s: State, m: Eager, p: Pid, c: Pid, b: Act, r: State)
    requires Inv(all, s, m) && p in s.act && s.act[p] == Forking(c) && (b == Idle || b == Exiting)
    requires r == s.(act := s.act[c := b][p := Idle])
    ensures Inv(all, r, m)
  {
    hide Exclusive, Counts, Refines, LocalAct, LocalLive, LocalSole, LocalImage, LocalCopies, ActsOk,
         StaleOk, HoldOk, OneParent;
    ForkPair(s, m, p, c, Idle, b);
    SameLive(s.live, {p, c});
    SameImage(m, {p, c});
    SameCopies(s.hold, s.mem, {p, c});
    OthersOk(s, m, r, m, {p, c});
  }

  /** A fork fails after the parent's entry was guarded. */
  lemma OnForkMapFail(all: bool, s: State, m: Eager, p: Pid, c: Pid, k: Key, r: State)
    requires p in s.act && s.act[p] == Forking(c) && k in s.live && k.p == p
    requires r == s.(live := s.live[k := Guarded(s.live[k])], act := s.act[c := Exiting][p := Idle])
    requires Inv(all, s, m)
    ensures Inv(all, r, m)
  {
    hide Exclusive, Counts, Refines, ActsOk, StaleOk, HoldOk, OneParent, LocalAct, LocalLive, LocalSole, LocalImage,
         LocalCopies;
    var t := Guarded(s.live[k]);
    CountsFlags(s.mem, s.rc, s.live, s.hold, k, t);
    ExclusiveGuard(s.live, k);
    RefinesFlags(all, s.mem, s.live, m, k, t);
    ForkPair(s, m, p, c, Idle, Exiting);
    GuardLive(s.live, k, c);
    SameImage(m, {p, c});
    SameCopies(s.hold, s.mem, {p, c});
    OthersOk(s, m, r, m, {p, c});
  }

  lemma GuardLive(live: map<Key, Pte>, k: Key, c: Pid)
    requires k in live
    ensures var live' := live[k := Guarded(live[k])];
            LocalLive(live, live', {k.p, c}) && LocalSole(live, live', {k.p, c})
  {
  }

  lemma OnUnmapPut(all: bool, s: State, m: Eager, p: Pid, k: Key, d: bool, r: State)
    requires Inv(all, s, m) && p in s.act && (s.act[p] == Idle || s.act[p] == Exiting) && k in s.live && k.p == p
    requires s.live[k].frame in s.rc && s.rc[s.live[k].frame] > 0
    requires r == Put(s, s.live[k].frame).(live := s.live - {k}, stale := s.stale[k := s.live[k]],
                                           act := s.act[p := Unmapped(k.page, d)])
    ensures Inv(all, r, m - {k})
  {
    hide Exclusive, Counts, Refines, LocalAct, LocalLive, LocalSole, LocalImage, LocalCopies, ActsOk,
         HoldOk, StaleOk, OneParent, KeysOk;
    DropLinks(s, p, k, r.act[p], s.live[k]);
    KeysGrow(s.live, m, s.act, r.live, m - {k}, r.act);
    CountsPut(s, k);
    ExclusiveLess(s.live, k);
    RefinesPut(all, s, m, k);
    SetAct(s, m, p, r.act[p]);
    LessLive(s.live, k);
    LessImage(m, k);
    PutCopies(s, k, p);
    OthersOk(s, m, r, m - {k}, {p});
  }

  lemma LessImage(m: Eager, k: Key)
    ensures LocalImage(m, m - {k}, {k.p})
  {
  }

  lemma OnUnmapClear(all: bool, s: State, m: Eager, p: Pid, k: Key, a: Act, r: State)
    requires Inv(all, s, m) && p in s.act && s.act[p].Unmapped? && k == Key(p, s.act[p].va)
    requires (a == Idle || a == Exiting)
    requires r == s.(stale := s.stale - {k}, act := s.act[p := a])
    ensures Inv(all, r, m)
  {
    hide Exclusive, Counts, Refines, LocalAct, LocalLive, LocalSole, LocalImage, LocalCopies, ActsOk;
    SetAct(s, m, p, a);
    SameLive(s.live, {p});
    SameImage(m, {p});
    SameCopies(s.hold, s.mem, {p});
    OthersOk(s, m, r, m, {p});
  }

  lemma OnReap(all: bool, s: State, m: Eager, p: Pid, r: State, n: Eager)
    requires Inv(all, s, m) && p in s.act && s.act[p] == Exiting && forall k :: k in s.live ==> k.p != p
    requires r == s.(act := s.act - {p}) && n == map k | k in m && k.p != p :: m[k]
    ensures Inv(all, r, n)
  {
    hide Exclusive, Counts, LocalAct, LocalLive, LocalSole, LocalCopies, ActsOk, HoldOk, StaleOk, OneParent;
    ReapLinks(s, m, p);
    SameLive(s.live, {p});
    SameCopies(s.hold, s.mem, {p});
    OthersOk(s, m, r, n, {p});
  }

  lemma ReapLinks(s: State, m: Eager, p: Pid)
    requires ActsOk(s, m) && HoldOk(s.hold, s.act) && OneParent(s.act) && StaleOk(s.stale, s.act)
    requires p in s.act && s.act[p] == Exiting
    ensures var act := s.act - {p};
            && LocalAct(s.act, act, {p}) && HoldOk(s.hold, act) && OneParent(act) && StaleOk(s.stale, act)
  {
    forall q | q in s.act && s.act[q].Forking?
      ensures s.act[q].child != p
    {
      assert ActOk(s, m, q);
    }
  }

  lemma StepInv(all: bool, s: State, m: Eager, e: Event)
    requires Inv(all, s, m) && Enabled(s, e) && (all ==> !e.CopyoutReadOnly?)
    ensures Inv(all, Step(s, e), EagerStep(m, e))
  {
    hide Inv;
    var r := Step(s, e);
    match e
    case Store(p, va, x) => OnStore(all, s, m, p, Key(p, va), x, r);
    case CopyoutReadOnly(p, va, x) => OnStore(all, s, m, p, Key(p, va), x, r);
    case Demand(p, va, f, w) => OnDemand(all, s, m, p, Key(p, va), f, w, r);
    case CowRead(p, va) => OnCowRead(all, s, m, p, Key(p, va), r);
    case CowTake(p) => OnCowTake(all, s, m, p, Key(p, s.act[p].va), r);
    case CowCopy(p, f) => OnCowCopy(all, s, m, p, Key(p, s.act[p].va), f, r);
    case CowFail(p) => OnAct(all, s, m, p, Idle, r);
    case CowPut(p) => OnCowPut(all, s, m, p, Key(p, s.act[p].va), r);
    case CowSet(p) => OnCowSet(all, s, m, p, Key(p, s.act[p].va), s.act[p].f, r);
    case ForkStart(p, c) => OnForkStart(all, s, m, p, c, r);
    case ForkPage(p, va) => OnForkPage(all, s, m, p, Key(p, va), Key(s.act[p].child, va), r);
    case ForkEnd(p) => OnForkDone(all, s, m, p, s.act[p].child, Idle, r);
    case ForkFail(p) => OnForkDone(all, s, m, p, s.act[p].child, Exiting, r);
    case ForkMapFail(p, va) => OnForkMapFail(all, s, m, p, s.act[p].child, Key(p, va), r);
    case Exit(p) => OnAct(all, s, m, p, Exiting, r);
    case UnmapPut(p, va) => OnUnmapPut(all, s, m, p, Key(p, va), s.act[p] == Exiting, r);
    case UnmapClear(p) => OnUnmapClear(all, s, m, p, Key(p, s.act[p].va), r.act[p], r);
    case Reap(p) => OnReap(all, s, m, p, r, EagerStep(m, e));
  }

  // ---- Runs ----

  /** One process, nothing mapped. */
  const Boot: State := State(map[], map[], map[], map[], map[], map[0 := Idle])

  ghost predicate IsRun(s: State, es: seq<Event>)
    decreases |es|
  {
    es != [] ==> Enabled(s, es[0]) && IsRun(Step(s, es[0]), es[1..])
  }

  ghost function Run(s: State, es: seq<Event>): (r: State)
    requires IsRun(s, es)
    decreases |es|
  {
    if es == [] then s else Run(Step(s, es[0]), es[1..])
  }

  ghost function EagerRun(m: Eager, es: seq<Event>): (r: Eager)
    decreases |es|
  {
    if es == [] then m else EagerRun(EagerStep(m, es[0]), es[1..])
  }

  lemma {:induction false} RunInv(all: bool, s: State, m: Eager, es: seq<Event>)
    requires Inv(all, s, m) && IsRun(s, es)
    requires all ==> forall i :: 0 <= i < |es| ==> !es[i].CopyoutReadOnly?
    ensures Inv(all, Run(s, es), EagerRun(m, es))
    decreases |es|
  {
    hide Inv, Enabled, Step, EagerStep;
    if es != [] {
      StepInv(all, s, m, es[0]);
      RunInv(all, Step(s, es[0]), EagerStep(m, es[0]), es[1..]);
    }
  }

  /** Copy-on-write is invisible: after every interleaving of forks, faults,
      stores, unmappings and exits, every page that is writable or
      copy-on-write holds what it would hold had each fork copied memory at
      once. Without kernel writes to read-only pages this is so of every page. */
  lemma CowRefinesEager(es: seq<Event>, k: Key)
    requires IsRun(Boot, es) && k in Run(Boot, es).live
    ensures var s, m := Run(Boot, es), EagerRun(map[], es);
            && k in m && s.live[k].frame in s.mem
            && (!ReadOnly(s.live[k]) || (forall i :: 0 <= i < |es| ==> !es[i].CopyoutReadOnly?)
                ==> s.mem[s.live[k].frame] == m[k])
  {
    hide Enabled, Step, EagerStep, Exclusive, ActsOk, StaleOk, HoldOk, KeysOk, OneParent;
    BootInv(true);
    BootInv(false);
    RunInv(false, Boot, map[], es);
    if forall i :: 0 <= i < |es| ==> !es[i].CopyoutReadOnly? {
      RunInv(true, Boot, map[], es);
    }
  }

  lemma BootInv(all: bool)
    ensures Inv(all, Boot, map[])
  {
  }

  /** In every reachable state a page mapped writable has exactly one mapping,
      and each frame's count is the number of its entries plus pending copies. */
  lemma ReachableExact(es: seq<Event>)
    requires IsRun(Boot, es)
    ensures var s := Run(Boot, es); Exclusive(s.live) && Counts(s.mem, s.rc, s.live, s.hold)
  {
    hide Enabled, Step, EagerStep, Exclusive, ActsOk, StaleOk, HoldOk, KeysOk, OneParent, Counts, Refines;
    BootInv(false);
    RunInv(false, Boot, map[], es);
  }

  /** What the source tests before a step: activity and present bits, nothing
      about frames or counts. */
  predicate Ready(s: State, e: Event) {
    e.p in s.act && match e
    case Store(p, va, _) => s.act[p] == Idle && Key(p, va) in s.live && s.live[Key(p, va)].w
    case CopyoutReadOnly(p, va, _) => s.act[p] == Idle && Key(p, va) in s.live && ReadOnly(s.live[Key(p, va)])
    case CowRead(p, va) => s.act[p] == Idle && Key(p, va) in s.live && s.live[Key(p, va)].cow
    case CowTake(p) => s.act[p].Sole?
    case CowCopy(p, f) => s.act[p].Shared? && f !in s.mem
    case CowPut(p) => s.act[p].Copied?
    case ForkPage(p, va) =>
      s.act[p].Forking? && Key(p, va) in s.live && Key(s.act[p].child, va) !in s.live
    case UnmapPut(p, va) => (s.act[p] == Idle || s.act[p] == Exiting) && Key(p, va) in s.live
    case _ => Enabled(s, e)
  }

  /** No step ever meets a freed frame or a zero count: the panics of get_page
      and put_page are unreachable. */
  lemma NeverPanics(s: State, m: Eager, e: Event)
    requires Inv(false, s, m) && Ready(s, e)
    ensures Enabled(s, e)
  {
    hide Exclusive, StaleOk, HoldOk, KeysOk, OneParent, Refines;
    assert ActOk(s, m, e.p);
    EntriesAllocated(s);
  }

  lemma EntriesAllocated(s: State)
    requires Counts(s.mem, s.rc, s.live, s.hold)
    ensures forall k :: k in s.live ==>
              s.live[k].frame in s.mem && s.live[k].frame in s.rc && s.rc[s.live[k].frame] > 0
  {
  }

  /** Another entry of the frame of `k` has its contents. */
  ghost predicate Right(mem: map<Frame, Content>, live: map<Key, Pte>, m: Eager, j: Key) {
    j in live && live[j].frame in mem && j in m && mem[live[j].frame] == m[j]
  }

  ghost predicate Sharer(live: map<Key, Pte>, k: Key, j: Key) {
    k in live && j in live && j != k && live[j].frame == live[k].frame
  }

  /** A kernel write to a read-only page leaves the processes that share its frame
      as they should be exactly if there are none or the write changes nothing. */
  lemma ReadOnlyWriteLeaks(s: State, m: Eager, k: Key, x: Content)
    requires Inv(false, s, m) && Ready(s, CopyoutReadOnly(k.p, k.page, x))
    requires Right(s.mem, s.live, m, k) && forall j :: Sharer(s.live, k, j) ==> Right(s.mem, s.live, m, j)
    ensures var e := CopyoutReadOnly(k.p, k.page, x);
            && Enabled(s, e)
            && ((forall j :: Sharer(s.live, k, j) ==> Right(Step(s, e).mem, Step(s, e).live, EagerStep(m, e), j))
                <==> (x == s.mem[s.live[k].frame] || forall j :: !Sharer(s.live, k, j)))
  {
    hide Exclusive, StaleOk, HoldOk, KeysOk, OneParent, ActsOk, Counts;
    assert Key(k.p, k.page) == k;
    var e := CopyoutReadOnly(k.p, k.page, x);
    forall j | Sharer(s.live, k, j)
      ensures Right(Step(s, e).mem, Step(s, e).live, EagerStep(m, e), j) <==> x == s.mem[s.live[k].frame]
    {
      assert Right(s.mem, s.live, m, j);
    }
  }

  /** Such a state is reachable: a read-only page, then a fork. */
  lemma ReadOnlySharingReachable(f: Frame, va: nat)
    ensures var es := [Demand(0, va, f, false), ForkStart(0, 1), ForkPage(0, va), ForkEnd(0)];
            && IsRun(Boot, es)
            && var s := Run(Boot, es);
               && Key(0, va) in s.live && Key(1, va) in s.live && 0 in s.act && s.act[0] == Idle
               && s.live[Key(0, va)] == s.live[Key(1, va)] == Pte(f, false, false)
  {
    var e0, e1, e2, e3 := Demand(0, va, f, false), ForkStart(0, 1), ForkPage(0, va), ForkEnd(0);
    var s1 := Step(Boot, e0);
    var s2 := Step(s1, e1);
    var s3 := Step(s2, e2);
    var s4 := Step(s3, e3);
    RunFirst(s3, e3, []);
    RunFirst(s2, e2, [e3]);
    RunFirst(s1, e1, [e2, e3]);
    RunFirst(Boot, e0, [e1, e2, e3]);
  }

  lemma RunFirst(s: State, e: Event, es: seq<Event>)
    requires Enabled(s, e) && IsRun(Step(s, e), es)
    ensures IsRun(s, [e] + es) && Run(s, [e] + es) == Run(Step(s, e), es)
  {
    assert ([e] + es)[1..] == es;
  }
}
