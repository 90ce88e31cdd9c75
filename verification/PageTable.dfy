/** The RISC-V kernel's page pool and the operations on user page tables. */
module PageTable {
  import opened Basics
  import opened Sv39

  type Bytes = seq<int>

  function Fill(x: int): (b: Bytes)
    ensures |b| == PGSIZE && forall k :: 0 <= k < PGSIZE ==> b[k] == x
  {
    seq(PGSIZE, _ => x)
  }

  function Pages(sz: nat): (n: nat) { (sz + PGSIZE - 1) / PGSIZE }

  ghost function Span(lo: nat, hi: nat): (s: set<nat>)
    ensures forall i: nat :: i in s <==> lo <= i < hi
  {
    if hi <= lo then {} else Span(lo, hi - 1) + {hi - 1}
  }

  ghost function Range(n: nat): (s: set<nat>) { Span(0, n) }

  function UserPerm(): (p: Perm) { Perm(true, true, true, true) }

  /** The page-table page met at a level of the walk for page `vpn`. */
  function PathNode(vpn: nat, level: nat): (n: Node)
    requires level <= 2
  {
    if level == 2 then Top else if level == 1 then Mid(Px2(vpn)) else Low(Px2(vpn), Px1(vpn))
  }

  function Px(vpn: nat, level: nat): (k: nat)
    requires 1 <= level <= 2
  {
    if level == 2 then Px2(vpn) else Px1(vpn)
  }

  /** Linking a zeroed frame into an empty entry on the path of a walk. */
  ghost function Linked(t: Tables, g: nat, k: nat, f: nat): (t': Tables)
    requires g in t && k < |t[g]|
  {
    t[f := ZeroTable()][g := t[g][k := Pte(true, f, None4())]]
  }

  lemma PathUsed(s: St, root: nat, vpn: nat, level: nat)
    requires Shape(s, {}) && root in s.own && vpn < MAXVPN && level <= 2 && Exists(s.tables, root, PathNode(vpn, level))
    ensures Uses(s, {}, NodeUse(root, PathNode(vpn, level)))
    ensures var g := Frame(s.tables, root, PathNode(vpn, level));
            g == FrameOf(s, NodeUse(root, PathNode(vpn, level))) && g in s.tables && |s.tables[g]| == ENTRIES
    ensures Px0(vpn) < ENTRIES && Px1(vpn) < ENTRIES && Px2(vpn) < 256
  {
    SlotRoundTrip(vpn);
    var u := NodeUse(root, PathNode(vpn, level));
    assert Uses(s, {}, u);
    assert NodeOk(s.tables, FrameOf(s, u), u.node);
  }

  /** A valid entry on the path leads to the next page-table page. */
  lemma PathDown(s: St, root: nat, vpn: nat, level: nat)
    requires root in s.own && vpn < MAXVPN && 1 <= level <= 2 && Exists(s.tables, root, PathNode(vpn, level))
    ensures var e := Entry(s.tables, Frame(s.tables, root, PathNode(vpn, level)), Px(vpn, level));
            && (Exists(s.tables, root, PathNode(vpn, level - 1)) <==> e.v)
            && Frame(s.tables, root, PathNode(vpn, level - 1)) == e.ppn
  {
    SlotRoundTrip(vpn);
  }

  lemma LinkStep(s: St, free: seq<nat>, held: set<nat>, pool: set<nat>, root: nat, vpn: nat, level: nat, g: nat, f: nat)
    requires Inv(s, free, held, pool, {}) && f in held && root in s.own && vpn < MAXVPN && 1 <= level <= 2
    requires Exists(s.tables, root, PathNode(vpn, level)) && Frame(s.tables, root, PathNode(vpn, level)) == g
    requires g in s.tables && |s.tables[g]| == ENTRIES && Px(vpn, level) < ENTRIES
    requires !s.tables[g][Px(vpn, level)].v
    ensures var t' := Linked(s.tables, g, Px(vpn, level), f);
            && Inv(St(t', s.own), free, held - {f}, pool, {}) && SameFlat(s.tables, t', s.own)
            && Exists(t', root, PathNode(vpn, level - 1)) && Frame(t', root, PathNode(vpn, level - 1)) == f
  {
    PathUsed(s, root, vpn, level);
    PathDown(s, root, vpn, level);
    var k := Px(vpn, level);
    var t' := Linked(s.tables, g, k, f);
    var at := NodeUse(root, PathNode(vpn, level));
    hide Exists, Frame, Leaf, Px0, Px1, Px2, Shape;
    NodesInTables(s);
    assert f != g;
    assert Wrote(s, {}, t', g, k, Pte(true, f, None4()));
    if level == 2 {
      RootFrame(s, root);
      LinkMidNodes(s, t', root, k, f);
    } else {
      MidFrame(s, root, Px2(vpn));
      LinkLowNodes(s, t', root, Px2(vpn), k, f);
    }
    LinkOk(s, t', free, held, pool, g, k, at, PathNode(vpn, level - 1), f);
  }

  lemma NodesInTables(s: St)
    requires Shape(s, {})
    ensures forall u :: Uses(s, {}, u) && u.NodeUse? ==> FrameOf(s, u) in s.tables
  {
    hide Exists, Frame, Leaf;
    forall u | Uses(s, {}, u) && u.NodeUse?
      ensures FrameOf(s, u) in s.tables
    {
      assert NodeOk(s.tables, FrameOf(s, u), u.node);
    }
  }

  lemma RootFrame(s: St, root: nat)
    ensures Frame(s.tables, root, Top) == root
  {
  }

  lemma MidFrame(s: St, root: nat, i: nat)
    requires Exists(s.tables, root, Mid(i))
    ensures i < ENTRIES && Entry(s.tables, root, i).v && Frame(s.tables, root, Mid(i)) == Entry(s.tables, root, i).ppn
  {
  }

  lemma DistinctCons(q: seq<nat>, p: nat)
    requires Distinct(q) && p !in q
    ensures Distinct([p] + q)
  {
    var r := [p] + q;
    forall i, j | 0 <= i < j < |r|
      ensures r[i] != r[j]
    {
      assert r[j] == q[j - 1] && q[j - 1] in q;
    }
  }

  // ---- What an operation leaves alone ----

  function Body(bytes: map<nat, Bytes>, f: nat): (b: Bytes) { if f in bytes then bytes[f] else [] }

  ghost predicate HeldKept(held: set<nat>, bytes: map<nat, Bytes>, bytes': map<nat, Bytes>) {
    forall f :: f in held ==> Body(bytes', f) == Body(bytes, f)
  }

  /** Every page owned in `s` is owned in `s'`, with the same entry and contents. */
  ghost predicate PagesKept(s: St, bytes: map<nat, Bytes>, s': St, bytes': map<nat, Bytes>) {
    forall root: nat, vpn: nat :: root in s.own && vpn in s.own[root] ==> PageKept(s, bytes, s', bytes', root, vpn)
  }

  lemma KeptTwice(s0: St, b0: map<nat, Bytes>, s1: St, b1: map<nat, Bytes>, s2: St, b2: map<nat, Bytes>)
    requires PagesKept(s0, b0, s1, b1) && PagesKept(s1, b1, s2, b2)
    ensures PagesKept(s0, b0, s2, b2)
  {
    hide Leaf;
    forall root: nat, vpn: nat | root in s0.own && vpn in s0.own[root]
      ensures PageKept(s0, b0, s2, b2, root, vpn)
    {
      assert PageKept(s0, b0, s1, b1, root, vpn);
      assert PageKept(s1, b1, s2, b2, root, vpn);
    }
  }

  ghost predicate PageKept(s: St, bytes: map<nat, Bytes>, s': St, bytes': map<nat, Bytes>, root: nat, vpn: nat) {
    && root in s'.own && vpn in s'.own[root] && Leaf(s'.tables, root, vpn) == Leaf(s.tables, root, vpn)
    && Body(bytes', Leaf(s.tables, root, vpn).ppn) == Body(bytes, Leaf(s.tables, root, vpn).ppn)
  }

  class Memory {
    ghost const pool: set<nat>
    var free: seq<nat>
    var tables: Tables
    var bytes: map<nat, Bytes>
    ghost var own: map<nat, set<nat>>
    /** Frames the kernel holds outside user page tables. */
    ghost var held: set<nat>

    ghost function S(): (s: St)
      reads this
    {
      St(tables, own)
    }

    ghost predicate Valid()
      reads this
    {
      Inv(S(), free, held, pool, {})
    }

    /** kinit: freerange pushes every frame of [lo, hi). */
    constructor (lo: nat, hi: nat)
      requires lo <= hi
      ensures Valid() && own == map[] && held == {} && |free| == hi - lo && forall f :: f in free <==> lo <= f < hi
    {
      pool := Span(lo, hi);
      tables, bytes, own, held := map[], map[], map[], {};
      free := [];
      new;
      var p := lo;
      while p < hi
        invariant lo <= p <= hi && tables == map[] && own == map[] && held == {} && |free| == p - lo
        invariant forall f :: f in free <==> lo <= f < p
        invariant Distinct(free)
      {
        DistinctCons(free, p);
        free := [p] + free;
        p := p + 1;
      }
      forall u
        ensures !Uses(S(), {}, u)
      {
      }
      assert forall f :: f in pool ==> f in free;
    }

    method Kalloc() returns (f: Option<nat>)
      requires Valid()
      modifies this`free, this`bytes, this`held
      ensures Valid()
      ensures f.None? <==> old(free) == []
      ensures f.None? ==> free == old(free) && bytes == old(bytes) && held == old(held)
      ensures f.Some? ==>
                && old(free) == [f.value] + free && held == old(held) + {f.value} && f.value !in old(held)
                && bytes == old(bytes)[f.value := Fill(5)] && !Used(S(), {}, f.value)
    {
      if free == [] {
        return None;
      }
      Alloc(S(), free, held, pool);
      hide Inv, Used;
      f := Some(free[0]);
      free := free[1..];
      bytes := bytes[f.value := Fill(5)];
      held := held + {f.value};
    }

    /** kfree of a frame the kernel holds. */
    method Kfree(f: nat)
      requires Valid() && f in held
      modifies this`free, this`bytes, this`held
      ensures Valid() && free == [f] + old(free) && held == old(held) - {f} && bytes == old(bytes)[f := Fill(1)]
    {
      Release(S(), free, held, pool, f, {});
      hide Inv;
      Push(f);
      held := held - {f};
    }

    method Push(f: nat)
      modifies this`free, this`bytes
      ensures free == [f] + old(free) && bytes == old(bytes)[f := Fill(1)]
    {
      bytes := bytes[f := Fill(1)];
      free := [f] + free;
    }

    /** walk: the lowest-level page-table page of `vpn`, creating missing levels
        when `alloc`. What the trees map does not change. */
    method Walk(root: nat, vpn: nat, alloc: bool) returns (g: Option<nat>)
      requires Valid() && root in own && vpn < MAXVPN
      modifies this`free, this`tables, this`bytes, this`held
      ensures Valid() && held == old(held)
      ensures SameFlat(old(tables), tables, own) && PagesKept(old(S()), old(bytes), S(), bytes)
      ensures g.Some? ==> Exists(tables, root, PathNode(vpn, 0)) && g.value == Frame(tables, root, PathNode(vpn, 0))
      ensures !alloc ==> tables == old(tables) && free == old(free) && bytes == old(bytes)
      ensures !alloc ==> (g.None? <==> !Exists(tables, root, PathNode(vpn, 0)))
      ensures alloc && g.None? ==> free == [] && |old(free)| < 2
      ensures |free| + 2 >= |old(free)|
      ensures HeldKept(held, old(bytes), bytes)
    {
      hide Inv, Exists, Frame, SameFlat, PagesKept, Leaf, Px0, Px1, Px2;
      var level, f := 2, root;
      KeptRefl(S(), bytes);
      WalkStart(S(), root, vpn);
      while level > 0
        invariant 0 <= level <= 2 && Valid() && held == old(held)
        invariant SameFlat(old(tables), tables, own) && PagesKept(old(S()), old(bytes), S(), bytes)
        invariant Exists(tables, root, PathNode(vpn, level)) && f == Frame(tables, root, PathNode(vpn, level))
        invariant !alloc ==> tables == old(tables) && free == old(free) && bytes == old(bytes)
        invariant |free| + 2 - level >= |old(free)|
        invariant HeldKept(held, old(bytes), bytes)
      {
        InvShape(S(), free, held, pool);
        PathUsed(S(), root, vpn, level);
        PathDown(S(), root, vpn, level);
        var k := Px(vpn, level);
        var e := tables[f][k];
        if e.v {
          f := e.ppn;
        } else {
          if !alloc {
            NoPath(S(), root, vpn, level);
            return None;
          }
          ghost var b := bytes;
          var p := Kalloc();
          if p.None? {
            return None;
          }
          LinkStep(S(), free, held, pool, root, vpn, level, f, p.value);
          KeptLink(old(S()), old(bytes), S(), b, Linked(tables, f, k, p.value), p.value, Fill(5));
          tables := tables[p.value := ZeroTable()];
          tables := tables[f := tables[f][k := Pte(true, p.value, None4())]];
          held := held - {p.value};
          f := p.value;
        }
        level := level - 1;
      }
      g := Some(f);
    }

    /** mappages over whole pages. With no memory for a page-table page it stops
        and leaves the first `n` pages mapped. A page already mapped is a panic,
        excluded by the precondition. */
    method Mappages(root: nat, va: nat, size: nat, ppn: nat, perm: Perm) returns (ok: bool, ghost n: nat)
      requires Valid() && root in own && size > 0 && va + size - 1 < MAXVPN * PGSIZE && perm.Leaf()
      requires forall vpn: nat :: va / PGSIZE <= vpn <= (va + size - 1) / PGSIZE ==> !Leaf(tables, root, vpn).v
      modifies this`free, this`tables, this`bytes, this`held
      ensures Valid() && held == old(held) && PagesKept(old(S()), old(bytes), S(), bytes)
      ensures Mapped(old(tables), tables, own, root, va / PGSIZE, n, ppn, perm)
      ensures n <= (va + size - 1) / PGSIZE - va / PGSIZE + 1
      ensures ok <==> n == (va + size - 1) / PGSIZE - va / PGSIZE + 1
      ensures !ok ==> free == [] && |old(free)| < 2 * (n + 1)
      ensures ok ==> |free| + 2 * n >= |old(free)|
      ensures HeldKept(held, old(bytes), bytes)
    {
      hide Inv, Exists, Frame, SameFlat, PagesKept, Mapped, Leaf, Px0, Px1, Px2;
      var a, p := va / PGSIZE, ppn;
      var last := (va + size - 1) / PGSIZE;
      n := 0;
      KeptRefl(S(), bytes);
      NoneMapped(tables, own, root, a, ppn, perm);
      assert last < MAXVPN;
      while true
        invariant va / PGSIZE <= a <= last && n == a - va / PGSIZE && p == ppn + n
        invariant Valid() && held == old(held) && PagesKept(old(S()), old(bytes), S(), bytes)
        invariant Mapped(old(tables), tables, own, root, va / PGSIZE, n, ppn, perm) && |free| + 2 * n >= |old(free)|
        invariant HeldKept(held, old(bytes), bytes)
        decreases last - a
      {
        ghost var s1, b1 := S(), bytes;
        var g := Walk(root, a, true);
        MappedFlat(old(tables), s1.tables, tables, own, root, va / PGSIZE, n, ppn, perm);
        KeptTwice(old(S()), old(bytes), s1, b1, S(), bytes);
        if g.None? {
          return false, n;
        }
        ghost var s2 := S();
        MappedAt(old(tables), tables, own, root, va / PGSIZE, n, ppn, perm, a);
        Unowned(s2, free, held, pool, root, a);
        LeafWrite(s2, free, held, pool, root, a, g.value, Pte(true, p, perm));
        tables := tables[g.value := tables[g.value][Px0(a) := Pte(true, p, perm)]];
        InvShape(s2, free, held, pool);
        KeptWrite(s2, tables, bytes, root, a, Pte(true, p, perm));
        KeptTwice(old(S()), old(bytes), s2, bytes, S(), bytes);
        MappedNext(old(tables), s2.tables, tables, own, root, va / PGSIZE, n, ppn, perm);
        n := n + 1;
        if a == last {
          return true, n;
        }
        a, p := a + 1, p + 1;
      }
    }

    /** uvmunmap: the mappings must exist and be leaves, else it panics. */
    method Uvmunmap(root: nat, vpn: nat, n: nat, doFree: bool)
      requires Valid() && root in own && vpn + n <= MAXVPN
      requires forall p: nat :: vpn <= p < vpn + n ==> Leaf(tables, root, p).v && (p in own[root] <==> doFree)
      modifies this`free, this`tables, this`bytes, this`held, this`own
      ensures Valid() && held == old(held) && PagesKept(S(), bytes, old(S()), old(bytes))
      ensures own == if doFree then old(own)[root := old(own)[root] - Span(vpn, vpn + n)] else old(own)
      ensures Unmapped(old(tables), tables, old(own), root, vpn, n)
      ensures |free| == |old(free)| + if doFree then n else 0
    {
      var a := vpn;
      KeptRefl(S(), bytes);
      NoneUnmapped(tables, own, root, vpn);
      OwnAll(own, root, vpn);
      hide Inv, Exists, Frame, SameFlat, PagesKept, Unmapped, Leaf, Px0, Px1, Px2;
      while a < vpn + n
        invariant vpn <= a <= vpn + n && Valid() && held == old(held)
        invariant PagesKept(S(), bytes, old(S()), old(bytes))
        invariant own == if doFree then old(own)[root := old(own)[root] - Span(vpn, a)] else old(own)
        invariant Unmapped(old(tables), tables, old(own), root, vpn, a - vpn)
        invariant |free| == |old(free)| + if doFree then a - vpn else 0
      {
        ghost var s, b := S(), bytes;
        UnmappedAt(old(tables), tables, old(own), root, vpn, a - vpn, a);
        UnmapPage(root, a, doFree);
        KeptTwice(S(), bytes, s, b, old(S()), old(bytes));
        SpanNext(old(own)[root], vpn, a);
        UnmappedNext(old(tables), s.tables, tables, old(own), root, vpn, a - vpn);
        a := a + 1;
      }
    }

    /** One turn of uvmunmap's loop. */
    method UnmapPage(root: nat, a: nat, doFree: bool)
      requires Valid() && root in own && a < MAXVPN && Leaf(tables, root, a).v && (a in own[root] <==> doFree)
      modifies this`free, this`tables, this`bytes, this`held, this`own
      ensures Valid() && held == old(held) && PagesKept(S(), bytes, old(S()), old(bytes))
      ensures own == if doFree then old(own)[root := old(own)[root] - {a}] else old(own)
      ensures LeafSet(old(tables), tables, old(own), root, a, Nil())
      ensures |free| == |old(free)| + if doFree then 1 else 0
    {
      ghost var s, b, q, h := S(), bytes, free, held;
      LeafPath(s, free, held, pool, root, a);
      KeptRefl(s, b);
      hide Inv, Exists, Frame, SameFlat, PagesKept, LeafSet, Leaf, Px0, Px1, Px2, PathNode;
      var g := Walk(root, a, false);
      var e := tables[g.value][Px0(a)];
      if doFree {
        DisownOk(s, free, held, pool, root, a);
        NotHeld(s, free, held, pool, root, a);
        held := held + {e.ppn};
        own := own[root := own[root] - {a}];
        Kfree(e.ppn);
        assert held == h;
      }
      LeafWrite(S(), free, held, pool, root, a, g.value, Nil());
      tables := tables[g.value := tables[g.value][Px0(a) := Nil()]];
      LeafSetOwn(s.tables, tables, own, s.own, root, a);
      UnmapKept(s, b, S(), bytes, root, a, q, h, pool, e.ppn, doFree, s, b);
    }

    /** uvmcreate: an empty tree, or none without memory. */
    method Uvmcreate() returns (root: Option<nat>)
      requires Valid()
      modifies this
      ensures Valid() && held == old(held) && PagesKept(old(S()), old(bytes), S(), bytes)
      ensures root.None? <==> old(free) == []
      ensures root.None? ==> own == old(own) && tables == old(tables)
      ensures root.Some? ==> |free| + 1 == |old(free)|
      ensures root.Some? ==>
                root.value !in old(own) && own == old(own)[root.value := {}] && NoLeaves(tables, root.value)
      ensures SameFlat(old(tables), tables, old(own))
    {
      KeptRefl(S(), bytes);
      hide Inv, Exists, Frame, SameFlat, PagesKept, Leaf, NoLeaves;
      ghost var s, b := S(), bytes;
      root := Kalloc();
      if root.None? {
        return;
      }
      NewRootOk(S(), free, held, pool, root.value);
      InvShape(S(), free, held, pool);
      KeptLink(s, b, s, b, tables[root.value := ZeroTable()], root.value, Fill(5));
      tables := tables[root.value := ZeroTable()];
      KeptOwn(s, b, tables, bytes, root.value, {});
      own := own[root.value := {}];
      held := held - {root.value};
    }

    /** A fresh frame with the given contents mapped at an unmapped page; without
        memory for it or for a page-table page, nothing is mapped and the frame
        goes back. */
    method AddPage(root: nat, vpn: nat, content: Bytes, perm: Perm) returns (ok: bool)
      requires Valid() && root in own && vpn < MAXVPN && !Leaf(tables, root, vpn).v && perm.Leaf()
      modifies this
      ensures Valid() && held == old(held) && PagesKept(old(S()), old(bytes), S(), bytes)
      ensures ok ==>
                && own == old(own)[root := old(own)[root] + {vpn}]
                && Leaf(tables, root, vpn) == Pte(true, Leaf(tables, root, vpn).ppn, perm)
                && Body(bytes, Leaf(tables, root, vpn).ppn) == content
                && LeafSet(old(tables), tables, old(own), root, vpn, Leaf(tables, root, vpn))
      ensures !ok ==> own == old(own) && SameFlat(old(tables), tables, own)
      ensures if ok then |free| + 3 >= |old(free)| else |old(free)| < 3
    {
      hide Inv, Exists, Frame, PagesKept, Leaf, Px0, Px1, Px2;
      ghost var s, b := S(), bytes;
      Unowned(s, free, held, pool, root, vpn);
      KeptRefl(s, b);
      var mem := Kalloc();
      if mem.None? {
        return false;
      }
      bytes := bytes[mem.value := content];
      InvShape(S(), free, held, pool);
      assert bytes == b[mem.value := content];
      KeptBytes(s, b, s, b, mem.value, content);
      assert vpn * PGSIZE / PGSIZE == vpn == (vpn * PGSIZE + PGSIZE - 1) / PGSIZE;
      ghost var s1, b1 := S(), bytes;
      ghost var n;
      ok, n := Mappages(root, vpn * PGSIZE, PGSIZE, mem.value, perm);
      KeptTwice(s, b, s1, b1, S(), bytes);
      InvShape(S(), free, held, pool);
      if !ok {
        HeldUnused(S(), free, held, pool, mem.value);
        ghost var b2 := bytes;
        Kfree(mem.value);
        KeptBytes(s, b, S(), b2, mem.value, Fill(1));
        return;
      }
      MappedOne(s.tables, tables, own, root, vpn, mem.value, perm);
      OwnOk(S(), free, held, pool, root, vpn);
      KeptOwn(s, b, tables, bytes, root, own[root] + {vpn});
      own := own[root := own[root] + {vpn}];
      held := held - {mem.value};
    }

    /** uvmdealloc: shrink to the pages of `newsz`; growing is a no-op. */
    method Uvmdealloc(root: nat, oldsz: nat, newsz: nat) returns (sz: nat)
      requires Valid() && root in own && own[root] == Range(Pages(oldsz))
      modifies this
      ensures Valid() && held == old(held) && PagesKept(S(), bytes, old(S()), old(bytes))
      ensures sz == if newsz >= oldsz then oldsz else newsz
      ensures own == old(own)[root := Range(Pages(sz))]
      ensures Unmapped(old(tables), tables, old(own), root, Pages(sz), Pages(oldsz) - Pages(sz))
      ensures |free| == |old(free)| + Pages(oldsz) - Pages(sz)
    {
      hide Inv, PagesKept, Unmapped, Leaf, Pages, Span;
      KeptRefl(S(), bytes);
      NoneUnmapped(tables, own, root, Pages(oldsz));
      if newsz >= oldsz {
        return oldsz;
      }
      PagesMonotone(newsz, oldsz);
      OwnedMapped(S(), free, held, pool, root, Pages(oldsz));
      if Pages(newsz) < Pages(oldsz) {
        Uvmunmap(root, Pages(newsz), Pages(oldsz) - Pages(newsz), true);
        RangeLess(Pages(newsz), Pages(oldsz));
      }
      sz := newsz;
    }

    /** uvmalloc: all of the new pages, zeroed, or none of them. */
    method Uvmalloc(root: nat, oldsz: nat, newsz: nat) returns (sz: nat)
      requires Valid() && root in own && own[root] == Range(Pages(oldsz)) && Pages(newsz) <= MAXVPN
      requires NonePresent(tables, root, Pages(oldsz), Pages(newsz))
      modifies this
      ensures Valid() && held == old(held) && PagesKept(old(S()), old(bytes), S(), bytes)
      ensures newsz < oldsz ==> sz == oldsz && S() == old(S())
      ensures newsz >= oldsz ==> sz == newsz || (sz == 0 && |old(free)| < 3 * (Pages(newsz) - Pages(oldsz)))
      ensures newsz >= oldsz && sz == newsz ==>
                own == old(own)[root := Range(Pages(newsz))]
                && ZeroPages(tables, bytes, root, Pages(oldsz), Pages(newsz))
      ensures newsz >= oldsz && sz != newsz ==>
                own == old(own) && NonePresent(tables, root, Pages(oldsz), Pages(newsz))
      ensures FlatExcept(old(tables), tables, old(own), root, Pages(oldsz), Pages(newsz))
    {
      hide Inv, PagesKept, Unmapped, Leaf, Pages, Span, ZeroPages, NonePresent, FlatExcept, SameFlat, LeafSet;
      ghost var s, b := S(), bytes;
      KeptRefl(s, b);
      ghost var n0, n1 := Pages(oldsz), Pages(newsz);
      GrowStart(s.tables, s.own, b, root, n0, n1);
      if newsz < oldsz {
        return oldsz;
      }
      var start := Pages(oldsz) * PGSIZE;
      RoundUp(oldsz, newsz, n0);
      var a := start;
      ghost var p := n0;
      assert own == s.own[root := Range(p)];
      while a < newsz
        invariant n0 <= p <= n1 && a == p * PGSIZE
        invariant Valid() && held == old(held) && PagesKept(s, b, S(), bytes)
        invariant own == s.own[root := Range(p)]
        invariant FlatExcept(s.tables, tables, s.own, root, n0, p) && |free| + 3 * (p - n0) >= |old(free)|
        invariant ZeroPages(tables, bytes, root, n0, p) && NonePresent(tables, root, p, n1)
      {
        RoundUp(oldsz, newsz, p);
        ghost var s1, b1 := S(), bytes;
        AtPage(tables, root, p, n1);
        var ok := AddPage(root, a / PGSIZE, Fill(0), UserPerm());
        KeptTwice(s, b, s1, b1, S(), bytes);
        if !ok {
          ghost var s2, b2 := S(), bytes;
          var _ := Uvmdealloc(root, a, start);
          Undone(s, b, s2, b2, S(), bytes, root, n0, p);
          FlatUndone(s.tables, s1.tables, s2.tables, tables, s.own, s1.own, root, n0, p, n1);
          return 0;
        }
        FlatGrown(s.tables, s1.tables, tables, s.own, s1.own, root, n0, p, n1);
        ZeroGrown(s1, b1, S(), bytes, root, n0, p);
        RangeNext(p);
        a, p := a + PGSIZE, p + 1;
      }
      RoundUp(oldsz, newsz, p);
      FlatWider(s.tables, tables, s.own, root, n0, p, n1);
      sz := newsz;
    }

    /** uvmcopy: every page of the parent, contents and permissions, in frames of
        the child's own; or none of them. */
    method Uvmcopy(parent: nat, child: nat, sz: nat) returns (ok: bool)
      requires Valid() && parent in own && child in own && parent != child
      requires own[parent] == Range(Pages(sz)) && own[child] == {} && NonePresent(tables, child, 0, Pages(sz))
      modifies this
      ensures Valid() && held == old(held) && PagesKept(old(S()), old(bytes), S(), bytes)
      ensures ok ==> own == old(own)[child := Range(Pages(sz))]
      ensures ok ==> Copied(old(tables), old(bytes), parent, tables, bytes, child, Pages(sz))
      ensures !ok ==> own == old(own) && NonePresent(tables, child, 0, Pages(sz)) && |old(free)| < 3 * Pages(sz)
      ensures FlatExcept(old(tables), tables, old(own), child, 0, Pages(sz))
    {
      hide Inv, PagesKept, Unmapped, Leaf, Pages, Span, Copied, NonePresent, FlatExcept, SameFlat, LeafSet, PathNode;
      ghost var s, b := S(), bytes;
      KeptRefl(s, b);
      ghost var n := Pages(sz);
      GrowStart(s.tables, s.own, b, child, 0, n);
      OwnedMapped(s, free, held, pool, parent, n);
      CopyStart(s, b, parent, child, n);
      var i := 0;
      ghost var p := 0;
      RoundUp(0, sz, 0);
      assert own == s.own[child := Range(p)];
      while i < sz
        invariant 0 <= p <= n && i == p * PGSIZE
        invariant Valid() && held == old(held) && PagesKept(s, b, S(), bytes)
        invariant own == s.own[child := Range(p)]
        invariant FlatExcept(s.tables, tables, s.own, child, 0, p) && |free| + 3 * p >= |old(free)|
        invariant Copied(s.tables, b, parent, tables, bytes, child, p) && NonePresent(tables, child, p, n)
      {
        RoundUp(0, sz, p);
        RoundUp(0, sz, p + 1);
        ghost var s1, b1 := S(), bytes;
        KeptAt(s, b, s1, b1, parent, p);
        LeafPath(s1, free, held, pool, parent, p);
        AtPage(tables, child, p, n);
        var g := Walk(parent, i / PGSIZE, false);
        var e := tables[g.value][Px0(i / PGSIZE)];
        ok := AddPage(child, i / PGSIZE, Body(bytes, e.ppn), e.perm);
        KeptTwice(s, b, s1, b1, S(), bytes);
        if !ok {
          ghost var s2, b2 := S(), bytes;
          OwnedMapped(S(), free, held, pool, child, p);
          Uvmunmap(child, 0, i / PGSIZE, true);
          RangeLess(0, p);
          Undone(s, b, s2, b2, S(), bytes, child, 0, p);
          FlatUndone(s.tables, s1.tables, s2.tables, tables, s.own, s1.own, child, 0, p, n);
          return;
        }
        FlatGrown(s.tables, s1.tables, tables, s.own, s1.own, child, 0, p, n);
        CopyGrown(s, b, s1, b1, S(), bytes, parent, child, p);
        RangeNext(p);
        i, p := i + PGSIZE, p + 1;
      }
      RoundUp(0, sz, p);
      ok := true;
    }

    /** freewalk: the page-table pages of a subtree without mappings go back to
        the pool, children first. The entry naming the subtree is left to the
        caller. */
    method FreeWalk(f: nat, ghost r: nat, ghost n: Node)
      requires Valid() && Uses(S(), {}, NodeUse(r, n)) && FrameOf(S(), NodeUse(r, n)) == f
      requires own[r] == {} && NoLeaves(tables, r)
      modifies this`free, this`tables, this`bytes
      ensures Inv(S(), free, held, pool, {NodeUse(r, n)}) && f !in tables
      ensures SameValid(old(tables), tables, own) && ShrunkBy(old(tables), tables, own, r, n)
      ensures PagesKept(old(S()), old(bytes), S(), bytes)
      decreases if n.Top? then 2 else if n.Mid? then 1 else 0
    {
      hide Inv, Uses, FrameOf, PagesKept, Leaf, Exists, Frame, SameValid, ShrunkBy, NoLeaves;
      ghost var s, b := S(), bytes;
      FreeStart(s, b, r, n);
      for i := 0 to ENTRIES
        invariant Valid() && Uses(S(), {}, NodeUse(r, n)) && FrameOf(S(), NodeUse(r, n)) == f
        invariant NoLeaves(tables, r) && SameValid(s.tables, tables, own) && ShrunkBy(s.tables, tables, own, r, n)
        invariant PagesKept(s, b, S(), bytes)
        invariant forall k :: 0 <= k < i ==> !Entry(tables, f, k).v
      {
        EntryKind(S(), free, held, pool, r, n, f, i);
        var e := tables[f][i];
        if e.v && !e.perm.Leaf() {
          ghost var s1, b1 := S(), bytes;
          FreeWalk(e.ppn, r, Child(n, i));
          ghost var s2 := S();
          AfterChild(s1, s2, free, held, pool, r, n, f, i);
          tables := tables[f := tables[f][i := Nil()]];
          ClearEntry(s2, S(), free, held, pool, r, n, f, i);
          ShrunkTwice(s.tables, s1.tables, s2.tables, own, r, n, Child(n, i));
          ShrunkTwice(s.tables, s2.tables, tables, own, r, n, n);
          ValidTwice(s.tables, s1.tables, s2.tables, own);
          ValidTwice(s.tables, s2.tables, tables, own);
          NoLeavesKept(s.tables, tables, own, r);
          PagesValid(s2, S(), bytes, free, held, pool, {NodeUse(r, Child(n, i))});
          KeptTwice(s, b, s1, b1, s2, bytes);
          KeptTwice(s, b, s2, bytes, S(), bytes);
          EntriesGone(s1, s2, S(), r, n, f, i);
        }
      }
      ghost var s4, b4 := S(), bytes;
      GiveOk(s4, free, held, pool, r, n, f);
      FreedPages(s4, b4, free, held, pool, r, n, f);
      ShrunkTwice(s.tables, tables, Minus(tables, f), own, r, n, n);
      ValidTwice(s.tables, tables, Minus(tables, f), own);
      Push(f);
      tables := Minus(tables, f);
      KeptTwice(s, b, s4, b4, S(), bytes);
    }

    /** uvmfree: the pages and then the page-table pages; the tree is gone. */
    method Uvmfree(root: nat, sz: nat)
      requires Valid() && root in own && own[root] == Range(Pages(sz)) && NonePresent(tables, root, Pages(sz), MAXVPN)
      modifies this
      ensures Valid() && held == old(held) && own == old(own) - {root}
      ensures SameValid(old(tables), tables, own) && PagesKept(S(), bytes, old(S()), old(bytes))
    {
      hide Inv, Uses, FrameOf, PagesKept, Leaf, Unmapped, Pages, Span, NonePresent, SameValid, NoLeaves;
      ghost var s, b, n := S(), bytes, Pages(sz);
      KeptRefl(s, b);
      NoneUnmapped(tables, own, root, 0);
      OwnedMapped(S(), free, held, pool, root, n);
      if sz > 0 {
        Uvmunmap(root, 0, Pages(sz), true);
      } else {
        NoPages(s, root);
      }
      RangeLess(0, n);
      ghost var s1, b1 := S(), bytes;
      UnmappedAll(s.tables, tables, s.own, s1.own, root, n);
      RootUsed(s1, root);
      FreeWalk(root, root, Top);
      ghost var s2 := S();
      DropRootOk(S(), free, held, pool, root);
      RootGone(s, b, s1, b1, s2, bytes, root);
      own := own - {root};
    }

    /** proc_pagetable: an empty space with trampoline and trapframe, or, with
        no memory at any point, nothing. */
    method ProcPagetable(trampoline: nat, trapframe: nat) returns (root: Option<nat>)
      requires Valid()
      modifies this
      ensures Valid() && held == old(held) && SameValid(old(tables), tables, old(own))
      ensures root.None? ==> own == old(own) && |old(free)| < 5
      ensures root.Some? ==> root.value !in old(own) && own == old(own)[root.value := {}]
      ensures root.Some? ==> UserSpace(tables, own, root.value, 0)
      ensures root.Some? ==>
                Leaf(tables, root.value, MAXVPN - 1) == Pte(true, trampoline, Perm(true, false, true, false))
      ensures root.Some? ==>
                Leaf(tables, root.value, MAXVPN - 2) == Pte(true, trapframe, Perm(true, true, false, false))
    {
      ghost var s := S();
      hide Inv, PagesKept, Leaf, NonePresent, SameValid, NoLeaves, SameFlat, Mapped, Unmapped, MappedSet, Pages,
           Range, Span;
      root := Uvmcreate();
      SameIsValid(s.tables, tables, s.own);
      if root.None? {
        return;
      }
      var r := root.value;
      ghost var t1 := tables;
      FreshEmpty(t1, r);
      var tramp, trap := Perm(true, false, true, false), Perm(true, true, false, false);
      var ok, n := Mappages(r, TRAMPOLINE, PGSIZE, trampoline, tramp);
      ghost var t2 := tables;
      MapKeeps(t1, t2, s.own, own, r, MAXVPN - 1, n, trampoline, tramp, {});
      ValidTwice(s.tables, t1, t2, s.own);
      if !ok {
        EmptySet(t2, r, MAXVPN - 1);
        Discard(r, s);
        return None;
      }
      NotIn(t2, r, {} + Span(MAXVPN - 1, MAXVPN), MAXVPN - 2);
      ok, n := Mappages(r, TRAPFRAME, PGSIZE, trapframe, trap);
      ghost var t3 := tables;
      MapKeeps(t2, t3, s.own, own, r, MAXVPN - 2, n, trapframe, trap, {} + Span(MAXVPN - 1, MAXVPN));
      ValidTwice(s.tables, t2, t3, s.own);
      if !ok {
        OnlyTop(t3, r, MAXVPN - 2);
        Uvmunmap(r, MAXVPN - 1, 1, false);
        ghost var t4 := tables;
        UnmapKeeps(t3, t4, s.own, own, r, MAXVPN - 1, 1, Span(MAXVPN - 1, MAXVPN));
        ValidTwice(s.tables, t3, t4, s.own);
        Discard(r, s);
        return None;
      }
      TopTwo(t1, t2, t3, own, r, trampoline, trapframe);
    }

    /** The tree of a failed proc_pagetable, empty by now, is freed. */
    method Discard(r: nat, ghost s: St)
      requires Valid() && own == s.own[r := {}] && r !in s.own && MappedSet(tables, r, {})
      requires SameValid(s.tables, tables, s.own)
      modifies this
      ensures Valid() && held == old(held) && own == s.own && SameValid(s.tables, tables, s.own)
    {
      ghost var t := tables;
      EmptyAbove(t, r, 0);
      hide Inv, PagesKept, Leaf, NonePresent, SameValid, MappedSet;
      assert Pages(0) == 0 && Range(0) == {};
      Uvmfree(r, 0);
      assert own == s.own;
      ValidTwice(s.tables, t, tables, own);
    }

    /** proc_freepagetable. */
    method ProcFreePagetable(root: nat, sz: nat)
      requires Valid() && root in own && UserSpace(tables, own, root, Pages(sz))
      modifies this
      ensures Valid() && held == old(held) && own == old(own) - {root}
      ensures SameValid(old(tables), tables, own) && PagesKept(S(), bytes, old(S()), old(bytes))
    {
      ghost var s, b, n := S(), bytes, Pages(sz);
      ghost var rest := s.own - {root};
      hide Inv, PagesKept, Leaf, NonePresent, SameValid, Unmapped, MappedSet, Pages, Span;
      TopMapped(tables, root, n, MAXVPN - 1);
      Uvmunmap(root, MAXVPN - 1, 1, false);
      ghost var s1, b1 := S(), bytes;
      UnmapKeeps(s.tables, s1.tables, rest, own, root, MAXVPN - 1, 1, Range(n) + {MAXVPN - 2, MAXVPN - 1});
      InSet(s1.tables, root, Range(n) + {MAXVPN - 2, MAXVPN - 1} - Span(MAXVPN - 1, MAXVPN), MAXVPN - 2);
      Uvmunmap(root, MAXVPN - 2, 1, false);
      ghost var s2, b2 := S(), bytes;
      UnmapKeeps(s1.tables, s2.tables, rest, own, root, MAXVPN - 2, 1,
                 Range(n) + {MAXVPN - 2, MAXVPN - 1} - Span(MAXVPN - 1, MAXVPN));
      OnlyPages(s2.tables, root, n);
      Uvmfree(root, sz);
      KeptTwice(S(), bytes, s2, b2, s1, b1);
      KeptTwice(S(), bytes, s1, b1, s, b);
      ValidTwice(s.tables, s1.tables, s2.tables, rest);
      ValidTwice(s.tables, s2.tables, tables, rest);
    }
  }

  const TRAMPOLINE: nat := MAXVPN * PGSIZE - PGSIZE
  const TRAPFRAME: nat := TRAMPOLINE - PGSIZE

  /** The pages a tree maps are exactly `pages`. */
  ghost predicate MappedSet(t: Tables, root: nat, pages: set<nat>) {
    forall vpn: nat :: vpn < MAXVPN ==> (Leaf(t, root, vpn).v <==> vpn in pages)
  }

  /** A process's space: `n` pages from zero, trampoline and trapframe on top,
      and no other mapping. */
  ghost predicate UserSpace(t: Tables, own: map<nat, set<nat>>, root: nat, n: nat) {
    root in own && own[root] == Range(n) && n <= MAXVPN - 2 && MappedSet(t, root, Range(n) + {MAXVPN - 2, MAXVPN - 1})
  }

  /** Pages lo .. lo + n - 1 of one tree became mapped to consecutive frames;
      nothing else did. */
  ghost predicate Mapped(t: Tables, t': Tables, own: map<nat, set<nat>>, r: nat, lo: nat, n: nat, ppn: nat,
                         perm: Perm) {
    forall root: nat, vpn: nat :: root in own && vpn < MAXVPN ==>
      Leaf(t', root, vpn)
      == if root == r && lo <= vpn < lo + n then Pte(true, ppn + (vpn - lo), perm) else Leaf(t, root, vpn)
  }

  lemma NoneMapped(t: Tables, own: map<nat, set<nat>>, r: nat, lo: nat, ppn: nat, perm: Perm)
    ensures Mapped(t, t, own, r, lo, 0, ppn, perm)
  {
  }

  lemma MappedFlat(t: Tables, t1: Tables, t2: Tables, own: map<nat, set<nat>>, r: nat, lo: nat, n: nat, ppn: nat,
                   perm: Perm)
    requires Mapped(t, t1, own, r, lo, n, ppn, perm) && SameFlat(t1, t2, own)
    ensures Mapped(t, t2, own, r, lo, n, ppn, perm)
  {
    hide Leaf;
  }

  lemma MappedAt(t: Tables, t1: Tables, own: map<nat, set<nat>>, r: nat, lo: nat, n: nat, ppn: nat, perm: Perm,
                 vpn: nat)
    requires Mapped(t, t1, own, r, lo, n, ppn, perm) && r in own && lo + n <= vpn < MAXVPN
    ensures Leaf(t1, r, vpn) == Leaf(t, r, vpn)
  {
    hide Leaf;
  }

  lemma MappedNext(t: Tables, t1: Tables, t2: Tables, own: map<nat, set<nat>>, r: nat, lo: nat, n: nat, ppn: nat,
                   perm: Perm)
    requires Mapped(t, t1, own, r, lo, n, ppn, perm)
    requires LeafSet(t1, t2, own, r, lo + n, Pte(true, ppn + n, perm))
    ensures Mapped(t, t2, own, r, lo, n + 1, ppn, perm)
  {
    hide Leaf;
  }

  /** One page of one tree got entry `e`; nothing else changed. */
  ghost predicate LeafSet(t: Tables, t': Tables, own: map<nat, set<nat>>, r: nat, page: nat, e: Pte) {
    forall root: nat, vpn: nat :: root in own && vpn < MAXVPN ==>
      Leaf(t', root, vpn) == if root == r && vpn == page then e else Leaf(t, root, vpn)
  }

  lemma LeafWrite(s: St, free: seq<nat>, held: set<nat>, pool: set<nat>, r: nat, page: nat, g: nat, e: Pte)
    requires Inv(s, free, held, pool, {}) && r in s.own && page < MAXVPN && page !in s.own[r] && (e.v ==> e.perm.Leaf())
    requires Exists(s.tables, r, PathNode(page, 0)) && g == Frame(s.tables, r, PathNode(page, 0))
    ensures g in s.tables && |s.tables[g]| == ENTRIES && Px0(page) < ENTRIES
    ensures Leaf(s.tables, r, page) == s.tables[g][Px0(page)]
    ensures Inv(St(s.tables[g := s.tables[g][Px0(page) := e]], s.own), free, held, pool, {})
    ensures LeafSet(s.tables, s.tables[g := s.tables[g][Px0(page) := e]], s.own, r, page, e)
  {
    PathUsed(s, r, page, 0);
    assert Leaf(s.tables, r, page) == s.tables[g][Px0(page)];
    NodesInTables(s);
    hide Exists, Frame, Leaf, Px0, Px1, Px2;
    var t' := s.tables[g := s.tables[g][Px0(page) := e]];
    assert Wrote(s, {}, t', g, Px0(page), e);
    SetLeafOk(s, t', free, held, pool, r, page, e);
  }

  lemma KeptWrite(s: St, t': Tables, bytes: map<nat, Bytes>, r: nat, page: nat, e: Pte)
    requires Shape(s, {}) && LeafSet(s.tables, t', s.own, r, page, e) && r in s.own && page !in s.own[r]
    ensures PagesKept(s, bytes, St(t', s.own), bytes)
  {
    hide Exists, Frame, Leaf;
  }


  /** Pages lo .. lo + n - 1 of one tree are unmapped; nothing else changed. */
  ghost predicate Unmapped(t: Tables, t': Tables, own: map<nat, set<nat>>, r: nat, lo: nat, n: nat) {
    forall root: nat, vpn: nat :: root in own && vpn < MAXVPN ==>
      Leaf(t', root, vpn) == if root == r && lo <= vpn < lo + n then Nil() else Leaf(t, root, vpn)
  }

  lemma NoneUnmapped(t: Tables, own: map<nat, set<nat>>, r: nat, lo: nat)
    ensures Unmapped(t, t, own, r, lo, 0)
  {
  }

  lemma UnmappedAt(t: Tables, t1: Tables, own: map<nat, set<nat>>, r: nat, lo: nat, n: nat, vpn: nat)
    requires Unmapped(t, t1, own, r, lo, n) && r in own && lo + n <= vpn < MAXVPN
    ensures Leaf(t1, r, vpn) == Leaf(t, r, vpn)
  {
    hide Leaf;
  }

  lemma UnmappedNext(t: Tables, t1: Tables, t2: Tables, own: map<nat, set<nat>>, r: nat, lo: nat, n: nat)
    requires Unmapped(t, t1, own, r, lo, n) && LeafSet(t1, t2, own, r, lo + n, Nil())
    ensures Unmapped(t, t2, own, r, lo, n + 1)
  {
    hide Leaf;
  }

  lemma OwnAll(own: map<nat, set<nat>>, r: nat, lo: nat)
    requires r in own
    ensures own == own[r := own[r] - Span(lo, lo)]
  {
    assert own[r] - Span(lo, lo) == own[r];
  }

  /** A mapped page has its lowest-level page-table page, and its entry there is
      a leaf. */
  lemma LeafPath(s: St, free: seq<nat>, held: set<nat>, pool: set<nat>, root: nat, vpn: nat)
    requires Inv(s, free, held, pool, {}) && root in s.own && vpn < MAXVPN && Leaf(s.tables, root, vpn).v
    ensures Exists(s.tables, root, PathNode(vpn, 0)) && Leaf(s.tables, root, vpn).perm.Leaf()
    ensures var g := Frame(s.tables, root, PathNode(vpn, 0));
            && g in s.tables && |s.tables[g]| == ENTRIES && Px0(vpn) < ENTRIES
            && Leaf(s.tables, root, vpn) == s.tables[g][Px0(vpn)]
  {
    PathUsed(s, root, vpn, 0);
    var u := NodeUse(root, PathNode(vpn, 0));
    assert NodeOk(s.tables, FrameOf(s, u), u.node);
  }

  /** What is still owned after unmapping a page is as it was. */
  lemma UnmapKept(s: St, b: map<nat, Bytes>, s': St, b': map<nat, Bytes>, r: nat, page: nat,
                  free: seq<nat>, held: set<nat>, pool: set<nat>, f: nat, doFree: bool, s0: St, b0: map<nat, Bytes>)
    requires Inv(s, free, held, pool, {}) && r in s.own && PagesKept(s, b, s0, b0)
    requires LeafSet(s.tables, s'.tables, s.own, r, page, Nil()) && f == Leaf(s.tables, r, page).ppn
    requires if doFree then page in s.own[r] && s'.own == s.own[r := s.own[r] - {page}] && b' == b[f := Fill(1)]
             else page !in s.own[r] && s'.own == s.own && b' == b
    ensures PagesKept(s', b', s0, b0)
  {
    hide Exists, Frame, Leaf;
    forall root: nat, vpn: nat | root in s'.own && vpn in s'.own[root]
      ensures PageKept(s', b', s0, b0, root, vpn)
    {
      assert PageKept(s, b, s0, b0, root, vpn);
      if doFree {
        assert Uses(s, {}, PageUse(r, page)) && FrameOf(s, PageUse(r, page)) == f;
        assert Uses(s, {}, PageUse(root, vpn)) && FrameOf(s, PageUse(root, vpn)) == Leaf(s.tables, root, vpn).ppn;
      }
    }
  }

  lemma SpanNext(pages: set<nat>, lo: nat, a: nat)
    requires lo <= a
    ensures pages - Span(lo, a) - {a} == pages - Span(lo, a + 1)
  {
  }

  lemma NotHeld(s: St, free: seq<nat>, held: set<nat>, pool: set<nat>, root: nat, vpn: nat)
    requires Inv(s, free, held, pool, {}) && root in s.own && vpn in s.own[root]
    ensures Leaf(s.tables, root, vpn).ppn !in held
  {
    hide Leaf;
    assert Uses(s, {}, PageUse(root, vpn)) && FrameOf(s, PageUse(root, vpn)) == Leaf(s.tables, root, vpn).ppn;
  }

  lemma LeafSetOwn(t: Tables, t': Tables, own: map<nat, set<nat>>, own': map<nat, set<nat>>, r: nat, page: nat)
    requires LeafSet(t, t', own, r, page, Nil()) && own.Keys == own'.Keys
    ensures LeafSet(t, t', own', r, page, Nil())
  {
    hide Leaf;
  }

  lemma KeptOwn(s: St, b: map<nat, Bytes>, t': Tables, b': map<nat, Bytes>, r: nat, pages: set<nat>)
    requires PagesKept(s, b, St(t', s.own), b') && (r in s.own ==> s.own[r] <= pages)
    ensures PagesKept(s, b, St(t', s.own[r := pages]), b')
  {
    hide Leaf;
    forall root: nat, vpn: nat | root in s.own && vpn in s.own[root]
      ensures PageKept(s, b, St(t', s.own[r := pages]), b', root, vpn)
    {
      assert PageKept(s, b, St(t', s.own), b', root, vpn);
    }
  }

  lemma KeptBytes(s0: St, b0: map<nat, Bytes>, s: St, b: map<nat, Bytes>, f: nat, x: Bytes)
    requires PagesKept(s0, b0, s, b) && !Used(s, {}, f)
    ensures PagesKept(s0, b0, s, b[f := x])
  {
    hide Exists, Frame, Leaf;
    forall root: nat, vpn: nat | root in s0.own && vpn in s0.own[root]
      ensures PageKept(s0, b0, s, b[f := x], root, vpn)
    {
      assert PageKept(s0, b0, s, b, root, vpn);
      assert Uses(s, {}, PageUse(root, vpn)) && FrameOf(s, PageUse(root, vpn)) == Leaf(s.tables, root, vpn).ppn;
    }
  }

  lemma HeldUnused(s: St, free: seq<nat>, held: set<nat>, pool: set<nat>, f: nat)
    requires Inv(s, free, held, pool, {}) && f in held
    ensures !Used(s, {}, f)
  {
    hide Exists, Frame, Leaf;
  }

  lemma MappedOne(t: Tables, t': Tables, own: map<nat, set<nat>>, r: nat, vpn: nat, ppn: nat, perm: Perm)
    requires Mapped(t, t', own, r, vpn, 1, ppn, perm) && r in own && vpn < MAXVPN
    ensures Leaf(t', r, vpn) == Pte(true, ppn, perm) && LeafSet(t, t', own, r, vpn, Leaf(t', r, vpn))
  {
    hide Leaf;
  }

  // ---- Growing and undoing ----

  lemma PagesMonotone(a: nat, b: nat)
    requires a <= b
    ensures Pages(a) <= Pages(b)
  {
  }

  /** Page `p` starts below `newsz` exactly if it is one of its pages. */
  lemma RoundUp(oldsz: nat, newsz: nat, p: nat)
    ensures Pages(p * PGSIZE) == p && p * PGSIZE / PGSIZE == p
    ensures p * PGSIZE < newsz <==> p < Pages(newsz)
    ensures oldsz <= newsz ==> Pages(oldsz) <= Pages(newsz)
  {
  }

  lemma RangeLess(p: nat, n: nat)
    requires p <= n
    ensures Range(n) - Span(p, n) == Range(p)
  {
  }

  lemma RangeNext(p: nat)
    ensures Range(p) + {p} == Range(p + 1)
  {
  }

  lemma OwnedMapped(s: St, free: seq<nat>, held: set<nat>, pool: set<nat>, root: nat, n: nat)
    requires Inv(s, free, held, pool, {}) && root in s.own && s.own[root] == Range(n)
    ensures n <= MAXVPN && forall p: nat :: p < n ==> Leaf(s.tables, root, p).v && p in s.own[root]
  {
    hide Leaf;
    if n > 0 {
      assert n - 1 in s.own[root];
    }
  }

  ghost predicate ZeroPages(t: Tables, bytes: map<nat, Bytes>, root: nat, lo: nat, hi: nat) {
    forall vpn: nat :: lo <= vpn < hi ==> PageHas(t, bytes, root, vpn, Fill(0), UserPerm())
  }

  ghost predicate PageHas(t: Tables, bytes: map<nat, Bytes>, root: nat, vpn: nat, content: Bytes, perm: Perm) {
    && Leaf(t, root, vpn) == Pte(true, Leaf(t, root, vpn).ppn, perm)
    && Body(bytes, Leaf(t, root, vpn).ppn) == content
  }

  /** What a process gets when it grows: pages it may read, write and execute, and
      nothing in them. */
  lemma GrownPage(t: Tables, bytes: map<nat, Bytes>, root: nat, lo: nat, hi: nat, vpn: nat)
    requires ZeroPages(t, bytes, root, lo, hi) && lo <= vpn < hi
    ensures var e := Leaf(t, root, vpn);
            && e.v && e.perm.u && e.perm.r && e.perm.w && e.perm.x
            && |Body(bytes, e.ppn)| == PGSIZE && forall k :: 0 <= k < PGSIZE ==> Body(bytes, e.ppn)[k] == 0
  {
    hide Leaf;
    assert PageHas(t, bytes, root, vpn, Fill(0), UserPerm());
  }

  ghost predicate NonePresent(t: Tables, root: nat, lo: nat, hi: nat) {
    forall vpn: nat :: lo <= vpn < hi ==> !Leaf(t, root, vpn).v
  }

  ghost predicate FlatExcept(t: Tables, t': Tables, own: map<nat, set<nat>>, r: nat, lo: nat, hi: nat) {
    forall root: nat, vpn: nat :: root in own && vpn < MAXVPN && !(root == r && lo <= vpn < hi) ==>
      Leaf(t', root, vpn) == Leaf(t, root, vpn)
  }

  lemma GrowStart(t: Tables, own: map<nat, set<nat>>, bytes: map<nat, Bytes>, r: nat, lo: nat, hi: nat)
    ensures FlatExcept(t, t, own, r, lo, hi) && FlatExcept(t, t, own, r, lo, lo) && ZeroPages(t, bytes, r, lo, lo)
  {
  }

  lemma AtPage(t: Tables, root: nat, p: nat, hi: nat)
    requires NonePresent(t, root, p, hi) && p < hi
    ensures !Leaf(t, root, p).v
  {
  }

  lemma FlatGrown(t: Tables, t1: Tables, t2: Tables, own: map<nat, set<nat>>, own1: map<nat, set<nat>>,
                  r: nat, lo: nat, p: nat, hi: nat)
    requires own.Keys == own1.Keys
    requires FlatExcept(t, t1, own, r, lo, p) && LeafSet(t1, t2, own1, r, p, Leaf(t2, r, p)) && lo <= p < hi <= MAXVPN
    requires NonePresent(t1, r, p, hi) && r in own
    ensures FlatExcept(t, t2, own, r, lo, p + 1) && NonePresent(t2, r, p + 1, hi)
  {
    hide Leaf;
  }

  lemma FlatWider(t: Tables, t1: Tables, own: map<nat, set<nat>>, r: nat, lo: nat, p: nat, hi: nat)
    requires FlatExcept(t, t1, own, r, lo, p) && p <= hi
    ensures FlatExcept(t, t1, own, r, lo, hi)
  {
    hide Leaf;
  }

  lemma ZeroGrown(s1: St, b1: map<nat, Bytes>, s2: St, b2: map<nat, Bytes>, r: nat, lo: nat, p: nat)
    requires ZeroPages(s1.tables, b1, r, lo, p) && PagesKept(s1, b1, s2, b2) && r in s1.own && s1.own[r] == Range(p)
    requires PageHas(s2.tables, b2, r, p, Fill(0), UserPerm())
    ensures ZeroPages(s2.tables, b2, r, lo, p + 1)
  {
    hide Leaf, Fill;
    forall vpn: nat | lo <= vpn < p
      ensures PageHas(s2.tables, b2, r, vpn, Fill(0), UserPerm())
    {
      assert PageHas(s1.tables, b1, r, vpn, Fill(0), UserPerm());
      assert PageKept(s1, b1, s2, b2, r, vpn);
    }
  }

  /** Growing and then unmapping the new pages again keeps what there was. */
  lemma Undone(s: St, b: map<nat, Bytes>, s2: St, b2: map<nat, Bytes>, s3: St, b3: map<nat, Bytes>, r: nat, lo: nat,
               p: nat)
    requires PagesKept(s, b, s2, b2) && PagesKept(s3, b3, s2, b2) && s3.own == s.own
    ensures PagesKept(s, b, s3, b3)
  {
    hide Leaf;
    forall root: nat, vpn: nat | root in s.own && vpn in s.own[root]
      ensures PageKept(s, b, s3, b3, root, vpn)
    {
      assert PageKept(s, b, s2, b2, root, vpn);
      assert PageKept(s3, b3, s2, b2, root, vpn);
    }
  }

  lemma FlatUndone(t: Tables, t1: Tables, t2: Tables, t3: Tables, own: map<nat, set<nat>>, own1: map<nat, set<nat>>,
                   r: nat, lo: nat, p: nat, hi: nat)
    requires own.Keys == own1.Keys
    requires r in own && lo <= p <= hi <= MAXVPN && NonePresent(t1, r, p, hi)
    requires FlatExcept(t, t1, own, r, lo, p) && SameFlat(t1, t2, own1) && Unmapped(t2, t3, own1, r, lo, p - lo)
    ensures FlatExcept(t, t3, own, r, lo, hi) && NonePresent(t3, r, lo, hi)
  {
    hide Leaf;
  }

  ghost predicate Copied(t0: Tables, b0: map<nat, Bytes>, parent: nat, t: Tables, b: map<nat, Bytes>, child: nat,
                         hi: nat) {
    forall vpn: nat :: vpn < hi ==>
      PageHas(t, b, child, vpn, Body(b0, Leaf(t0, parent, vpn).ppn), Leaf(t0, parent, vpn).perm)
  }

  lemma CopyStart(s: St, b: map<nat, Bytes>, parent: nat, child: nat, n: nat)
    requires child in s.own && s.own[child] == {}
    ensures Copied(s.tables, b, parent, s.tables, b, child, 0) && s.own == s.own[child := Range(0)]
  {
    assert Range(0) == {};
  }

  lemma KeptAt(s: St, b: map<nat, Bytes>, s1: St, b1: map<nat, Bytes>, root: nat, p: nat)
    requires PagesKept(s, b, s1, b1) && root in s.own && p in s.own[root]
    ensures PageKept(s, b, s1, b1, root, p)
  {
  }

  lemma CopyGrown(s: St, b: map<nat, Bytes>, s1: St, b1: map<nat, Bytes>, s2: St, b2: map<nat, Bytes>, parent: nat,
                  child: nat, p: nat)
    requires Copied(s.tables, b, parent, s1.tables, b1, child, p) && PagesKept(s1, b1, s2, b2)
    requires child in s1.own && s1.own[child] == Range(p)
    requires PageHas(s2.tables, b2, child, p, Body(b, Leaf(s.tables, parent, p).ppn), Leaf(s.tables, parent, p).perm)
    ensures Copied(s.tables, b, parent, s2.tables, b2, child, p + 1)
  {
    hide Leaf;
    forall vpn: nat | vpn < p
      ensures PageHas(s2.tables, b2, child, vpn,
                      Body(b, Leaf(s.tables, parent, vpn).ppn), Leaf(s.tables, parent, vpn).perm)
    {
      assert PageHas(s1.tables, b1, child, vpn,
                     Body(b, Leaf(s.tables, parent, vpn).ppn), Leaf(s.tables, parent, vpn).perm);
      assert PageKept(s1, b1, s2, b2, child, vpn);
    }
  }

  // ---- Freeing ----

  lemma FreeStart(s: St, b: map<nat, Bytes>, r: nat, n: Node)
    ensures SameValid(s.tables, s.tables, s.own) && ShrunkBy(s.tables, s.tables, s.own, r, n) && PagesKept(s, b, s, b)
  {
  }

  /** An entry of a tree without mappings is empty or leads to a page-table
      page, so "freewalk: leaf" is never reached. */
  lemma EntryKind(s: St, free: seq<nat>, held: set<nat>, pool: set<nat>, r: nat, n: Node, f: nat, k: nat)
    requires Inv(s, free, held, pool, {}) && Uses(s, {}, NodeUse(r, n)) && FrameOf(s, NodeUse(r, n)) == f && k < ENTRIES
    requires NoLeaves(s.tables, r)
    ensures f in s.tables && |s.tables[f]| == ENTRIES && Entry(s.tables, f, k) == s.tables[f][k]
    ensures s.tables[f][k].v ==> !s.tables[f][k].perm.Leaf() && !n.Low?
    ensures s.tables[f][k].v ==>
              Uses(s, {}, NodeUse(r, Child(n, k))) && FrameOf(s, NodeUse(r, Child(n, k))) == s.tables[f][k].ppn
  {
    assert NodeOk(s.tables, f, n);
    if n.Low? {
      TopUsed(s, {}, r);
      assert NodeOk(s.tables, r, Top);
      PageRoundTrip(n.i, n.j, k);
      assert Leaf(s.tables, r, Vpn(n.i, n.j, k)) == s.tables[f][k];
    }
  }

  lemma AfterChild(s1: St, s2: St, free: seq<nat>, held: set<nat>, pool: set<nat>, r: nat, n: Node, f: nat, k: nat)
    requires !n.Low? && k < ENTRIES && s1.own == s2.own && Inv(s2, free, held, pool, {NodeUse(r, Child(n, k))})
    requires Uses(s1, {}, NodeUse(r, n)) && FrameOf(s1, NodeUse(r, n)) == f
    requires Uses(s1, {}, NodeUse(r, Child(n, k)))
    requires ShrunkBy(s1.tables, s2.tables, s1.own, r, Child(n, k))
    ensures Uses(s2, {NodeUse(r, Child(n, k))}, NodeUse(r, n)) && FrameOf(s2, NodeUse(r, n)) == f
    ensures Exists(s2.tables, r, Child(n, k))
    ensures Frame(s2.tables, r, Child(n, k)) == FrameOf(s1, NodeUse(r, Child(n, k)))
    ensures f in s2.tables && |s2.tables[f]| == ENTRIES
  {
    assert n != Child(n, k) && !Under(n, Child(n, k));
    hide Exists, Frame;
    assert NodeOk(s2.tables, f, n);
  }

  lemma ClearEntry(s2: St, s3: St, free: seq<nat>, held: set<nat>, pool: set<nat>, r: nat, n: Node, f: nat, k: nat)
    requires !n.Low? && k < ENTRIES && Inv(s2, free, held, pool, {NodeUse(r, Child(n, k))})
    requires Uses(s2, {NodeUse(r, Child(n, k))}, NodeUse(r, n)) && FrameOf(s2, NodeUse(r, n)) == f
    requires Exists(s2.tables, r, Child(n, k)) && Frame(s2.tables, r, Child(n, k)) !in s2.tables
    requires f in s2.tables && |s2.tables[f]| == ENTRIES && s3 == St(s2.tables[f := s2.tables[f][k := Nil()]], s2.own)
    ensures Inv(s3, free, held, pool, {}) && SameValid(s2.tables, s3.tables, s2.own)
    ensures ShrunkBy(s2.tables, s3.tables, s2.own, r, n)
    ensures Uses(s3, {}, NodeUse(r, n)) && FrameOf(s3, NodeUse(r, n)) == f && !Exists(s3.tables, r, Child(n, k))
  {
    var c := NodeUse(r, Child(n, k));
    hide Exists, Frame, Leaf;
    forall u | Uses(s2, {c}, u) && u.NodeUse?
      ensures FrameOf(s2, u) in s2.tables
    {
      assert NodeOk(s2.tables, FrameOf(s2, u), u.node);
    }
    assert Wrote(s2, {c}, s3.tables, f, k, Nil());
    ClearOk(s2, s3.tables, free, held, pool, r, n, k);
  }

  lemma ShrunkTwice(t0: Tables, t1: Tables, t2: Tables, own: map<nat, set<nat>>, r: nat, n: Node, m: Node)
    requires ShrunkBy(t0, t1, own, r, n) && ShrunkBy(t1, t2, own, r, m) && Under(m, n)
    ensures ShrunkBy(t0, t2, own, r, n)
  {
    hide Exists, Frame;
  }

  lemma ValidTwice(t0: Tables, t1: Tables, t2: Tables, own: map<nat, set<nat>>)
    requires SameValid(t0, t1, own) && SameValid(t1, t2, own)
    ensures SameValid(t0, t2, own)
  {
    hide Leaf;
  }

  lemma NoLeavesKept(t: Tables, t': Tables, own: map<nat, set<nat>>, r: nat)
    requires SameValid(t, t', own) && r in own && NoLeaves(t, r)
    ensures NoLeaves(t', r)
  {
    hide Leaf;
  }

  lemma PagesValid(s: St, s': St, b: map<nat, Bytes>, free: seq<nat>, held: set<nat>, pool: set<nat>, gone: set<Use>)
    requires Inv(s, free, held, pool, gone) && SameValid(s.tables, s'.tables, s.own) && s'.own == s.own
    ensures PagesKept(s, b, s', b)
  {
    hide Leaf;
  }

  lemma EntriesGone(s1: St, s2: St, s3: St, r: nat, n: Node, f: nat, k: nat)
    requires !n.Low? && k < ENTRIES && r in s1.own && s1.own == s2.own == s3.own
    requires Uses(s1, {}, NodeUse(r, n)) && FrameOf(s1, NodeUse(r, n)) == f
    requires Uses(s3, {}, NodeUse(r, n)) && FrameOf(s3, NodeUse(r, n)) == f
    requires ShrunkBy(s1.tables, s2.tables, s1.own, r, Child(n, k)) && ShrunkBy(s2.tables, s3.tables, s1.own, r, n)
    requires !Exists(s3.tables, r, Child(n, k)) && forall i :: 0 <= i < k ==> !Entry(s1.tables, f, i).v
    ensures forall i :: 0 <= i < k + 1 ==> !Entry(s3.tables, f, i).v
  {
    forall i: nat | i < k + 1
      ensures !Entry(s3.tables, f, i).v
    {
      assert Exists(s3.tables, r, Child(n, i)) <==> Entry(s3.tables, f, i).v;
      assert Exists(s1.tables, r, Child(n, i)) <==> Entry(s1.tables, f, i).v;
    }
  }

  lemma FreedPages(s: St, b: map<nat, Bytes>, free: seq<nat>, held: set<nat>, pool: set<nat>, r: nat, n: Node, f: nat)
    requires Inv(s, free, held, pool, {}) && Uses(s, {}, NodeUse(r, n)) && FrameOf(s, NodeUse(r, n)) == f
    requires SameValid(s.tables, Minus(s.tables, f), s.own)
    ensures PagesKept(s, b, St(Minus(s.tables, f), s.own), b[f := Fill(1)]) && f !in Minus(s.tables, f)
  {
    hide Leaf, Exists, Frame;
    forall root: nat, vpn: nat | root in s.own && vpn in s.own[root]
      ensures PageKept(s, b, St(Minus(s.tables, f), s.own), b[f := Fill(1)], root, vpn)
    {
      assert Uses(s, {}, PageUse(root, vpn)) && FrameOf(s, PageUse(root, vpn)) == Leaf(s.tables, root, vpn).ppn;
    }
  }

  lemma NoPages(s: St, root: nat)
    requires root in s.own && s.own[root] == Range(Pages(0))
    ensures Pages(0) == 0 && s.own == s.own[root := s.own[root] - Span(0, 0)]
  {
    OwnAll(s.own, root, 0);
  }

  lemma UnmappedAll(t: Tables, t1: Tables, own: map<nat, set<nat>>, own1: map<nat, set<nat>>, r: nat, n: nat)
    requires Unmapped(t, t1, own, r, 0, n) && NonePresent(t, r, n, MAXVPN) && r in own && own1.Keys == own.Keys
    ensures NoLeaves(t1, r) && SameValid(t, t1, own1 - {r})
  {
    hide Leaf;
  }

  lemma RootUsed(s: St, root: nat)
    requires root in s.own
    ensures Uses(s, {}, NodeUse(root, Top)) && FrameOf(s, NodeUse(root, Top)) == root
  {
  }

  lemma RootGone(s: St, b: map<nat, Bytes>, s1: St, b1: map<nat, Bytes>, s2: St, b2: map<nat, Bytes>, root: nat)
    requires PagesKept(s1, b1, s, b) && PagesKept(s1, b1, s2, b2) && s1.own == s2.own && s1.own.Keys == s.own.Keys
    requires SameValid(s.tables, s1.tables, s1.own - {root}) && SameValid(s1.tables, s2.tables, s1.own)
    requires forall r :: r in s.own && r != root ==> s1.own[r] == s.own[r]
    ensures PagesKept(St(s2.tables, s2.own - {root}), b2, s, b)
    ensures SameValid(s.tables, s2.tables, s2.own - {root}) && s2.own - {root} == s.own - {root}
  {
    hide Leaf;
    var s3 := St(s2.tables, s2.own - {root});
    forall r: nat, vpn: nat | r in s3.own && vpn in s3.own[r]
      ensures PageKept(s3, b2, s, b, r, vpn)
    {
      assert PageKept(s1, b1, s, b, r, vpn);
      assert PageKept(s1, b1, s2, b2, r, vpn);
    }
  }

  // ---- The process's page table ----

  lemma SameIsValid(t: Tables, t': Tables, own: map<nat, set<nat>>)
    requires SameFlat(t, t', own)
    ensures SameValid(t, t', own)
  {
    hide Leaf;
  }

  lemma FreshEmpty(t: Tables, r: nat)
    requires NoLeaves(t, r)
    ensures MappedSet(t, r, {}) && TRAMPOLINE / PGSIZE == MAXVPN - 1 == (TRAMPOLINE + PGSIZE - 1) / PGSIZE
    ensures TRAPFRAME / PGSIZE == MAXVPN - 2 == (TRAPFRAME + PGSIZE - 1) / PGSIZE
    ensures !Leaf(t, r, MAXVPN - 1).v
  {
    hide Leaf;
  }

  /** Mapping pages of one tree, as the others and as its set of pages see it. */
  lemma MapKeeps(t: Tables, t': Tables, rest: map<nat, set<nat>>, own: map<nat, set<nat>>, r: nat, lo: nat, n: nat,
                 ppn: nat, perm: Perm, pages: set<nat>)
    requires Mapped(t, t', own, r, lo, n, ppn, perm) && MappedSet(t, r, pages) && r in own && r !in rest
    requires rest.Keys <= own.Keys
    ensures MappedSet(t', r, pages + Span(lo, lo + n)) && SameValid(t, t', rest)
  {
    hide Leaf;
  }

  lemma UnmapKeeps(t: Tables, t': Tables, rest: map<nat, set<nat>>, own: map<nat, set<nat>>, r: nat, lo: nat, n: nat,
                   pages: set<nat>)
    requires Unmapped(t, t', own, r, lo, n) && MappedSet(t, r, pages) && r in own && r !in rest && rest.Keys <= own.Keys
    ensures MappedSet(t', r, pages - Span(lo, lo + n)) && SameValid(t, t', rest)
  {
    hide Leaf;
  }

  lemma EmptySet(t: Tables, r: nat, lo: nat)
    requires MappedSet(t, r, {} + Span(lo, lo))
    ensures MappedSet(t, r, {})
  {
    hide Leaf;
  }

  lemma NotIn(t: Tables, r: nat, pages: set<nat>, vpn: nat)
    requires MappedSet(t, r, pages) && vpn !in pages && vpn < MAXVPN
    ensures !Leaf(t, r, vpn).v
  {
    hide Leaf;
  }

  lemma InSet(t: Tables, r: nat, pages: set<nat>, vpn: nat)
    requires MappedSet(t, r, pages) && vpn in pages && vpn < MAXVPN
    ensures Leaf(t, r, vpn).v
  {
    hide Leaf;
  }

  lemma OnlyTop(t: Tables, r: nat, lo: nat)
    requires MappedSet(t, r, {} + Span(MAXVPN - 1, MAXVPN) + Span(lo, lo))
    ensures MappedSet(t, r, Span(MAXVPN - 1, MAXVPN)) && Leaf(t, r, MAXVPN - 1).v
    ensures Span(MAXVPN - 1, MAXVPN) - Span(MAXVPN - 1, MAXVPN) == {}
  {
    hide Leaf;
  }

  lemma EmptyAbove(t: Tables, r: nat, n: nat)
    requires MappedSet(t, r, {})
    ensures NonePresent(t, r, n, MAXVPN)
  {
    hide Leaf;
  }

  lemma TopMapped(t: Tables, r: nat, n: nat, vpn: nat)
    requires MappedSet(t, r, Range(n) + {MAXVPN - 2, MAXVPN - 1}) && MAXVPN - 2 <= vpn < MAXVPN && n <= MAXVPN - 2
    ensures Leaf(t, r, vpn).v && vpn !in Range(n)
    ensures MAXVPN - 2 in Range(n) + {MAXVPN - 2, MAXVPN - 1} - Span(MAXVPN - 1, MAXVPN) && MAXVPN - 2 !in Range(n)
  {
    hide Leaf;
  }

  lemma OnlyPages(t: Tables, r: nat, n: nat)
    requires MappedSet(t, r, Range(n) + {MAXVPN - 2, MAXVPN - 1}
                             - Span(MAXVPN - 1, MAXVPN) - Span(MAXVPN - 2, MAXVPN - 1))
    ensures NonePresent(t, r, n, MAXVPN)
  {
    hide Leaf;
  }

  lemma TopTwo(t1: Tables, t2: Tables, t3: Tables, own: map<nat, set<nat>>, r: nat, trampoline: nat, trapframe: nat)
    requires r in own && own[r] == {}
    requires Mapped(t1, t2, own, r, MAXVPN - 1, 1, trampoline, Perm(true, false, true, false))
    requires Mapped(t2, t3, own, r, MAXVPN - 2, 1, trapframe, Perm(true, true, false, false))
    requires MappedSet(t3, r, {} + Span(MAXVPN - 1, MAXVPN) + Span(MAXVPN - 2, MAXVPN - 1))
    ensures UserSpace(t3, own, r, 0)
    ensures Leaf(t3, r, MAXVPN - 1) == Pte(true, trampoline, Perm(true, false, true, false))
    ensures Leaf(t3, r, MAXVPN - 2) == Pte(true, trapframe, Perm(true, true, false, false))
  {
    hide Leaf;
    assert Range(0) == {};
    assert {} + Span(MAXVPN - 1, MAXVPN) + Span(MAXVPN - 2, MAXVPN - 1) == Range(0) + {MAXVPN - 2, MAXVPN - 1};
  }

  lemma Unowned(s: St, free: seq<nat>, held: set<nat>, pool: set<nat>, root: nat, vpn: nat)
    requires Inv(s, free, held, pool, {}) && root in s.own && !Leaf(s.tables, root, vpn).v
    ensures vpn !in s.own[root]
  {
  }

  lemma InvShape(s: St, free: seq<nat>, held: set<nat>, pool: set<nat>)
    requires Inv(s, free, held, pool, {})
    ensures Shape(s, {})
  {
  }

  lemma WalkStart(s: St, root: nat, vpn: nat)
    ensures Exists(s.tables, root, PathNode(vpn, 2)) && Frame(s.tables, root, PathNode(vpn, 2)) == root
  {
  }

  lemma NoPath(s: St, root: nat, vpn: nat, level: nat)
    requires 1 <= level <= 2 && !Exists(s.tables, root, PathNode(vpn, level - 1))
    ensures !Exists(s.tables, root, PathNode(vpn, 0))
  {
  }

  lemma KeptRefl(s: St, bytes: map<nat, Bytes>)
    ensures SameFlat(s.tables, s.tables, s.own) && PagesKept(s, bytes, s, bytes)
  {
  }

  /** A link keeps the flat maps and touches the contents of an unused frame only. */
  lemma KeptLink(s0: St, b0: map<nat, Bytes>, s: St, b: map<nat, Bytes>, t': Tables, f: nat, x: Bytes)
    requires PagesKept(s0, b0, s, b) && SameFlat(s0.tables, s.tables, s0.own) && s.own == s0.own
    requires SameFlat(s.tables, t', s.own) && !Used(s, {}, f) && Shape(s, {})
    ensures PagesKept(s0, b0, St(t', s.own), b[f := x]) && SameFlat(s0.tables, t', s0.own)
  {
    hide Exists, Frame, Leaf;
    forall root: nat, vpn: nat | root in s0.own && vpn in s0.own[root]
      ensures PageKept(s0, b0, St(t', s.own), b[f := x], root, vpn)
    {
      assert PageKept(s0, b0, s, b, root, vpn);
      assert Uses(s, {}, PageUse(root, vpn)) && FrameOf(s, PageUse(root, vpn)) == Leaf(s.tables, root, vpn).ppn;
    }
  }
}
