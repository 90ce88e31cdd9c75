/** Sv39 page tables as a tree of page frames. A frame used as a page-table page
    holds 512 entries; a page number below MAXVPN is split into three 9-bit
    indices. The tree's meaning is a flat map from page number to leaf entry, and
    every frame of the pool has exactly one use. */
module Sv39 {

  const PGSIZE: nat := 4096
  const ENTRIES: nat := 512
  /** MAXVA in pages: one bit less than the 27 the three indices could cover. */
  const MAXVPN: nat := 0x400_0000

  datatype Perm = Perm(r: bool, w: bool, x: bool, u: bool) {
    /** An entry with none of these set points to a page-table page. */
    predicate Leaf() { r || w || x }
  }

  datatype Pte = Pte(v: bool, ppn: nat, perm: Perm)

  type Tables = map<nat, seq<Pte>>

  function None4(): (p: Perm) { Perm(false, false, false, false) }

  function Nil(): (e: Pte) { Pte(false, 0, None4()) }

  function ZeroTable(): (t: seq<Pte>)
    ensures |t| == ENTRIES && forall i :: 0 <= i < ENTRIES ==> t[i] == Nil()
  {
    seq(ENTRIES, _ => Nil())
  }

  /** PX(level, va) for the page number va / PGSIZE. */
  function Px2(vpn: nat): (i: nat) { vpn / 0x4_0000 % ENTRIES }
  function Px1(vpn: nat): (i: nat) { vpn / 0x200 % ENTRIES }
  function Px0(vpn: nat): (i: nat) { vpn % ENTRIES }

  function Vpn(i: nat, j: nat, k: nat): (vpn: nat) { i * 0x4_0000 + j * 0x200 + k }

  /** Distinct pages below MAXVA use distinct slots, and every slot under the
      lower half of the root is some page's. */
  lemma SlotRoundTrip(vpn: nat)
    requires vpn < MAXVPN
    ensures Px2(vpn) < 256 && Px1(vpn) < ENTRIES && Px0(vpn) < ENTRIES
    ensures Vpn(Px2(vpn), Px1(vpn), Px0(vpn)) == vpn
  {
  }

  lemma PageRoundTrip(i: nat, j: nat, k: nat)
    requires i < 256 && j < ENTRIES && k < ENTRIES
    ensures Vpn(i, j, k) < MAXVPN
    ensures Px2(Vpn(i, j, k)) == i && Px1(Vpn(i, j, k)) == j && Px0(Vpn(i, j, k)) == k
  {
  }

  // ---- The tree ----

  function Entry(t: Tables, f: nat, i: nat): (e: Pte) {
    if f in t && i < |t[f]| then t[f][i] else Nil()
  }

  /** A page-table page of a tree, by its path from the root. */
  datatype Node = Top | Mid(i: nat) | Low(i: nat, j: nat)

  ghost predicate Exists(t: Tables, root: nat, n: Node) {
    match n
    case Top => true
    case Mid(i) => i < ENTRIES && Entry(t, root, i).v
    case Low(i, j) => i < ENTRIES && Entry(t, root, i).v && j < ENTRIES && Entry(t, Entry(t, root, i).ppn, j).v
  }

  ghost function Frame(t: Tables, root: nat, n: Node): (f: nat) {
    match n
    case Top => root
    case Mid(i) => Entry(t, root, i).ppn
    case Low(i, j) => Entry(t, Entry(t, root, i).ppn, j).ppn
  }

  /** What the tree says about a page: the flat map it stands for. */
  ghost function Leaf(t: Tables, root: nat, vpn: nat): (e: Pte) {
    var n := Low(Px2(vpn), Px1(vpn));
    if Exists(t, root, n) then Entry(t, Frame(t, root, n), Px0(vpn)) else Nil()
  }

  // ---- Uses of frames ----

  /** The page-table pages, and for each root the pages whose memory it owns. */
  datatype St = St(tables: Tables, own: map<nat, set<nat>>)

  datatype Use = NodeUse(root: nat, node: Node) | PageUse(root: nat, vpn: nat)

  /** Uses of `gone` have given up their frame although an entry still names it. */
  ghost predicate Uses(s: St, gone: set<Use>, u: Use) {
    && u.root in s.own && u !in gone
    && (u.NodeUse? ==> Exists(s.tables, u.root, u.node))
    && (u.PageUse? ==> u.vpn in s.own[u.root])
  }

  ghost function FrameOf(s: St, u: Use): (f: nat) {
    match u
    case NodeUse(root, n) => Frame(s.tables, root, n)
    case PageUse(root, vpn) => Leaf(s.tables, root, vpn).ppn
  }

  ghost predicate Used(s: St, gone: set<Use>, f: nat) {
    exists u :: Uses(s, gone, u) && FrameOf(s, u) == f
  }

  /** Page-table pages have 512 entries; inner entries are no leaves and lie under
      the lower half of the root; entries of the lowest level are leaves. */
  ghost predicate Shape(s: St, gone: set<Use>) {
    && (forall u :: Uses(s, gone, u) && u.NodeUse? ==> NodeOk(s.tables, FrameOf(s, u), u.node))
    && (forall root, vpn :: root in s.own && vpn in s.own[root] ==> vpn < MAXVPN && Leaf(s.tables, root, vpn).v)
  }

  ghost predicate NodeOk(t: Tables, f: nat, n: Node) {
    && f in t && |t[f]| == ENTRIES
    && (forall i :: 0 <= i < ENTRIES && t[f][i].v ==> (t[f][i].perm.Leaf() <==> n.Low?))
    && (n.Top? ==> forall i :: 256 <= i < ENTRIES ==> !t[f][i].v)
  }

  ghost predicate OneUse(s: St, gone: set<Use>) {
    forall u, w :: Uses(s, gone, u) && Uses(s, gone, w) && FrameOf(s, u) == FrameOf(s, w) ==> u == w
  }

  ghost predicate Distinct(q: seq<nat>) {
    forall i, j :: 0 <= i < j < |q| ==> q[i] != q[j]
  }

  /** Every frame of the pool is on the free list once, or held by the kernel
      outside page tables, or used by exactly one page-table page or page. */
  ghost predicate Places(s: St, free: seq<nat>, held: set<nat>, pool: set<nat>, gone: set<Use>) {
    && Distinct(free)
    && (forall f :: f in free ==> f in pool && f !in held)
    && held <= pool
    && (forall u :: Uses(s, gone, u) ==> FrameOf(s, u) in pool && FrameOf(s, u) !in held && FrameOf(s, u) !in free)
    && (forall f :: f in pool ==> f in free || f in held || Used(s, gone, f))
  }

  ghost predicate Inv(s: St, free: seq<nat>, held: set<nat>, pool: set<nat>, gone: set<Use>) {
    Shape(s, gone) && OneUse(s, gone) && Places(s, free, held, pool, gone)
  }

  /** The flat maps are the same. */
  ghost predicate SameFlat(t: Tables, t': Tables, own: map<nat, set<nat>>) {
    forall root: nat, vpn: nat :: root in own && vpn < MAXVPN ==> Leaf(t', root, vpn) == Leaf(t, root, vpn)
  }

  ghost predicate NoLeaves(t: Tables, root: nat) {
    forall vpn: nat :: vpn < MAXVPN ==> !Leaf(t, root, vpn).v
  }

  // ---- Frames come and go ----

  lemma Alloc(s: St, free: seq<nat>, held: set<nat>, pool: set<nat>)
    requires Inv(s, free, held, pool, {}) && |free| > 0
    ensures Inv(s, free[1..], held + {free[0]}, pool, {}) && free[0] !in held && !Used(s, {}, free[0])
  {
    hide Frame, Leaf, Exists;
    var rest := free[1..];
    assert free == [free[0]] + rest;
    assert forall i :: 0 <= i < |rest| ==> rest[i] == free[i + 1];
  }

  lemma Release(s: St, free: seq<nat>, held: set<nat>, pool: set<nat>, f: nat, gone: set<Use>)
    requires Inv(s, free, held, pool, gone) && f in held
    ensures Inv(s, [f] + free, held - {f}, pool, gone)
  {
    hide Frame, Leaf, Exists;
    var q := [f] + free;
    assert forall i :: 1 <= i < |q| ==> q[i] == free[i - 1];
  }

  /** The uses and their frames changed by one: `u` now uses `f`. */
  ghost predicate Gains(s: St, s': St, gone: set<Use>, u: Use, f: nat) {
    && !Uses(s, gone, u) && Uses(s', gone, u) && FrameOf(s', u) == f
    && forall w :: w != u ==>
         (Uses(s', gone, w) <==> Uses(s, gone, w)) && (Uses(s, gone, w) ==> FrameOf(s', w) == FrameOf(s, w))
  }

  ghost predicate SameUses(s: St, s': St, gone: set<Use>, gone': set<Use>) {
    forall w :: (Uses(s', gone', w) <==> Uses(s, gone, w)) && (Uses(s, gone, w) ==> FrameOf(s', w) == FrameOf(s, w))
  }

  lemma GainPlaces(s: St, s': St, free: seq<nat>, held: set<nat>, pool: set<nat>, u: Use, f: nat)
    requires OneUse(s, {}) && Places(s, free, held, pool, {}) && Gains(s, s', {}, u, f) && f in held
    ensures OneUse(s', {}) && Places(s', free, held - {f}, pool, {})
  {
    hide Uses, FrameOf;
    forall g | g in pool
      ensures g in free || g in held - {f} || Used(s', {}, g)
    {
      if Used(s, {}, g) {
        var w :| Uses(s, {}, w) && FrameOf(s, w) == g;
        assert Uses(s', {}, w) && FrameOf(s', w) == g;
      }
    }
  }

  /** `u` stops using its frame, which the kernel now holds. */
  lemma LosePlaces(s: St, s': St, free: seq<nat>, held: set<nat>, pool: set<nat>, gone: set<Use>, u: Use)
    requires OneUse(s, {}) && Places(s, free, held, pool, {}) && Uses(s, {}, u) && !Uses(s', gone, u)
    requires forall w :: w != u ==> (Uses(s', gone, w) <==> Uses(s, {}, w))
    requires forall w :: w != u && Uses(s, {}, w) ==> FrameOf(s', w) == FrameOf(s, w)
    ensures OneUse(s', gone) && Places(s', free, held + {FrameOf(s, u)}, pool, gone)
  {
    hide Uses, FrameOf;
    var f := FrameOf(s, u);
    forall g | g in pool
      ensures g in free || g in held + {f} || Used(s', gone, g)
    {
      if Used(s, {}, g) && g != f {
        var w :| Uses(s, {}, w) && FrameOf(s, w) == g;
        assert Uses(s', gone, w) && FrameOf(s', w) == g;
      }
    }
  }

  lemma SamePlaces(s: St, s': St, free: seq<nat>, held: set<nat>, pool: set<nat>, gone: set<Use>, gone': set<Use>)
    requires OneUse(s, gone) && Places(s, free, held, pool, gone) && SameUses(s, s', gone, gone')
    ensures OneUse(s', gone') && Places(s', free, held, pool, gone')
  {
    hide Uses, FrameOf;
    forall g | g in pool
      ensures g in free || g in held || Used(s', gone', g)
    {
      if Used(s, gone, g) {
        var w :| Uses(s, gone, w) && FrameOf(s, w) == g;
        assert Uses(s', gone', w) && FrameOf(s', w) == g;
      }
    }
  }

  // ---- Writing one entry ----

  /** Of the page-table pages in use only `g` changed, in entry `k`, to `e`. */
  ghost predicate Wrote(s: St, gone: set<Use>, t': Tables, g: nat, k: nat, e: Pte) {
    && g in s.tables && |s.tables[g]| == ENTRIES && k < ENTRIES && g in t' && t'[g] == s.tables[g][k := e]
    && forall u :: Uses(s, gone, u) && u.NodeUse? && FrameOf(s, u) != g ==>
         FrameOf(s, u) in s.tables && FrameOf(s, u) in t' && t'[FrameOf(s, u)] == s.tables[FrameOf(s, u)]
  }

  /** The node whose table is `g`, in one tree, is the only place to look. */
  lemma EntryAfter(s: St, gone: set<Use>, t': Tables, g: nat, k: nat, e: Pte, at: Use, u: Use, i: nat)
    requires Shape(s, gone) && OneUse(s, gone) && Wrote(s, gone, t', g, k, e)
    requires Uses(s, gone, at) && at.NodeUse? && FrameOf(s, at) == g && Uses(s, gone, u) && u.NodeUse? && i < ENTRIES
    ensures Entry(t', FrameOf(s, u), i) == if u == at && i == k then e else Entry(s.tables, FrameOf(s, u), i)
  {
    hide Uses, FrameOf;
  }

  /** Existence and frame of every page-table page after the write, when the
      entry belongs to `at`. */
  ghost predicate NodesAfter(s: St, t': Tables, r: nat, node: Node, f: nat, grown: bool) {
    forall root, n :: root in s.own ==>
      && (Exists(t', root, n) <==> Exists(s.tables, root, n) || (grown && root == r && n == node))
      && (Exists(s.tables, root, n) ==> Frame(t', root, n) == Frame(s.tables, root, n))
      && (grown && root == r && n == node ==> Frame(t', root, n) == f)
  }

  lemma TopUsed(s: St, gone: set<Use>, root: nat)
    requires root in s.own && NodeUse(root, Top) !in gone
    ensures Uses(s, gone, NodeUse(root, Top)) && FrameOf(s, NodeUse(root, Top)) == root
  {
  }

  lemma MidUsed(s: St, gone: set<Use>, root: nat, i: nat)
    requires root in s.own && i < ENTRIES && Entry(s.tables, root, i).v && NodeUse(root, Mid(i)) !in gone
    ensures Uses(s, gone, NodeUse(root, Mid(i))) && FrameOf(s, NodeUse(root, Mid(i))) == Entry(s.tables, root, i).ppn
  {
  }

  lemma LowUsed(s: St, gone: set<Use>, root: nat, i: nat, j: nat)
    requires root in s.own && Exists(s.tables, root, Low(i, j)) && NodeUse(root, Low(i, j)) !in gone
    ensures Uses(s, gone, NodeUse(root, Low(i, j)))
    ensures FrameOf(s, NodeUse(root, Low(i, j))) == Frame(s.tables, root, Low(i, j))
  {
  }

  /** The entries on the way to a page, after the write. */
  lemma TopEntryAfter(s: St, gone: set<Use>, t': Tables, g: nat, k: nat, e: Pte, at: Use, root: nat, i: nat)
    requires Shape(s, gone) && OneUse(s, gone) && Wrote(s, gone, t', g, k, e) && root in s.own && i < ENTRIES
    requires Uses(s, gone, at) && at.NodeUse? && FrameOf(s, at) == g && NodeUse(root, Top) !in gone
    ensures Entry(t', root, i) == if at == NodeUse(root, Top) && i == k then e else Entry(s.tables, root, i)
  {
    TopUsed(s, gone, root);
    EntryAfter(s, gone, t', g, k, e, at, NodeUse(root, Top), i);
  }

  lemma MidEntryAfter(s: St, gone: set<Use>, t': Tables, g: nat, k: nat, e: Pte, at: Use, root: nat, i: nat, j: nat)
    requires Shape(s, gone) && OneUse(s, gone) && Wrote(s, gone, t', g, k, e) && root in s.own && i < ENTRIES
    requires j < ENTRIES
    requires Uses(s, gone, at) && at.NodeUse? && FrameOf(s, at) == g
    requires Entry(s.tables, root, i).v && NodeUse(root, Mid(i)) !in gone
    ensures Entry(t', Entry(s.tables, root, i).ppn, j)
         == if at == NodeUse(root, Mid(i)) && j == k then e else Entry(s.tables, Entry(s.tables, root, i).ppn, j)
  {
    MidUsed(s, gone, root, i);
    EntryAfter(s, gone, t', g, k, e, at, NodeUse(root, Mid(i)), j);
  }

  lemma LowEntryAfter(s: St, gone: set<Use>, t': Tables, g: nat, k: nat, e: Pte, at: Use, root: nat, i: nat, j: nat,
                      x: nat)
    requires Shape(s, gone) && OneUse(s, gone) && Wrote(s, gone, t', g, k, e) && root in s.own && x < ENTRIES
    requires Uses(s, gone, at) && at.NodeUse? && FrameOf(s, at) == g
    requires Exists(s.tables, root, Low(i, j)) && NodeUse(root, Low(i, j)) !in gone
    ensures Entry(t', Frame(s.tables, root, Low(i, j)), x)
         == if at == NodeUse(root, Low(i, j)) && x == k then e else Entry(s.tables, Frame(s.tables, root, Low(i, j)), x)
  {
    LowUsed(s, gone, root, i, j);
    EntryAfter(s, gone, t', g, k, e, at, NodeUse(root, Low(i, j)), x);
  }

  /** A frame no use has becomes the zeroed table `f` behind an empty entry of
      the root. */
  lemma LinkMidNodes(s: St, t': Tables, r: nat, k: nat, f: nat)
    requires Shape(s, {}) && OneUse(s, {}) && r in s.own && Wrote(s, {}, t', r, k, Pte(true, f, None4()))
    requires !Entry(s.tables, r, k).v && f in t' && t'[f] == ZeroTable()
    ensures NodesAfter(s, t', r, Mid(k), f, true)
  {
    TopUsed(s, {}, r);
    forall root, n: Node | root in s.own
      ensures Exists(t', root, n) <==> Exists(s.tables, root, n) || (root == r && n == Mid(k))
      ensures Exists(s.tables, root, n) ==> Frame(t', root, n) == Frame(s.tables, root, n)
      ensures root == r && n == Mid(k) ==> Frame(t', root, n) == f
    {
      if !n.Top? && n.i < ENTRIES {
        TopEntryAfter(s, {}, t', r, k, Pte(true, f, None4()), NodeUse(r, Top), root, n.i);
        if n.Low? && n.j < ENTRIES && Entry(s.tables, root, n.i).v {
          MidEntryAfter(s, {}, t', r, k, Pte(true, f, None4()), NodeUse(r, Top), root, n.i, n.j);
        }
      }
    }
  }

  lemma LinkLowNodes(s: St, t': Tables, r: nat, i: nat, k: nat, f: nat)
    requires Shape(s, {}) && OneUse(s, {}) && r in s.own && i < ENTRIES && Entry(s.tables, r, i).v
    requires Wrote(s, {}, t', Entry(s.tables, r, i).ppn, k, Pte(true, f, None4()))
    requires !Entry(s.tables, Entry(s.tables, r, i).ppn, k).v
    ensures NodesAfter(s, t', r, Low(i, k), f, true)
  {
    MidUsed(s, {}, r, i);
    var g := Entry(s.tables, r, i).ppn;
    forall root, n: Node | root in s.own
      ensures Exists(t', root, n) <==> Exists(s.tables, root, n) || (root == r && n == Low(i, k))
      ensures Exists(s.tables, root, n) ==> Frame(t', root, n) == Frame(s.tables, root, n)
      ensures root == r && n == Low(i, k) ==> Frame(t', root, n) == f
    {
      if !n.Top? && n.i < ENTRIES {
        TopEntryAfter(s, {}, t', g, k, Pte(true, f, None4()), NodeUse(r, Mid(i)), root, n.i);
        if n.Low? && n.j < ENTRIES && Entry(s.tables, root, n.i).v {
          MidEntryAfter(s, {}, t', g, k, Pte(true, f, None4()), NodeUse(r, Mid(i)), root, n.i, n.j);
        }
      }
    }
  }

  lemma SetLeafNodes(s: St, t': Tables, r: nat, i: nat, j: nat, k: nat, e: Pte)
    requires Shape(s, {}) && OneUse(s, {}) && r in s.own && Exists(s.tables, r, Low(i, j))
    requires Wrote(s, {}, t', Frame(s.tables, r, Low(i, j)), k, e)
    ensures NodesAfter(s, t', r, Top, 0, false)
  {
    LowUsed(s, {}, r, i, j);
    var g := Frame(s.tables, r, Low(i, j));
    forall root, n: Node | root in s.own
      ensures Exists(t', root, n) <==> Exists(s.tables, root, n)
      ensures Exists(s.tables, root, n) ==> Frame(t', root, n) == Frame(s.tables, root, n)
    {
      if !n.Top? && n.i < ENTRIES {
        TopEntryAfter(s, {}, t', g, k, e, NodeUse(r, Low(i, j)), root, n.i);
        if n.Low? && n.j < ENTRIES && Entry(s.tables, root, n.i).v {
          MidEntryAfter(s, {}, t', g, k, e, NodeUse(r, Low(i, j)), root, n.i, n.j);
        }
      }
    }
  }

  /** After linking an empty table the flat maps are as they were. */
  lemma LinkKeepsFlat(s: St, t': Tables, g: nat, k: nat, e: Pte, at: Use, node: Node, f: nat)
    requires Shape(s, {}) && OneUse(s, {}) && Wrote(s, {}, t', g, k, e)
    requires Uses(s, {}, at) && at.NodeUse? && !at.node.Low? && FrameOf(s, at) == g
    requires NodesAfter(s, t', at.root, node, f, true) && !Exists(s.tables, at.root, node)
    requires f in t' && t'[f] == ZeroTable()
    ensures SameFlat(s.tables, t', s.own)
  {
    forall root: nat, vpn: nat | root in s.own && vpn < MAXVPN
      ensures Leaf(t', root, vpn) == Leaf(s.tables, root, vpn)
    {
      var n := Low(Px2(vpn), Px1(vpn));
      if Exists(s.tables, root, n) {
        LowEntryAfter(s, {}, t', g, k, e, at, root, n.i, n.j, Px0(vpn));
      }
    }
  }

  /** Writing an entry of the lowest level changes the flat map at one page. */
  lemma SetLeafFlat(s: St, t': Tables, r: nat, page: nat, e: Pte)
    requires Shape(s, {}) && OneUse(s, {}) && r in s.own && page < MAXVPN
    requires Exists(s.tables, r, Low(Px2(page), Px1(page)))
    requires Wrote(s, {}, t', Frame(s.tables, r, Low(Px2(page), Px1(page))), Px0(page), e)
    ensures forall root: nat, vpn: nat :: root in s.own && vpn < MAXVPN ==>
              Leaf(t', root, vpn) == if root == r && vpn == page then e else Leaf(s.tables, root, vpn)
  {
    SetLeafNodes(s, t', r, Px2(page), Px1(page), Px0(page), e);
    LowUsed(s, {}, r, Px2(page), Px1(page));
    hide Frame, Exists, Px0, Px1, Px2;
    forall root: nat, vpn: nat | root in s.own && vpn < MAXVPN
      ensures Leaf(t', root, vpn) == if root == r && vpn == page then e else Leaf(s.tables, root, vpn)
    {
      SlotRoundTrip(page);
      SlotRoundTrip(vpn);
      var n := Low(Px2(vpn), Px1(vpn));
      if Exists(s.tables, root, n) {
        LowEntryAfter(s, {}, t', Frame(s.tables, r, Low(Px2(page), Px1(page))), Px0(page), e,
                      NodeUse(r, Low(Px2(page), Px1(page))), root, n.i, n.j, Px0(vpn));
      }
    }
  }

  // ---- The invariant after each step ----

  /** The write keeps every other page-table page in shape. */
  lemma WriteShape(s: St, t': Tables, gone: set<Use>, g: nat, k: nat, e: Pte, at: Use, u: Use)
    requires Shape(s, gone) && OneUse(s, gone) && Wrote(s, gone, t', g, k, e)
    requires Uses(s, gone, at) && at.NodeUse? && FrameOf(s, at) == g && Uses(s, gone, u) && u.NodeUse?
    requires e.v ==> (e.perm.Leaf() <==> at.node.Low?)
    requires at.node.Top? && e.v ==> k < 256
    ensures NodeOk(t', FrameOf(s, u), u.node)
  {
    hide Uses, FrameOf;
    assert NodeOk(s.tables, FrameOf(s, u), u.node);
    if FrameOf(s, u) == g {
      assert u == at;
    }
  }

  /** A table linked in: `f` moves from the kernel's hands to the tree. */
  lemma LinkOk(s: St, t': Tables, free: seq<nat>, held: set<nat>, pool: set<nat>, g: nat, k: nat, at: Use, node: Node,
               f: nat)
    requires Inv(s, free, held, pool, {}) && f in held && Wrote(s, {}, t', g, k, Pte(true, f, None4()))
    requires Uses(s, {}, at) && at.NodeUse? && !at.node.Low? && FrameOf(s, at) == g && (at.node.Top? ==> k < 256)
    requires NodesAfter(s, t', at.root, node, f, true) && !Exists(s.tables, at.root, node)
    requires f in t' && t'[f] == ZeroTable()
    ensures Inv(St(t', s.own), free, held - {f}, pool, {}) && SameFlat(s.tables, t', s.own)
  {
    var s' := St(t', s.own);
    var e := Pte(true, f, None4());
    LinkKeepsFlat(s, t', g, k, e, at, node, f);
    hide Exists, Frame, Leaf;
    var grown := NodeUse(at.root, node);
    assert Gains(s, s', {}, grown, f);
    GainPlaces(s, s', free, held, pool, grown, f);
    forall u | Uses(s', {}, u) && u.NodeUse?
      ensures NodeOk(t', FrameOf(s', u), u.node)
    {
      if u != grown {
        WriteShape(s, t', {}, g, k, e, at, u);
      }
    }
  }

  /** A leaf entry of a page the tree does not own is written. */
  lemma SetLeafOk(s: St, t': Tables, free: seq<nat>, held: set<nat>, pool: set<nat>, r: nat, page: nat, e: Pte)
    requires Inv(s, free, held, pool, {}) && r in s.own && page < MAXVPN && page !in s.own[r]
    requires Exists(s.tables, r, Low(Px2(page), Px1(page))) && (e.v ==> e.perm.Leaf())
    requires Wrote(s, {}, t', Frame(s.tables, r, Low(Px2(page), Px1(page))), Px0(page), e)
    ensures Inv(St(t', s.own), free, held, pool, {})
    ensures forall root: nat, vpn: nat :: root in s.own && vpn < MAXVPN ==>
              Leaf(t', root, vpn) == if root == r && vpn == page then e else Leaf(s.tables, root, vpn)
  {
    var s' := St(t', s.own);
    SetLeafFlat(s, t', r, page, e);
    SetLeafNodes(s, t', r, Px2(page), Px1(page), Px0(page), e);
    LowUsed(s, {}, r, Px2(page), Px1(page));
    var at := NodeUse(r, Low(Px2(page), Px1(page)));
    var g := FrameOf(s, at);
    hide Exists, Frame, Leaf, Px0, Px1, Px2;
    assert SameUses(s, s', {}, {});
    SamePlaces(s, s', free, held, pool, {}, {});
    forall u | Uses(s', {}, u) && u.NodeUse?
      ensures NodeOk(t', FrameOf(s', u), u.node)
    {
      WriteShape(s, t', {}, g, Px0(page), e, at, u);
    }
  }

  ghost function Owning(s: St, r: nat, pages: set<nat>): (s': St) { St(s.tables, s.own[r := pages]) }

  lemma OwnOk(s: St, free: seq<nat>, held: set<nat>, pool: set<nat>, r: nat, page: nat)
    requires Inv(s, free, held, pool, {}) && r in s.own && page < MAXVPN && page !in s.own[r]
    requires Leaf(s.tables, r, page).v && Leaf(s.tables, r, page).ppn in held
    ensures Inv(Owning(s, r, s.own[r] + {page}), free, held - {Leaf(s.tables, r, page).ppn}, pool, {})
  {
    hide Exists, Frame, Leaf;
    var s' := Owning(s, r, s.own[r] + {page});
    var f := Leaf(s.tables, r, page).ppn;
    assert Gains(s, s', {}, PageUse(r, page), f);
    GainPlaces(s, s', free, held, pool, PageUse(r, page), f);
  }

  lemma DisownOk(s: St, free: seq<nat>, held: set<nat>, pool: set<nat>, r: nat, page: nat)
    requires Inv(s, free, held, pool, {}) && r in s.own && page in s.own[r]
    ensures Inv(Owning(s, r, s.own[r] - {page}), free, held + {Leaf(s.tables, r, page).ppn}, pool, {})
    ensures Leaf(s.tables, r, page).v && page < MAXVPN && Leaf(s.tables, r, page).ppn in pool
  {
    hide Exists, Frame, Leaf;
    var s' := Owning(s, r, s.own[r] - {page});
    var u := PageUse(r, page);
    assert Uses(s, {}, u) && FrameOf(s, u) == Leaf(s.tables, r, page).ppn;
    LosePlaces(s, s', free, held, pool, {}, u);
  }

  /** A zeroed frame becomes the root of a new, empty tree. */
  lemma NewRootOk(s: St, free: seq<nat>, held: set<nat>, pool: set<nat>, f: nat)
    requires Inv(s, free, held, pool, {}) && f in held
    ensures f !in s.own
    ensures Inv(St(s.tables[f := ZeroTable()], s.own[f := {}]), free, held - {f}, pool, {})
    ensures SameFlat(s.tables, s.tables[f := ZeroTable()], s.own)
    ensures NoLeaves(s.tables[f := ZeroTable()], f)
  {
    var s' := St(s.tables[f := ZeroTable()], s.own[f := {}]);
    if f in s.own {
      TopUsed(s, {}, f);
    }
    forall root, n: Node | root in s.own
      ensures Exists(s'.tables, root, n) <==> Exists(s.tables, root, n)
      ensures Exists(s.tables, root, n) ==> Frame(s'.tables, root, n) == Frame(s.tables, root, n) != f
    {
      NotTouched(s, s'.tables, held, free, pool, f, root, n);
    }
    forall n: Node | Exists(s'.tables, f, n)
      ensures n == Top
    {
    }
    assert Gains(s, s', {}, NodeUse(f, Top), f) && Shape(s', {}) by {
      hide Exists, Frame;
      assert SameFlat(s.tables, s'.tables, s.own);
    }
    GainPlaces(s, s', free, held, pool, NodeUse(f, Top), f);
  }

  /** Writing a frame the kernel holds does not touch any tree. */
  lemma NotTouched(s: St, t': Tables, held: set<nat>, free: seq<nat>, pool: set<nat>, f: nat, root: nat, n: Node)
    requires Inv(s, free, held, pool, {}) && f in held && root in s.own && t' == s.tables[f := ZeroTable()]
    ensures Exists(t', root, n) <==> Exists(s.tables, root, n)
    ensures Exists(s.tables, root, n) ==> Frame(t', root, n) == Frame(s.tables, root, n) != f
  {
    TopUsed(s, {}, root);
    if !n.Top? && n.i < ENTRIES && Entry(s.tables, root, n.i).v {
      MidUsed(s, {}, root, n.i);
      if n.Low? && Exists(s.tables, root, n) {
        LowUsed(s, {}, root, n.i, n.j);
      }
    }
  }

  // ---- Freeing a tree ----

  /** `m` is `n` or lies below it. */
  ghost predicate Under(m: Node, n: Node) {
    match n
    case Top => true
    case Mid(i) => m == n || (m.Low? && m.i == i)
    case Low(_, _) => m == n
  }

  /** Only page-table pages strictly below `n` are gone; the others are where
      they were. */
  ghost predicate ShrunkBy(t: Tables, t': Tables, own: map<nat, set<nat>>, r: nat, n: Node) {
    forall root, m :: root in own ==>
      && (Exists(t', root, m) ==> Exists(t, root, m) && Frame(t', root, m) == Frame(t, root, m))
      && (Exists(t, root, m) && !(root == r && Under(m, n) && m != n) ==> Exists(t', root, m))
  }

  function Child(n: Node, k: nat): (c: Node)
    requires !n.Low?
  {
    if n.Top? then Mid(k) else Low(n.i, k)
  }

  function Minus(t: Tables, f: nat): (t': Tables) { map g | g in t && g != f :: t[g] }

  /** A page-table page without valid entries goes back to the free list; the
      entry that names it is still there. */
  lemma GiveOk(s: St, free: seq<nat>, held: set<nat>, pool: set<nat>, r: nat, n: Node, f: nat)
    requires Inv(s, free, held, pool, {}) && Uses(s, {}, NodeUse(r, n)) && FrameOf(s, NodeUse(r, n)) == f
    requires forall k :: 0 <= k < ENTRIES ==> !Entry(s.tables, f, k).v
    ensures Inv(St(Minus(s.tables, f), s.own), [f] + free, held, pool, {NodeUse(r, n)}) && f in pool
    ensures SameValid(s.tables, Minus(s.tables, f), s.own) && ShrunkBy(s.tables, Minus(s.tables, f), s.own, r, n)
  {
    var u := NodeUse(r, n);
    var s' := St(Minus(s.tables, f), s.own);
    MinusEntries(s.tables, f);
    forall root, m: Node | root in s.own
      ensures Exists(s'.tables, root, m) <==> Exists(s.tables, root, m)
      ensures Exists(s.tables, root, m) ==> Frame(s'.tables, root, m) == Frame(s.tables, root, m)
    {
    }
    hide Exists, Frame, Minus;
    assert ShrunkBy(s.tables, s'.tables, s.own, r, n);
    assert SameValid(s.tables, s'.tables, s.own);
    hide Leaf;
    LosePlaces(s, s', free, held, pool, {u}, u);
    forall w | Uses(s', {u}, w) && w.NodeUse?
      ensures NodeOk(s'.tables, FrameOf(s', w), w.node)
    {
      assert Uses(s, {}, w) && FrameOf(s, w) != f;
      assert NodeOk(s.tables, FrameOf(s, w), w.node);
      StillThere(s.tables, f, FrameOf(s, w));
    }
    assert Inv(s', free, held + {f}, pool, {u});
    Release(s', free, held + {f}, pool, f, {u});
    assert held + {f} - {f} == held;
  }

  /** The flat maps agree on what is mapped. */
  ghost predicate SameValid(t: Tables, t': Tables, own: map<nat, set<nat>>) {
    forall root: nat, vpn: nat :: root in own && vpn < MAXVPN ==> SamePte(Leaf(t', root, vpn), Leaf(t, root, vpn))
  }

  predicate SamePte(a: Pte, b: Pte) {
    a.v == b.v && (a.v ==> a == b)
  }

  lemma MinusEntries(t: Tables, f: nat)
    requires forall k :: 0 <= k < ENTRIES ==> !Entry(t, f, k).v
    requires f in t && |t[f]| == ENTRIES
    ensures forall g, k :: SamePte(Entry(Minus(t, f), g, k), Entry(t, g, k))
  {
  }

  lemma StillThere(t: Tables, f: nat, g: nat)
    requires g != f && g in t
    ensures g in Minus(t, f) && Minus(t, f)[g] == t[g]
  {
  }

  /** The entry of a freed page-table page is cleared. */
  lemma ClearOk(s: St, t': Tables, free: seq<nat>, held: set<nat>, pool: set<nat>, r: nat, n: Node, k: nat)
    requires !n.Low? && k < ENTRIES && Inv(s, free, held, pool, {NodeUse(r, Child(n, k))})
    requires Uses(s, {NodeUse(r, Child(n, k))}, NodeUse(r, n)) && Exists(s.tables, r, Child(n, k))
    requires Frame(s.tables, r, Child(n, k)) !in s.tables
    requires Wrote(s, {NodeUse(r, Child(n, k))}, t', FrameOf(s, NodeUse(r, n)), k, Nil())
    ensures Inv(St(t', s.own), free, held, pool, {}) && SameValid(s.tables, t', s.own)
    ensures ShrunkBy(s.tables, t', s.own, r, n) && !Exists(t', r, Child(n, k))
  {
    var c := NodeUse(r, Child(n, k));
    var at := NodeUse(r, n);
    var s' := St(t', s.own);
    var g := FrameOf(s, at);
    forall root, m: Node | root in s.own
      ensures Exists(t', root, m) <==> Exists(s.tables, root, m) && !(root == r && m == Child(n, k))
      ensures Exists(t', root, m) ==> Frame(t', root, m) == Frame(s.tables, root, m)
    {
      ClearedNode(s, t', r, n, k, root, m);
    }
    forall root: nat, vpn: nat | root in s.own && vpn < MAXVPN
      ensures SamePte(Leaf(t', root, vpn), Leaf(s.tables, root, vpn))
    {
      var m := Low(Px2(vpn), Px1(vpn));
      if Exists(t', root, m) {
        LowEntryAfter(s, {c}, t', g, k, Nil(), at, root, m.i, m.j, Px0(vpn));
      }
    }
    hide Exists, Frame, Leaf;
    assert ShrunkBy(s.tables, t', s.own, r, n);
    assert SameUses(s, s', {c}, {});
    SamePlaces(s, s', free, held, pool, {c}, {});
    forall u | Uses(s', {}, u) && u.NodeUse?
      ensures NodeOk(t', FrameOf(s', u), u.node)
    {
      WriteShape(s, t', {c}, g, k, Nil(), at, u);
    }
  }

  lemma ClearedNode(s: St, t': Tables, r: nat, n: Node, k: nat, root: nat, m: Node)
    requires !n.Low? && k < ENTRIES && Shape(s, {NodeUse(r, Child(n, k))}) && OneUse(s, {NodeUse(r, Child(n, k))})
    requires Uses(s, {NodeUse(r, Child(n, k))}, NodeUse(r, n)) && Exists(s.tables, r, Child(n, k))
    requires Frame(s.tables, r, Child(n, k)) !in s.tables && root in s.own
    requires Wrote(s, {NodeUse(r, Child(n, k))}, t', FrameOf(s, NodeUse(r, n)), k, Nil())
    ensures Exists(t', root, m) <==> Exists(s.tables, root, m) && !(root == r && m == Child(n, k))
    ensures Exists(t', root, m) ==> Frame(t', root, m) == Frame(s.tables, root, m)
  {
    var c := NodeUse(r, Child(n, k));
    var at := NodeUse(r, n);
    var g := FrameOf(s, at);
    if !m.Top? && m.i < ENTRIES {
      TopEntryAfter(s, {c}, t', g, k, Nil(), at, root, m.i);
      if m.Low? && m.j < ENTRIES && Entry(s.tables, root, m.i).v && NodeUse(root, Mid(m.i)) != c {
        MidEntryAfter(s, {c}, t', g, k, Nil(), at, root, m.i, m.j);
      }
    }
  }

  /** With its root freed, a tree that owns nothing is no more. */
  lemma DropRootOk(s: St, free: seq<nat>, held: set<nat>, pool: set<nat>, r: nat)
    requires Inv(s, free, held, pool, {NodeUse(r, Top)}) && r in s.own && s.own[r] == {} && r !in s.tables
    ensures Inv(St(s.tables, s.own - {r}), free, held, pool, {})
  {
    var s' := St(s.tables, s.own - {r});
    assert SameUses(s, s', {NodeUse(r, Top)}, {});
    hide Exists, Frame, Leaf;
    SamePlaces(s, s', free, held, pool, {NodeUse(r, Top)}, {});
    forall u | Uses(s', {}, u) && u.NodeUse?
      ensures NodeOk(s'.tables, FrameOf(s', u), u.node)
    {
      assert Uses(s, {NodeUse(r, Top)}, u);
    }
  }

  /** When every tree is gone and nothing is held, the free list is the pool,
      each frame once. */
  lemma EverythingReturned(s: St, free: seq<nat>, pool: set<nat>)
    requires Inv(s, free, {}, pool, {}) && s.own == map[]
    ensures Distinct(free) && (set f | f in free) == pool
  {
    forall f | f in pool
      ensures f in free
    {
      assert !Used(s, {}, f);
    }
  }
}
