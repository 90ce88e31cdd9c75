/** The geometry of the buddy allocator. A block of 2^o pages that starts at a
    multiple of 2^o is the node `Node(o, q)`: its pages are those whose number
    shifted right by `o` is `q`, its buddy has the number with the last bit
    flipped, and merging the two gives `Node(o + 1, q / 2)`. */
module BuddyTree {

  const MAX_ORDER: nat := 11

  datatype Node = Node(o: nat, q: nat)

  function Shr(p: nat, o: nat): (r: nat) {
    if o == 0 then p else Shr(p, o - 1) / 2
  }

  function Shl(q: nat, o: nat): (r: nat)
    decreases o
  {
    if o == 0 then q else Shl(2 * q, o - 1)
  }

  lemma {:induction false} ShlAdd(a: nat, b: nat, o: nat)
    ensures Shl(a + b, o) == Shl(a, o) + Shl(b, o)
    decreases o
  {
    if o > 0 {
      ShlAdd(2 * a, 2 * b, o - 1);
    }
  }

  lemma {:induction false} ShlPositive(q: nat, o: nat)
    ensures q <= Shl(q, o)
    decreases o
  {
    if o > 0 {
      ShlPositive(2 * q, o - 1);
    }
  }

  /** Page `p` belongs to the block. */
  ghost predicate In(p: nat, t: Node) {
    Shr(p, t.o) == t.q
  }

  /** The pages of a block are the 2^o pages from its first one on. */
  lemma {:induction false} Interval(p: nat, o: nat, q: nat)
    ensures In(p, Node(o, q)) <==> Shl(q, o) <= p < Shl(q + 1, o)
    decreases o
  {
    if o > 0 {
      Interval(p, o - 1, 2 * q);
      Interval(p, o - 1, 2 * q + 1);
      ShlAdd(2 * q, 1, o - 1);
      ShlAdd(2 * q + 1, 1, o - 1);
      assert Shl(q + 1, o) == Shl(2 * q + 2, o - 1);
    }
  }

  lemma FirstPage(o: nat, q: nat)
    ensures Shl(q, o) < Shl(q + 1, o) && Shr(Shl(q, o), o) == q
  {
    ShlAdd(q, 1, o);
    ShlPositive(1, o);
    Interval(Shl(q, o), o, q);
  }

  lemma {:induction false} ShrBetween(p: nat, a: nat, b: nat)
    requires a <= b
    ensures Shr(p, b) == Shr(Shr(p, a), b - a)
    decreases b
  {
    if a < b {
      ShrBetween(p, a, b - 1);
    }
  }

  /** The first page of a block is the first page of every smaller block that
      contains it. */
  lemma {:induction false} FirstOfSmaller(o: nat, q: nat, j: nat)
    requires j <= o
    ensures Shl(Shr(Shl(q, o), j), j) == Shl(q, o)
    decreases o - j
  {
    if j == o {
      FirstPage(o, q);
    } else {
      var p := Shl(q, o);
      FirstOfSmaller(o, q, j + 1);
      var r := Shr(p, j + 1);
      assert Shl(r, j + 1) == Shl(2 * r, j);
      FirstPage(j, 2 * r);
    }
  }

  function Flip(q: nat): (r: nat)
    ensures r / 2 == q / 2 && r != q && (r == q + 1 || q == r + 1)
  {
    if q % 2 == 0 then q + 1 else q - 1
  }

  // ---- Tilings ----

  ghost predicate Owns(ts: set<Node>, p: nat) {
    exists t :: t in ts && In(p, t)
  }

  /** The blocks split the pages below `n`: each page is in exactly one. */
  ghost predicate Tiling(n: nat, ts: set<Node>) {
    && (forall t :: t in ts ==> t.o < MAX_ORDER && Shl(t.q + 1, t.o) <= n)
    && (forall p: nat :: p < n ==> Owns(ts, p))
    && (forall p: nat, a, b :: p < n && a in ts && b in ts && In(p, a) && In(p, b) ==> a == b)
  }

  lemma InBelow(p: nat, t: Node, n: nat)
    requires In(p, t) && Shl(t.q + 1, t.o) <= n
    ensures p < n
  {
    Interval(p, t.o, t.q);
  }

  /** Two buddies become the block of twice the size. */
  lemma MergeTiling(n: nat, ts: set<Node>, o: nat, q: nat)
    requires Tiling(n, ts) && o + 1 < MAX_ORDER
    requires Node(o, 2 * q) in ts && Node(o, 2 * q + 1) in ts
    ensures Node(o + 1, q) !in ts
    ensures Tiling(n, ts - {Node(o, 2 * q), Node(o, 2 * q + 1)} + {Node(o + 1, q)})
  {
    var l, r, m := Node(o, 2 * q), Node(o, 2 * q + 1), Node(o + 1, q);
    var us := ts - {l, r} + {m};
    assert forall p: nat :: In(p, m) <==> In(p, l) || In(p, r);
    FirstPage(o, 2 * q);
    InBelow(Shl(2 * q, o), l, n);
    assert In(Shl(2 * q, o), l) && In(Shl(2 * q, o), m);
    assert Shl(m.q + 1, m.o) == Shl(r.q + 1, r.o);
    forall p: nat | p < n
      ensures Owns(us, p)
    {
      assert Owns(ts, p);
      var t :| t in ts && In(p, t);
      if t == l || t == r {
        assert m in us && In(p, m);
      } else {
        assert t in us;
      }
    }
  }

  /** A block becomes its two halves. */
  lemma SplitTiling(n: nat, ts: set<Node>, o: nat, q: nat)
    requires Tiling(n, ts) && Node(o + 1, q) in ts
    ensures Node(o, 2 * q) !in ts && Node(o, 2 * q + 1) !in ts
    ensures Tiling(n, ts - {Node(o + 1, q)} + {Node(o, 2 * q), Node(o, 2 * q + 1)})
  {
    var l, r, m := Node(o, 2 * q), Node(o, 2 * q + 1), Node(o + 1, q);
    var us := ts - {m} + {l, r};
    assert forall p: nat :: In(p, m) <==> In(p, l) || In(p, r);
    FirstPage(o, 2 * q);
    FirstPage(o, 2 * q + 1);
    assert Shl(m.q + 1, m.o) == Shl(r.q + 1, r.o);
    InBelow(Shl(2 * q, o), m, n);
    InBelow(Shl(2 * q + 1, o), m, n);
    assert In(Shl(2 * q, o), l) && In(Shl(2 * q + 1, o), r);
    forall p: nat | p < n
      ensures Owns(us, p)
    {
      assert Owns(ts, p);
      var t :| t in ts && In(p, t);
      if t == m {
        assert In(p, l) || In(p, r);
        assert l in us && r in us;
      } else {
        assert t in us;
      }
    }
  }

  // ---- Canonical form ----

  /** No two free buddies below the largest order: they would have been merged. */
  ghost predicate Canonical(free: set<Node>) {
    forall t :: t in free && t.o + 1 < MAX_ORDER ==> Node(t.o, Flip(t.q)) !in free
  }

  ghost predicate Covered(n: nat, free: set<Node>, t: Node) {
    Shl(t.q + 1, t.o) <= n && forall p: nat :: In(p, t) ==> Owns(free, p)
  }

  lemma SiblingsFree(free: set<Node>, a: Node, b: Node)
    requires Canonical(free) && a in free && a.o + 1 < MAX_ORDER
    requires b == Node(a.o, Flip(a.q))
    ensures b !in free
  {
  }

  /** Every aligned run of free pages lies within one free block. */
  lemma {:induction false} RunInBlock(n: nat, free: set<Node>, used: set<Node>, t: Node)
    requires Tiling(n, free + used) && free !! used && Canonical(free)
    requires t.o < MAX_ORDER && Covered(n, free, t)
    ensures exists u :: u in free && u.o >= t.o && Shr(t.q, u.o - t.o) == u.q
    decreases t.o
  {
    if t.o == 0 {
      assert In(t.q, t);
      var u :| u in free && In(t.q, u);
    } else {
      var l, r := Node(t.o - 1, 2 * t.q), Node(t.o - 1, 2 * t.q + 1);
      assert forall p: nat :: In(p, t) <==> In(p, l) || In(p, r);
      FirstPage(l.o, l.q);
      FirstPage(r.o, r.q);
      RunInBlock(n, free, used, l);
      RunInBlock(n, free, used, r);
      var a :| a in free && a.o >= l.o && Shr(l.q, a.o - l.o) == a.q;
      var b :| b in free && b.o >= r.o && Shr(r.q, b.o - r.o) == b.q;
      if a.o > l.o {
        ParentInBlock(t, l, a);
      } else if b.o > r.o {
        ParentInBlock(t, r, b);
      } else {
        SiblingsFree(free, a, b);
      }
    }
  }

  lemma ParentInBlock(t: Node, c: Node, u: Node)
    requires t.o == c.o + 1 && t.q == c.q / 2 && u.o > c.o && Shr(c.q, u.o - c.o) == u.q
    ensures Shr(t.q, u.o - t.o) == u.q
  {
    ShrBetween(c.q, 1, u.o - c.o);
    assert Shr(c.q, 1) == Shr(c.q, 0) / 2;
  }

  /** A block larger than another that meets it contains it. */
  lemma Contains(t: Node, u: Node, p: nat)
    requires u.o >= t.o && Shr(t.q, u.o - t.o) == u.q && In(p, t)
    ensures In(p, u)
  {
    ShrBetween(p, t.o, u.o);
  }

  /** The free blocks are determined by the free pages: two canonical states
      with the same free pages have the same free blocks. */
  lemma CanonicalUnique(n: nat, f: set<Node>, u: set<Node>, g: set<Node>, w: set<Node>)
    requires Tiling(n, f + u) && f !! u && Canonical(f)
    requires Tiling(n, g + w) && g !! w && Canonical(g)
    requires forall p: nat :: p < n ==> (Owns(f, p) <==> Owns(g, p))
    ensures f == g
  {
    forall t | t in f
      ensures t in g
    {
      FreeBlockShared(n, f, u, g, w, t);
    }
    forall t | t in g
      ensures t in f
    {
      FreeBlockShared(n, g, w, f, u, t);
    }
  }

  lemma FreeBlockShared(n: nat, f: set<Node>, u: set<Node>, g: set<Node>, w: set<Node>, t: Node)
    requires Tiling(n, f + u) && f !! u && Canonical(f)
    requires Tiling(n, g + w) && g !! w && Canonical(g)
    requires forall p: nat :: p < n ==> (Owns(f, p) <==> Owns(g, p))
    requires t in f
    ensures t in g
  {
    forall p: nat | In(p, t)
      ensures Owns(g, p)
    {
      InBelow(p, t, n);
      assert Owns(f, p);
    }
    RunInBlock(n, g, w, t);
    var b :| b in g && b.o >= t.o && Shr(t.q, b.o - t.o) == b.q;
    forall p: nat | In(p, b)
      ensures Owns(f, p)
    {
      InBelow(p, b, n);
      assert Owns(g, p);
    }
    RunInBlock(n, f, u, b);
    var c :| c in f && c.o >= b.o && Shr(b.q, c.o - b.o) == c.q;
    var p := Shl(t.q, t.o);
    FirstPage(t.o, t.q);
    Contains(t, b, p);
    Contains(b, c, p);
    InBelow(p, t, n);
    assert c == t;
  }

  // ---- Counting pages ----

  ghost function Pages(n: nat, ts: set<Node>): (s: set<nat>)
    ensures forall p: nat :: p in s <==> p < n && Owns(ts, p)
  {
    set p: nat | p < n && Owns(ts, p)
  }

  ghost function Range(a: nat, b: nat): (s: set<nat>)
    requires a <= b
    ensures |s| == b - a && forall p: nat :: p in s <==> a <= p < b
  {
    if a == b then {} else Range(a, b - 1) + {b - 1}
  }

  /** A block added to the free ones adds its 2^o pages. */
  lemma AddPages(n: nat, all: set<Node>, ts: set<Node>, t: Node)
    requires Tiling(n, all) && ts <= all && t in all && t !in ts
    ensures |Pages(n, ts + {t})| == |Pages(n, ts)| + Shl(1, t.o)
  {
    hide Shl, Shr, In;
    ShlAdd(t.q, 1, t.o);
    var r := Range(Shl(t.q, t.o), Shl(t.q + 1, t.o));
    forall p: nat | p in r
      ensures p !in Pages(n, ts) && p < n && Owns(ts + {t}, p)
    {
      Interval(p, t.o, t.q);
      assert t in ts + {t};
      assert forall u :: u in ts ==> !In(p, u);
    }
    forall p: nat | p < n && Owns(ts + {t}, p) && p !in r
      ensures Owns(ts, p)
    {
      Interval(p, t.o, t.q);
    }
    forall p: nat | Owns(ts, p)
      ensures Owns(ts + {t}, p)
    {
      var u :| u in ts && In(p, u);
      assert u in ts + {t};
    }
    assert Pages(n, ts + {t}) == Pages(n, ts) + r;
  }
}
