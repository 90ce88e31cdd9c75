/** The circular, address-ordered free list of the user-level allocator. Addresses
    count units of one header; a block is its header and what follows it. */
module FreeList {

  datatype Header = Header(ptr: nat, size: nat)

  type Memory = map<nat, Header>

  function Ptr(h: Memory, a: nat): (p: nat) { if a in h then h[a].ptr else 0 }
  function Size(h: Memory, a: nat): (n: nat) { if a in h then h[a].size else 0 }

  function SetPtr(h: Memory, a: nat, p: nat): (h': Memory) { h[a := Header(p, Size(h, a))] }
  function SetSize(h: Memory, a: nat, n: nat): (h': Memory) { h[a := Header(Ptr(h, a), n)] }

  /** `q` follows `a` in the circle through `f` in ascending order. */
  ghost predicate Succ(f: set<nat>, a: nat, q: nat) {
    && a in f && q in f
    && (a < q ==> forall x :: x in f ==> x <= a || q <= x)
    && (a >= q ==> forall x :: x in f ==> q <= x <= a)
  }

  /** The list runs once through `f`: the sentinel, of size zero and lowest
      address, and then ascending blocks with a gap after each. */
  ghost predicate Cycle(h: Memory, base: nat, f: set<nat>) {
    Sizes(h, base, f) && Gaps(h, f) && Links(h, f)
  }

  ghost predicate Sizes(h: Memory, base: nat, f: set<nat>) {
    base > 0 && base in f && Size(h, base) == 0 && forall a :: a in f && a != base ==> a > base && Size(h, a) > 0
  }

  ghost predicate Gaps(h: Memory, f: set<nat>) {
    forall a, b :: a in f && b in f && a < b ==> a + Size(h, a) < b
  }

  ghost predicate Links(h: Memory, f: set<nat>) {
    forall a {:trigger Succ(f, a, Ptr(h, a))} :: a in f ==> Succ(f, a, Ptr(h, a))
  }

  /** Unit `u` belongs to a free block; to a block handed out. */
  ghost predicate Free(h: Memory, f: set<nat>, u: nat) {
    exists a :: a in f && a <= u < a + Size(h, a)
  }

  ghost predicate Live(live: map<nat, nat>, u: nat) {
    exists a :: a in live && a <= u < a + live[a]
  }

  /** Blocks handed out: after the sentinel, disjoint from each other and from
      the free blocks, and with their size in their header. */
  ghost predicate LiveOk(h: Memory, base: nat, f: set<nat>, live: map<nat, nat>) {
    && (forall a :: a in live ==> a > base && live[a] > 0 && Size(h, a) == live[a])
    && (forall a, b :: a in live && b in live && a != b ==> a + live[a] <= b || b + live[b] <= a)
    && (forall a, b :: a in live && b in f ==> Apart(h, a, live[a], b))
  }

  ghost predicate Apart(h: Memory, a: nat, n: nat, b: nat) {
    a + n <= b || b + Size(h, b) <= a
  }

  /** Every unit obtained from sbrk is in a free or a live block, and no other. */
  ghost predicate Conserved(h: Memory, f: set<nat>, live: map<nat, nat>, arena: set<nat>) {
    forall u: nat :: u in arena <==> Free(h, f, u) || Live(live, u)
  }

  // ---- Where a block goes ----

  /** `b` is a block of `n` units, apart from all free blocks. */
  ghost predicate Fits(h: Memory, base: nat, f: set<nat>, b: nat, n: nat) {
    b > base && n > 0 && Size(h, b) == n && forall a :: a in f ==> Apart(h, b, n, a) && a != b
  }

  /** `p` is the last free block below `b`. */
  ghost predicate Pred(f: set<nat>, b: nat, p: nat) {
    p in f && p < b && forall x :: x in f ==> x <= p || x > b
  }

  /** The test in free's search succeeds at the predecessor and nowhere else. */
  lemma SearchTest(h: Memory, base: nat, f: set<nat>, b: nat, n: nat, p: nat)
    requires Cycle(h, base, f) && Fits(h, base, f, b, n) && p in f
    ensures var q := Ptr(h, p);
            ((b > p && b < q) || (p >= q && (b > p || b < q))) <==> Pred(f, b, p)
  {
    assert Succ(f, p, Ptr(h, p));
  }

  /** Blocks the search may still come to: those between it and `b`, going round. */
  ghost function Todo(f: set<nat>, p: nat, b: nat): (s: set<nat>) {
    if p < b then set x | x in f && p < x < b else set x | x in f && (x > p || x < b)
  }

  lemma SearchProgress(h: Memory, base: nat, f: set<nat>, b: nat, n: nat, p: nat)
    requires Cycle(h, base, f) && Fits(h, base, f, b, n) && p in f && !Pred(f, b, p)
    ensures Ptr(h, p) in f && Todo(f, Ptr(h, p), b) < Todo(f, p, b)
  {
    var q := Ptr(h, p);
    assert Succ(f, p, q);
    assert q in Todo(f, p, b) && q !in Todo(f, q, b);
  }

  // ---- Inserting ----

  /** free's first assignment: `b` takes over its right neighbour or points to it. */
  function JoinNext(h: Memory, b: nat, q: nat): (h': Memory) {
    if b + Size(h, b) == q then h[b := Header(Ptr(h, q), Size(h, b) + Size(h, q))] else SetPtr(h, b, q)
  }

  /** free's second: the predecessor takes over `b` or points to it. */
  function JoinPrev(h: Memory, p: nat, b: nat): (h': Memory) {
    if p + Size(h, p) == b then h[p := Header(Ptr(h, b), Size(h, p) + Size(h, b))] else SetPtr(h, p, b)
  }

  /** The free blocks after `b` went in behind `p`. */
  ghost function Inserted(h: Memory, f: set<nat>, b: nat, n: nat, p: nat): (f': set<nat>) {
    f - (if b + n == Ptr(h, p) then {Ptr(h, p)} else {}) + (if p + Size(h, p) == b then {} else {b})
  }

  /** `b` joined the free units; headers of other blocks kept their size. */
  ghost predicate Inserts(h: Memory, base: nat, f: set<nat>, b: nat, n: nat, h': Memory, f': set<nat>) {
    && Cycle(h', base, f') && f' <= f + {b}
    && (forall u: nat :: Free(h', f', u) <==> Free(h, f, u) || b <= u < b + n)
    && (forall a :: a != b && a !in f ==> Size(h', a) == Size(h, a))
  }

  lemma LinkAt(h: Memory, base: nat, f: set<nat>, a: nat)
    requires Cycle(h, base, f) && a in f
    ensures Succ(f, a, Ptr(h, a))
  {
  }

  /** Facts about the neighbours of the place where `b` goes. */
  lemma Neighbours(h: Memory, base: nat, f: set<nat>, b: nat, n: nat, p: nat)
    requires Cycle(h, base, f) && Fits(h, base, f, b, n) && Pred(f, b, p)
    ensures var q := Ptr(h, p);
            && q in f && p + Size(h, p) <= b && (q > b ==> b + n <= q) && (q < b ==> q == base)
            && (b + n == q ==> q > b && q != base) && (p + Size(h, p) == b ==> p != base)
            && (forall x :: x in f ==> x <= p || x >= q || q == base)
            && (q == base ==> forall x :: x in f ==> x <= p)
  {
    hide Ptr, Size, Links;
    LinkAt(h, base, f, p);
    assert Apart(h, b, n, p) && Apart(h, b, n, Ptr(h, p));
  }

  /** The headers after both assignments of free. */
  ghost predicate Joined(h: Memory, b: nat, n: nat, p: nat, h': Memory) {
    var q := Ptr(h, p);
    var m := if b + n == q then n + Size(h, q) else n;
    var r := if b + n == q then Ptr(h, q) else q;
    && (forall a :: a != p && a != b ==> Size(h', a) == Size(h, a) && Ptr(h', a) == Ptr(h, a))
    && (p + Size(h, p) == b ==> Size(h', p) == Size(h, p) + m && Ptr(h', p) == r)
    && (p + Size(h, p) != b ==>
          Size(h', p) == Size(h, p) && Ptr(h', p) == b && Size(h', b) == m && Ptr(h', b) == r)
  }

  lemma JoinedBy(h: Memory, b: nat, n: nat, p: nat)
    requires p < b && Size(h, b) == n
    ensures Joined(h, b, n, p, JoinPrev(JoinNext(h, b, Ptr(h, p)), p, b))
  {
  }

  lemma InsertSizes(h: Memory, base: nat, f: set<nat>, b: nat, n: nat, p: nat, h': Memory)
    requires Cycle(h, base, f) && Fits(h, base, f, b, n) && Pred(f, b, p) && Joined(h, b, n, p, h')
    ensures Sizes(h', base, Inserted(h, f, b, n, p))
  {
    hide Size, Ptr, Links, Gaps;
    Neighbours(h, base, f, b, n, p);
  }

  lemma InsertGaps(h: Memory, base: nat, f: set<nat>, b: nat, n: nat, p: nat, h': Memory, x: nat, y: nat)
    requires Cycle(h, base, f) && Fits(h, base, f, b, n) && Pred(f, b, p) && Joined(h, b, n, p, h')
    requires x in Inserted(h, f, b, n, p) && y in Inserted(h, f, b, n, p) && x < y
    ensures x + Size(h', x) < y
  {
    hide Size, Ptr, Links;
    Neighbours(h, base, f, b, n, p);
    var q := Ptr(h, p);
    if y == b {
      assert x in f && (x < p ==> x + Size(h, x) < p);
    } else if x == b || x == p {
      assert y in f && (q != base ==> y >= q && (y > q ==> q + Size(h, q) < y));
    }
  }

  lemma InsertLinks(h: Memory, base: nat, f: set<nat>, b: nat, n: nat, p: nat, h': Memory, x: nat)
    requires Cycle(h, base, f) && Fits(h, base, f, b, n) && Pred(f, b, p) && Joined(h, b, n, p, h')
    requires x in Inserted(h, f, b, n, p)
    ensures Succ(Inserted(h, f, b, n, p), x, Ptr(h', x))
  {
    hide Size, Ptr, Links, Gaps, Sizes;
    Neighbours(h, base, f, b, n, p);
    var q := Ptr(h, p);
    LinkAt(h, base, f, p);
    LinkAt(h, base, f, q);
    if x != b {
      LinkAt(h, base, f, x);
    }
  }

  lemma InsertCycle(h: Memory, base: nat, f: set<nat>, b: nat, n: nat, p: nat, h': Memory)
    requires Cycle(h, base, f) && Fits(h, base, f, b, n) && Pred(f, b, p) && Joined(h, b, n, p, h')
    ensures Cycle(h', base, Inserted(h, f, b, n, p))
  {
    hide Pred, Fits, Joined, Inserted, Succ, Size, Ptr;
    InsertSizes(h, base, f, b, n, p, h');
    forall x, y | x in Inserted(h, f, b, n, p) && y in Inserted(h, f, b, n, p) && x < y
      ensures x + Size(h', x) < y
    {
      InsertGaps(h, base, f, b, n, p, h', x, y);
    }
    forall x | x in Inserted(h, f, b, n, p)
      ensures Succ(Inserted(h, f, b, n, p), x, Ptr(h', x))
    {
      InsertLinks(h, base, f, b, n, p, h', x);
    }
  }

  /** Where the units of `b`, and those of a right neighbour it touches, are now. */
  ghost function Home(h: Memory, b: nat, p: nat): (a: nat) { if p + Size(h, p) == b then p else b }

  lemma HomeHolds(h: Memory, base: nat, f: set<nat>, b: nat, n: nat, p: nat, h': Memory)
    requires Cycle(h, base, f) && Fits(h, base, f, b, n) && Pred(f, b, p) && Joined(h, b, n, p, h')
    ensures var a := Home(h, b, p);
            a in Inserted(h, f, b, n, p) && a <= b && b + n <= a + Size(h', a) && a != base
  {
    hide Size, Ptr, Links, Gaps;
    Neighbours(h, base, f, b, n, p);
  }

  lemma StillFree(h: Memory, base: nat, f: set<nat>, b: nat, n: nat, p: nat, h': Memory, u: nat)
    requires Cycle(h, base, f) && Fits(h, base, f, b, n) && Pred(f, b, p) && Joined(h, b, n, p, h') && Free(h, f, u)
    ensures Free(h', Inserted(h, f, b, n, p), u)
  {
    hide Size, Ptr, Links, Gaps;
    Neighbours(h, base, f, b, n, p);
    var q := Ptr(h, p);
    var a :| a in f && a <= u < a + Size(h, a);
    var c := if a == q && b + n == q then Home(h, b, p) else a;
    assert c in Inserted(h, f, b, n, p) && c <= u < c + Size(h', c);
  }

  lemma WasFree(h: Memory, base: nat, f: set<nat>, b: nat, n: nat, p: nat, h': Memory, u: nat)
    requires Cycle(h, base, f) && Fits(h, base, f, b, n) && Pred(f, b, p) && Joined(h, b, n, p, h')
    requires Free(h', Inserted(h, f, b, n, p), u) && !(b <= u < b + n)
    ensures Free(h, f, u)
  {
    hide Size, Ptr, Links, Gaps;
    Neighbours(h, base, f, b, n, p);
    var c :| c in Inserted(h, f, b, n, p) && c <= u < c + Size(h', c);
    var a := if u >= b + n && c == Home(h, b, p) then Ptr(h, p) else c;
    assert a in f && a <= u < a + Size(h, a);
  }

  lemma InsertOk(h: Memory, base: nat, f: set<nat>, b: nat, n: nat, p: nat, h': Memory)
    requires Cycle(h, base, f) && Fits(h, base, f, b, n) && Pred(f, b, p) && Joined(h, b, n, p, h')
    ensures Inserts(h, base, f, b, n, h', Inserted(h, f, b, n, p))
  {
    InsertCycle(h, base, f, b, n, p, h');
    HomeHolds(h, base, f, b, n, p, h');
    hide Cycle, Size, Ptr, Fits;
    var f' := Inserted(h, f, b, n, p);
    forall u: nat
      ensures Free(h', f', u) <==> Free(h, f, u) || b <= u < b + n
    {
      if Free(h, f, u) {
        StillFree(h, base, f, b, n, p, h', u);
      } else if Free(h', f', u) && !(b <= u < b + n) {
        WasFree(h, base, f, b, n, p, h', u);
      }
    }
  }

  // ---- Taking ----

  /** A block leaves the list: its predecessor skips it. */
  lemma RemoveOk(h: Memory, base: nat, f: set<nat>, prev: nat, p: nat, h': Memory)
    requires Cycle(h, base, f) && Succ(f, prev, p) && p != base && h' == SetPtr(h, prev, Ptr(h, p))
    ensures prev != p && Cycle(h', base, f - {p})
    ensures forall u: nat :: Free(h', f - {p}, u) <==> Free(h, f, u) && !(p <= u < p + Size(h, p))
    ensures forall a :: Size(h', a) == Size(h, a)
  {
    assert base in f && prev != p;
    assert forall a :: Size(h', a) == Size(h, a) && (a != prev ==> Ptr(h', a) == Ptr(h, a));
    assert Ptr(h', prev) == Ptr(h, p);
    hide Size, Ptr;
    assert Links(h', f - {p}) by {
      forall x | x in f - {p}
        ensures Succ(f - {p}, x, Ptr(h', x))
      {
        LinkAt(h, base, f, x);
        LinkAt(h, base, f, p);
      }
    }
    forall u: nat
      ensures Free(h', f - {p}, u) <==> Free(h, f, u) && !(p <= u < p + Size(h, p))
    {
      RemovedFree(h, base, f, p, h', u);
    }
  }

  lemma RemovedFree(h: Memory, base: nat, f: set<nat>, p: nat, h': Memory, u: nat)
    requires Sizes(h, base, f) && Gaps(h, f) && p in f && forall a :: Size(h', a) == Size(h, a)
    ensures Free(h', f - {p}, u) <==> Free(h, f, u) && !(p <= u < p + Size(h, p))
  {
    hide Size;
    if Free(h, f, u) && !(p <= u < p + Size(h, p)) {
      var a :| a in f && a <= u < a + Size(h, a);
      assert a in f - {p} && a <= u < a + Size(h', a);
    }
    if Free(h', f - {p}, u) {
      var a :| a in f - {p} && a <= u < a + Size(h', a);
      assert a in f && a <= u < a + Size(h, a);
    }
  }

  /** A block keeps its head and gives up its last `n` units. */
  lemma ShrinkOk(h: Memory, base: nat, f: set<nat>, p: nat, n: nat, h': Memory)
    requires Cycle(h, base, f) && p in f && 0 < n < Size(h, p)
    requires h' == SetSize(SetSize(h, p, Size(h, p) - n), p + (Size(h, p) - n), n)
    ensures Cycle(h', base, f) && Size(h', p + (Size(h, p) - n)) == n
    ensures forall u: nat :: Free(h', f, u) <==> Free(h, f, u) && !(p + (Size(h, p) - n) <= u < p + Size(h, p))
    ensures forall a :: a != p && a != p + (Size(h, p) - n) ==> Size(h', a) == Size(h, a)
  {
    var b := p + (Size(h, p) - n);
    ShrunkHeads(h, p, n, b, h');
    hide Size, Ptr;
    assert b !in f by {
      assert b in f ==> p + Size(h, p) < b;
    }
    SameLinks(h, f, h');
    assert Sizes(h', base, f) && Gaps(h', f);
    forall u: nat
      ensures Free(h', f, u) <==> Free(h, f, u) && !(b <= u < p + Size(h, p))
    {
      ShrunkFree(h, f, p, n, h', u);
    }
  }

  lemma SameLinks(h: Memory, f: set<nat>, h': Memory)
    requires Links(h, f) && forall a :: Ptr(h', a) == Ptr(h, a)
    ensures Links(h', f)
  {
    hide Ptr, Succ;
    forall a | a in f
      ensures Succ(f, a, Ptr(h', a))
    {
      assert Succ(f, a, Ptr(h, a));
    }
  }

  lemma ShrunkHeads(h: Memory, p: nat, n: nat, b: nat, h': Memory)
    requires 0 < n < Size(h, p) && b == p + (Size(h, p) - n) && h' == SetSize(SetSize(h, p, Size(h, p) - n), b, n)
    ensures Size(h', p) == Size(h, p) - n && Size(h', b) == n
    ensures forall a :: a != p && a != b ==> Size(h', a) == Size(h, a)
    ensures forall a :: Ptr(h', a) == Ptr(h, a)
  {
  }

  lemma ShrunkFree(h: Memory, f: set<nat>, p: nat, n: nat, h': Memory, u: nat)
    requires Gaps(h, f) && p in f && 0 < n < Size(h, p) && Size(h', p) == Size(h, p) - n
    requires forall a :: a in f && a != p ==> Size(h', a) == Size(h, a)
    ensures Free(h', f, u) <==> Free(h, f, u) && !(p + (Size(h, p) - n) <= u < p + Size(h, p))
  {
    hide Size;
    if Free(h, f, u) && !(p + (Size(h, p) - n) <= u < p + Size(h, p)) {
      var a :| a in f && a <= u < a + Size(h, a);
      assert a in f && a <= u < a + Size(h', a);
    }
    if Free(h', f, u) {
      var a :| a in f && a <= u < a + Size(h', a);
      assert a in f && a <= u < a + Size(h, a);
    }
  }

  // ---- Going round ----

  /** The blocks malloc still looks at: from `p` to `stop`, going round. */
  ghost function Rest(f: set<nat>, p: nat, stop: nat): (s: set<nat>) {
    if p <= stop then set x | x in f && p <= x <= stop else set x | x in f && (x >= p || x <= stop)
  }

  lemma RestAll(f: set<nat>, p: nat, stop: nat)
    requires Succ(f, stop, p)
    ensures Rest(f, p, stop) == f
  {
  }

  lemma RestNext(f: set<nat>, p: nat, q: nat, stop: nat)
    requires Succ(f, p, q) && stop in f && p != stop
    ensures Rest(f, q, stop) == Rest(f, p, stop) - {p} && p in Rest(f, p, stop)
  {
  }

  lemma RestLast(f: set<nat>, stop: nat)
    requires stop in f
    ensures Rest(f, stop, stop) == {stop}
  {
  }
}
