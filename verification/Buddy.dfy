/** The buddy page allocator: page metadata, one list of free blocks per order,
    and reference counts. Page numbers are relative to the first managed page;
    pmm_lock makes each method one step. */
module Buddy {
  import opened Basics
  import opened BuddyTree

  const PAGE_INUSE: nat := 0xFFFF_FFFF

  ghost function Head(t: Node): (p: nat) {
    Shl(t.q, t.o)
  }

  /** page_buddy's index: bit `o` of the page number flipped. */
  function BuddyIndex(idx: nat, o: nat): (b: nat) {
    if Shr(idx, o) % 2 == 0 then idx + Shl(1, o)
    else if idx >= Shl(1, o) then idx - Shl(1, o) else 0
  }

  /** Bit `o` of the page number cleared. */
  function ClearBit(idx: nat, o: nat): (r: nat) {
    if Shr(idx, o) % 2 == 1 && idx >= Shl(1, o) then idx - Shl(1, o) else idx
  }

  /** On block heads these are the buddy's head and the merged block's head. */
  lemma BuddyOfHead(o: nat, q: nat)
    ensures BuddyIndex(Shl(q, o), o) == Shl(Flip(q), o)
    ensures ClearBit(Shl(q, o), o) == Shl(q / 2, o + 1)
  {
    FirstPage(o, q);
    if q % 2 == 0 {
      ShlAdd(q, 1, o);
      assert 2 * (q / 2) == q;
    } else {
      ShlAdd(q - 1, 1, o);
      assert 2 * (q / 2) == q - 1;
    }
  }

  // ---- Metadata and lists agree with the blocks ----

  /** One list holds the heads of the free blocks of its order, each once. */
  ghost predicate ListOk(n: nat, o: nat, l: seq<nat>, free: set<Node>) {
    && (forall i :: 0 <= i < |l| ==> l[i] < n && Node(o, Shr(l[i], o)) in free && Shl(Shr(l[i], o), o) == l[i])
    && (forall t :: t in free && t.o == o ==> Head(t) in l)
    && (forall i, j :: 0 <= i < j < |l| ==> l[i] != l[j])
  }

  ghost predicate ListsOk(n: nat, lists: seq<seq<nat>>, free: set<Node>) {
    && |lists| == MAX_ORDER
    && forall o :: 0 <= o < MAX_ORDER ==> ListOk(n, o, lists[o], free)
  }

  /** The order field is meaningful on block heads: the order of a free block,
      the in-use mark of an allocated one. Other pages hold stale values. */
  ghost predicate OrdersOk(n: nat, order: seq<nat>, free: set<Node>, used: set<Node>) {
    && |order| == n
    && (forall t :: t in free ==> Head(t) < n && order[Head(t)] == t.o)
    && (forall t :: t in used ==> Head(t) < n && order[Head(t)] == PAGE_INUSE)
  }

  /** Everything the lists and fields say about `free` and `used`, while the
      blocks of `hand` belong to neither. */
  ghost predicate Sync(n: nat, order: seq<nat>, lists: seq<seq<nat>>, area: seq<nat>, nrFree: nat,
                       free: set<Node>, used: set<Node>, hand: set<Node>)
  {
    && Tiling(n, free + used + hand)
    && free !! used && free !! hand && used !! hand
    && Canonical(free)
    && ListsOk(n, lists, free) && OrdersOk(n, order, free, used)
    && |area| == MAX_ORDER && (forall o :: 0 <= o < MAX_ORDER ==> area[o] == |lists[o]|)
    && nrFree == |Pages(n, free)|
  }

  lemma HeadBelow(n: nat, ts: set<Node>, t: Node)
    requires Tiling(n, ts) && t in ts
    ensures Head(t) < n && In(Head(t), t)
  {
    FirstPage(t.o, t.q);
    InBelow(Head(t), t, n);
  }

  lemma HeadsDiffer(n: nat, ts: set<Node>, t: Node, u: Node)
    requires Tiling(n, ts) && t in ts && u in ts && t != u
    ensures Head(t) != Head(u)
  {
    HeadBelow(n, ts, t);
    HeadBelow(n, ts, u);
  }

  /** The sequence without its i-th element. */
  function Without(s: seq<nat>, i: nat): (r: seq<nat>)
    requires i < |s|
    ensures |r| == |s| - 1
  {
    s[..i] + s[i + 1..]
  }

  lemma ListAdd(n: nat, l: seq<nat>, free: set<Node>, t: Node)
    requires ListOk(n, t.o, l, free) && t !in free && Head(t) < n
    ensures ListOk(n, t.o, l + [Head(t)], free + {t})
  {
    hide Shl, Shr;
    FirstPage(t.o, t.q);
    assert Head(t) !in l;
    assert forall u :: u in free && u.o == t.o ==> Head(u) in l;
  }

  lemma ListDel(n: nat, l: seq<nat>, free: set<Node>, t: Node, i: nat)
    requires ListOk(n, t.o, l, free) && t in free && i < |l| && l[i] == Head(t)
    ensures ListOk(n, t.o, Without(l, i), free - {t})
  {
    hide Shl, Shr;
    FirstPage(t.o, t.q);
    var r := Without(l, i);
    assert forall k :: 0 <= k < |r| ==> r[k] == l[if k < i then k else k + 1];
    forall u | u in free && u != t && u.o == t.o
      ensures Head(u) in r
    {
      FirstPage(u.o, u.q);
      var k :| 0 <= k < |l| && l[k] == Head(u);
      assert r[if k < i then k else k - 1] == Head(u);
    }
  }

  lemma ListsAdd(n: nat, lists: seq<seq<nat>>, free: set<Node>, t: Node)
    requires ListsOk(n, lists, free) && t !in free && t.o < MAX_ORDER && Head(t) < n
    ensures ListsOk(n, lists[t.o := lists[t.o] + [Head(t)]], free + {t})
  {
    hide Shl, Shr;
    ListAdd(n, lists[t.o], free, t);
  }

  lemma ListsDel(n: nat, lists: seq<seq<nat>>, free: set<Node>, t: Node, i: nat)
    requires ListsOk(n, lists, free) && t in free && t.o < MAX_ORDER
    requires i < |lists[t.o]| && lists[t.o][i] == Head(t)
    ensures ListsOk(n, lists[t.o := Without(lists[t.o], i)], free - {t})
  {
    hide Shl, Shr;
    ListDel(n, lists[t.o], free, t, i);
  }

  /** A block in hand, its buddy not free, may be put on its list. */
  lemma SyncAdd(n: nat, order: seq<nat>, lists: seq<seq<nat>>, area: seq<nat>, nrFree: nat,
                free: set<Node>, used: set<Node>, hand: set<Node>, t: Node)
    requires Sync(n, order, lists, area, nrFree, free, used, hand + {t}) && t !in hand
    requires t.o + 1 < MAX_ORDER ==> Node(t.o, Flip(t.q)) !in free
    ensures t.o < MAX_ORDER && Head(t) < n
    ensures Sync(n, order[Head(t) := t.o], lists[t.o := lists[t.o] + [Head(t)]], area[t.o := area[t.o] + 1],
                 nrFree + Shl(1, t.o), free + {t}, used, hand)
  {
    hide Shl, Shr, ListOk;
    var ts := free + used + (hand + {t});
    assert ts == free + {t} + used + hand;
    HeadBelow(n, ts, t);
    forall u | u in free + used
      ensures Head(u) != Head(t)
    {
      HeadsDiffer(n, ts, u, t);
    }
    ListsAdd(n, lists, free, t);
    AddPages(n, ts, free, t);
    assert Canonical(free + {t});
  }

  /** A free block may be taken off its list into the hand. */
  lemma SyncDel(n: nat, order: seq<nat>, lists: seq<seq<nat>>, area: seq<nat>, nrFree: nat,
                free: set<Node>, used: set<Node>, hand: set<Node>, t: Node, i: nat)
    requires Sync(n, order, lists, area, nrFree, free, used, hand) && t in free
    requires i < |lists[t.o]| && lists[t.o][i] == Head(t)
    ensures nrFree >= Shl(1, t.o)
    ensures Sync(n, order, lists[t.o := Without(lists[t.o], i)], area[t.o := area[t.o] - 1],
                 nrFree - Shl(1, t.o), free - {t}, used, hand + {t})
  {
    hide Shl, Shr, ListOk;
    var ts := free + used + hand;
    assert ts == free - {t} + used + (hand + {t});
    ListsDel(n, lists, free, t, i);
    AddPages(n, ts, free - {t}, t);
    assert free - {t} + {t} == free;
  }

  /** The test __free_one_page makes: the page at the buddy's index exists and
      bears this order exactly when the buddy is a free block of this order. */
  lemma BuddyTest(n: nat, order: seq<nat>, lists: seq<seq<nat>>, area: seq<nat>, nrFree: nat,
                  free: set<Node>, used: set<Node>, t: Node)
    requires Sync(n, order, lists, area, nrFree, free, used, {t}) && t.o + 1 < MAX_ORDER
    ensures var b := Node(t.o, Flip(t.q)); (Head(b) < n && order[Head(b)] == t.o) <==> b in free
  {
    var b := Node(t.o, Flip(t.q));
    var p := Head(b);
    var ts := free + used + {t};
    if p < n && order[p] == t.o {
      assert Owns(ts, p);
      var x :| x in ts && In(p, x);
      FirstPage(b.o, b.q);
      if x.o > t.o {
        ShrBetween(p, t.o + 1, x.o);
        FirstPage(t.o, t.q);
        ShrBetween(Head(t), t.o + 1, x.o);
        HeadBelow(n, ts, t);
        assert In(Head(t), x);
      } else {
        FirstOfSmaller(b.o, b.q, x.o);
        assert Head(x) == p;
      }
    }
  }

  /** In-hand buddies merge into the in-hand block of twice the size. */
  lemma SyncMerge(n: nat, order: seq<nat>, lists: seq<seq<nat>>, area: seq<nat>, nrFree: nat,
                  free: set<Node>, used: set<Node>, t: Node)
    requires t.o + 1 < MAX_ORDER
    requires Sync(n, order, lists, area, nrFree, free, used, {t} + {Node(t.o, Flip(t.q))})
    ensures Sync(n, order, lists, area, nrFree, free, used, {Node(t.o + 1, t.q / 2)})
  {
    hide ListsOk, OrdersOk, Canonical, Shl, Shr, In;
    var b, m := Node(t.o, Flip(t.q)), Node(t.o + 1, t.q / 2);
    var ts := free + used + ({t} + {b});
    var q := t.q / 2;
    assert {t} + {b} == {Node(t.o, 2 * q), Node(t.o, 2 * q + 1)};
    MergeTiling(n, ts, t.o, q);
    assert ts - {Node(t.o, 2 * q), Node(t.o, 2 * q + 1)} + {m} == free + used + {m};
  }

  /** The in-hand block splits into its halves. */
  lemma SyncSplit(n: nat, order: seq<nat>, lists: seq<seq<nat>>, area: seq<nat>, nrFree: nat,
                  free: set<Node>, used: set<Node>, o: nat, q: nat)
    requires Sync(n, order, lists, area, nrFree, free, used, {Node(o + 1, q)})
    ensures Sync(n, order, lists, area, nrFree, free, used, {Node(o, 2 * q)} + {Node(o, 2 * q + 1)})
  {
    hide ListsOk, OrdersOk, Canonical, Shl, Shr, In;
    var l, r, m := Node(o, 2 * q), Node(o, 2 * q + 1), Node(o + 1, q);
    var ts := free + used + {m};
    SplitTiling(n, ts, o, q);
    assert ts - {m} + {l, r} == free + used + ({l} + {r});
  }

  /** The in-hand block becomes an allocated one once its head is marked. */
  lemma SyncUse(n: nat, order: seq<nat>, lists: seq<seq<nat>>, area: seq<nat>, nrFree: nat,
                free: set<Node>, used: set<Node>, t: Node)
    requires Sync(n, order, lists, area, nrFree, free, used, {t})
    ensures Head(t) < n
    ensures Sync(n, order[Head(t) := PAGE_INUSE], lists, area, nrFree, free, used + {t}, {})
  {
    hide ListsOk, Canonical, Shl, Shr;
    var ts := free + used + {t};
    assert ts == free + (used + {t}) + {};
    HeadBelow(n, ts, t);
    forall u | u in free + used
      ensures Head(u) != Head(t)
    {
      HeadsDiffer(n, ts, u, t);
    }
  }

  /** An allocated block may be taken back into the hand. */
  lemma SyncTake(n: nat, order: seq<nat>, lists: seq<seq<nat>>, area: seq<nat>, nrFree: nat,
                 free: set<Node>, used: set<Node>, t: Node)
    requires Sync(n, order, lists, area, nrFree, free, used, {}) && t in used
    ensures Sync(n, order, lists, area, nrFree, free, used - {t}, {t})
  {
    hide ListsOk, Canonical, Shl, Shr;
    assert free + used + {} == free + (used - {t}) + {t};
  }

  /** The free pages of `g` are those of `f` and the pages of `t`. */
  ghost predicate Gained(f: set<Node>, g: set<Node>, t: Node) {
    forall p: nat :: Owns(g, p) <==> Owns(f, p) || In(p, t)
  }

  /** `f` with block `t` in hand and `g` with block `u` in hand have the same
      pages between them. */
  ghost predicate SamePages(f: set<Node>, t: Node, g: set<Node>, u: Node) {
    forall p: nat :: Owns(f, p) || In(p, t) <==> Owns(g, p) || In(p, u)
  }

  lemma OwnsAdd(f: set<Node>, t: Node)
    ensures Gained(f, f + {t}, t)
  {
    hide In;
    forall p: nat
      ensures Owns(f + {t}, p) <==> Owns(f, p) || In(p, t)
    {
      if Owns(f, p) {
        var u :| u in f && In(p, u);
        assert u in f + {t};
      } else if In(p, t) {
        assert t in f + {t};
      }
    }
  }

  lemma MergePages(f: set<Node>, t: Node, g: set<Node>, o: nat, q: nat)
    requires SamePages(f, t, g, Node(o, q)) && Node(o, Flip(q)) in g
    ensures SamePages(f, t, g - {Node(o, Flip(q))}, Node(o + 1, q / 2))
  {
    var b := Node(o, Flip(q));
    OwnsAdd(g - {b}, b);
    assert g - {b} + {b} == g;
    assert forall p: nat :: In(p, Node(o + 1, q / 2)) <==> In(p, Node(o, q)) || In(p, b);
  }

  lemma AddLast(f: set<Node>, t: Node, g: set<Node>, u: Node)
    requires SamePages(f, t, g, u)
    ensures Gained(f, g + {u}, t)
  {
    hide In;
    OwnsAdd(g, u);
  }

  lemma SplitPages(f: set<Node>, g: set<Node>, o: nat, q: nat)
    requires Gained(f, g, Node(o + 1, q))
    ensures Gained(f + {Node(o, 2 * q + 1)}, g, Node(o, 2 * q))
  {
    OwnsAdd(f, Node(o, 2 * q + 1));
    assert forall p: nat :: In(p, Node(o + 1, q)) <==> In(p, Node(o, 2 * q)) || In(p, Node(o, 2 * q + 1));
  }

  lemma RemovedPages(f: set<Node>, t: Node)
    requires t in f
    ensures Gained(f - {t}, f, t)
  {
    OwnsAdd(f - {t}, t);
    assert f - {t} + {t} == f;
  }

  lemma HandNotFree(n: nat, order: seq<nat>, lists: seq<seq<nat>>, area: seq<nat>, nrFree: nat,
                    free: set<Node>, used: set<Node>, hand: set<Node>, t: Node)
    requires Sync(n, order, lists, area, nrFree, free, used, hand) && t in hand
    ensures t !in free && t !in used
  {
  }

  /** __alloc_pages takes the first block of the smallest order that has one. */
  ghost predicate FirstFit(lists: seq<seq<nat>>, k: nat, p: nat) {
    exists o :: k <= o < |lists| && lists[o] != [] && lists[o][0] == p && forall j :: k <= j < o ==> lists[j] == []
  }

  ghost predicate HasRun(n: nat, free: set<Node>, k: nat) {
    exists t: Node :: t.o == k && Covered(n, free, t)
  }

  /** With every list from order `k` on empty, no aligned run of 2^k pages is
      free: free space is never fragmented by missed merges. */
  lemma NoRun(n: nat, order: seq<nat>, lists: seq<seq<nat>>, area: seq<nat>, nrFree: nat,
              free: set<Node>, used: set<Node>, k: nat)
    requires Sync(n, order, lists, area, nrFree, free, used, {}) && k < MAX_ORDER
    requires forall j :: k <= j < MAX_ORDER ==> lists[j] == []
    ensures !HasRun(n, free, k)
  {
    hide Shl, Shr, In, OrdersOk, Covered;
    assert free + used + {} == free + used;
    assert forall u :: u in free ==> u.o < k by {
      assert forall u :: u in free ==> ListOk(n, u.o, lists[u.o], free);
    }
    forall t: Node | t.o == k
      ensures !Covered(n, free, t)
    {
      if Covered(n, free, t) {
        RunInBlock(n, free, used, t);
      }
    }
  }

  /** The block that was cut off was a run of free pages. */
  lemma WasRun(n: nat, ts: set<Node>, f: set<Node>, g: set<Node>, t: Node)
    requires Tiling(n, ts) && t in ts && Gained(f, g, t)
    ensures HasRun(n, g, t.o)
  {
    assert Covered(n, g, t);
  }

  class Pmm {
    /** nr_pages, and per page the order field and the reference count. */
    const n: nat
    var order: seq<nat>
    var refcount: seq<nat>
    /** free_area[o].free_list as page numbers, first entry first, its nr_free,
        and the total of free pages. */
    var lists: seq<seq<nat>>
    var area: seq<nat>
    var nrFree: nat
    ghost var free: set<Node>
    ghost var used: set<Node>

    ghost predicate Core(hand: set<Node>)
      reads this
    {
      && |order| == n && |lists| == MAX_ORDER && |area| == MAX_ORDER
      && Sync(n, order, lists, area, nrFree, free, used, hand)
    }

    ghost predicate Valid()
      reads this
    {
      && Core({})
      && |refcount| == n
      && forall t :: t in used ==> Head(t) < n && refcount[Head(t)] >= 1
    }

    /** pmm_init: from the lowest page on, release the largest aligned block
        that fits; in the end every page is free. */
    constructor (pages: nat)
      requires pages > 0
      ensures n == pages && Valid() && used == {}
      ensures nrFree == pages && forall p: nat :: p < pages ==> Owns(free, p)
      ensures forall p :: 0 <= p < pages ==> refcount[p] == 0
    {
      n := pages;
      order := seq(pages, _ => PAGE_INUSE);
      refcount := seq(pages, _ => 0);
      lists := seq(MAX_ORDER, _ => []);
      area := seq(MAX_ORDER, _ => 0);
      nrFree := 0;
      free, used := {}, Singles(0, pages);
      new;
      hide *;
      InitSync(n, order, lists, area);
      ReleaseAll();
    }

    method ReleaseAll()
      requires |order| == n && |lists| == MAX_ORDER && |area| == MAX_ORDER
      requires Sync(n, order, lists, area, nrFree, free, used, {})
      requires used == Singles(0, n) && refcount == seq(n, _ => 0)
      modifies this`order, this`lists, this`area, this`nrFree, this`free, this`used
      ensures Valid() && used == {}
      ensures nrFree == n && forall p: nat :: p < n ==> Owns(free, p)
    {
      hide Sync, Shl, Shr, Gained;
      var idx := 0;
      while idx < n
        invariant 0 <= idx <= n && Core({}) && used == Singles(idx, n)
        decreases n - idx
      {
        var o := LargestOrder(idx, n - idx);
        ghost var q := Shr(idx, o);
        ShlAdd(q, 1, o);
        ShlPositive(1, o);
        Gather(n, order, lists, area, nrFree, free, idx, o, q);
        used := Singles(idx + Shl(1, o), n);
        FreeOnePage(idx, o);
        idx := idx + Shl(1, o);
      }
      AllFree(n, order, lists, area, nrFree, free);
    }

    method FreeAreaAdd(idx: nat, o: nat, ghost hand: set<Node>)
      requires o < MAX_ORDER && Shl(Shr(idx, o), o) == idx
      requires var t := Node(o, Shr(idx, o));
               t !in hand && Core(hand + {t}) && (o + 1 < MAX_ORDER ==> Node(o, Flip(t.q)) !in free)
      modifies this`order, this`lists, this`area, this`nrFree, this`free
      ensures Core(hand) && idx < n
      ensures order == old(order)[idx := o] && lists == old(lists)[o := old(lists)[o] + [idx]]
      ensures free == old(free) + {Node(o, Shr(idx, o))}
    {
      hide Sync, Shl, Shr;
      SyncAdd(n, order, lists, area, nrFree, free, used, hand, Node(o, Shr(idx, o)));
      order := order[idx := o];
      lists := lists[o := lists[o] + [idx]];
      area := area[o := area[o] + 1];
      nrFree := nrFree + Shl(1, o);
      free := free + {Node(o, Shr(idx, o))};
    }

    method FreeAreaDel(idx: nat, o: nat, ghost hand: set<Node>)
      requires o < MAX_ORDER && Shl(Shr(idx, o), o) == idx
      requires Core(hand) && Node(o, Shr(idx, o)) in free
      modifies this`lists, this`area, this`nrFree, this`free
      ensures Core(hand + {Node(o, Shr(idx, o))})
      ensures exists i :: 0 <= i < |old(lists)[o]| && old(lists)[o][i] == idx
                && lists == old(lists)[o := Without(old(lists)[o], i)]
      ensures free == old(free) - {Node(o, Shr(idx, o))}
    {
      ghost var t := Node(o, Shr(idx, o));
      assert Head(t) in lists[o];
      var i :| 0 <= i < |lists[o]| && lists[o][i] == idx;
      SyncDel(n, order, lists, area, nrFree, free, used, hand, t, i);
      assert area[o] >= 1;
      lists := lists[o := Without(lists[o], i)];
      area := area[o := area[o] - 1];
      nrFree := nrFree - Shl(1, o);
      free := free - {t};
    }

    /** __free_one_page: merge with the buddy as long as it is free, then put the
        block on its list. */
    method FreeOnePage(idx0: nat, o0: nat)
      requires o0 < MAX_ORDER && Shl(Shr(idx0, o0), o0) == idx0
      requires Core({Node(o0, Shr(idx0, o0))})
      modifies this`order, this`lists, this`area, this`nrFree, this`free
      ensures Core({}) && Gained(old(free), free, Node(o0, Shr(idx0, o0)))
    {
      hide Sync, Shl, Shr, Gained, SamePages;
      var idx, o := idx0, o0;
      ghost var t := Node(o0, Shr(idx0, o0));
      ghost var q := t.q;
      assert SamePages(free, t, free, Node(o, q)) by {
        SamePagesRefl(free, t);
      }
      while o < MAX_ORDER - 1
        invariant 0 <= o < MAX_ORDER && idx == Shl(q, o)
        invariant Core({Node(o, q)})
        invariant SamePages(old(free), t, free, Node(o, q))
        decreases MAX_ORDER - o
      {
        var b := BuddyIndex(idx, o);
        BuddyOfHead(o, q);
        BuddyTest(n, order, lists, area, nrFree, free, used, Node(o, q));
        if b >= n || order[b] != o {
          break;
        }
        FirstPage(o, Flip(q));
        MergePages(old(free), t, free, o, q);
        FreeAreaDel(b, o, {Node(o, q)});
        SyncMerge(n, order, lists, area, nrFree, free, used, Node(o, q));
        idx := ClearBit(idx, o);
        q := q / 2;
        o := o + 1;
      }
      FirstPage(o, q);
      AddLast(old(free), t, free, Node(o, q));
      assert {} + {Node(o, q)} == {Node(o, q)};
      FreeAreaAdd(idx, o, {});
    }

    /** __alloc_pages: take the first fitting block, put its upper halves back
        until the size is right. Fails exactly when no aligned run of 2^k free
        pages exists. */
    method AllocPages(k: nat) returns (page: Option<nat>)
      requires Valid()
      modifies this
      ensures Valid()
      ensures page.Some? <==> k < MAX_ORDER && HasRun(n, old(free), k)
      ensures page.None? ==>
                order == old(order) && lists == old(lists) && free == old(free)
                && used == old(used) && refcount == old(refcount)
      ensures page.Some? ==>
                var t := Node(k, Shr(page.value, k));
                && Head(t) == page.value && FirstFit(old(lists), k, page.value)
                && t !in old(used) && used == old(used) + {t}
                && Gained(free, old(free), t)
                && refcount == old(refcount)[page.value := 1]
    {
      hide Sync, Shl, Shr, Gained, FirstFit, HasRun;
      if k >= MAX_ORDER {
        return None;
      }
      var o := k;
      while o < MAX_ORDER
        invariant k <= o <= MAX_ORDER
        invariant unchanged(this)
        invariant forall j :: k <= j < o ==> lists[j] == []
      {
        if lists[o] != [] {
          var p := lists[o][0];
          assert FirstFit(old(lists), k, p) by {
            FitsFirst(lists, k, o);
          }
          Carve(p, o, k);
          return Some(p);
        }
        o := o + 1;
      }
      NoRun(n, order, lists, area, nrFree, free, used, k);
      page := None;
    }

    /** Block `p` of order `o0` leaves its list and is halved down to order `k`;
        what remains is marked in use. */
    method Carve(p: nat, o0: nat, k: nat)
      requires Valid() && k <= o0 < MAX_ORDER && p in lists[o0]
      modifies this
      ensures Valid()
      ensures var t := Node(k, Shr(p, k));
              && Head(t) == p && HasRun(n, old(free), k)
              && t !in old(used) && used == old(used) + {t}
              && Gained(free, old(free), t)
              && p < n && refcount == old(refcount)[p := 1]
    {
      hide Sync, Shl, Shr, Gained, HasRun;
      var o := o0;
      ghost var q := Shr(p, o);
      OnList(n, order, lists, area, nrFree, free, used, o, p);
      RemovedPages(free, Node(o, q));
      assert {} + {Node(o, q)} == {Node(o, q)};
      FreeAreaDel(p, o, {});
      while o > k
        invariant k <= o < MAX_ORDER && p == Shl(q, o)
        invariant Core({Node(o, q)})
        invariant Gained(free, old(free), Node(o, q))
        invariant used == old(used) && refcount == old(refcount)
      {
        o := o - 1;
        SplitPages(free, old(free), o, q);
        Halve(p, o, q);
        q := 2 * q;
      }
      FirstPage(o, q);
      MarkInUse(p, Node(o, q), old(free));
    }

    /** One split: the upper half goes on its list. */
    method Halve(p: nat, o: nat, ghost q: nat)
      requires o + 1 < MAX_ORDER && p == Shl(q, o + 1) && Core({Node(o + 1, q)})
      modifies this`order, this`lists, this`area, this`nrFree, this`free
      ensures Core({Node(o, 2 * q)}) && p == Shl(2 * q, o)
      ensures free == old(free) + {Node(o, 2 * q + 1)}
    {
      hide Sync, Shl, Shr;
      ShlAdd(2 * q, 1, o);
      ShlHalf(q, o);
      SyncSplit(n, order, lists, area, nrFree, free, used, o, q);
      FirstPage(o, 2 * q + 1);
      HandNotFree(n, order, lists, area, nrFree, free, used,
                  {Node(o, 2 * q)} + {Node(o, 2 * q + 1)}, Node(o, 2 * q));
      FreeAreaAdd(p + Shl(1, o), o, {Node(o, 2 * q)});
    }

    /** The block in hand gets the in-use mark and one reference. */
    method MarkInUse(p: nat, ghost t: Node, ghost g: set<Node>)
      requires Core({t}) && Head(t) == p && Gained(free, g, t)
      requires |refcount| == n && forall u :: u in used ==> Head(u) < n && refcount[Head(u)] >= 1
      modifies this`order, this`refcount, this`used
      ensures Valid() && HasRun(n, g, t.o)
      ensures t !in old(used) && used == old(used) + {t}
      ensures p < n && refcount == old(refcount)[p := 1]
    {
      hide Sync, Shl, Shr, Gained, HasRun;
      HandNotFree(n, order, lists, area, nrFree, free, used, {t}, t);
      InUse(n, order, lists, area, nrFree, free, used, t, g);
      order := order[p := PAGE_INUSE];
      refcount := refcount[p := 1];
      used := used + {t};
    }

    method GetPage(p: nat)
      requires Valid() && Node(0, p) in used
      modifies this`refcount
      ensures Valid() && p < n && refcount == old(refcount)[p := old(refcount)[p] + 1]
    {
      assert Head(Node(0, p)) == p;
      refcount := refcount[p := refcount[p] + 1];
    }

    /** put_page: drop a reference; the last one gives the page back. */
    method PutPage(p: nat)
      requires Valid() && Node(0, p) in used
      modifies this
      ensures Valid() && p < n && refcount == old(refcount)[p := old(refcount)[p] - 1]
      ensures old(refcount)[p] > 1 ==> free == old(free) && used == old(used) && lists == old(lists)
      ensures old(refcount)[p] == 1 ==>
                used == old(used) - {Node(0, p)} && Gained(old(free), free, Node(0, p))
    {
      hide Sync, Gained;
      assert Head(Node(0, p)) == p;
      UsedHeads(n, order, lists, area, nrFree, free, used);
      refcount := refcount[p := refcount[p] - 1];
      if refcount[p] == 0 {
        SyncTake(n, order, lists, area, nrFree, free, used, Node(0, p));
        used := used - {Node(0, p)};
        FreeOnePage(p, 0);
      }
    }

    /** free_pages: single pages go through the count, larger blocks directly. */
    method FreePages(p: nat, o: nat)
      requires Valid() && o < MAX_ORDER && Node(o, Shr(p, o)) in used && Shl(Shr(p, o), o) == p
      modifies this
      ensures Valid()
      ensures o > 0 || old(refcount)[p] == 1 ==>
                used == old(used) - {Node(o, Shr(p, o))} && Gained(old(free), free, Node(o, Shr(p, o)))
      ensures o == 0 && old(refcount)[p] > 1 ==> free == old(free) && used == old(used)
      ensures p < n && refcount == if o == 0 then old(refcount)[p := old(refcount)[p] - 1] else old(refcount)
    {
      hide Sync, Gained;
      UsedHeads(n, order, lists, area, nrFree, free, used);
      assert Head(Node(o, Shr(p, o))) == p;
      if o == 0 {
        PutPage(p);
      } else {
        SyncTake(n, order, lists, area, nrFree, free, used, Node(o, Shr(p, o)));
        used := used - {Node(o, Shr(p, o))};
        FreeOnePage(p, o);
      }
    }
  }

  /** Bits of `idx` below bit `o`. */
  function LowBits(idx: nat, o: nat): (r: nat)
    ensures r == 0 ==> Shl(Shr(idx, o), o) == idx
  {
    Interval(idx, o, Shr(idx, o));
    idx - Shl(Shr(idx, o), o)
  }

  /** The inner loop of pmm_init: the largest order at which `idx` is aligned and
      the block fits in `left` pages. */
  method LargestOrder(idx: nat, left: nat) returns (o: nat)
    requires left > 0
    ensures o < MAX_ORDER && Shl(Shr(idx, o), o) == idx && Shl(1, o) <= left
    ensures o + 1 < MAX_ORDER ==> LowBits(idx, o + 1) != 0 || Shl(1, o + 1) > left
  {
    o := 0;
    while o + 1 < MAX_ORDER && LowBits(idx, o + 1) == 0 && Shl(1, o + 1) <= left
      invariant o < MAX_ORDER && Shl(Shr(idx, o), o) == idx && Shl(1, o) <= left
    {
      o := o + 1;
    }
  }

  /** The pages from `a` on, each a block of its own. */
  ghost function Singles(a: nat, n: nat): (s: set<Node>)
    ensures forall t :: t in s <==> t.o == 0 && a <= t.q < n
    decreases n - a
  {
    if a >= n then {} else {Node(0, a)} + Singles(a + 1, n)
  }

  lemma InitSync(n: nat, order: seq<nat>, lists: seq<seq<nat>>, area: seq<nat>)
    requires order == seq(n, _ => PAGE_INUSE) && lists == seq(MAX_ORDER, _ => []) && area == seq(MAX_ORDER, _ => 0)
    ensures Sync(n, order, lists, area, 0, {}, Singles(0, n), {})
  {
    var ts := {} + Singles(0, n) + {};
    forall p: nat | p < n
      ensures Owns(ts, p)
    {
      assert Node(0, p) in ts && In(p, Node(0, p));
    }
    assert Pages(n, {}) == {};
  }

  /** The single pages of a block may be taken into the hand as that block. */
  lemma Gather(n: nat, order: seq<nat>, lists: seq<seq<nat>>, area: seq<nat>, nrFree: nat,
               free: set<Node>, a: nat, o: nat, q: nat)
    requires Sync(n, order, lists, area, nrFree, free, Singles(a, n), {})
    requires o < MAX_ORDER && a == Shl(q, o) && Shl(q + 1, o) <= n
    ensures Sync(n, order, lists, area, nrFree, free, Singles(Shl(q + 1, o), n), {Node(o, q)})
  {
    hide ListsOk, Canonical, Pages;
    var b, t := Shl(q + 1, o), Node(o, q);
    var ts, us := free + Singles(a, n) + {}, free + Singles(b, n) + {t};
    FirstPage(o, q);
    Interval(a, o, q);
    assert Node(0, a) in ts && In(a, Node(0, a)) && In(a, t);
    assert t !in free && t !in Singles(b, n);
    forall p: nat | p < n
      ensures Owns(us, p)
    {
      Interval(p, o, q);
      assert Owns(ts, p);
      var u :| u in ts && In(p, u);
      if a <= p {
        assert Node(0, p) in ts && In(p, Node(0, p));
        assert p < b ==> In(p, t) && t in us;
        assert p >= b ==> Node(0, p) in us;
      } else {
        assert u in us;
      }
    }
    forall p: nat, x, y | p < n && x in us && y in us && In(p, x) && In(p, y)
      ensures x == y
    {
      Interval(p, o, q);
      assert a <= p ==> Node(0, p) in ts && In(p, Node(0, p));
    }
    assert Tiling(n, us);
  }

  lemma SamePagesRefl(f: set<Node>, t: Node)
    ensures SamePages(f, t, f, t)
  {
  }

  lemma ShlHalf(q: nat, o: nat)
    ensures Shl(q, o + 1) == Shl(2 * q, o)
  {
  }

  lemma FitsFirst(lists: seq<seq<nat>>, k: nat, o: nat)
    requires k <= o < |lists| && lists[o] != [] && forall j :: k <= j < o ==> lists[j] == []
    ensures FirstFit(lists, k, lists[o][0])
  {
  }

  lemma OnList(n: nat, order: seq<nat>, lists: seq<seq<nat>>, area: seq<nat>, nrFree: nat,
               free: set<Node>, used: set<Node>, o: nat, p: nat)
    requires Sync(n, order, lists, area, nrFree, free, used, {}) && o < MAX_ORDER && p in lists[o]
    ensures Node(o, Shr(p, o)) in free && Shl(Shr(p, o), o) == p
  {
    assert ListOk(n, o, lists[o], free);
  }

  lemma InUse(n: nat, order: seq<nat>, lists: seq<seq<nat>>, area: seq<nat>, nrFree: nat,
              free: set<Node>, used: set<Node>, t: Node, g: set<Node>)
    requires Sync(n, order, lists, area, nrFree, free, used, {t}) && Gained(free, g, t)
    ensures Head(t) < n && HasRun(n, g, t.o)
    ensures Sync(n, order[Head(t) := PAGE_INUSE], lists, area, nrFree, free, used + {t}, {})
    ensures forall u :: u in used ==> Head(u) != Head(t)
  {
    SyncUse(n, order, lists, area, nrFree, free, used, t);
    WasRun(n, free + used + {t}, free, g, t);
    forall u | u in used
      ensures Head(u) != Head(t)
    {
      HeadsDiffer(n, free + used + {t}, u, t);
    }
  }

  /** With nothing allocated every page is free, and counted. */
  lemma AllFree(n: nat, order: seq<nat>, lists: seq<seq<nat>>, area: seq<nat>, nrFree: nat, free: set<Node>)
    requires Sync(n, order, lists, area, nrFree, free, {}, {})
    ensures nrFree == n && forall p: nat :: p < n ==> Owns(free, p)
  {
    assert free + {} + {} == free;
    assert Pages(n, free) == Range(0, n);
  }

  lemma UsedHeads(n: nat, order: seq<nat>, lists: seq<seq<nat>>, area: seq<nat>, nrFree: nat,
                  free: set<Node>, used: set<Node>)
    requires Sync(n, order, lists, area, nrFree, free, used, {})
    ensures forall t, u :: t in used && u in used && Head(t) == Head(u) ==> t == u
  {
    forall t, u | t in used && u in used && t != u
      ensures Head(t) != Head(u)
    {
      HeadsDiffer(n, free + used + {}, t, u);
    }
  }

  /** Freeing everything restores the initial free blocks: with nothing
      allocated, the free blocks of every order are the same whatever was
      allocated and freed before. */
  lemma FreeingAllRestores(n: nat,
                           order: seq<nat>, lists: seq<seq<nat>>, area: seq<nat>, nrFree: nat, free: set<Node>,
                           order': seq<nat>, lists': seq<seq<nat>>, area': seq<nat>, nrFree': nat, free': set<Node>)
    requires Sync(n, order, lists, area, nrFree, free, {}, {})
    requires Sync(n, order', lists', area', nrFree', free', {}, {})
    ensures free == free' && nrFree == nrFree'
    ensures forall o, p :: 0 <= o < MAX_ORDER ==> (p in lists[o] <==> p in lists'[o])
  {
    AllFree(n, order, lists, area, nrFree, free);
    AllFree(n, order', lists', area', nrFree', free');
    assert free + {} + {} == free + {} && free' + {} + {} == free' + {};
    CanonicalUnique(n, free, {}, free', {});
    forall o, p | 0 <= o < MAX_ORDER
      ensures p in lists[o] <==> p in lists'[o]
    {
      assert ListOk(n, o, lists[o], free) && ListOk(n, o, lists'[o], free);
    }
  }
}
