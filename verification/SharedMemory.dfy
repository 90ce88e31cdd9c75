/** User pages on x86: heaps and areas of processes, anonymous pages on demand,
    System V shared-memory segments, which own their pages, and fork with its
    copy-on-write. An operation runs whole, save shmat, which lets go of its lock
    half way; page and page-table allocations may fail at any point. */
module SharedMemory {
  import opened Basics
  import opened Pages
  import opened PageCounts

  const NSHM: nat := 32
  const SHM_MAX_PAGES: nat := 256
  const NVMA: nat := 64

  /** A page-directory entry of a process: 1024 pages each. */
  datatype Dir = Dir(p: Pid, d: nat)

  /** Entry of a process' area table; addresses count pages. `shm` is the
      segment attached, or -1. */
  datatype Slot = Slot(p: Pid, i: nat)
  datatype Vma = Vma(start: nat, end: nat, write: bool, shm: int)

  /** USEREND and USERHEAP_TOP, in pages. */
  const USER_END: nat := 0xC_0000
  const HEAP_TOP: nat := 0xB_FFE0

  /** First page of user space; pages of the heap, from the one of brk_start to the
      one before brk, rounded up. */
  datatype Heap = Heap(base: nat, lo: nat, hi: nat)

  /** Where areas may be: above the break and below the stack's guard. */
  predicate InBounds(h: Heap, lo: nat, hi: nat) {
    h.base <= lo && h.hi <= lo && hi <= HEAP_TOP
  }

  datatype Seg = Seg(key: int, pages: seq<Frame>, nattch: nat, dest: bool)

  function DirOf(k: Key): (d: Dir) { Dir(k.p, k.page / 1024) }

  // ---- Segments ----

  /** A page of a segment. */
  datatype Place = Place(id: int, i: nat)

  ghost predicate IsPlace(seg: map<int, Seg>, r: Place) {
    r.id in seg && r.i < |seg[r.id].pages|
  }

  ghost function FrameAt(seg: map<int, Seg>, r: Place): (f: Frame)
    requires IsPlace(seg, r)
  {
    seg[r.id].pages[r.i]
  }

  ghost function SegFrames(seg: map<int, Seg>): (s: set<Frame>)
    ensures forall f :: f in s <==> exists r :: IsPlace(seg, r) && FrameAt(seg, r) == f
  {
    var s := set id, i: nat | id in seg && i < |seg[id].pages| :: seg[id].pages[i];
    assert forall r :: IsPlace(seg, r) ==> seg[r.id].pages[r.i] in s;
    assert forall id, i: nat :: id in seg && i < |seg[id].pages| ==>
             IsPlace(seg, Place(id, i)) && FrameAt(seg, Place(id, i)) == seg[id].pages[i];
    s
  }

  /** No frame is in two places. */
  ghost predicate SegsApart(seg: map<int, Seg>) {
    forall r, q :: IsPlace(seg, r) && IsPlace(seg, q) && FrameAt(seg, r) == FrameAt(seg, q) ==> r == q
  }

  /** A segment marked for destruction is attached somewhere. */
  ghost predicate SegLimits(seg: map<int, Seg>) {
    forall id :: id in seg ==>
        0 <= id < NSHM && 0 < |seg[id].pages| <= SHM_MAX_PAGES && (seg[id].dest ==> seg[id].nattch > 0)
  }

  // ---- Attachments ----

  ghost function Attached(vma: map<Slot, Vma>, id: int, uncounted: set<Slot>): (s: set<Slot>)
    ensures forall v :: v in s <==> v in vma && vma[v].shm == id && v !in uncounted
  {
    set v | v in vma && vma[v].shm == id && v !in uncounted
  }

  ghost function Count(vma: map<Slot, Vma>, id: int, uncounted: set<Slot>): (n: nat) {
    |Attached(vma, id, uncounted)|
  }

  lemma SomeAttached(vma: map<Slot, Vma>, id: int, uncounted: set<Slot>, v: Slot)
    requires v in vma && vma[v].shm == id && v !in uncounted
    ensures Count(vma, id, uncounted) > 0
  {
    assert v in Attached(vma, id, uncounted);
  }

  /** A segment's count is the number of areas attaching it, leaving out those of
      `uncounted`. */
  ghost predicate Counted(vma: map<Slot, Vma>, seg: map<int, Seg>, uncounted: set<Slot>) {
    && (forall id :: id in seg ==> seg[id].nattch == Count(vma, id, uncounted))
    && (forall v :: v in vma && vma[v].shm >= 0 ==> vma[v].shm in seg)
  }

  /** Pages of an area. */
  ghost predicate InArea(k: Key, v: Slot, a: Vma) {
    k.p == v.p && a.start <= k.page < a.end
  }

  /** An attached area is as long as its segment and all of it is mapped; and what
      is mapped of any area is read-only exactly if the area is. */
  ghost predicate AreaOk(pte: map<Key, Pte>, seg: map<int, Seg>, v: Slot, a: Vma) {
    && (a.shm >= 0 ==> a.shm in seg && a.end == a.start + |seg[a.shm].pages|)
    && (forall k :: InArea(k, v, a) && a.shm >= 0 ==> k in pte)
    && (forall k :: InArea(k, v, a) && k in pte ==> (ReadOnly(pte[k]) <==> !a.write))
  }

  ghost predicate AreasOk(pte: map<Key, Pte>, vma: map<Slot, Vma>, seg: map<int, Seg>, uncounted: set<Slot>) {
    forall v :: v in vma && v !in uncounted ==> AreaOk(pte, seg, v, vma[v])
  }

  /** Areas of one process do not overlap. */
  ghost predicate Apart(vma: map<Slot, Vma>) {
    && (forall v :: v in vma ==> vma[v].start < vma[v].end && v.i < NVMA)
    && forall v, w :: v in vma && w in vma && v.p == w.p && v != w ==>
         vma[v].end <= vma[w].start || vma[w].end <= vma[v].start
  }

  /** Areas lie above the heap of their process. */
  ghost predicate HeapBelow(vma: map<Slot, Vma>, heap: map<Pid, Heap>) {
    forall v :: v in vma ==> v.p in heap && heap[v.p].hi <= vma[v].start
  }

  /** No area but those there were. */
  ghost predicate Fewer(vma: map<Slot, Vma>, vma': map<Slot, Vma>) {
    forall v :: v in vma' ==> v in vma && vma'[v] == vma[v]
  }

  lemma FewerBelow(vma: map<Slot, Vma>, vma': map<Slot, Vma>, heap: map<Pid, Heap>)
    requires HeapBelow(vma, heap) && Fewer(vma, vma')
    ensures HeapBelow(vma', heap)
  {
  }

  lemma FewerSame(vma: map<Slot, Vma>)
    ensures Fewer(vma, vma)
  {
  }

  lemma FewerTwice(vma: map<Slot, Vma>, vma1: map<Slot, Vma>, vma2: map<Slot, Vma>)
    requires Fewer(vma, vma1) && Fewer(vma1, vma2)
    ensures Fewer(vma, vma2)
  {
  }

  ghost predicate Tables(pte: map<Key, Pte>, pt: set<Dir>) {
    forall k :: k in pte ==> DirOf(k) in pt
  }

  ghost predicate InRange(k: Key, p: Pid, lo: nat, hi: nat) {
    k.p == p && lo <= k.page < hi
  }

  /** Entries outside pages lo .. hi - 1 of process `p` are the same. */
  ghost predicate SameOutside(pte: map<Key, Pte>, pte': map<Key, Pte>, p: Pid, lo: nat, hi: nat) {
    forall k :: !InRange(k, p, lo, hi) ==> (k in pte' <==> k in pte) && (k in pte ==> pte'[k] == pte[k])
  }

  /** Those inside map the given frames, shared. */
  ghost predicate Maps(pte: map<Key, Pte>, p: Pid, lo: nat, pages: seq<Frame>, n: nat, write: bool)
    requires n <= |pages|
  {
    forall k :: InRange(k, p, lo, lo + n) ==> k in pte && pte[k] == Pte(pages[k.page - lo], write, false)
  }

  class Kernel {
    var pte: map<Key, Pte>
    var pt: set<Dir>
    var vma: map<Slot, Vma>
    var seg: map<int, Seg>
    var rc: map<Frame, nat>
    var heap: map<Pid, Heap>
    /** How often an allocation has failed. */
    ghost var refused: nat

    ghost predicate Valid()
      reads this
    {
      && Exact(pte, SegFrames(seg), {}, rc) && SegsApart(seg) && SegLimits(seg) && Counted(vma, seg, {})
      && AreasOk(pte, vma, seg, {}) && Apart(vma) && Tables(pte, pt) && HeapBelow(vma, heap)
    }

    constructor ()
      ensures Valid() && pte == map[] && vma == map[] && seg == map[] && rc == map[] && heap == map[] && refused == 0
    {
      pte, pt, vma, seg, rc, heap, refused := map[], {}, map[], map[], map[], map[], 0;
    }

    /** A process with an empty page table, as exec finds it. */
    method Spawn(p: Pid, h: Heap)
      requires Valid() && p !in heap && forall v :: v in vma ==> v.p != p
      modifies this`heap
      ensures Valid() && heap == old(heap)[p := h]
    {
      heap := heap[p := h];
    }

    method AllocPage() returns (f: Option<Frame>)
      modifies this`rc, this`refused
      ensures f.None? ==> rc == old(rc) && refused == old(refused) + 1
      ensures f.Some? ==> f.value !in old(rc) && rc == old(rc)[f.value := 1] && refused == old(refused)
    {
      if * {
        refused := refused + 1;
        return None;
      }
      ghost var g := Unused(rc.Keys);
      var x :| x !in rc && x >= 0;
      f := Some(x);
      rc := rc[x := 1];
    }

    /** uvmmap of one page: fails on a present entry, or without memory for a
        missing page-table page. */
    method Uvmmap(k: Key, t: Pte) returns (ok: bool)
      modifies this`pte, this`pt, this`refused
      ensures ok ==> k !in old(pte) && pte == old(pte)[k := t] && pt == old(pt) + {DirOf(k)} && refused == old(refused)
      ensures !ok && k !in old(pte) ==> refused == old(refused) + 1
      ensures !ok ==> pte == old(pte) && (k in old(pte) || DirOf(k) !in old(pt)) && old(pt) <= pt
    {
      if DirOf(k) !in pt {
        if * {
          refused := refused + 1;
          return false;
        }
        pt := pt + {DirOf(k)};
      }
      if k in pte {
        return false;
      }
      pte := pte[k := t];
      ok := true;
    }

    /** uvmunmap of one page, which may be missing. */
    method Uvmunmap(k: Key, ghost own: set<Frame>)
      requires Exact(pte, own, {}, rc)
      modifies this`pte, this`rc
      ensures Exact(pte, own, {}, rc) && pte == Without(old(pte), k)
    {
      if k in pte {
        Unmapped(pte, own, {}, rc, k);
        rc := Dec(rc, pte[k].frame);
        pte := Without(pte, k);
      }
    }

    /** A page of its own for `k`: what a page fault does, and exec for the image
        and the stack. */
    method MapAnon(k: Key, w: bool) returns (ok: bool)
      requires Valid() && k !in pte && forall v :: v in vma && InArea(k, v, vma[v]) ==>
                                         vma[v].shm < 0 && vma[v].write == w
      modifies this`pte, this`pt, this`rc, this`refused
      ensures Valid() && refused == old(refused) + if ok then 0 else 1
      ensures ok ==> k in pte && pte == old(pte)[k := Pte(pte[k].frame, w, false)] && pte[k].frame !in old(rc)
      ensures !ok ==> pte == old(pte)
    {
      hide SegFrames, SegsApart, SegLimits, Counted, AreasOk, Apart, Exact, HeapBelow;
      ghost var pte0, rc0 := pte, rc;
      var mem := AllocPage();
      if mem.None? {
        return false;
      }
      AnonCounts(pte0, SegFrames(seg), rc0, k, mem.value, w);
      Replaced(pte0, vma, seg, k, Pte(mem.value, w, false));
      ok := Uvmmap(k, Pte(mem.value, w, false));
      if !ok {
        rc := Dec(rc, mem.value);
      }
    }

    /** uvm_demand_fault: a present page needs nothing; a page of the heap or of an
        anonymous area gets a frame of its own. A page of an attached area is
        always present, so shm_demand_fault is never asked to map one. */
    method DemandFault(k: Key, write: bool) returns (ok: bool)
      requires Valid() && k.p in heap
      modifies this`pte, this`pt, this`rc, this`refused
      ensures Valid()
      ensures !(heap[k.p].base <= k.page < USER_END) ==> !ok && pte == old(pte) && rc == old(rc)
      ensures heap[k.p].base <= k.page < USER_END && k in old(pte) ==>
                ok && pte == old(pte) && rc == old(rc) && refused == old(refused)
      ensures k !in old(pte) && !OnDemand(vma, heap, k, write) ==> !ok && pte == old(pte) && rc == old(rc)
      ensures k !in old(pte) && OnDemand(vma, heap, k, write) ==>
                && refused == old(refused) + (if ok then 0 else 1)
                && if ok then k in pte && pte[k].frame !in old(rc) && !pte[k].cow && pte == old(pte)[k := pte[k]]
                              && (pte[k].w <==> MayWrite(vma, heap, k))
                   else pte == old(pte)
    {
      if k.page < heap[k.p].base || k.page >= USER_END {
        return false;
      }
      if k in pte {
        return true;
      }
      hide SegFrames, SegsApart, SegLimits, Counted, Apart, Exact;
      var w := true;
      if !(heap[k.p].lo <= k.page < heap[k.p].hi) {
        var v := VmaLookup(k);
        if v.None? {
          return false;
        }
        NeverDemanded(pte, vma, seg, v.value, k);
        OneArea(vma, k, v.value);
        if write && !vma[v.value].write {
          return false;
        }
        w := vma[v.value].write;
      }
      ok := MapAnon(k, w);
    }

    /** vma_lookup. */
    method VmaLookup(k: Key) returns (r: Option<Slot>)
      ensures r.Some? ==> r.value in vma && r.value.p == k.p && InArea(k, r.value, vma[r.value])
      ensures r.None? ==>
                forall i: nat :: i < NVMA && Slot(k.p, i) in vma ==> !InArea(k, Slot(k.p, i), vma[Slot(k.p, i)])
    {
      var i := 0;
      while i < NVMA
        invariant 0 <= i <= NVMA
        invariant forall j: nat :: j < i && Slot(k.p, j) in vma ==> !InArea(k, Slot(k.p, j), vma[Slot(k.p, j)])
      {
        var v := Slot(k.p, i);
        if v in vma && vma[v].start <= k.page < vma[v].end {
          return Some(v);
        }
        i := i + 1;
      }
      r := None;
    }

    /** mmap of anonymous memory at a chosen place. */
    method DoMmap(p: Pid, start: nat, npages: nat, write: bool) returns (r: Option<Slot>)
      requires Valid() && p in heap
      modifies this`vma
      ensures Valid()
      ensures r.Some? <==>
                old(Available(vma, pte, p, start, start + npages)) && InBounds(heap[p], start, start + npages)
                           && exists i: nat :: i < NVMA && Slot(p, i) !in old(vma)
      ensures r.None? ==> vma == old(vma)
      ensures r.Some? ==> r.value !in old(vma) && r.value.p == p
                          && vma == old(vma)[r.value := Vma(start, start + npages, write, -1)]
    {
      hide SegFrames, SegsApart, SegLimits, Exact, Apart, Counted, AreasOk, HeapBelow;
      if !InBounds(heap[p], start, start + npages) || !Available(vma, pte, p, start, start + npages) {
        return None;
      }
      r := VmaSlot(p);
      if r.Some? {
        NothingMapped(vma, pte, r.value, start, start + npages, write);
        AnonArea(pte, vma, seg, heap, r.value, Vma(start, start + npages, write, -1));
        vma := vma[r.value := Vma(start, start + npages, write, -1)];
      }
    }

    /** munmap of exactly one area, anonymous or attached. */
    method DoMunmap(p: Pid, start: nat, end: nat) returns (ok: bool)
      requires Valid()
      modifies this
      ensures Valid() && heap == old(heap) && refused == old(refused)
      ensures ok <==> exists i: nat :: i < NVMA && Bounds(old(vma), Slot(p, i), start, end)
      ensures !ok ==> vma == old(vma) && pte == old(pte) && seg == old(seg) && rc == old(rc)
      ensures ok ==> SameOutside(old(pte), pte, p, start, end) && (forall k :: InRange(k, p, start, end) ==> k !in pte)
      ensures ok ==> Removed(old(vma), vma, p, start, end) && KeptSegs(old(seg), seg)
    {
      var i := 0;
      while i < NVMA && !Bounds(vma, Slot(p, i), start, end)
        invariant 0 <= i <= NVMA && forall j: nat :: j < i ==> !Bounds(vma, Slot(p, j), start, end)
      {
        i := i + 1;
      }
      if i == NVMA {
        return false;
      }
      var v := Slot(p, i);
      assert forall k :: InRange(k, p, start, end) <==> InArea(k, v, vma[v]);
      if vma[v].shm >= 0 {
        ShmMunmap(v);
        KeptDetached(old(seg), old(vma)[v].shm);
      } else {
        UnmapAnon(v);
      }
      ok := true;
    }

    /** mmap_unmap_pages, and the area goes. */
    method UnmapAnon(v: Slot)
      requires Valid() && v in vma && vma[v].shm < 0
      modifies this`pte, this`rc, this`vma
      ensures Valid() && vma == DropArea(old(vma), v)
      ensures SameOutside(old(pte), pte, v.p, old(vma)[v].start, old(vma)[v].end)
      ensures forall k :: InRange(k, v.p, old(vma)[v].start, old(vma)[v].end) ==> k !in pte
    {
      hide Exact, SegFrames, SegsApart, SegLimits, AreasOk, Apart, Counted, HeapBelow;
      ghost var pte0, vma0 := pte, vma;
      UnmapRange(v.p, vma[v].start, vma[v].end, SegFrames(seg));
      AnonGone(pte0, pte, vma0, seg, heap, v);
      vma := DropArea(vma, v);
    }

    /** brk, in pages: growth meets no area and maps nothing; pages above a lowered
        break go. */
    method SysBrk(p: Pid, hi: nat) returns (ok: bool)
      requires Valid() && p in heap
      modifies this`heap, this`pte, this`rc
      ensures Valid()
      ensures ok <==> old(heap)[p].lo <= hi <= HEAP_TOP && forall v :: v in vma && v.p == p ==> hi <= vma[v].start
      ensures heap == if ok then old(heap)[p := old(heap)[p].(hi := hi)] else old(heap)
      ensures SameOutside(old(pte), pte, p, if ok then hi else old(heap)[p].hi, old(heap)[p].hi)
      ensures ok ==> forall k :: InRange(k, p, hi, old(heap)[p].hi) ==> k !in pte
    {
      hide Exact, SegFrames, SegsApart, SegLimits, AreasOk, Apart, Counted;
      if hi < heap[p].lo || hi > HEAP_TOP || exists v :: v in vma && v.p == p && vma[v].start < hi {
        return false;
      }
      ghost var pte0 := pte;
      UnmapRange(p, hi, heap[p].hi, SegFrames(seg));
      AreasKept(pte0, pte, vma, seg, p, hi, heap[p].hi);
      heap := heap[p := heap[p].(hi := hi)];
      ok := true;
    }

    /** shm_map_range: every page of the range maps its page of the segment, with
        the area's permission. It cannot fail where the page tables exist. */
    method ShmMapRange(p: Pid, start: nat, write: bool, pages: seq<Frame>, ghost own: set<Frame>) returns (ok: bool)
      requires Exact(pte, own, {}, rc) && Tables(pte, pt) && forall i :: 0 <= i < |pages| ==> pages[i] in own
      modifies this`pte, this`pt, this`rc, this`refused
      ensures Exact(pte, own, {}, rc) && Tables(pte, pt) && old(pt) <= pt
      ensures refused == old(refused) + if ok then 0 else 1
      ensures SameOutside(old(pte), pte, p, start, start + |pages|)
      ensures ok ==> Maps(pte, p, start, pages, |pages|, write)
      ensures (forall k :: InRange(k, p, start, start + |pages|) ==> DirOf(k) in old(pt)) ==> ok
    {
      var i := 0;
      hide Exact;
      while i < |pages|
        invariant 0 <= i <= |pages| && Exact(pte, own, {}, rc) && Tables(pte, pt) && old(pt) <= pt
        invariant SameOutside(old(pte), pte, p, start, start + |pages|)
        invariant Maps(pte, p, start, pages, i, write) && refused == old(refused)
      {
        var k := Key(p, start + i);
        assert InRange(k, p, start, start + |pages|);
        ghost var before := pte;
        var done := ShmMapPage(k, Pte(pages[i], write, false), own);
        OutsideStep(old(pte), before, pte, k, p, start, start + |pages|);
        if !done {
          return false;
        }
        MapsStep(before, pte, p, start, pages, i, write);
        i := i + 1;
      }
      ok := true;
    }

    /** One turn of shm_map_range. */
    method ShmMapPage(k: Key, t: Pte, ghost own: set<Frame>) returns (ok: bool)
      requires Exact(pte, own, {}, rc) && Tables(pte, pt) && t.frame in own
      modifies this`pte, this`pt, this`rc, this`refused
      ensures Exact(pte, own, {}, rc) && Tables(pte, pt) && old(pt) <= pt
      ensures ok ==> pte == old(pte)[k := t]
      ensures refused == old(refused) + if ok then 0 else 1
      ensures !ok ==> pte == Without(old(pte), k) && DirOf(k) !in old(pt)
    {
      hide Exact;
      if k in pte {
        Uvmunmap(k, own);
      }
      ShareOk(pte, own, rc, k, t);
      rc := Inc(rc, t.frame);
      ok := Uvmmap(k, t);
      if !ok {
        rc := Dec(rc, t.frame);
      }
    }

    /** shm_unmap_range, mmap_unmap_pages. */
    method UnmapRange(p: Pid, lo: nat, hi: nat, ghost own: set<Frame>)
      requires Exact(pte, own, {}, rc) && Tables(pte, pt)
      modifies this`pte, this`rc
      ensures Exact(pte, own, {}, rc) && Tables(pte, pt)
      ensures SameOutside(old(pte), pte, p, lo, hi) && forall k :: InRange(k, p, lo, hi) ==> k !in pte
    {
      var a := lo;
      hide Exact;
      while a < hi
        invariant (lo <= a <= hi || hi < lo == a) && Exact(pte, own, {}, rc) && Tables(pte, pt)
        invariant SameOutside(old(pte), pte, p, lo, hi) && forall k :: InRange(k, p, lo, a) ==> k !in pte
      {
        assert InRange(Key(p, a), p, lo, hi);
        Uvmunmap(Key(p, a), own);
        a := a + 1;
      }
    }

    /** shm_free_pages and the slot marked unused: the segment's references go. */
    method Destroy(id: int)
      requires id in seg && SegsApart(seg) && Exact(pte, SegFrames(seg), {}, rc)
      modifies this`seg, this`rc
      ensures seg == DropSeg(old(seg), id) && Exact(pte, SegFrames(seg), {}, rc)
    {
      var pages := seg[id].pages;
      ghost var own := SegFrames(seg);
      hide Exact, SegFrames;
      var i := 0;
      while i < |pages|
        invariant 0 <= i <= |pages| && seg == old(seg) && pte == old(pte)
        invariant own == SegFrames(seg) - Firsts(pages, i) && Exact(pte, own, {}, rc)
      {
        NextOwned(seg, id, i);
        DropOwned(pte, own, rc, pages[i]);
        rc := Dec(rc, pages[i]);
        own := own - {pages[i]};
        FirstsNext(pages, i);
        i := i + 1;
      }
      FramesWithout(seg, id);
      seg := DropSeg(seg, id);
    }

    /** shm_try_destroy_locked. */
    method TryDestroy(id: int)
      requires id in seg && SegsApart(seg) && Exact(pte, SegFrames(seg), {}, rc)
      modifies this`seg, this`rc
      ensures seg == if old(seg)[id].dest && old(seg)[id].nattch == 0 then DropSeg(old(seg), id) else old(seg)
      ensures Exact(pte, SegFrames(seg), {}, rc)
    {
      if seg[id].dest && seg[id].nattch == 0 {
        Destroy(id);
      }
    }

    /** shmctl(IPC_RMID): no new attachment, and gone as soon as none is left. */
    method DoShmctl(id: int) returns (ok: bool)
      requires Valid()
      modifies this`seg, this`rc
      ensures Valid() && ok == (id in old(seg))
      ensures seg == if !ok then old(seg)
                     else if old(seg)[id].nattch > 0 then old(seg)[id := Marked(old(seg)[id])]
                     else DropSeg(old(seg), id)
    {
      hide Exact, SegFrames, SegsApart, SegLimits, Counted, AreasOk, Tables, Apart;
      if id !in seg {
        return false;
      }
      ghost var v0 := seg;
      FramesSame(seg, id, Marked(seg[id]));
      DropSet(seg, id, Marked(seg[id]));
      seg := seg[id := Marked(seg[id])];
      TryDestroy(id);
      MarkedOk(pte, vma, v0, seg, id);
      ok := true;
    }

    /** The allocation loop of shmget: all pages, or none and the counts as they
        were. */
    method AllocPages(n: nat, ghost own: set<Frame>) returns (r: Option<seq<Frame>>)
      requires Exact(pte, own, {}, rc)
      modifies this`rc, this`refused
      ensures r.None? ==> rc == old(rc)
      ensures refused == old(refused) + if r.Some? then 0 else 1
      ensures r.Some? ==> |r.value| == n && Fresh(old(rc), r.value) && rc == WithPages(old(rc), r.value)
    {
      var pages := [];
      hide Exact;
      while |pages| < n
        invariant |pages| <= n && Fresh(old(rc), pages) && rc == WithPages(old(rc), pages) && refused == old(refused)
      {
        ghost var before := rc;
        var mem := AllocPage();
        if mem.None? {
          var j := |pages|;
          assert pages[..j] == pages;
          while j > 0
            invariant 0 <= j <= |pages| && Fresh(old(rc), pages) && rc == WithPages(old(rc), pages[..j])
            invariant refused == old(refused) + 1
          {
            j := j - 1;
            DropLast(old(rc), pages, j);
            rc := Dec(rc, pages[j]);
          }
          return None;
        }
        AddLast(old(rc), pages, mem.value);
        pages := pages + [mem.value];
      }
      r := Some(pages);
    }

    /** shmget: the segment with the key, or a new one of zeroed pages. */
    method DoShmget(key: int, size: nat, create: bool, excl: bool) returns (r: Option<int>)
      requires Valid() && size < 0x1_0000_0000
      modifies this`seg, this`rc, this`refused
      ensures Valid()
      ensures r.None? ==> seg == old(seg) && rc == old(rc)
      ensures r.None? <==> refused > old(refused) || Denied(old(seg), key, size, create, excl)
      ensures r.Some? ==> Opened(old(seg), seg, rc, old(rc), key, size, create, excl, r.value)
                          || Added(old(seg), seg, rc, old(rc), key, size, create, r.value)
    {
      hide Exact, SegFrames, SegsApart, Counted, AreasOk, Tables, Apart;
      if key != 0 {
        var i := ShmFind(key);
        if i.Some? {
          if size > |seg[i.value].pages| * 4096 || (create && excl) {
            return None;
          }
          return i;
        }
        if !create {
          return None;
        }
      }
      var npages := (size + 4095) % 0x1_0000_0000 / 4096;
      if size == 0 || npages == 0 || npages > SHM_MAX_PAGES {
        return None;
      }
      var id := ShmSlot();
      if id == NSHM {
        return None;
      }
      hide SegLimits;
      var pages := AllocPages(npages, SegFrames(seg));
      if pages.None? {
        return None;
      }
      Created(pte, vma, seg, rc, old(rc), id, key, pages.value);
      seg := seg[id := Seg(key, pages.value, 0, false)];
      r := Some(id);
    }

    /** The first segment with the key that is not marked for destruction. */
    method ShmFind(key: int) returns (r: Option<int>)
      ensures r.Some? ==> 0 <= r.value < NSHM && FirstKey(seg, key, r.value)
      ensures r.None? ==> NoKey(seg, key)
    {
      var i := 0;
      while i < NSHM
        invariant 0 <= i <= NSHM && forall j :: 0 <= j < i && j in seg ==> seg[j].dest || seg[j].key != key
      {
        if i in seg && !seg[i].dest && seg[i].key == key {
          return Some(i);
        }
        i := i + 1;
      }
      r := None;
    }

    /** The first unused slot of the table, or its size. */
    method ShmSlot() returns (id: int)
      ensures 0 <= id <= NSHM && (id < NSHM ==> id !in seg) && forall j :: 0 <= j < id ==> j in seg
    {
      id := 0;
      while id < NSHM && id in seg
        invariant 0 <= id <= NSHM && forall j :: 0 <= j < id ==> j in seg
      {
        id := id + 1;
      }
    }

    /** shmat up to where shm_lock is let go: the length of the segment, if there
        is room for it in the address space and the area table. */
    method ShmatLookup(p: Pid, id: int, start: nat) returns (r: Option<nat>)
      requires p in heap
      ensures r.None? <==> Unattachable(vma, pte, seg, heap, p, id, start)
      ensures r.Some? ==> r.value == |seg[id].pages|
    {
      if id !in seg || seg[id].dest {
        return None;
      }
      var end := start + |seg[id].pages|;
      if !InBounds(heap[p], start, end) || !Available(vma, pte, p, start, end) {
        return None;
      }
      var slot := VmaSlot(p);
      r := if slot.None? then None else Some(|seg[id].pages|);
    }

    /** The rest of shmat, whatever other processes did in between: an area of the
        length found before, the segment that is there now mapped from its start.
        With a segment of another length under the same number the area is wrong,
        and if it is longer its pages overrun the area. Pages mapped before a
        failure stay until the process exits. */
    method ShmatAttach(p: Pid, id: int, start: nat, npages: nat, write: bool) returns (r: Option<Slot>)
      requires Valid() && p in heap && Available(vma, pte, p, start, start + npages) && heap[p].hi <= start
      requires exists i: nat :: i < NVMA && Slot(p, i) !in vma
      modifies this`pte, this`pt, this`rc, this`vma, this`seg, this`refused
      ensures Exact(pte, SegFrames(seg), {}, rc) && Tables(pte, pt)
      ensures r.None? ==> vma == old(vma) && seg == old(seg)
      ensures r.None? && (id !in old(seg) || |old(seg)[id].pages| <= npages) ==> Valid()
      ensures r.None? <==> refused > old(refused) || id !in old(seg) || old(seg)[id].dest
      ensures old(refused) <= refused <= old(refused) + if r.None? then 1 else 0
      ensures r.Some? ==> r.value.p == p && r.value !in old(vma)
      ensures r.Some? ==> vma == old(vma)[r.value := Vma(start, start + npages, write, id)]
      ensures r.Some? ==> seg == old(seg)[id := Attach(old(seg)[id])]
      ensures r.Some? ==> Maps(pte, p, start, old(seg)[id].pages, |old(seg)[id].pages|, write)
      ensures r.Some? ==> (Valid() <==> |old(seg)[id].pages| == npages)
      ensures id !in old(seg) ==> pte == old(pte)
      ensures id in old(seg) ==> SameOutside(old(pte), pte, p, start, start + |old(seg)[id].pages|)
    {
      hide Exact, SegFrames, SegsApart, Counted, AreasOk, Apart, HeapBelow;
      if id !in seg || seg[id].dest {
        return None;
      }
      var slot := VmaSlot(p);
      var pages := seg[id].pages;
      ghost var pte0 := pte;
      OwnPages(seg, id);
      var ok := ShmMapRange(p, start, write, pages, SegFrames(seg));
      if |pages| <= npages {
        AreasKept(pte0, pte, vma, seg, p, start, start + |pages|);
      }
      if !ok {
        return None;
      }
      var a := Vma(start, start + npages, write, id);
      if |pages| == npages {
        AttachOk(pte, vma, seg, slot.value, a, id);
      } else {
        WrongLength(pte, vma, seg, slot.value, a, id);
      }
      AddedBelow(vma, heap, slot.value, a);
      FramesSame(seg, id, Attach(seg[id]));
      vma := vma[slot.value := a];
      seg := seg[id := Attach(seg[id])];
      r := slot;
    }

    /** shmat with nothing in between: an area attached and fully mapped, or nothing
        attached. */
    method DoShmat(p: Pid, id: int, start: nat, write: bool) returns (r: Option<Slot>)
      requires Valid() && p in heap
      modifies this
      ensures Valid() && heap == old(heap)
      ensures r.None? ==> vma == old(vma) && seg == old(seg)
      ensures r.None? <==> refused > old(refused) || Unattachable(old(vma), old(pte), old(seg), heap, p, id, start)
      ensures r.Some? ==>
                refused == old(refused) && id in old(seg) && !old(seg)[id].dest && r.value.p == p
                   && r.value !in old(vma)
      ensures r.Some? ==> vma == old(vma)[r.value := Vma(start, start + |old(seg)[id].pages|, write, id)]
      ensures r.Some? ==> seg == old(seg)[id := Attach(old(seg)[id])]
      ensures r.Some? ==> Maps(pte, p, start, old(seg)[id].pages, |old(seg)[id].pages|, write)
      ensures id in old(seg) ==> SameOutside(old(pte), pte, p, start, start + |old(seg)[id].pages|)
    {
      hide Exact, SegFrames, SegsApart, Counted, AreasOk, Apart, HeapBelow, Available, Tables, SegLimits;
      var npages := ShmatLookup(p, id, start);
      if npages.None? {
        return None;
      }
      r := ShmatAttach(p, id, start, npages.value, write);
    }

    method VmaSlot(p: Pid) returns (r: Option<Slot>)
      ensures r.Some? ==> r.value.p == p && r.value.i < NVMA && r.value !in vma
      ensures r.None? ==> forall i: nat :: i < NVMA ==> Slot(p, i) in vma
    {
      var i := 0;
      while i < NVMA
        invariant 0 <= i <= NVMA && forall j: nat :: j < i ==> Slot(p, j) in vma
      {
        if Slot(p, i) !in vma {
          return Some(Slot(p, i));
        }
        i := i + 1;
      }
      r := None;
    }

    /** shm_munmap_vma: the area is gone, its pages unmapped, and with the last
        attachment of a marked segment the segment too. */
    method ShmMunmap(v: Slot)
      requires Valid() && v in vma && vma[v].shm >= 0
      modifies this
      ensures Valid() && vma == DropArea(old(vma), v) && pt == old(pt) && heap == old(heap) && refused == old(refused)
      ensures var id := old(vma)[v].shm; id in old(seg) && seg == Detached(old(seg), id)
      ensures SameOutside(old(pte), pte, v.p, old(vma)[v].start, old(vma)[v].end)
      ensures forall k :: InArea(k, v, old(vma)[v]) ==> k !in pte
    {
      hide Exact, SegFrames, SegsApart, SegLimits, AreasOk, Apart, Count, HeapBelow;
      FewerBelow(vma, DropArea(vma, v), heap);
      var a := vma[v];
      var id := a.shm;
      ghost var pte0, vma0, seg0 := pte, vma, seg;
      SomeAttached(vma, id, {}, v);
      UnmapRange(v.p, a.start, a.end, SegFrames(seg));
      vma := DropArea(vma, v);
      FramesSame(seg, id, Detach(seg[id]));
      DropSet(seg, id, Detach(seg[id]));
      seg := seg[id := Detach(seg[id])];
      TryDestroy(id);
      DetachOk(pte0, pte, vma0, seg0, v, id);
    }

    /** shm_detach_all, on exit and exec. */
    method ShmDetachAll(p: Pid)
      requires Valid()
      modifies this
      ensures Valid() && NoneBelow(vma, p, NVMA) && forall v :: v in vma && v.p == p ==> vma[v].shm < 0
      ensures OtherAreas(old(vma), vma, p) && OtherPtes(old(pte), pte, p) && heap == old(heap)
      ensures refused == old(refused) && pt == old(pt) && KeptSegs(old(seg), seg)
    {
      hide Exact, SegFrames, SegsApart, SegLimits, Counted, AreasOk, Tables, Apart, OtherAreas, OtherPtes,
           SameOutside, NoneBelow, HeapBelow, KeptSegs;
      var i := 0;
      DetachStart(vma, pte, p);
      NoSegGone(seg);
      while i < NVMA
        invariant 0 <= i <= NVMA && Valid() && NoneBelow(vma, p, i) && heap == old(heap) && refused == old(refused)
        invariant OtherAreas(old(vma), vma, p) && OtherPtes(old(pte), pte, p) && pt == old(pt)
        invariant KeptSegs(old(seg), seg)
      {
        ghost var vma1, pte1, seg1 := vma, pte, seg;
        if Slot(p, i) in vma && vma[Slot(p, i)].shm >= 0 {
          ShmMunmap(Slot(p, i));
          KeptDetached(seg1, vma1[Slot(p, i)].shm);
          KeptTwice(old(seg), seg1, seg);
          OthersStep(old(vma), vma1, old(pte), pte1, pte, p, Slot(p, i));
        }
        BelowStep(vma1, vma, p, i);
        i := i + 1;
      }
      NoneAtAll(vma, p);
    }

    /** uvmcopy: every present page shared and guarded, in parent and child; with
        no memory for a page-table page, a part of them. */
    method Uvmcopy(p: Pid, c: Pid, ghost own: set<Frame>) returns (ok: bool)
      requires Exact(pte, own, {}, rc) && Tables(pte, pt) && p != c && NoKeys(pte, c)
      modifies this`pte, this`pt, this`rc, this`refused
      ensures Exact(pte, own, {}, rc) && Tables(pte, pt) && old(pt) <= pt
      ensures refused == old(refused) + if ok then 0 else 1
      ensures CopyPart(old(pte), pte, p, c) && (ok ==> CopyAll(old(pte), pte, p, c))
    {
      hide Exact, CopyPart, CopyAll;
      var todo := set k | k in pte && k.p == p;
      CopyStart(pte, p, c);
      while todo != {}
        invariant Exact(pte, own, {}, rc) && Tables(pte, pt) && old(pt) <= pt
        invariant CopyPart(old(pte), pte, p, c) && CopyDone(old(pte), pte, p, c, todo) && refused == old(refused)
        decreases |todo|
      {
        var k :| k in todo;
        CopyTodo(old(pte), pte, p, c, todo, k);
        ghost var before := pte;
        var kc := Key(c, k.page);
        var u := Guarded(pte[k]);
        CopyCounts(pte, own, rc, k, kc, u);
        rc := Inc(rc, u.frame);
        pte := pte[k := u];
        var mapped := Uvmmap(kc, u);
        if !mapped {
          rc := Dec(rc, u.frame);
          CopyGuarded(old(pte), before, pte, p, c, todo, k);
          return false;
        }
        CopyNext(old(pte), before, pte, p, c, todo, k);
        todo := todo - {k};
      }
      CopyEnd(old(pte), pte, p, c);
      ok := true;
    }

    /** vma_copy. */
    method VmaCopy(p: Pid, c: Pid)
      requires p != c && Apart(vma) && forall v :: v in vma ==> v.p != c
      modifies this`vma
      ensures Apart(vma) && OtherAreas(old(vma), vma, c) && SameTable(vma, p, c, NVMA)
    {
      var i := 0;
      while i < NVMA
        invariant 0 <= i <= NVMA && Apart(vma) && OtherAreas(old(vma), vma, c) && SameTable(vma, p, c, i)
        invariant forall v :: v in vma && v.p == c ==> v.i < i
      {
        if Slot(p, i) in vma {
          CopyApart(vma, p, c, i);
          vma := vma[Slot(c, i) := vma[Slot(p, i)]];
        }
        i := i + 1;
      }
    }

    /** shm_fork_fix, after the copies of page table and area table: segments not
        marked are shared writable again by both and counted once more; of marked
        ones the child loses its area. No mapping can fail. */
    method ShmForkFix(p: Pid, c: Pid)
      requires Exact(pte, SegFrames(seg), {}, rc) && Tables(pte, pt) && p != c
      requires Fixing(pte, vma, seg, p, c, 0)
      modifies this
      ensures Exact(pte, SegFrames(seg), {}, rc) && Tables(pte, pt) && refused == old(refused)
      ensures heap == old(heap) && Fewer(old(vma), vma)
      ensures Fixing(pte, vma, seg, p, c, NVMA) && SegFrames(seg) == SegFrames(old(seg))
      ensures OtherAreas(old(vma), vma, c) && Elsewhere(old(pte), pte, old(vma), old(seg), p, c)
      ensures SameMarks(old(seg), seg)
    {
      hide Exact, Tables, SegFrames, Fixing, OtherAreas, Elsewhere, SameMarks, Fewer;
      FewerSame(vma);
      DetachStart(vma, pte, c);
      ElsewhereSame(pte, vma, seg, p, c);
      var i := 0;
      while i < NVMA
        invariant 0 <= i <= NVMA && Exact(pte, SegFrames(seg), {}, rc) && Tables(pte, pt) && refused == old(refused)
        invariant heap == old(heap) && Fewer(old(vma), vma)
        invariant Fixing(pte, vma, seg, p, c, i) && SegFrames(seg) == SegFrames(old(seg))
        invariant OtherAreas(old(vma), vma, c)
        invariant Elsewhere(old(pte), pte, old(vma), old(seg), p, c) && SameMarks(old(seg), seg)
      {
        ghost var pte1, vma1, seg1 := pte, vma, seg;
        FixArea(p, c, i);
        FewerTwice(old(vma), vma1, vma);
        ElsewhereStep(old(pte), pte1, pte, old(vma), vma1, old(seg), seg1, seg, p, c);
        i := i + 1;
      }
    }

    /** One turn of shm_fork_fix. */
    method FixArea(p: Pid, c: Pid, i: nat)
      requires Exact(pte, SegFrames(seg), {}, rc) && Tables(pte, pt) && p != c && i < NVMA
      requires Fixing(pte, vma, seg, p, c, i)
      modifies this
      ensures Exact(pte, SegFrames(seg), {}, rc) && Tables(pte, pt) && refused == old(refused)
      ensures heap == old(heap) && Fewer(old(vma), vma)
      ensures Fixing(pte, vma, seg, p, c, i + 1) && SegFrames(seg) == SegFrames(old(seg))
      ensures forall vma0 :: OtherAreas(vma0, old(vma), c) ==> OtherAreas(vma0, vma, c)
      ensures Elsewhere(old(pte), pte, old(vma), old(seg), p, c) && SameMarks(old(seg), seg)
    {
      hide Exact, SegFrames, Fixing, OtherAreas, SameOutside, Maps, Elsewhere;
      ElsewhereSame(pte, vma, seg, p, c);
      ghost var pte0 := pte;
      var v, w := Slot(c, i), Slot(p, i);
      AreaOthers(vma, v, c);
      if v !in vma || vma[v].shm < 0 {
        FixNone(pte, vma, seg, p, c, i);
        return;
      }
      FixFacts(pte, pt, vma, seg, p, c, i);
      var a := vma[v];
      var id := a.shm;
      var pages := seg[id].pages;
      if seg[id].dest {
        UnmapRange(c, a.start, a.end, SegFrames(seg));
        FixDest(pte0, pte, vma, seg, p, c, i);
        ElsewhereOutside(pte0, pte0, pte, vma, seg, p, c, i, c);
        vma := DropArea(vma, v);
      } else {
        OwnPages(seg, id);
        var ok := ShmMapRange(p, vma[w].start, vma[w].write, pages, SegFrames(seg));
        ghost var pte1 := pte;
        ok := ShmMapRange(c, a.start, a.write, pages, SegFrames(seg));
        FixShared(pte0, pte1, pte, vma, seg, p, c, i, a, pages);
        ElsewhereOutside(pte0, pte0, pte1, vma, seg, p, c, i, p);
        ElsewhereOutside(pte0, pte1, pte, vma, seg, p, c, i, c);
        FramesSame(seg, id, Attach(seg[id]));
        seg := seg[id := Attach(seg[id])];
      }
    }

    /** uvmfree: every entry of the process gives back its reference. */
    method Uvmfree(p: Pid, ghost own: set<Frame>)
      requires Exact(pte, own, {}, rc) && Tables(pte, pt)
      modifies this`pte, this`pt, this`rc
      ensures Exact(pte, own, {}, rc) && Tables(pte, pt) && NoKeys(pte, p) && OtherPtes(old(pte), pte, p)
      ensures DirsFreed(old(pt), pt, p)
    {
      hide Exact;
      var todo := set k | k in pte && k.p == p;
      while todo != {}
        invariant Exact(pte, own, {}, rc) && Tables(pte, pt) && OtherPtes(old(pte), pte, p) && pt == old(pt)
        invariant forall k :: k in pte && k.p == p ==> k in todo
        invariant forall k :: k in todo ==> k.p == p
        decreases |todo|
      {
        var k :| k in todo;
        Uvmunmap(k, own);
        todo := todo - {k};
      }
      pt := set d | d in pt && d.p != p;
    }

    /** exit: attachments first, then the page table. */
    method Exit(p: Pid)
      requires Valid()
      modifies this
      ensures Valid() && NoKeys(pte, p) && OtherAreas(old(vma), vma, p) && OtherPtes(old(pte), pte, p)
      ensures (forall v :: v in vma ==> v.p != p) && refused == old(refused) && heap == DropHeap(old(heap), p)
      ensures DirsFreed(old(pt), pt, p) && KeptSegs(old(seg), seg)
    {
      hide Exact, SegFrames, SegsApart, SegLimits, Counted, AreasOk, Tables, Apart, OtherAreas, OtherPtes, NoKeys,
           HeapBelow, KeptSegs;
      ShmDetachAll(p);
      ghost var pte1 := pte;
      Uvmfree(p, SegFrames(seg));
      Gone(pte1, pte, vma, seg, p);
      PtesTwice(old(pte), pte1, pte, p);
      AreasOf(old(vma), vma, p);
      GoneBelow(vma, heap, p);
      vma := WithoutProc(vma, p);
      heap := DropHeap(heap, p);
    }

    /** fork: parent and child share what they can, or the child leaves nothing
        behind. */
    method Fork(p: Pid, c: Pid) returns (ok: bool)
      requires Valid() && p != c && p in heap && c !in heap && NoKeys(pte, c)
      modifies this
      ensures heap == if ok then old(heap)[c := old(heap)[p]] else old(heap)
      ensures Valid() && refused == old(refused) + if ok then 0 else 1
      ensures !ok ==> NoKeys(pte, c) && OtherAreas(old(vma), vma, c) && forall v :: v in vma ==> v.p != c
      ensures !ok ==> (forall d :: d in pt ==> d.p != c) && KeptSegs(old(seg), seg)
      ensures ok ==> OtherAreas(old(vma), vma, c) && forall j: nat :: j < NVMA ==> Fixed(pte, vma, seg, p, c, j)
      ensures Bystanders(old(pte), pte, p, c) && (ok ==> Forked(old(pte), pte, old(vma), old(seg), p, c))
      ensures ParentForked(old(pte), pte, old(vma), old(seg), p, c) || (!ok && SomeGuarded(old(pte), pte, p))
      ensures ok ==> SameMarks(old(seg), seg)
    {
      hide Exact, SegFrames, SegsApart, SegLimits, Counted, AreasOk, Tables, Apart, OtherAreas, OtherPtes, NoKeys,
           CopyPart, CopyAll, SameTable;
      hide Fixed, Fixing, Elsewhere, Forked, Bystanders, ParentForked, SomeGuarded, SameMarks, HeapBelow, Fewer,
           KeptSegs;
      NoAreas(vma, heap, c);
      NoSegGone(seg);
      ghost var pte0, vma0, seg0 := pte, vma, seg;
      DetachStart(vma, pte, c);
      ok := Uvmcopy(p, c, SegFrames(seg));
      ghost var pte1 := pte;
      CopyKeepsAreas(pte0, pte1, vma, seg, p, c);
      if !ok {
        Uvmfree(c, SegFrames(seg));
        ChildGone(pte1, pte, vma, seg, c);
        FailedCopy(pte0, pte1, pte, p, c);
        return;
      }
      VmaCopy(p, c);
      ChildBelow(vma0, vma, heap, p, c);
      heap := heap[c := heap[p]];
      FixStart(pte0, pte1, vma0, vma, seg, p, c);
      ghost var vma1 := vma;
      ShmForkFix(p, c);
      FewerBelow(vma1, vma, heap);
      FixEnd(pte, vma, seg, p, c);
      AreasTwice(vma0, vma1, vma, c);
      ForkedBy(pte0, pte1, pte, vma0, vma1, seg0, p, c);
      ForkedRest(pte0, pte, vma0, seg0, p, c);
      ElsewhereBack(pte1, pte, vma0, vma1, seg0, p, c);
      ParentSide(pte0, pte1, pte, vma0, vma, seg0, seg, p, c);
      var stack := *;
      if !stack {
        ghost var vma2, pte2, seg2 := vma, pte, seg;
        Exit(c);
        KeptSame(seg0, seg2);
        KeptTwice(seg0, seg2, seg);
        HeapDropped(old(heap), c, old(heap)[p]);
        FailedLate(pte0, pte2, pte, vma0, seg0, p, c);
        AreasTwice(vma0, vma2, vma, c);
        refused := refused + 1;
        ok := false;
      }
    }

    /** uvm_cow_fault: a page no one else refers to is taken over, any other
        copied. A page of a segment is always copied, so it is shared no more. */
    method CowFault(k: Key) returns (ok: bool)
      requires Valid() && k in pte && pte[k].cow
      modifies this`pte, this`rc, this`refused
      ensures Valid() && (!ok ==> pte == old(pte) && rc == old(rc))
      ensures refused == old(refused) + if ok then 0 else 1
      ensures ok ==> k in pte && pte == old(pte)[k := Pte(pte[k].frame, true, false)]
      ensures ok ==> (pte[k].frame == old(pte)[k].frame <==> Sole(old(pte), seg, k)) && pte[k].frame !in SegFrames(seg)
    {
      hide SegFrames, SegsApart, SegLimits, Counted, AreasOk, Apart, Exact, HeapBelow;
      var f := pte[k].frame;
      SoleOwner(pte, SegFrames(seg), rc, k);
      CowAccess(pte, vma, seg, k, f);
      if rc[f] == 1 {
        Reflagged(pte, SegFrames(seg), {}, rc, k, Pte(f, true, false));
        Replaced(pte, vma, seg, k, Pte(f, true, false));
        pte := pte[k := Pte(f, true, false)];
        return true;
      }
      ghost var rc0 := rc;
      var mem := AllocPage();
      if mem.None? {
        return false;
      }
      CowCounts(pte, SegFrames(seg), rc0, k, mem.value);
      OwnedCounted(pte, SegFrames(seg), rc0, mem.value);
      Replaced(pte, vma, seg, k, Pte(mem.value, true, false));
      rc := Dec(rc, f);
      pte := pte[k := Pte(mem.value, true, false)];
      ok := true;
    }
  }

  /** A segment attached, marked for destruction, and shared by fork: the parent's
      next write gets it a page of its own, and the segment is shared no more. */
  method MarkedRun() returns (m: Kernel, done: bool)
    ensures m.Valid() && (done <==> m.refused == 0)
    ensures done ==> var k := Key(0, 16);
              && k in m.pte && m.pte[k].frame !in SegFrames(m.seg)
              && exists v :: v in m.vma && m.vma[v].shm >= 0 && InArea(k, v, m.vma[v])
  {
    hide SegFrames, Exact, SegsApart, SegLimits, Counted, AreasOk, Apart, Tables, HeapBelow, Fixed, Forked, Bystanders;
    done := false;
    m := new Kernel();
    m.Spawn(0, Heap(0, 0, 1));
    assert 0 !in m.seg && Slot(0, 0) !in m.vma;
    var id := m.DoShmget(0, 4096, true, false);
    if id.None? {
      return;
    }
    assert !Unattachable(m.vma, m.pte, m.seg, m.heap, 0, id.value, 16);
    var v := m.DoShmat(0, id.value, 16, true);
    if v.None? {
      return;
    }
    var ok := m.DoShmctl(id.value);
    ghost var pte, vma, seg := m.pte, m.vma, m.seg;
    ok := m.Fork(0, 1);
    if !ok {
      return;
    }
    var k := Key(0, 16);
    assert InRange(k, 0, 16, 17);
    MarkedIsGuarded(pte, m.pte, vma, seg, 0, 1, v.value.i, k);
    assert v.value in m.vma && InArea(k, v.value, m.vma[v.value]);
    ok := m.CowFault(k);
    done := ok;
  }

  /** A segment's number reused, by a longer segment, between the two halves of
      shmat: the area has one page, and the page after it is mapped as well. */
  method ShmatRace() returns (m: Kernel, done: bool)
    ensures done <==> m.refused == 0
    ensures done ==>
              !m.Valid() && Key(0, 17) in m.pte && forall v :: v in m.vma ==> !InArea(Key(0, 17), v, m.vma[v])
  {
    hide SegFrames, Exact, SegsApart, SegLimits, Counted, AreasOk, Apart, Tables, HeapBelow;
    done := false;
    m := new Kernel();
    m.Spawn(0, Heap(0, 0, 1));
    assert 0 !in m.seg && Slot(0, 0) !in m.vma;
    var id := m.DoShmget(0, 4096, true, false);
    if id.None? {
      return;
    }
    assert !Unattachable(m.vma, m.pte, m.seg, m.heap, 0, id.value, 16);
    var npages := m.ShmatLookup(0, id.value, 16);
    var ok := m.DoShmctl(id.value);
    assert 0 !in m.seg;
    var again := m.DoShmget(0, 8192, true, false);
    if again.None? || npages.None? {
      return;
    }
    assert m.seg.Keys == {again.value};
    var v := m.ShmatAttach(0, id.value, 16, npages.value, true);
    assert InRange(Key(0, 17), 0, 16, 18);
    done := v.Some?;
  }

  /** Slots of `c` from `i` on. */
  ghost function From(c: Pid, i: nat): (s: set<Slot>)
    ensures forall v :: v in s <==> v.p == c && i <= v.i < NVMA
  {
    set j | i <= j < NVMA :: Slot(c, j)
  }

  /** No other entry and no segment refers to the frame of `k`. */
  ghost predicate Sole(pte: map<Key, Pte>, seg: map<int, Seg>, k: Key) {
    k in pte && Refs(pte, pte[k].frame) == {k} && pte[k].frame !in SegFrames(seg)
  }

  ghost predicate MapsArea(pte: map<Key, Pte>, p: Pid, a: Vma, pages: seq<Frame>) {
    Maps(pte, p, a.start, pages, |pages|, a.write)
  }

  /** What fork makes of an area: the child has the same, and a segment is shared by
      both, unless it is marked, and then the child has neither area nor pages. */
  ghost predicate Fixed(pte: map<Key, Pte>, vma: map<Slot, Vma>, seg: map<int, Seg>, p: Pid, c: Pid, j: nat) {
    var w, v := Slot(p, j), Slot(c, j);
    if w !in vma then v !in vma
    else if vma[w].shm !in seg then v in vma && vma[v] == vma[w]
    else if seg[vma[w].shm].dest then v !in vma && NonePresent(pte, c, vma[w])
    else v in vma && vma[v] == vma[w] && MapsArea(pte, p, vma[w], seg[vma[w].shm].pages)
         && MapsArea(pte, c, vma[w], seg[vma[w].shm].pages)
  }

  ghost predicate NonePresent(pte: map<Key, Pte>, c: Pid, a: Vma) {
    forall k :: InRange(k, c, a.start, a.end) ==> k !in pte
  }

  ghost predicate Fixing(pte: map<Key, Pte>, vma: map<Slot, Vma>, seg: map<int, Seg>, p: Pid, c: Pid, i: nat) {
    && SegsApart(seg) && SegLimits(seg) && Counted(vma, seg, From(c, i)) && AreasOk(pte, vma, seg, {}) && Apart(vma)
    && (forall j: nat :: i <= j < NVMA ==> SameSlot(vma, p, c, j))
    && (forall j: nat :: j < i ==> Fixed(pte, vma, seg, p, c, j))
  }

  /** The segments, with keys, pages and marks, are the same. */
  ghost predicate SameMarks(seg: map<int, Seg>, seg': map<int, Seg>) {
    (forall id :: id in seg' <==> id in seg) && forall id :: id in seg ==> SameSeg(seg[id], seg'[id])
  }

  /** But for its count. */
  ghost predicate SameSeg(s: Seg, t: Seg) {
    t.key == s.key && t.pages == s.pages && t.dest == s.dest
  }

  /** They are, save that marked ones may be gone. */
  ghost predicate KeptSegs(seg: map<int, Seg>, seg': map<int, Seg>) {
    && (forall id :: id in seg' ==> id in seg && SameSeg(seg[id], seg'[id]))
    && (forall id :: id in seg && id !in seg' ==> seg[id].dest)
  }

  lemma KeptSame(seg: map<int, Seg>, seg': map<int, Seg>)
    requires SameMarks(seg, seg')
    ensures KeptSegs(seg, seg')
  {
  }

  lemma KeptDetached(seg: map<int, Seg>, id: int)
    requires id in seg
    ensures KeptSegs(seg, Detached(seg, id))
  {
  }

  lemma NoSegGone(seg: map<int, Seg>)
    ensures KeptSegs(seg, seg)
  {
  }

  lemma KeptTwice(seg: map<int, Seg>, seg1: map<int, Seg>, seg2: map<int, Seg>)
    requires KeptSegs(seg, seg1) && KeptSegs(seg1, seg2)
    ensures KeptSegs(seg, seg2)
  {
  }

  /** A segment goes on being found under its key while it is attached and detached,
      and is found no more once it is marked. */
  lemma FoundByKey(seg: map<int, Seg>, key: int, id: int, jd: int)
    requires FirstKey(seg, key, id) && jd in seg
    ensures FirstKey(seg[jd := Attach(seg[jd])], key, id) && Attach(seg[jd]).nattch == seg[jd].nattch + 1
    ensures FirstKey(Detached(seg, jd), key, id)
    ensures !FirstKey(seg[id := Marked(seg[id])], key, id)
  {
  }

  /** No page-table page of the process is left, and others keep theirs. */
  ghost predicate DirsFreed(pt: set<Dir>, pt': set<Dir>, p: Pid) {
    forall d: Dir :: d in pt' <==> d in pt && d.p != p
  }

  /** Page `k` lies in an area shm_fork_fix maps anew: of an unmarked segment, or
      in the child of any. */
  ghost predicate Shared(vma: map<Slot, Vma>, seg: map<int, Seg>, p: Pid, c: Pid, k: Key) {
    exists j: nat :: SharedIn(vma, seg, p, c, k, j)
  }

  ghost predicate SharedIn(vma: map<Slot, Vma>, seg: map<int, Seg>, p: Pid, c: Pid, k: Key, j: nat) {
    && Slot(p, j) in vma && vma[Slot(p, j)].shm >= 0 && vma[Slot(p, j)].start <= k.page < vma[Slot(p, j)].end
    && (k.p == c || (k.p == p && vma[Slot(p, j)].shm in seg && !seg[vma[Slot(p, j)].shm].dest))
  }

  /** Entries outside those areas are the same. */
  ghost predicate Elsewhere(pte: map<Key, Pte>, pte': map<Key, Pte>, vma: map<Slot, Vma>, seg: map<int, Seg>, p: Pid,
                            c: Pid) {
    forall k: Key :: !Shared(vma, seg, p, c, k) ==> (k in pte' <==> k in pte) && (k in pte ==> pte'[k] == pte[k])
  }

  lemma ElsewhereSame(pte: map<Key, Pte>, vma: map<Slot, Vma>, seg: map<int, Seg>, p: Pid, c: Pid)
    ensures Elsewhere(pte, pte, vma, seg, p, c) && SameMarks(seg, seg)
  {
  }

  lemma ElsewhereOutside(pte: map<Key, Pte>, pte1: map<Key, Pte>, pte2: map<Key, Pte>, vma: map<Slot, Vma>,
                         seg: map<int, Seg>, p: Pid, c: Pid, i: nat, q: Pid)
    requires Elsewhere(pte, pte1, vma, seg, p, c) && Slot(p, i) in vma && vma[Slot(p, i)].shm >= 0
    requires q == c || (q == p && vma[Slot(p, i)].shm in seg && !seg[vma[Slot(p, i)].shm].dest)
    requires SameOutside(pte1, pte2, q, vma[Slot(p, i)].start, vma[Slot(p, i)].end)
    ensures Elsewhere(pte, pte2, vma, seg, p, c)
  {
    forall k: Key | !Shared(vma, seg, p, c, k)
      ensures (k in pte2 <==> k in pte) && (k in pte ==> pte2[k] == pte[k])
    {
      assert !SharedIn(vma, seg, p, c, k, i);
      assert !InRange(k, q, vma[Slot(p, i)].start, vma[Slot(p, i)].end);
    }
  }

  lemma SharedSame(vma: map<Slot, Vma>, vma1: map<Slot, Vma>, seg: map<int, Seg>, seg1: map<int, Seg>, p: Pid, c: Pid,
                   k: Key)
    requires OtherAreas(vma, vma1, c) && SameMarks(seg, seg1) && p != c
    ensures Shared(vma1, seg1, p, c, k) <==> Shared(vma, seg, p, c, k)
  {
    forall j: nat
      ensures SharedIn(vma1, seg1, p, c, k, j) <==> SharedIn(vma, seg, p, c, k, j)
    {
      assert Slot(p, j) in vma1 <==> Slot(p, j) in vma;
    }
  }

  lemma ElsewhereStep(pte: map<Key, Pte>, pte1: map<Key, Pte>, pte2: map<Key, Pte>, vma: map<Slot, Vma>,
                      vma1: map<Slot, Vma>,
                      seg: map<int, Seg>, seg1: map<int, Seg>, seg2: map<int, Seg>, p: Pid, c: Pid)
    requires Elsewhere(pte, pte1, vma, seg, p, c) && Elsewhere(pte1, pte2, vma1, seg1, p, c)
    requires OtherAreas(vma, vma1, c) && p != c
    requires SameMarks(seg, seg1) && SameMarks(seg1, seg2)
    ensures Elsewhere(pte, pte2, vma, seg, p, c) && SameMarks(seg, seg2)
  {
    hide Shared;
    forall k
      ensures Shared(vma1, seg1, p, c, k) <==> Shared(vma, seg, p, c, k)
    {
      SharedSame(vma, vma1, seg, seg1, p, c, k);
    }
  }

  lemma ElsewhereBack(pte: map<Key, Pte>, pte': map<Key, Pte>, vma: map<Slot, Vma>, vma1: map<Slot, Vma>,
                      seg: map<int, Seg>, p: Pid, c: Pid)
    requires Elsewhere(pte, pte', vma1, seg, p, c) && OtherAreas(vma, vma1, c) && p != c
    ensures Elsewhere(pte, pte', vma, seg, p, c)
  {
    hide Shared;
    forall k
      ensures Shared(vma1, seg, p, c, k) <==> Shared(vma, seg, p, c, k)
    {
      SharedSame(vma, vma1, seg, seg, p, c, k);
    }
  }

  /** What fork leaves of the parent's pages outside areas mapped anew: each
      guarded, in the parent and in the child; and other processes untouched. */
  ghost predicate Forked(pte: map<Key, Pte>, pte': map<Key, Pte>, vma: map<Slot, Vma>, seg: map<int, Seg>, p: Pid,
                         c: Pid) {
    && (forall k :: k in pte && k.p == p && !Shared(vma, seg, p, c, k) ==> k in pte' && pte'[k] == Guarded(pte[k]))
    && (forall k :: k in pte && k.p == p && !Shared(vma, seg, p, c, Key(c, k.page)) ==>
          Key(c, k.page) in pte' && pte'[Key(c, k.page)] == Guarded(pte[k]))
    && Bystanders(pte, pte', p, c)
  }

  ghost predicate Bystanders(pte: map<Key, Pte>, pte': map<Key, Pte>, p: Pid, c: Pid) {
    forall k: Key :: k.p != p && k.p != c ==> (k in pte' <==> k in pte) && (k in pte ==> pte'[k] == pte[k])
  }

  /** What fork makes of the parent: unmarked segments mapped shared, everything
      else guarded. */
  ghost predicate ParentForked(pte: map<Key, Pte>, pte': map<Key, Pte>, vma: map<Slot, Vma>, seg: map<int, Seg>,
                               p: Pid, c: Pid) {
    && (forall k: Key :: k.p == p ==> (k in pte' <==> k in pte))
    && (forall k :: k in pte && k.p == p && !Shared(vma, seg, p, c, k) ==> k in pte' && pte'[k] == Guarded(pte[k]))
    && forall j: nat :: j < NVMA ==> ParentShares(pte', vma, seg, p, j)
  }

  ghost predicate ParentShares(pte: map<Key, Pte>, vma: map<Slot, Vma>, seg: map<int, Seg>, p: Pid, j: nat) {
    Slot(p, j) in vma && vma[Slot(p, j)].shm in seg && !seg[vma[Slot(p, j)].shm].dest ==>
      MapsArea(pte, p, vma[Slot(p, j)], seg[vma[Slot(p, j)].shm].pages)
  }

  /** What a fork that fails in uvmcopy makes of it: some pages guarded. */
  ghost predicate SomeGuarded(pte: map<Key, Pte>, pte': map<Key, Pte>, p: Pid) {
    forall k: Key :: k.p == p ==>
      (k in pte' <==> k in pte) && (k in pte ==> pte'[k] == pte[k] || pte'[k] == Guarded(pte[k]))
  }

  lemma ForkedBy(pte: map<Key, Pte>, pte1: map<Key, Pte>, pte2: map<Key, Pte>, vma: map<Slot, Vma>,
                 vma1: map<Slot, Vma>,
                 seg: map<int, Seg>, p: Pid, c: Pid)
    requires p != c && CopyPart(pte, pte1, p, c) && CopyAll(pte, pte1, p, c)
    requires Elsewhere(pte1, pte2, vma1, seg, p, c) && OtherAreas(vma, vma1, c)
    ensures Forked(pte, pte2, vma, seg, p, c)
  {
    hide Shared;
    forall k
      ensures Shared(vma1, seg, p, c, k) <==> Shared(vma, seg, p, c, k)
    {
      SharedSame(vma, vma1, seg, seg, p, c, k);
    }
    forall k: Key | k.p != p && k.p != c
      ensures !Shared(vma, seg, p, c, k)
    {
      NotShared(vma, seg, p, c, k);
    }
    forall k | k in pte && k.p == p
      ensures Key(c, k.page) in pte1 && pte1[Key(c, k.page)] == Guarded(pte[k])
    {
      assert k == Key(p, k.page);
    }
  }

  lemma NotShared(vma: map<Slot, Vma>, seg: map<int, Seg>, p: Pid, c: Pid, k: Key)
    requires k.p != p && k.p != c
    ensures !Shared(vma, seg, p, c, k)
  {
  }

  lemma ForkedRest(pte: map<Key, Pte>, pte': map<Key, Pte>, vma: map<Slot, Vma>, seg: map<int, Seg>, p: Pid, c: Pid)
    requires Forked(pte, pte', vma, seg, p, c)
    ensures Bystanders(pte, pte', p, c)
  {
  }

  /** The parent's side of a fork that got through. */
  lemma ParentSide(pte: map<Key, Pte>, pte1: map<Key, Pte>, pte2: map<Key, Pte>, vma: map<Slot, Vma>,
                   vma2: map<Slot, Vma>,
                   seg: map<int, Seg>, seg2: map<int, Seg>, p: Pid, c: Pid)
    requires p != c && AreasOk(pte, vma, seg, {}) && Apart(vma) && CopyPart(pte, pte1, p, c)
    requires Forked(pte, pte2, vma, seg, p, c) && Elsewhere(pte1, pte2, vma, seg, p, c)
    requires OtherAreas(vma, vma2, c) && SameMarks(seg, seg2)
    requires forall j: nat :: j < NVMA ==> Fixed(pte2, vma2, seg2, p, c, j)
    ensures ParentForked(pte, pte2, vma, seg, p, c)
  {
    hide Fixed, ParentShares, Shared, Apart, CopyPart, OtherAreas, Elsewhere, SameMarks, AreasOk;
    forall j: nat | j < NVMA
      ensures ParentShares(pte2, vma, seg, p, j)
    {
      SharesStill(pte2, vma, vma2, seg, seg2, p, c, j);
    }
    forall k: Key | k.p == p
      ensures k in pte2 <==> k in pte
    {
      StillThere(pte, pte1, pte2, vma, seg, p, c, k);
    }
  }

  lemma SharesStill(pte: map<Key, Pte>, vma: map<Slot, Vma>, vma2: map<Slot, Vma>, seg: map<int, Seg>,
                    seg2: map<int, Seg>, p: Pid, c: Pid, j: nat)
    requires p != c && OtherAreas(vma, vma2, c) && SameMarks(seg, seg2) && Fixed(pte, vma2, seg2, p, c, j)
    ensures ParentShares(pte, vma, seg, p, j)
  {
    hide MapsArea;
    assert Slot(p, j) in vma2 <==> Slot(p, j) in vma;
  }

  lemma StillThere(pte: map<Key, Pte>, pte1: map<Key, Pte>, pte2: map<Key, Pte>, vma: map<Slot, Vma>,
                   seg: map<int, Seg>, p: Pid, c: Pid, k: Key)
    requires p != c && AreasOk(pte, vma, seg, {}) && Apart(vma) && CopyPart(pte, pte1, p, c)
    requires Elsewhere(pte1, pte2, vma, seg, p, c)
    requires k.p == p && forall j: nat :: j < NVMA ==> ParentShares(pte2, vma, seg, p, j)
    ensures k in pte2 <==> k in pte
  {
    hide ParentShares;
    if Shared(vma, seg, p, c, k) {
      var j: nat :| SharedIn(vma, seg, p, c, k, j);
      assert Slot(p, j).i < NVMA;
      SharedPresent(pte, pte2, vma, seg, p, c, k, j);
    }
  }

  lemma SharedPresent(pte: map<Key, Pte>, pte2: map<Key, Pte>, vma: map<Slot, Vma>, seg: map<int, Seg>, p: Pid,
                      c: Pid, k: Key, j: nat)
    requires p != c && AreasOk(pte, vma, seg, {}) && Apart(vma) && SharedIn(vma, seg, p, c, k, j) && k.p == p
    requires ParentShares(pte2, vma, seg, p, j)
    ensures k in pte && k in pte2
  {
    var a := vma[Slot(p, j)];
    assert AreaOk(pte, seg, Slot(p, j), a);
    assert InArea(k, Slot(p, j), a);
    assert InRange(k, p, a.start, a.start + |seg[a.shm].pages|);
  }

  /** An area mapped shared before a fork is mapped shared by the parent after it
      exactly if its segment is not marked for destruction or the area is
      read-only. */
  lemma SharedAfterFork(pte: map<Key, Pte>, pte': map<Key, Pte>, vma: map<Slot, Vma>, seg: map<int, Seg>, p: Pid,
                        c: Pid, j: nat)
    requires ParentForked(pte, pte', vma, seg, p, c) && Apart(vma) && AreasOk(pte, vma, seg, {}) && SegLimits(seg)
    requires p != c
    requires Slot(p, j) in vma && vma[Slot(p, j)].shm in seg && vma[Slot(p, j)].shm >= 0
    requires MapsArea(pte, p, vma[Slot(p, j)], seg[vma[Slot(p, j)].shm].pages)
    ensures MapsArea(pte', p, vma[Slot(p, j)], seg[vma[Slot(p, j)].shm].pages)
            <==> !seg[vma[Slot(p, j)].shm].dest || !vma[Slot(p, j)].write
  {
    var a := vma[Slot(p, j)];
    var pages := seg[a.shm].pages;
    assert AreaOk(pte, seg, Slot(p, j), a);
    if seg[a.shm].dest {
      forall k | InRange(k, p, a.start, a.start + |pages|)
        ensures k in pte' && pte'[k] == Guarded(Pte(pages[k.page - a.start], a.write, false))
      {
        OnlyMarked(vma, seg, p, c, k, j);
      }
      var k := Key(p, a.start);
      assert InRange(k, p, a.start, a.start + |pages|);
    } else {
      assert ParentShares(pte', vma, seg, p, j);
    }
  }

  lemma OnlyMarked(vma: map<Slot, Vma>, seg: map<int, Seg>, p: Pid, c: Pid, k: Key, j: nat)
    requires Apart(vma) && p != c && k.p == p && Slot(p, j) in vma
    requires vma[Slot(p, j)].start <= k.page < vma[Slot(p, j)].end
    requires vma[Slot(p, j)].shm in seg && seg[vma[Slot(p, j)].shm].dest
    ensures !Shared(vma, seg, p, c, k)
  {
    forall i: nat
      ensures !SharedIn(vma, seg, p, c, k, i)
    {
      assert Slot(p, i) in vma && i != j ==>
          vma[Slot(p, i)].end <= vma[Slot(p, j)].start || vma[Slot(p, j)].end <= vma[Slot(p, i)].start;
    }
  }

  /** Then its next write copies: what was shared is shared no more. */
  lemma MarkedIsGuarded(pte: map<Key, Pte>, pte': map<Key, Pte>, vma: map<Slot, Vma>, seg: map<int, Seg>, p: Pid,
                        c: Pid, j: nat, k: Key)
    requires ParentForked(pte, pte', vma, seg, p, c) && Apart(vma) && AreasOk(pte, vma, seg, {}) && p != c
    requires Slot(p, j) in vma && vma[Slot(p, j)].shm in seg && seg[vma[Slot(p, j)].shm].dest
    requires vma[Slot(p, j)].shm >= 0
    requires InArea(k, Slot(p, j), vma[Slot(p, j)])
    ensures k in pte && k in pte' && pte'[k] == Guarded(pte[k])
  {
    assert AreaOk(pte, seg, Slot(p, j), vma[Slot(p, j)]);
    OnlyMarked(vma, seg, p, c, k, j);
  }

  lemma FailedCopy(pte: map<Key, Pte>, pte1: map<Key, Pte>, pte2: map<Key, Pte>, p: Pid, c: Pid)
    requires CopyPart(pte, pte1, p, c) && OtherPtes(pte1, pte2, c) && p != c
    ensures Bystanders(pte, pte2, p, c) && SomeGuarded(pte, pte2, p)
  {
  }

  lemma FailedLate(pte: map<Key, Pte>, pte1: map<Key, Pte>, pte2: map<Key, Pte>, vma: map<Slot, Vma>,
                   seg: map<int, Seg>, p: Pid, c: Pid)
    requires Bystanders(pte, pte1, p, c) && OtherPtes(pte1, pte2, c) && ParentForked(pte, pte1, vma, seg, p, c)
    requires p != c
    ensures Bystanders(pte, pte2, p, c) && ParentForked(pte, pte2, vma, seg, p, c)
  {
    hide Shared;
    forall j: nat | j < NVMA
      ensures ParentShares(pte2, vma, seg, p, j)
    {
      assert ParentShares(pte1, vma, seg, p, j);
    }
  }

  ghost predicate SameSlot(vma: map<Slot, Vma>, p: Pid, c: Pid, j: nat) {
    (Slot(c, j) in vma <==> Slot(p, j) in vma) && (Slot(c, j) in vma ==> vma[Slot(c, j)] == vma[Slot(p, j)])
  }

  ghost predicate NoKeys(pte: map<Key, Pte>, p: Pid) {
    forall k :: k in pte ==> k.p != p
  }

  /** Part of the parent's entries guarded, part of those in the child. */
  ghost predicate CopyPart(pte: map<Key, Pte>, pte': map<Key, Pte>, p: Pid, c: Pid) {
    && (forall k: Key :: k.p != c ==> (k in pte' <==> k in pte))
    && (forall k :: k in pte && k.p != c ==> pte'[k] == pte[k] || (k.p == p && pte'[k] == Guarded(pte[k])))
    && (forall k :: k in pte' && k.p == c ==> Key(p, k.page) in pte && pte'[k] == Guarded(pte[Key(p, k.page)]))
  }

  /** All but those in `todo` done. */
  ghost predicate CopyDone(pte: map<Key, Pte>, pte': map<Key, Pte>, p: Pid, c: Pid, todo: set<Key>) {
    && (forall k :: k in todo ==> k in pte && k.p == p && k in pte' && pte'[k] == pte[k] && Key(c, k.page) !in pte')
    && (forall k :: k in pte && k.p == p && k !in todo ==>
          k in pte' && pte'[k] == Guarded(pte[k]) && Key(c, k.page) in pte')
  }

  ghost predicate CopyAll(pte: map<Key, Pte>, pte': map<Key, Pte>, p: Pid, c: Pid) {
    forall k :: k in pte && k.p == p ==> k in pte' && pte'[k] == Guarded(pte[k]) && Key(c, k.page) in pte'
  }

  /** The first `n` entries of the area tables of `p` and `c` are the same. */
  ghost predicate SameTable(vma: map<Slot, Vma>, p: Pid, c: Pid, n: nat) {
    forall i: nat :: i < n ==>
      (Slot(c, i) in vma <==> Slot(p, i) in vma) && (Slot(c, i) in vma ==> vma[Slot(c, i)] == vma[Slot(p, i)])
  }

  /** Other processes' areas, and entries, are the same. */
  ghost predicate OtherAreas(vma: map<Slot, Vma>, vma': map<Slot, Vma>, p: Pid) {
    forall v: Slot :: v.p != p ==> (v in vma' <==> v in vma) && (v in vma ==> vma'[v] == vma[v])
  }

  ghost predicate OtherPtes(pte: map<Key, Pte>, pte': map<Key, Pte>, p: Pid) {
    forall k: Key :: k.p != p ==> (k in pte' <==> k in pte) && (k in pte ==> pte'[k] == pte[k])
  }

  ghost predicate NoneBelow(vma: map<Slot, Vma>, p: Pid, n: nat) {
    forall j: nat :: j < n && Slot(p, j) in vma ==> vma[Slot(p, j)].shm < 0
  }

  lemma DetachStart(vma: map<Slot, Vma>, pte: map<Key, Pte>, p: Pid)
    ensures NoneBelow(vma, p, 0) && OtherAreas(vma, vma, p) && OtherPtes(pte, pte, p)
  {
  }

  lemma OthersStep(vma0: map<Slot, Vma>, vma1: map<Slot, Vma>, pte0: map<Key, Pte>, pte1: map<Key, Pte>,
                   pte2: map<Key, Pte>, p: Pid, v: Slot)
    requires OtherAreas(vma0, vma1, p) && OtherPtes(pte0, pte1, p) && v.p == p && v in vma1
    requires SameOutside(pte1, pte2, v.p, vma1[v].start, vma1[v].end)
    ensures OtherAreas(vma0, DropArea(vma1, v), p) && OtherPtes(pte0, pte2, p)
  {
    forall k: Key | k.p != p
      ensures (k in pte2 <==> k in pte0) && (k in pte0 ==> pte2[k] == pte0[k])
    {
      assert !InRange(k, v.p, vma1[v].start, vma1[v].end);
    }
  }

  lemma BelowStep(vma: map<Slot, Vma>, vma': map<Slot, Vma>, p: Pid, i: nat)
    requires NoneBelow(vma, p, i)
    requires vma' == vma || vma' == DropArea(vma, Slot(p, i))
    requires Slot(p, i) in vma' ==> vma'[Slot(p, i)].shm < 0
    ensures NoneBelow(vma', p, i + 1)
  {
  }

  lemma NoneAtAll(vma: map<Slot, Vma>, p: Pid)
    requires Apart(vma) && NoneBelow(vma, p, NVMA)
    ensures forall v :: v in vma && v.p == p ==> vma[v].shm < 0
  {
    forall v | v in vma && v.p == p
      ensures vma[v].shm < 0
    {
      assert v == Slot(p, v.i);
    }
  }

  function DropHeap(heap: map<Pid, Heap>, p: Pid): (r: map<Pid, Heap>)
    ensures forall q :: q in r <==> q in heap && q != p
    ensures forall q :: q in r ==> r[q] == heap[q]
  {
    map q | q in heap && q != p :: heap[q]
  }

  lemma HeapDropped(heap: map<Pid, Heap>, c: Pid, h: Heap)
    requires c !in heap
    ensures DropHeap(heap[c := h], c) == heap
  {
  }

  lemma GoneBelow(vma: map<Slot, Vma>, heap: map<Pid, Heap>, p: Pid)
    requires HeapBelow(vma, heap)
    ensures HeapBelow(WithoutProc(vma, p), DropHeap(heap, p))
  {
  }

  lemma NoAreas(vma: map<Slot, Vma>, heap: map<Pid, Heap>, c: Pid)
    requires HeapBelow(vma, heap) && c !in heap
    ensures forall v :: v in vma ==> v.p != c
  {
  }

  lemma ChildBelow(vma0: map<Slot, Vma>, vma: map<Slot, Vma>, heap: map<Pid, Heap>, p: Pid, c: Pid)
    requires HeapBelow(vma0, heap) && OtherAreas(vma0, vma, c) && SameTable(vma, p, c, NVMA) && Apart(vma) && p in heap
    requires p != c
    ensures HeapBelow(vma, heap[c := heap[p]])
  {
    forall v | v in vma
      ensures v.p in heap[c := heap[p]] && heap[c := heap[p]][v.p].hi <= vma[v].start
    {
      if v.p == c {
        assert v == Slot(c, v.i);
        assert Slot(p, v.i) in vma && vma[Slot(p, v.i)] == vma[v];
      }
    }
  }

  lemma AddedBelow(vma: map<Slot, Vma>, heap: map<Pid, Heap>, v: Slot, a: Vma)
    requires HeapBelow(vma, heap) && v.p in heap && heap[v.p].hi <= a.start
    ensures HeapBelow(vma[v := a], heap)
  {
  }

  // ---- Anonymous pages and areas ----

  /** A page a fault may map: of the heap, or of an area that allows the access. */
  ghost predicate OnDemand(vma: map<Slot, Vma>, heap: map<Pid, Heap>, k: Key, write: bool)
    requires k.p in heap
  {
    && heap[k.p].base <= k.page < USER_END
    && (|| heap[k.p].lo <= k.page < heap[k.p].hi
        || exists v :: v in vma && InArea(k, v, vma[v]) && (write ==> vma[v].write))
  }

  /** A page of the heap, or of an area that is not read-only. */
  ghost predicate MayWrite(vma: map<Slot, Vma>, heap: map<Pid, Heap>, k: Key)
    requires k.p in heap
  {
    || heap[k.p].lo <= k.page < heap[k.p].hi
    || exists v :: v in vma && InArea(k, v, vma[v]) && vma[v].write
  }

  /** One area of the process with these bounds is gone. */
  ghost predicate Removed(vma: map<Slot, Vma>, vma': map<Slot, Vma>, p: Pid, start: nat, end: nat) {
    exists i: nat :: i < NVMA && Bounds(vma, Slot(p, i), start, end) && vma' == DropArea(vma, Slot(p, i))
  }

  predicate Bounds(vma: map<Slot, Vma>, v: Slot, start: nat, end: nat) {
    v in vma && vma[v].start == start && vma[v].end == end
  }

  /** Every page of an attached area is present, so no fault on one finds it
      missing. */
  lemma NeverDemanded(pte: map<Key, Pte>, vma: map<Slot, Vma>, seg: map<int, Seg>, v: Slot, k: Key)
    requires AreasOk(pte, vma, seg, {}) && v in vma && InArea(k, v, vma[v]) && k !in pte
    ensures vma[v].shm < 0
  {
    assert AreaOk(pte, seg, v, vma[v]);
  }

  lemma OneArea(vma: map<Slot, Vma>, k: Key, v: Slot)
    requires Apart(vma) && v in vma && InArea(k, v, vma[v])
    ensures forall w :: w in vma && InArea(k, w, vma[w]) ==> w == v
  {
  }

  lemma AnonCounts(pte: map<Key, Pte>, own: set<Frame>, rc: map<Frame, nat>, k: Key, m: Frame, w: bool)
    requires Exact(pte, own, {}, rc) && k !in pte && m !in rc
    ensures Exact(pte[k := Pte(m, w, false)], own, {}, rc[m := 1])
    ensures Exact(pte, own, {}, Dec(rc[m := 1], m))
  {
    hide Exact, Dec;
    Taken(pte, own, {}, rc, m);
    Mapped(pte, own, {} + {m}, rc[m := 1], k, Pte(m, w, false));
    PutBack(pte, own, {} + {m}, rc[m := 1], m);
    assert {} + {m} - {m} == {};
  }

  lemma NothingMapped(vma: map<Slot, Vma>, pte: map<Key, Pte>, v: Slot, lo: nat, hi: nat, write: bool)
    requires Available(vma, pte, v.p, lo, hi)
    ensures forall k :: InArea(k, v, Vma(lo, hi, write, -1)) ==> k !in pte
  {
    forall k | InArea(k, v, Vma(lo, hi, write, -1))
      ensures k !in pte
    {
      assert k == Key(v.p, k.page);
    }
  }

  lemma AnonArea(pte: map<Key, Pte>, vma: map<Slot, Vma>, seg: map<int, Seg>, heap: map<Pid, Heap>, v: Slot, a: Vma)
    requires Counted(vma, seg, {}) && AreasOk(pte, vma, seg, {}) && Apart(vma) && HeapBelow(vma, heap) && SegLimits(seg)
    requires v !in vma && v.i < NVMA && a.shm < 0 && a.start < a.end && v.p in heap && heap[v.p].hi <= a.start
    requires forall w :: w in vma && w.p == v.p ==> vma[w].end <= a.start || a.end <= vma[w].start
    requires forall k :: InArea(k, v, a) ==> k !in pte
    ensures Counted(vma[v := a], seg, {}) && AreasOk(pte, vma[v := a], seg, {}) && Apart(vma[v := a])
    ensures HeapBelow(vma[v := a], heap)
  {
    AttachApart(vma, v, a);
    AddedBelow(vma, heap, v, a);
    hide Apart, HeapBelow;
    forall id | id in seg
      ensures Count(vma[v := a], id, {}) == Count(vma, id, {})
    {
      CountAdd(vma, id, {}, v, a);
    }
    hide Count;
    var vma' := vma[v := a];
    forall w | w in vma'
      ensures AreaOk(pte, seg, w, vma'[w])
    {
      assert w != v ==> AreaOk(pte, seg, w, vma[w]);
    }
  }

  lemma AnonGone(pte: map<Key, Pte>, pte': map<Key, Pte>, vma: map<Slot, Vma>, seg: map<int, Seg>,
                 heap: map<Pid, Heap>, v: Slot)
    requires Counted(vma, seg, {}) && AreasOk(pte, vma, seg, {}) && Apart(vma) && HeapBelow(vma, heap) && SegLimits(seg)
    requires v in vma && vma[v].shm < 0 && SameOutside(pte, pte', v.p, vma[v].start, vma[v].end)
    ensures Counted(DropArea(vma, v), seg, {}) && AreasOk(pte', DropArea(vma, v), seg, {})
    ensures Apart(DropArea(vma, v)) && HeapBelow(DropArea(vma, v), heap)
  {
    FewerAreas(pte, vma, seg, v);
    FewerBelow(vma, DropArea(vma, v), heap);
    hide Apart, HeapBelow, AreasOk, SameOutside;
    AreasKept(pte, pte', DropArea(vma, v), seg, v.p, vma[v].start, vma[v].end);
    forall id | id in seg
      ensures Count(DropArea(vma, v), id, {}) == Count(vma, id, {})
    {
      CountDrop(vma, id, {}, v);
    }
    hide Count;
  }

  /** An area whose length is not its segment's breaks the invariant. */
  lemma WrongLength(pte: map<Key, Pte>, vma: map<Slot, Vma>, seg: map<int, Seg>, v: Slot, a: Vma, id: int)
    requires id in seg && id >= 0 && a.shm == id && a.end != a.start + |seg[id].pages|
    ensures !AreasOk(pte, vma[v := a], seg[id := Attach(seg[id])], {})
  {
    var vma' := vma[v := a];
    assert v in vma' && !AreaOk(pte, seg[id := Attach(seg[id])], v, vma'[v]);
  }

  function WithoutProc(vma: map<Slot, Vma>, p: Pid): (r: map<Slot, Vma>)
    ensures forall v :: v in r <==> v in vma && v.p != p
    ensures forall v :: v in r ==> r[v] == vma[v]
  {
    map v | v in vma && v.p != p :: vma[v]
  }

  function DropArea(vma: map<Slot, Vma>, v: Slot): (r: map<Slot, Vma>)
    ensures forall w :: w in r <==> w in vma && w != v
    ensures forall w :: w in r ==> r[w] == vma[w]
  {
    map w | w in vma && w != v :: vma[w]
  }

  function DropSeg(seg: map<int, Seg>, id: int): (r: map<int, Seg>)
    ensures forall jd :: jd in r <==> jd in seg && jd != id
    ensures forall jd :: jd in r ==> r[jd] == seg[jd]
  {
    map jd | jd in seg && jd != id :: seg[jd]
  }

  function Attach(s: Seg): (r: Seg) { Seg(s.key, s.pages, s.nattch + 1, s.dest) }

  function Detach(s: Seg): (r: Seg) { Seg(s.key, s.pages, if s.nattch > 0 then s.nattch - 1 else 0, s.dest) }

  /** The table after one attachment less. */
  function Detached(seg: map<int, Seg>, id: int): (r: map<int, Seg>)
    requires id in seg
  {
    if seg[id].dest && Detach(seg[id]).nattch == 0 then DropSeg(seg, id) else seg[id := Detach(seg[id])]
  }

  /** No area and no mapped page in the way. */
  predicate Available(vma: map<Slot, Vma>, pte: map<Key, Pte>, p: Pid, lo: nat, hi: nat) {
    && lo < hi
    && (forall v :: v in vma && v.p == p ==> vma[v].end <= lo || hi <= vma[v].start)
    && forall a :: lo <= a < hi ==> Key(p, a) !in pte
  }

  /** shmget found a segment. */
  ghost predicate Opened(seg: map<int, Seg>, seg': map<int, Seg>, rc': map<Frame, nat>, rc: map<Frame, nat>,
                         key: int, size: nat, create: bool, excl: bool, id: int) {
    && seg' == seg && rc' == rc && key != 0 && !(create && excl)
    && FirstKey(seg, key, id) && size <= |seg[id].pages| * 4096
  }

  /** The first segment with the key that is not marked for destruction. */
  ghost predicate FirstKey(seg: map<int, Seg>, key: int, id: int) {
    && id in seg && !seg[id].dest && seg[id].key == key
    && forall j :: 0 <= j < id && j in seg ==> seg[j].dest || seg[j].key != key
  }

  ghost predicate NoKey(seg: map<int, Seg>, key: int) {
    forall j :: 0 <= j < NSHM && j in seg ==> seg[j].dest || seg[j].key != key
  }

  /** Reasons for shmget to fail whatever memory there is: the segment is too
      small or was to be new, there is none and none is wanted, the size is not
      allowed, or the table is full. */
  ghost predicate Denied(seg: map<int, Seg>, key: int, size: nat, create: bool, excl: bool) {
    if key != 0 && !NoKey(seg, key) then
      exists i :: FirstKey(seg, key, i) && (size > |seg[i].pages| * 4096 || (create && excl))
    else
      || (key != 0 && !create)
      || size == 0 || (size + 4095) / 4096 > SHM_MAX_PAGES
      || forall j :: 0 <= j < NSHM ==> j in seg
  }

  /** Reasons for shmat to fail whatever memory there is. */
  ghost predicate Unattachable(vma: map<Slot, Vma>, pte: map<Key, Pte>, seg: map<int, Seg>, heap: map<Pid, Heap>,
                               p: Pid, id: int, start: nat)
    requires p in heap
  {
    || id !in seg || seg[id].dest
    || !InBounds(heap[p], start, start + |seg[id].pages|) || !Available(vma, pte, p, start, start + |seg[id].pages|)
    || forall i: nat :: i < NVMA ==> Slot(p, i) in vma
  }

  /** shmget made a segment, there being none with the key. */
  ghost predicate Added(seg: map<int, Seg>, seg': map<int, Seg>, rc': map<Frame, nat>, rc: map<Frame, nat>,
                        key: int, size: nat, create: bool, id: int) {
    && (key != 0 ==> create && NoKey(seg, key))
    && (forall j :: 0 <= j < id ==> j in seg)
    && id >= 0 && id !in seg && id in seg' && |seg'[id].pages| == (size + 4095) / 4096
    && Fresh(rc, seg'[id].pages) && rc' == WithPages(rc, seg'[id].pages)
    && seg' == seg[id := Seg(key, seg'[id].pages, 0, false)]
  }

  lemma OutsideStep(pte: map<Key, Pte>, pte1: map<Key, Pte>, pte2: map<Key, Pte>, k: Key, p: Pid, lo: nat, hi: nat)
    requires SameOutside(pte, pte1, p, lo, hi) && InRange(k, p, lo, hi)
    requires pte2 == Without(pte1, k) || (k in pte2 && pte2 == pte1[k := pte2[k]])
    ensures SameOutside(pte, pte2, p, lo, hi)
  {
  }

  lemma MapsStep(pte: map<Key, Pte>, pte': map<Key, Pte>, p: Pid, lo: nat, pages: seq<Frame>, n: nat, write: bool)
    requires n < |pages| && Maps(pte, p, lo, pages, n, write)
    requires pte' == pte[Key(p, lo + n) := Pte(pages[n], write, false)]
    ensures Maps(pte', p, lo, pages, n + 1, write)
  {
    forall k | InRange(k, p, lo, lo + n + 1)
      ensures k in pte' && pte'[k] == Pte(pages[k.page - lo], write, false)
    {
      if k != Key(p, lo + n) {
        assert InRange(k, p, lo, lo + n);
      }
    }
  }

  /** A reference taken for an entry: it stands if the entry is set, and is given
      back if not. */
  lemma ShareOk(pte: map<Key, Pte>, own: set<Frame>, rc: map<Frame, nat>, k: Key, t: Pte)
    requires Exact(pte, own, {}, rc) && t.frame in own
    ensures t.frame in rc && Dec(Inc(rc, t.frame), t.frame) == rc
    ensures k !in pte ==> Exact(pte[k := t], own, {}, Inc(rc, t.frame))
  {
    var f := t.frame;
    Gotten(pte, own, {}, rc, f);
    assert rc[f] > 0 by { assert CountOk(rc[f], pte, own, {}, f); }
    hide Exact, CountOk;
    if k !in pte {
      Mapped(pte, own, {} + {f}, Inc(rc, f), k, t);
      assert {} + {f} - {f} == {};
    }
  }

  ghost function Firsts(pages: seq<Frame>, n: nat): (s: set<Frame>)
    requires n <= |pages|
    ensures forall f :: f in s <==> exists i :: 0 <= i < n && pages[i] == f
  {
    set i | 0 <= i < n :: pages[i]
  }

  lemma FirstsNext(pages: seq<Frame>, n: nat)
    requires n < |pages|
    ensures Firsts(pages, n + 1) == Firsts(pages, n) + {pages[n]}
  {
  }

  lemma NextOwned(seg: map<int, Seg>, id: int, i: nat)
    requires id in seg && SegsApart(seg) && i < |seg[id].pages|
    ensures seg[id].pages[i] in SegFrames(seg) - Firsts(seg[id].pages, i)
  {
    var r := Place(id, i);
    assert IsPlace(seg, r) && FrameAt(seg, r) == seg[id].pages[i];
    forall j: nat | j < i
      ensures seg[id].pages[j] != seg[id].pages[i]
    {
      assert IsPlace(seg, Place(id, j)) && FrameAt(seg, Place(id, j)) == seg[id].pages[j];
    }
  }

  lemma DropOwned(pte: map<Key, Pte>, own: set<Frame>, rc: map<Frame, nat>, f: Frame)
    requires Exact(pte, own, {}, rc) && f in own
    ensures f in rc && rc[f] > 0 && Exact(pte, own - {f}, {}, Dec(rc, f))
  {
    hide Exact;
    Disowned(pte, own, {}, rc, f);
    PutBack(pte, own - {f}, {} + {f}, rc, f);
    assert {} + {f} - {f} == {};
  }

  lemma FramesWithout(seg: map<int, Seg>, id: int)
    requires id in seg && SegsApart(seg)
    ensures SegFrames(DropSeg(seg, id)) == SegFrames(seg) - Firsts(seg[id].pages, |seg[id].pages|)
    ensures SegsApart(DropSeg(seg, id))
  {
    var rest := DropSeg(seg, id);
    forall r
      ensures IsPlace(rest, r) <==> IsPlace(seg, r) && r.id != id
      ensures IsPlace(rest, r) ==> FrameAt(rest, r) == FrameAt(seg, r)
    {
    }
    forall f
      ensures f in SegFrames(rest) <==> f in SegFrames(seg) && f !in Firsts(seg[id].pages, |seg[id].pages|)
    {
      if f in SegFrames(rest) {
        var r :| IsPlace(rest, r) && FrameAt(rest, r) == f;
        forall j: nat | j < |seg[id].pages|
          ensures seg[id].pages[j] != f
        {
          assert IsPlace(seg, Place(id, j)) && FrameAt(seg, Place(id, j)) == seg[id].pages[j];
        }
      }
      if f in SegFrames(seg) && f !in Firsts(seg[id].pages, |seg[id].pages|) {
        var r :| IsPlace(seg, r) && FrameAt(seg, r) == f;
        assert r.id != id;
        assert IsPlace(rest, r);
      }
    }
  }

  /** Counts and marks of a segment do not matter for who owns what. */
  lemma FramesSame(seg: map<int, Seg>, id: int, s: Seg)
    requires id in seg && s.pages == seg[id].pages
    ensures SegFrames(seg[id := s]) == SegFrames(seg) && (SegsApart(seg) ==> SegsApart(seg[id := s]))
  {
    var seg' := seg[id := s];
    forall r
      ensures IsPlace(seg', r) <==> IsPlace(seg, r)
      ensures IsPlace(seg', r) ==> FrameAt(seg', r) == FrameAt(seg, r)
    {
    }
    hide IsPlace, FrameAt;
    forall f
      ensures f in SegFrames(seg') <==> f in SegFrames(seg)
    {
    }
  }

  function Marked(s: Seg): (r: Seg) { Seg(s.key, s.pages, s.nattch, true) }

  /** Marking a segment, and dropping it if nothing attaches it. */
  lemma MarkedOk(pte: map<Key, Pte>, vma: map<Slot, Vma>, seg: map<int, Seg>, seg': map<int, Seg>, id: int)
    requires SegsApart(seg) && SegLimits(seg) && Counted(vma, seg, {}) && AreasOk(pte, vma, seg, {}) && id in seg
    requires seg' == if seg[id].nattch == 0 then DropSeg(seg, id) else seg[id := Marked(seg[id])]
    ensures SegsApart(seg') && SegLimits(seg') && Counted(vma, seg', {}) && AreasOk(pte, vma, seg', {})
  {
    hide SegsApart, SegFrames, SegLimits, Counted, AreasOk;
    FramesSame(seg, id, Marked(seg[id]));
    FramesWithout(seg, id);
    MarkedLimits(seg, seg', id);
    MarkedCounted(vma, seg, seg', id);
    SameAreas(pte, vma, seg, seg');
  }

  lemma DropSet(seg: map<int, Seg>, id: int, s: Seg)
    requires id in seg
    ensures DropSeg(seg[id := s], id) == DropSeg(seg, id)
  {
  }

  lemma MarkedLimits(seg: map<int, Seg>, seg': map<int, Seg>, id: int)
    requires SegLimits(seg) && id in seg
    requires seg' == if seg[id].nattch == 0 then DropSeg(seg, id) else seg[id := Marked(seg[id])]
    ensures SegLimits(seg')
  {
  }

  lemma MarkedCounted(vma: map<Slot, Vma>, seg: map<int, Seg>, seg': map<int, Seg>, id: int)
    requires Counted(vma, seg, {}) && id in seg
    requires seg' == if seg[id].nattch == 0 then DropSeg(seg, id) else seg[id := Marked(seg[id])]
    ensures Counted(vma, seg', {})
  {
    hide Count;
    forall v | v in vma && vma[v].shm >= 0
      ensures vma[v].shm in seg'
    {
      SomeAttached(vma, vma[v].shm, {}, v);
    }
  }

  /** Areas look at the pages of their segment only. */
  lemma SameAreas(pte: map<Key, Pte>, vma: map<Slot, Vma>, seg: map<int, Seg>, seg': map<int, Seg>)
    requires AreasOk(pte, vma, seg, {}) && Counted(vma, seg', {})
    requires forall jd :: jd in seg && jd in seg' ==> seg'[jd].pages == seg[jd].pages
    ensures AreasOk(pte, vma, seg', {})
  {
    hide InArea, Count;
    forall v | v in vma
      ensures AreaOk(pte, seg', v, vma[v])
    {
      assert AreaOk(pte, seg, v, vma[v]);
    }
  }

  // ---- New segments ----

  ghost predicate Fresh(rc: map<Frame, nat>, pages: seq<Frame>) {
    && (forall i :: 0 <= i < |pages| ==> pages[i] !in rc)
    && (forall i, j :: 0 <= i < j < |pages| ==> pages[i] != pages[j])
  }

  ghost function WithPages(rc: map<Frame, nat>, pages: seq<Frame>): (r: map<Frame, nat>) {
    if pages == [] then rc else WithPages(rc, pages[..|pages| - 1])[pages[|pages| - 1] := 1]
  }

  lemma {:induction false} WithPagesAt(rc: map<Frame, nat>, pages: seq<Frame>)
    ensures forall f :: f in WithPages(rc, pages) <==> f in rc || f in pages
    ensures forall f :: f in WithPages(rc, pages) ==> WithPages(rc, pages)[f] == if f in pages then 1 else rc[f]
  {
    if pages != [] {
      var n := |pages| - 1;
      WithPagesAt(rc, pages[..n]);
      assert pages == pages[..n] + [pages[n]];
    }
  }

  lemma AddLast(rc: map<Frame, nat>, pages: seq<Frame>, f: Frame)
    requires Fresh(rc, pages) && f !in WithPages(rc, pages)
    ensures Fresh(rc, pages + [f]) && WithPages(rc, pages + [f]) == WithPages(rc, pages)[f := 1]
  {
    WithPagesAt(rc, pages);
    assert (pages + [f])[..|pages|] == pages;
  }

  lemma DropLast(rc: map<Frame, nat>, pages: seq<Frame>, j: nat)
    requires Fresh(rc, pages) && j < |pages|
    ensures var m := WithPages(rc, pages[..j + 1]);
            pages[j] in m && m[pages[j]] == 1 && Dec(m, pages[j]) == WithPages(rc, pages[..j])
    ensures WithPages(rc, []) == rc && pages[..0] == []
  {
    var q := pages[..j];
    assert pages[..j + 1][..j] == q;
    WithPagesAt(rc, q);
    assert pages[j] !in q;
  }

  /** A new segment owns the frames just allocated for it. */
  lemma CreatedExact(pte: map<Key, Pte>, seg: map<int, Seg>, rc: map<Frame, nat>, id: int, s: Seg)
    requires Exact(pte, SegFrames(seg), {}, rc) && id !in seg && Fresh(rc, s.pages) && SegsApart(seg)
    ensures Exact(pte, SegFrames(seg[id := s]), {}, WithPages(rc, s.pages)) && SegsApart(seg[id := s])
  {
    var seg' := seg[id := s];
    var new' := Firsts(s.pages, |s.pages|);
    forall r
      ensures IsPlace(seg', r) <==> IsPlace(seg, r) || (r.id == id && r.i < |s.pages|)
      ensures IsPlace(seg, r) ==> FrameAt(seg', r) == FrameAt(seg, r) && FrameAt(seg, r) in rc
      ensures r.id == id && r.i < |s.pages| ==> FrameAt(seg', r) == s.pages[r.i] && s.pages[r.i] !in rc
    {
      if IsPlace(seg, r) {
        assert FrameAt(seg, r) in SegFrames(seg);
      }
    }
    assert SegFrames(seg') == SegFrames(seg) + new' by {
      forall f | f in SegFrames(seg) + new'
        ensures f in SegFrames(seg')
      {
        if f in new' {
          var i :| 0 <= i < |s.pages| && s.pages[i] == f;
          assert IsPlace(seg', Place(id, i)) && FrameAt(seg', Place(id, i)) == f;
        } else {
          var r :| IsPlace(seg, r) && FrameAt(seg, r) == f;
          assert IsPlace(seg', r) && FrameAt(seg', r) == f;
        }
      }
    }
    assert SegsApart(seg');
    hide IsPlace, FrameAt, SegsApart, SegFrames;
    OwnFresh(pte, SegFrames(seg), rc, s.pages);
  }

  lemma OwnFresh(pte: map<Key, Pte>, own: set<Frame>, rc: map<Frame, nat>, pages: seq<Frame>)
    requires Exact(pte, own, {}, rc) && Fresh(rc, pages)
    ensures Exact(pte, own + Firsts(pages, |pages|), {}, WithPages(rc, pages))
  {
    var rc' := WithPages(rc, pages);
    var own' := own + Firsts(pages, |pages|);
    WithPagesAt(rc, pages);
    assert forall f :: f in pages <==> f in Firsts(pages, |pages|);
    hide WithPages, Firsts;
    forall f | f in rc'
      ensures CountOk(rc'[f], pte, own', {}, f)
    {
      if f in rc {
        assert CountOk(rc[f], pte, own, {}, f);
      } else {
        assert Refs(pte, f) == {};
      }
    }
  }

  lemma Created(pte: map<Key, Pte>, vma: map<Slot, Vma>, seg: map<int, Seg>, rc: map<Frame, nat>, rc0: map<Frame, nat>,
                id: int, key: int, pages: seq<Frame>)
    requires Exact(pte, SegFrames(seg), {}, rc0) && SegsApart(seg) && SegLimits(seg) && Counted(vma, seg, {})
    requires AreasOk(pte, vma, seg, {}) && id !in seg && 0 <= id < NSHM && 0 < |pages| <= SHM_MAX_PAGES
    requires Fresh(rc0, pages) && rc == WithPages(rc0, pages)
    ensures var seg' := seg[id := Seg(key, pages, 0, false)];
            && Exact(pte, SegFrames(seg'), {}, rc) && SegsApart(seg') && SegLimits(seg') && Counted(vma, seg', {})
            && AreasOk(pte, vma, seg', {})
  {
    hide Exact, SegFrames, SegsApart, Counted, AreasOk, Fresh, WithPages;
    var s := Seg(key, pages, 0, false);
    CreatedExact(pte, seg, rc0, id, s);
    CreatedCounted(vma, seg, id, s);
    SameAreas(pte, vma, seg, seg[id := s]);
  }

  lemma CreatedCounted(vma: map<Slot, Vma>, seg: map<int, Seg>, id: int, s: Seg)
    requires Counted(vma, seg, {}) && id !in seg && id >= 0 && s.nattch == 0
    ensures Counted(vma, seg[id := s], {})
  {
    assert Attached(vma, id, {}) == {} by { hide Count; }
    assert Count(vma, id, {}) == 0;
    hide Count;
  }

  // ---- Attaching and detaching ----

  lemma OwnPages(seg: map<int, Seg>, id: int)
    requires id in seg
    ensures forall i :: 0 <= i < |seg[id].pages| ==> seg[id].pages[i] in SegFrames(seg)
  {
    forall i: nat | i < |seg[id].pages|
      ensures seg[id].pages[i] in SegFrames(seg)
    {
      assert IsPlace(seg, Place(id, i)) && FrameAt(seg, Place(id, i)) == seg[id].pages[i];
    }
  }

  /** Areas apart from the range are as well mapped as before. */
  lemma AreasKept(pte: map<Key, Pte>, pte': map<Key, Pte>, vma: map<Slot, Vma>, seg: map<int, Seg>, p: Pid, lo: nat,
                  hi: nat)
    requires AreasOk(pte, vma, seg, {}) && SameOutside(pte, pte', p, lo, hi)
    requires forall v :: v in vma && v.p == p ==> vma[v].end <= lo || hi <= vma[v].start
    ensures AreasOk(pte', vma, seg, {})
  {
    forall v | v in vma
      ensures AreaOk(pte', seg, v, vma[v])
    {
      assert AreaOk(pte, seg, v, vma[v]);
      forall k | InArea(k, v, vma[v])
        ensures vma[v].shm >= 0 ==> k in pte'
      {
        assert !InRange(k, p, lo, hi);
      }
    }
  }

  lemma CountAdd(vma: map<Slot, Vma>, id: int, uncounted: set<Slot>, v: Slot, a: Vma)
    requires v !in vma
    ensures Count(vma[v := a], id, uncounted) == Count(vma, id, uncounted) + One(a.shm == id && v !in uncounted)
  {
    var s, s' := Attached(vma, id, uncounted), Attached(vma[v := a], id, uncounted);
    if a.shm == id && v !in uncounted {
      assert s' == s + {v};
    } else {
      assert s' == s;
    }
  }

  lemma CountDrop(vma: map<Slot, Vma>, id: int, uncounted: set<Slot>, v: Slot)
    requires v in vma
    ensures Count(vma, id, uncounted)
         == Count(DropArea(vma, v), id, uncounted) + One(vma[v].shm == id && v !in uncounted)
  {
    hide Count;
    assert DropArea(vma, v)[v := vma[v]] == vma;
    CountAdd(DropArea(vma, v), id, uncounted, v, vma[v]);
  }

  lemma AttachOk(pte: map<Key, Pte>, vma: map<Slot, Vma>, seg: map<int, Seg>, v: Slot, a: Vma, id: int)
    requires SegsApart(seg) && SegLimits(seg) && Counted(vma, seg, {}) && AreasOk(pte, vma, seg, {}) && Apart(vma)
    requires v !in vma && v.i < NVMA && id in seg && !seg[id].dest && a.shm == id
    requires a.start < a.end && a.end == a.start + |seg[id].pages|
    requires forall w :: w in vma && w.p == v.p ==> vma[w].end <= a.start || a.end <= vma[w].start
    requires Maps(pte, v.p, a.start, seg[id].pages, |seg[id].pages|, a.write)
    ensures var seg' := seg[id := Attach(seg[id])];
            && SegsApart(seg') && SegFrames(seg') == SegFrames(seg) && SegLimits(seg')
            && Counted(vma[v := a], seg', {}) && AreasOk(pte, vma[v := a], seg', {}) && Apart(vma[v := a])
  {
    var seg' := seg[id := Attach(seg[id])];
    hide SegsApart, SegFrames, SegLimits, Counted, AreasOk, Apart;
    FramesSame(seg, id, Attach(seg[id]));
    AttachLimits(seg, id);
    AttachCounted(vma, seg, v, a, id);
    AttachAreas(pte, vma, seg, v, a, id);
    AttachApart(vma, v, a);
  }

  lemma AttachLimits(seg: map<int, Seg>, id: int)
    requires SegLimits(seg) && id in seg
    ensures SegLimits(seg[id := Attach(seg[id])])
  {
  }

  lemma AttachCounted(vma: map<Slot, Vma>, seg: map<int, Seg>, v: Slot, a: Vma, id: int)
    requires Counted(vma, seg, {}) && v !in vma && id in seg && a.shm == id
    ensures Counted(vma[v := a], seg[id := Attach(seg[id])], {})
  {
    hide Count;
    var seg' := seg[id := Attach(seg[id])];
    forall jd | jd in seg'
      ensures seg'[jd].nattch == Count(vma[v := a], jd, {})
    {
      CountAdd(vma, jd, {}, v, a);
    }
  }

  lemma AttachAreas(pte: map<Key, Pte>, vma: map<Slot, Vma>, seg: map<int, Seg>, v: Slot, a: Vma, id: int)
    requires AreasOk(pte, vma, seg, {}) && v !in vma && id in seg && a.shm == id && a.end == a.start + |seg[id].pages|
    requires Maps(pte, v.p, a.start, seg[id].pages, |seg[id].pages|, a.write)
    ensures AreasOk(pte, vma[v := a], seg[id := Attach(seg[id])], {})
  {
    var vma', seg' := vma[v := a], seg[id := Attach(seg[id])];
    forall w | w in vma'
      ensures AreaOk(pte, seg', w, vma'[w])
    {
      if w == v {
        forall k | InArea(k, v, a)
          ensures k in pte
        {
          assert InRange(k, v.p, a.start, a.start + |seg[id].pages|);
        }
      } else {
        assert AreaOk(pte, seg, w, vma[w]);
      }
    }
  }

  lemma AttachApart(vma: map<Slot, Vma>, v: Slot, a: Vma)
    requires Apart(vma) && v !in vma && v.i < NVMA && a.start < a.end
    requires forall w :: w in vma && w.p == v.p ==> vma[w].end <= a.start || a.end <= vma[w].start
    ensures Apart(vma[v := a])
  {
  }

  lemma DetachOk(pte: map<Key, Pte>, pte': map<Key, Pte>, vma: map<Slot, Vma>, seg: map<int, Seg>, v: Slot, id: int)
    requires SegsApart(seg) && SegLimits(seg) && Counted(vma, seg, {}) && AreasOk(pte, vma, seg, {}) && Apart(vma)
    requires v in vma && vma[v].shm == id && id in seg
    requires SameOutside(pte, pte', v.p, vma[v].start, vma[v].end)
    ensures var seg' := Detached(seg, id);
            && SegsApart(seg') && SegLimits(seg') && Counted(DropArea(vma, v), seg', {})
            && AreasOk(pte', DropArea(vma, v), seg', {}) && Apart(DropArea(vma, v))
  {
    var seg' := Detached(seg, id);
    var vma' := DropArea(vma, v);
    hide SegsApart, SegLimits, Counted, SegFrames, AreasOk, Apart, SameOutside;
    FramesSame(seg, id, Detach(seg[id]));
    FramesWithout(seg, id);
    DetachedLimits(seg, id);
    DetachedCounted(vma, seg, v, id);
    FewerAreas(pte, vma, seg, v);
    AreasKept(pte, pte', vma', seg, v.p, vma[v].start, vma[v].end);
    SameAreas(pte', vma', seg, seg');
  }

  lemma FewerAreas(pte: map<Key, Pte>, vma: map<Slot, Vma>, seg: map<int, Seg>, v: Slot)
    requires AreasOk(pte, vma, seg, {}) && Apart(vma) && v in vma
    ensures AreasOk(pte, DropArea(vma, v), seg, {}) && Apart(DropArea(vma, v))
    ensures forall w :: w in DropArea(vma, v) && w.p == v.p ==>
              DropArea(vma, v)[w].end <= vma[v].start || vma[v].end <= DropArea(vma, v)[w].start
  {
    hide AreaOk;
  }

  lemma DetachedLimits(seg: map<int, Seg>, id: int)
    requires SegLimits(seg) && id in seg
    ensures SegLimits(Detached(seg, id))
  {
  }

  lemma DetachedCounted(vma: map<Slot, Vma>, seg: map<int, Seg>, v: Slot, id: int)
    requires Counted(vma, seg, {}) && v in vma && vma[v].shm == id && id in seg
    ensures Counted(DropArea(vma, v), Detached(seg, id), {})
  {
    var seg', vma' := Detached(seg, id), DropArea(vma, v);
    hide Count;
    SomeAttached(vma, id, {}, v);
    forall jd | jd in seg'
      ensures seg'[jd].nattch == Count(vma', jd, {})
    {
      CountDrop(vma, jd, {}, v);
    }
    CountDrop(vma, id, {}, v);
    forall w | w in vma' && vma'[w].shm >= 0
      ensures vma'[w].shm in seg'
    {
      SomeAttached(vma', vma'[w].shm, {}, w);
    }
  }

  // ---- Fork ----

  lemma CopyStart(pte: map<Key, Pte>, p: Pid, c: Pid)
    requires NoKeys(pte, c) && p != c
    ensures CopyPart(pte, pte, p, c) && CopyDone(pte, pte, p, c, set k | k in pte && k.p == p)
  {
  }

  lemma CopyTodo(pte: map<Key, Pte>, pte1: map<Key, Pte>, p: Pid, c: Pid, todo: set<Key>, k: Key)
    requires CopyDone(pte, pte1, p, c, todo) && k in todo
    ensures k in pte && k.p == p && k in pte1 && pte1[k] == pte[k] && Key(c, k.page) !in pte1
  {
  }

  lemma CopyGuarded(pte: map<Key, Pte>, pte1: map<Key, Pte>, pte2: map<Key, Pte>, p: Pid, c: Pid, todo: set<Key>,
                    k: Key)
    requires CopyPart(pte, pte1, p, c) && CopyDone(pte, pte1, p, c, todo) && k in todo && p != c
    requires pte2 == pte1[k := Guarded(pte1[k])]
    ensures CopyPart(pte, pte2, p, c)
  {
  }

  lemma CopyNext(pte: map<Key, Pte>, pte1: map<Key, Pte>, pte2: map<Key, Pte>, p: Pid, c: Pid, todo: set<Key>, k: Key)
    requires CopyPart(pte, pte1, p, c) && CopyDone(pte, pte1, p, c, todo) && k in todo && p != c
    requires pte2 == pte1[k := Guarded(pte1[k])][Key(c, k.page) := Guarded(pte1[k])]
    ensures CopyPart(pte, pte2, p, c) && CopyDone(pte, pte2, p, c, todo - {k})
  {
  }

  lemma CopyEnd(pte: map<Key, Pte>, pte': map<Key, Pte>, p: Pid, c: Pid)
    requires CopyDone(pte, pte', p, c, {})
    ensures CopyAll(pte, pte', p, c)
  {
  }

  lemma CopyCounts(pte: map<Key, Pte>, own: set<Frame>, rc: map<Frame, nat>, k: Key, kc: Key, u: Pte)
    requires Exact(pte, own, {}, rc) && k in pte && kc !in pte && u == Guarded(pte[k])
    ensures u.frame in rc && Dec(Inc(rc, u.frame), u.frame) == rc
    ensures Exact(pte[k := u], own, {}, rc) && Exact(pte[k := u][kc := u], own, {}, Inc(rc, u.frame))
  {
    var f := u.frame;
    assert f in rc && rc[f] > 0 by { assert CountOk(rc[f], pte, own, {}, f); }
    hide Exact, CountOk;
    Reflagged(pte, own, {}, rc, k, u);
    Gotten(pte[k := u], own, {}, rc, f);
    Mapped(pte[k := u], own, {} + {f}, Inc(rc, f), kc, u);
    assert {} + {f} - {f} == {};
  }

  lemma CopyApart(vma: map<Slot, Vma>, p: Pid, c: Pid, i: nat)
    requires p != c && Apart(vma) && Slot(p, i) in vma && SameTable(vma, p, c, i)
    requires forall v :: v in vma && v.p == c ==> v.i < i
    ensures Apart(vma[Slot(c, i) := vma[Slot(p, i)]])
  {
    forall w | w in vma && w.p == c
      ensures vma[w].end <= vma[Slot(p, i)].start || vma[Slot(p, i)].end <= vma[w].start
    {
      assert w == Slot(c, w.i);
      assert vma[w] == vma[Slot(p, w.i)];
    }
    AttachApart(vma, Slot(c, i), vma[Slot(p, i)]);
  }

  // ---- Repairing shared areas after fork ----

  lemma AreaOthers(vma: map<Slot, Vma>, v: Slot, c: Pid)
    requires v.p == c
    ensures forall vma0 :: OtherAreas(vma0, vma, c) ==> OtherAreas(vma0, DropArea(vma, v), c)
  {
  }

  lemma CountShift(vma: map<Slot, Vma>, id: int, c: Pid, i: nat)
    requires i < NVMA
    ensures Count(vma, id, From(c, i + 1))
         == Count(vma, id, From(c, i)) + One(Slot(c, i) in vma && vma[Slot(c, i)].shm == id)
  {
    var s, s' := Attached(vma, id, From(c, i)), Attached(vma, id, From(c, i + 1));
    if Slot(c, i) in vma && vma[Slot(c, i)].shm == id {
      assert s' == s + {Slot(c, i)};
    } else {
      assert s' == s;
    }
  }

  /** What the turn starts from: the two areas are the same, their segment
      exists, and all page-table pages are there. */
  lemma FixFacts(pte: map<Key, Pte>, pt: set<Dir>, vma: map<Slot, Vma>, seg: map<int, Seg>, p: Pid, c: Pid, i: nat)
    requires Fixing(pte, vma, seg, p, c, i) && Tables(pte, pt) && i < NVMA
    requires Slot(c, i) in vma && vma[Slot(c, i)].shm >= 0
    ensures Slot(p, i) in vma && vma[Slot(p, i)] == vma[Slot(c, i)]
    ensures var a := vma[Slot(c, i)];
            && a.shm in seg && a.end == a.start + |seg[a.shm].pages|
            && (forall k :: InRange(k, p, a.start, a.end) ==> k in pte && DirOf(k) in pt)
            && (forall k :: InRange(k, c, a.start, a.end) ==> k in pte && DirOf(k) in pt)
  {
    hide SegsApart, SegLimits, Count, Fixed;
    assert SameSlot(vma, p, c, i);
    var a := vma[Slot(c, i)];
    assert AreaOk(pte, seg, Slot(c, i), a) && AreaOk(pte, seg, Slot(p, i), a);
    forall k | InRange(k, p, a.start, a.end)
      ensures k in pte
    {
      assert InArea(k, Slot(p, i), a);
    }
    forall k | InRange(k, c, a.start, a.end)
      ensures k in pte
    {
      assert InArea(k, Slot(c, i), a);
    }
  }

  lemma FixNone(pte: map<Key, Pte>, vma: map<Slot, Vma>, seg: map<int, Seg>, p: Pid, c: Pid, i: nat)
    requires Fixing(pte, vma, seg, p, c, i) && i < NVMA
    requires Slot(c, i) in vma ==> vma[Slot(c, i)].shm < 0
    ensures Fixing(pte, vma, seg, p, c, i + 1)
  {
    hide SegsApart, Count, AreasOk, Apart;
    assert SameSlot(vma, p, c, i);
    assert Fixed(pte, vma, seg, p, c, i);
    forall id | id in seg
      ensures seg[id].nattch == Count(vma, id, From(c, i + 1))
    {
      CountShift(vma, id, c, i);
    }
    hide Fixed, SameSlot;
  }

  /** Earlier repairs survive a change inside the area of a later slot. */
  lemma FixedKept(pte: map<Key, Pte>, pte': map<Key, Pte>, vma: map<Slot, Vma>, seg: map<int, Seg>, p: Pid, c: Pid,
                  j: nat, v: Slot)
    requires Fixed(pte, vma, seg, p, c, j) && Apart(vma) && v in vma && v.i != j && AreasOk(pte, vma, seg, {}) && p != c
    requires SegLimits(seg) && SameOutside(pte, pte', v.p, vma[v].start, vma[v].end) && (v.p == p || v.p == c)
    requires Slot(p, v.i) in vma && vma[Slot(p, v.i)] == vma[v]
    ensures Fixed(pte', vma, seg, p, c, j)
  {
    var w := Slot(p, j);
    if w in vma && vma[w].shm in seg && seg[vma[w].shm].dest {
      forall k | InRange(k, c, vma[w].start, vma[w].end)
        ensures k !in pte'
      {
        assert !InRange(k, v.p, vma[v].start, vma[v].end);
      }
    }
    if w in vma && vma[w].shm in seg && !seg[vma[w].shm].dest {
      var a, pages := vma[w], seg[vma[w].shm].pages;
      assert AreaOk(pte, seg, w, a);
      MapsKept(pte, pte', p, a, pages, v.p, vma[v]);
      MapsKept(pte, pte', c, a, pages, v.p, vma[v]);
    }
  }

  lemma MapsKept(pte: map<Key, Pte>, pte': map<Key, Pte>, q: Pid, a: Vma, pages: seq<Frame>, r: Pid, b: Vma)
    requires MapsArea(pte, q, a, pages) && SameOutside(pte, pte', r, b.start, b.end) && a.end == a.start + |pages|
    requires q == r ==> a.end <= b.start || b.end <= a.start
    ensures MapsArea(pte', q, a, pages)
  {
    forall k | InRange(k, q, a.start, a.start + |pages|)
      ensures k in pte' && pte'[k] == Pte(pages[k.page - a.start], a.write, false)
    {
      assert !InRange(k, r, b.start, b.end);
    }
  }

  lemma FixCounted(vma: map<Slot, Vma>, seg: map<int, Seg>, c: Pid, i: nat, id: int)
    requires Counted(vma, seg, From(c, i)) && i < NVMA && Slot(c, i) in vma && vma[Slot(c, i)].shm == id && id in seg
    requires id >= 0
    ensures Counted(DropArea(vma, Slot(c, i)), seg, From(c, i + 1))
    ensures Counted(vma, seg[id := Attach(seg[id])], From(c, i + 1))
  {
    hide Count;
    forall jd | jd in seg
      ensures seg[jd].nattch == Count(DropArea(vma, Slot(c, i)), jd, From(c, i + 1))
      ensures Attach(seg[id]).nattch == seg[id].nattch + 1
      ensures Count(vma, jd, From(c, i + 1)) == seg[jd].nattch + One(jd == id)
    {
      CountShift(vma, jd, c, i);
      CountDrop(vma, jd, From(c, i + 1), Slot(c, i));
    }
  }

  lemma FixDest(pte: map<Key, Pte>, pte': map<Key, Pte>, vma: map<Slot, Vma>, seg: map<int, Seg>, p: Pid, c: Pid,
                i: nat)
    requires Fixing(pte, vma, seg, p, c, i) && i < NVMA && p != c && Slot(c, i) in vma
    requires vma[Slot(c, i)].shm in seg && seg[vma[Slot(c, i)].shm].dest && vma[Slot(c, i)].shm >= 0
    requires Slot(p, i) in vma && vma[Slot(p, i)] == vma[Slot(c, i)]
    requires SameOutside(pte, pte', c, vma[Slot(c, i)].start, vma[Slot(c, i)].end)
    requires NonePresent(pte', c, vma[Slot(c, i)])
    ensures Fixing(pte', DropArea(vma, Slot(c, i)), seg, p, c, i + 1)
  {
    var v := Slot(c, i);
    var vma' := DropArea(vma, v);
    hide SegsApart, Counted, AreasOk, Apart, SameOutside, SegLimits, MapsArea;
    FixCounted(vma, seg, c, i, vma[v].shm);
    FewerAreas(pte, vma, seg, v);
    AreasKept(pte, pte', vma', seg, c, vma[v].start, vma[v].end);
    forall j: nat | j < i + 1
      ensures Fixed(pte', vma', seg, p, c, j)
    {
      if j < i {
        assert Fixed(pte, vma, seg, p, c, j);
        FixedKept(pte, pte', vma, seg, p, c, j, v);
      }
    }
    forall j: nat | i + 1 <= j < NVMA
      ensures SameSlot(vma', p, c, j)
    {
      assert SameSlot(vma, p, c, j);
    }
  }

  /** Remapping an area keeps every area mapped. */
  lemma AreasRemapped(pte: map<Key, Pte>, pte': map<Key, Pte>, vma: map<Slot, Vma>, seg: map<int, Seg>, p: Pid,
                      a: Vma, pages: seq<Frame>, i: nat)
    requires AreasOk(pte, vma, seg, {}) && SameOutside(pte, pte', p, a.start, a.end) && Apart(vma)
    requires Slot(p, i) in vma && vma[Slot(p, i)] == a && a.end == a.start + |pages| && MapsArea(pte', p, a, pages)
    ensures AreasOk(pte', vma, seg, {})
  {
    forall v | v in vma
      ensures AreaOk(pte', seg, v, vma[v])
    {
      assert AreaOk(pte, seg, v, vma[v]);
      forall k | InArea(k, v, vma[v])
        ensures vma[v].shm >= 0 ==> k in pte'
        ensures k in pte' ==> (ReadOnly(pte'[k]) <==> !vma[v].write)
      {
        assert InRange(k, p, a.start, a.end) ==> v == Slot(p, i) && k in pte';
      }
    }
  }

  /** The area of slot `i`, in parent and child, and its segment's pages. */
  ghost predicate Twins(vma: map<Slot, Vma>, seg: map<int, Seg>, p: Pid, c: Pid, i: nat, a: Vma, pages: seq<Frame>) {
    && i < NVMA && p != c && Slot(c, i) in vma && Slot(p, i) in vma && vma[Slot(c, i)] == vma[Slot(p, i)] == a
    && a.shm in seg && !seg[a.shm].dest && a.shm >= 0 && pages == seg[a.shm].pages && a.end == a.start + |pages|
  }

  lemma FixShared(pte: map<Key, Pte>, pte1: map<Key, Pte>, pte2: map<Key, Pte>, vma: map<Slot, Vma>, seg: map<int, Seg>,
                  p: Pid, c: Pid, i: nat, a: Vma, pages: seq<Frame>)
    requires Fixing(pte, vma, seg, p, c, i) && Twins(vma, seg, p, c, i, a, pages)
    requires SameOutside(pte, pte1, p, a.start, a.end) && MapsArea(pte1, p, a, pages)
    requires SameOutside(pte1, pte2, c, a.start, a.end) && MapsArea(pte2, c, a, pages)
    ensures Fixing(pte2, vma, seg[a.shm := Attach(seg[a.shm])], p, c, i + 1)
  {
    hide SegsApart, Counted, AreasOk, Apart, SegLimits, Fixed, SameSlot, SameOutside, MapsArea;
    SharedParts(pte, pte1, pte2, vma, seg, p, c, i, a, pages);
    var seg' := seg[a.shm := Attach(seg[a.shm])];
    forall j: nat | j < i + 1
      ensures Fixed(pte2, vma, seg', p, c, j)
    {
      FixedStep(pte, pte1, pte2, vma, seg, p, c, i, a, pages, j);
    }
  }

  lemma SharedParts(pte: map<Key, Pte>, pte1: map<Key, Pte>, pte2: map<Key, Pte>, vma: map<Slot, Vma>,
                    seg: map<int, Seg>,
                    p: Pid, c: Pid, i: nat, a: Vma, pages: seq<Frame>)
    requires Twins(vma, seg, p, c, i, a, pages)
    requires SegsApart(seg) && SegLimits(seg) && Counted(vma, seg, From(c, i)) && AreasOk(pte, vma, seg, {})
    requires Apart(vma)
    requires SameOutside(pte, pte1, p, a.start, a.end) && MapsArea(pte1, p, a, pages)
    requires SameOutside(pte1, pte2, c, a.start, a.end) && MapsArea(pte2, c, a, pages)
    ensures AreasOk(pte1, vma, seg, {}) && AreasOk(pte2, vma, seg[a.shm := Attach(seg[a.shm])], {})
    ensures SegsApart(seg[a.shm := Attach(seg[a.shm])]) && SegLimits(seg[a.shm := Attach(seg[a.shm])])
    ensures Counted(vma, seg[a.shm := Attach(seg[a.shm])], From(c, i + 1))
  {
    hide SegsApart, Counted, AreasOk, SameOutside, SegLimits, SegFrames, Maps, Apart;
    FixCounted(vma, seg, c, i, a.shm);
    FramesSame(seg, a.shm, Attach(seg[a.shm]));
    AttachLimits(seg, a.shm);
    AreasRemapped(pte, pte1, vma, seg, p, a, pages, i);
    AreasRemapped(pte1, pte2, vma, seg, c, a, pages, i);
    AttachSame(pte2, vma, seg, a.shm);
  }

  lemma FixedStep(pte: map<Key, Pte>, pte1: map<Key, Pte>, pte2: map<Key, Pte>, vma: map<Slot, Vma>, seg: map<int, Seg>,
                  p: Pid, c: Pid, i: nat, a: Vma, pages: seq<Frame>, j: nat)
    requires Fixing(pte, vma, seg, p, c, i) && Twins(vma, seg, p, c, i, a, pages) && j <= i
    requires SameOutside(pte, pte1, p, a.start, a.end) && MapsArea(pte1, p, a, pages) && AreasOk(pte1, vma, seg, {})
    requires SameOutside(pte1, pte2, c, a.start, a.end) && MapsArea(pte2, c, a, pages)
    ensures Fixed(pte2, vma, seg[a.shm := Attach(seg[a.shm])], p, c, j)
  {
    hide SegsApart, Counted, AreasOk, Apart, SameOutside, SegLimits, SegFrames, Maps, Fixed, SameSlot, MapsArea;
    if j < i {
      FixedKept(pte, pte1, vma, seg, p, c, j, Slot(p, i));
      FixedKept(pte1, pte2, vma, seg, p, c, j, Slot(c, i));
      FixedAttach(pte2, vma, seg, p, c, j, a.shm);
    } else {
      MapsKept(pte1, pte2, p, a, pages, c, a);
      FixedNow(pte2, vma, seg, p, c, i, a.shm);
    }
  }

  lemma FixedAttach(pte: map<Key, Pte>, vma: map<Slot, Vma>, seg: map<int, Seg>, p: Pid, c: Pid, j: nat, id: int)
    requires Fixed(pte, vma, seg, p, c, j) && id in seg
    ensures Fixed(pte, vma, seg[id := Attach(seg[id])], p, c, j)
  {
    hide MapsArea;
  }

  lemma FixedNow(pte: map<Key, Pte>, vma: map<Slot, Vma>, seg: map<int, Seg>, p: Pid, c: Pid, i: nat, id: int)
    requires Slot(p, i) in vma && Slot(c, i) in vma && vma[Slot(c, i)] == vma[Slot(p, i)] && vma[Slot(p, i)].shm == id
    requires id in seg && !seg[id].dest
    requires MapsArea(pte, p, vma[Slot(p, i)], seg[id].pages) && MapsArea(pte, c, vma[Slot(p, i)], seg[id].pages)
    ensures Fixed(pte, vma, seg[id := Attach(seg[id])], p, c, i)
  {
    hide MapsArea;
  }

  lemma AttachSame(pte: map<Key, Pte>, vma: map<Slot, Vma>, seg: map<int, Seg>, id: int)
    requires AreasOk(pte, vma, seg, {}) && id in seg
    ensures AreasOk(pte, vma, seg[id := Attach(seg[id])], {})
  {
    hide InArea;
    var seg' := seg[id := Attach(seg[id])];
    forall v | v in vma
      ensures AreaOk(pte, seg', v, vma[v])
    {
      assert AreaOk(pte, seg, v, vma[v]);
    }
  }

  // ---- The end of a process ----

  /** With its entries freed and nothing attached, a process' areas can go. */
  lemma Gone(pte: map<Key, Pte>, pte': map<Key, Pte>, vma: map<Slot, Vma>, seg: map<int, Seg>, p: Pid)
    requires Counted(vma, seg, {}) && AreasOk(pte, vma, seg, {}) && Apart(vma) && OtherPtes(pte, pte', p)
    requires SegLimits(seg)
    requires forall v :: v in vma && v.p == p ==> vma[v].shm < 0
    ensures var vma' := WithoutProc(vma, p); Counted(vma', seg, {}) && AreasOk(pte', vma', seg, {}) && Apart(vma')
  {
    hide AreasOk, SegLimits, OtherPtes;
    GoneCounted(vma, seg, p);
    GoneAreas(pte, pte', vma, seg, p);
  }

  lemma GoneCounted(vma: map<Slot, Vma>, seg: map<int, Seg>, p: Pid)
    requires Counted(vma, seg, {}) && SegLimits(seg) && forall v :: v in vma && v.p == p ==> vma[v].shm < 0
    ensures Counted(WithoutProc(vma, p), seg, {})
  {
    var vma' := WithoutProc(vma, p);
    forall id | id in seg
      ensures Count(vma', id, {}) == Count(vma, id, {})
    {
      assert Attached(vma', id, {}) == Attached(vma, id, {});
    }
    hide Count;
  }

  lemma GoneAreas(pte: map<Key, Pte>, pte': map<Key, Pte>, vma: map<Slot, Vma>, seg: map<int, Seg>, p: Pid)
    requires AreasOk(pte, vma, seg, {}) && OtherPtes(pte, pte', p)
    ensures AreasOk(pte', WithoutProc(vma, p), seg, {})
  {
    forall v | v in WithoutProc(vma, p)
      ensures AreaOk(pte', seg, v, WithoutProc(vma, p)[v])
    {
      assert AreaOk(pte, seg, v, vma[v]);
    }
  }

  lemma PtesTwice(pte0: map<Key, Pte>, pte1: map<Key, Pte>, pte2: map<Key, Pte>, p: Pid)
    requires OtherPtes(pte0, pte1, p) && OtherPtes(pte1, pte2, p)
    ensures OtherPtes(pte0, pte2, p)
  {
  }

  lemma AreasTwice(vma0: map<Slot, Vma>, vma1: map<Slot, Vma>, vma2: map<Slot, Vma>, p: Pid)
    requires OtherAreas(vma0, vma1, p) && OtherAreas(vma1, vma2, p)
    ensures OtherAreas(vma0, vma2, p)
  {
  }

  lemma AreasOf(vma0: map<Slot, Vma>, vma1: map<Slot, Vma>, p: Pid)
    requires OtherAreas(vma0, vma1, p)
    ensures OtherAreas(vma0, WithoutProc(vma1, p), p)
  {
  }

  // ---- From uvmcopy to shm_fork_fix and on ----

  lemma CopyKeepsAreas(pte: map<Key, Pte>, pte': map<Key, Pte>, vma: map<Slot, Vma>, seg: map<int, Seg>, p: Pid, c: Pid)
    requires AreasOk(pte, vma, seg, {}) && CopyPart(pte, pte', p, c) && forall v :: v in vma ==> v.p != c
    ensures AreasOk(pte', vma, seg, {})
  {
    forall v | v in vma
      ensures AreaOk(pte', seg, v, vma[v])
    {
      assert AreaOk(pte, seg, v, vma[v]);
    }
  }

  lemma ChildGone(pte: map<Key, Pte>, pte': map<Key, Pte>, vma: map<Slot, Vma>, seg: map<int, Seg>, c: Pid)
    requires AreasOk(pte, vma, seg, {}) && OtherPtes(pte, pte', c) && forall v :: v in vma ==> v.p != c
    ensures AreasOk(pte', vma, seg, {})
  {
    forall v | v in vma
      ensures AreaOk(pte', seg, v, vma[v])
    {
      assert AreaOk(pte, seg, v, vma[v]);
    }
  }

  lemma FixStart(pte0: map<Key, Pte>, pte: map<Key, Pte>, vma0: map<Slot, Vma>, vma: map<Slot, Vma>,
                 seg: map<int, Seg>, p: Pid, c: Pid)
    requires SegsApart(seg) && SegLimits(seg) && Counted(vma0, seg, {}) && AreasOk(pte0, vma0, seg, {})
    requires AreasOk(pte, vma0, seg, {})
    requires p != c && CopyAll(pte0, pte, p, c) && (forall v :: v in vma0 ==> v.p != c) && Apart(vma)
    requires CopyPart(pte0, pte, p, c)
    requires OtherAreas(vma0, vma, c) && SameTable(vma, p, c, NVMA)
    ensures Fixing(pte, vma, seg, p, c, 0)
  {
    hide SegsApart;
    assert forall v :: v in vma ==> v.i < NVMA;
    forall id
      ensures Count(vma, id, From(c, 0)) == Count(vma0, id, {})
    {
      assert Attached(vma, id, From(c, 0)) == Attached(vma0, id, {});
    }
    hide Count, SegLimits;
    forall v | v in vma
      ensures vma[v].shm >= 0 ==> vma[v].shm in seg
      ensures AreaOk(pte, seg, v, vma[v])
    {
      ChildArea(pte0, pte, vma0, vma, seg, p, c, v);
    }
    hide Apart;
    forall j: nat | j < NVMA
      ensures SameSlot(vma, p, c, j)
    {
    }
  }

  lemma ChildArea(pte0: map<Key, Pte>, pte: map<Key, Pte>, vma0: map<Slot, Vma>, vma: map<Slot, Vma>,
                  seg: map<int, Seg>, p: Pid, c: Pid, v: Slot)
    requires AreasOk(pte0, vma0, seg, {}) && AreasOk(pte, vma0, seg, {}) && v in vma && v.i < NVMA
    requires p != c && CopyAll(pte0, pte, p, c) && OtherAreas(vma0, vma, c) && SameTable(vma, p, c, NVMA)
    requires CopyPart(pte0, pte, p, c)
    ensures AreaOk(pte, seg, v, vma[v])
  {
    if v.p == c {
      assert v == Slot(c, v.i);
      var w := Slot(p, v.i);
      assert w in vma && vma[w] == vma[v] && vma0[w] == vma[w];
      assert AreaOk(pte0, seg, w, vma[v]);
      forall k | InArea(k, v, vma[v])
        ensures vma[v].shm >= 0 ==> k in pte
        ensures k in pte ==> (ReadOnly(pte[k]) <==> !vma[v].write)
      {
        assert InArea(Key(p, k.page), w, vma[v]);
        assert k == Key(c, k.page);
      }
    } else {
      assert AreaOk(pte, seg, v, vma0[v]);
    }
  }

  lemma FixEnd(pte: map<Key, Pte>, vma: map<Slot, Vma>, seg: map<int, Seg>, p: Pid, c: Pid)
    requires Fixing(pte, vma, seg, p, c, NVMA)
    ensures SegsApart(seg) && SegLimits(seg) && Counted(vma, seg, {}) && AreasOk(pte, vma, seg, {}) && Apart(vma)
    ensures forall j: nat :: j < NVMA ==> Fixed(pte, vma, seg, p, c, j)
  {
    assert From(c, NVMA) == {};
  }

  // ---- Copy-on-write faults ----

  lemma SoleOwner(pte: map<Key, Pte>, own: set<Frame>, rc: map<Frame, nat>, k: Key)
    requires Exact(pte, own, {}, rc) && k in pte
    ensures pte[k].frame in rc && (rc[pte[k].frame] == 1 <==> Refs(pte, pte[k].frame) == {k} && pte[k].frame !in own)
  {
    var f := pte[k].frame;
    assert CountOk(rc[f], pte, own, {}, f);
    var r := Refs(pte, f);
    assert k in r && |r| == |r - {k}| + 1;
    if rc[f] == 1 {
      assert r - {k} == {};
    }
  }

  lemma OwnedCounted(pte: map<Key, Pte>, own: set<Frame>, rc: map<Frame, nat>, m: Frame)
    requires Exact(pte, own, {}, rc) && m !in rc
    ensures m !in own
  {
  }

  lemma CowDrop(pte: map<Key, Pte>, own: set<Frame>, rc: map<Frame, nat>, k: Key, m: Frame)
    requires Exact(pte, own, {}, rc) && k in pte && m !in rc
    ensures pte[k].frame in rc[m := 1] && rc[m := 1][pte[k].frame] > 0
    ensures Exact(Without(pte, k), own, {} + {m}, Dec(rc[m := 1], pte[k].frame))
  {
    hide Exact;
    Taken(pte, own, {}, rc, m);
    Unmapped(pte, own, {} + {m}, rc[m := 1], k);
  }

  lemma CowCounts(pte: map<Key, Pte>, own: set<Frame>, rc: map<Frame, nat>, k: Key, m: Frame)
    requires Exact(pte, own, {}, rc) && k in pte && m !in rc
    ensures m != pte[k].frame && pte[k].frame in rc[m := 1] && rc[m := 1][pte[k].frame] > 0
    ensures Exact(pte[k := Pte(m, true, false)], own, {}, Dec(rc[m := 1], pte[k].frame))
  {
    hide Exact, Dec, Without;
    SoleOwner(pte, own, rc, k);
    CowDrop(pte, own, rc, k, m);
    var t := Pte(m, true, false);
    WithoutSet(pte, k, t);
    Mapped(Without(pte, k), own, {} + {m}, Dec(rc[m := 1], pte[k].frame), k, t);
    assert {} + {m} - {m} == {};
  }

  /** Whatever calls there were, no page of a read-only area can be written, nor will
      a write to it be served by a copy; and every page of another area can be, at
      once or by one. */
  lemma AreaAccess(m: Kernel, v: Slot, k: Key)
    requires m.Valid() && v in m.vma && InArea(k, v, m.vma[v]) && k in m.pte
    ensures m.pte[k].w || m.pte[k].cow <==> m.vma[v].write
  {
    assert AreaOk(m.pte, m.seg, v, m.vma[v]);
  }

  /** A copy-on-write page is in no read-only area. */
  lemma CowAccess(pte: map<Key, Pte>, vma: map<Slot, Vma>, seg: map<int, Seg>, k: Key, f: Frame)
    requires AreasOk(pte, vma, seg, {}) && k in pte && pte[k].cow
    ensures forall v :: v in vma && InArea(k, v, vma[v]) ==> (ReadOnly(Pte(f, true, false)) <==> !vma[v].write)
  {
    forall v | v in vma && InArea(k, v, vma[v])
      ensures vma[v].write
    {
      assert AreaOk(pte, seg, v, vma[v]);
    }
  }

  lemma Replaced(pte: map<Key, Pte>, vma: map<Slot, Vma>, seg: map<int, Seg>, k: Key, t: Pte)
    requires AreasOk(pte, vma, seg, {})
    requires forall v :: v in vma && InArea(k, v, vma[v]) ==> (ReadOnly(t) <==> !vma[v].write)
    ensures AreasOk(pte[k := t], vma, seg, {})
  {
    forall v | v in vma
      ensures AreaOk(pte[k := t], seg, v, vma[v])
    {
      assert AreaOk(pte, seg, v, vma[v]);
    }
  }
}
