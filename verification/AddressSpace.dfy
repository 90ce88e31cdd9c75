/** The address space of an x86 process: image, heap up to the program break,
    areas of mmap and shmat, and which pages are mapped. Addresses are 32-bit
    byte addresses. Memory that may run out is a parameter of the calls. */
module AddressSpace {
  import opened Basics

  const PGSIZE: nat := 4096
  const U32: nat := 0x1_0000_0000
  const NVMA: nat := 64
  /** What one page-table page maps. */
  const PDSIZE: nat := 0x40_0000

  /** A used entry of the area table; `shm` is the segment attached, or -1. */
  datatype Vma = Vma(start: nat, end: nat, shm: int)

  function Down(a: nat): (r: nat)
    ensures r <= a < r + PGSIZE && r % PGSIZE == 0
  {
    a / PGSIZE * PGSIZE
  }

  function Up(a: nat): (r: nat)
    ensures a <= r < a + PGSIZE && r % PGSIZE == 0
  {
    (a + PGSIZE - 1) / PGSIZE * PGSIZE
  }

  predicate Meets(a: nat, b: nat, c: nat, d: nat) { a < d && b > c }

  /** No area overlaps [start, end). */
  ghost predicate Clear(vmas: seq<Option<Vma>>, start: nat, end: nat) {
    forall i :: 0 <= i < |vmas| && vmas[i].Some? ==> !Meets(start, end, vmas[i].value.start, vmas[i].value.end)
  }

  /** None of the pages at start, start + PGSIZE, … below `end` is mapped. */
  ghost predicate Unmapped(mapped: set<nat>, start: nat, end: nat) {
    forall a :: a in mapped && start <= a < end ==> (a - start) % PGSIZE != 0
  }

  /** Areas are page-aligned, above the break, below the top and pairwise
      disjoint. */
  ghost predicate Layout(vmas: seq<Option<Vma>>, brk: nat, top: nat) {
    && |vmas| == NVMA
    && (forall i :: 0 <= i < NVMA && vmas[i].Some? ==> AreaOk(vmas[i].value, brk, top))
    && (forall i, j :: 0 <= i < j < NVMA && vmas[i].Some? && vmas[j].Some? ==>
          !Meets(vmas[i].value.start, vmas[i].value.end, vmas[j].value.start, vmas[j].value.end))
  }

  ghost predicate AreaOk(v: Vma, brk: nat, top: nat) {
    v.start % PGSIZE == 0 && v.end % PGSIZE == 0 && Up(brk) <= v.start < v.end <= top
  }

  /** An area has this address. */
  ghost predicate InSome(vmas: seq<Option<Vma>>, a: nat) {
    exists i :: 0 <= i < |vmas| && InArea(vmas[i], a)
  }

  predicate InArea(v: Option<Vma>, a: nat) {
    v.Some? && v.value.start <= a < v.value.end
  }

  /** Where every mapped page between image and stack belongs: to the heap, to an
      area, or to neither, left behind by a shmat that failed half way. */
  ghost predicate Backed(mapped: set<nat>, vmas: seq<Option<Vma>>, low: nat, brk: nat, top: nat, stale: set<nat>) {
    && (forall a :: a in mapped ==> a % PGSIZE == 0)
    && (forall a :: a in mapped && low <= a < top ==> a < Up(brk) || InSome(vmas, a) || a in stale)
    && (forall a :: a in stale ==> a in mapped && low <= a < top && !InSome(vmas, a))
  }

  /** The first `n` pages from `lo`, and the page-table pages that map them. */
  ghost function Pages(lo: nat, n: nat): (s: set<nat>)
    ensures forall a :: a in s <==> exists i :: 0 <= i < n && a == At(lo, i)
  {
    set i | 0 <= i < n :: At(lo, i)
  }

  function At(lo: nat, i: nat): (a: nat) { lo + i * PGSIZE }

  ghost function Dirs(lo: nat, n: nat): (s: set<nat>) {
    set i | 0 <= i < n :: At(lo, i) / PDSIZE
  }

  /** The page-table pages of a set of pages, and that they are all there. */
  function TablesOf(mapped: set<nat>): (t: set<nat>) {
    set a | a in mapped :: a / PDSIZE
  }

  ghost predicate Tabled(mapped: set<nat>, tables: set<nat>) {
    forall a :: a in mapped ==> a / PDSIZE in tables
  }

  /** How many page-table pages of a range are missing. */
  ghost function Need(tables: set<nat>, lo: nat, n: nat): (m: nat) {
    |Dirs(lo, n) - tables|
  }

  class Mm {
    const userBase: nat
    /** USERHEAP_TOP, USEREND and mm->mmap_base. */
    const top: nat
    const userEnd: nat
    const mmapBase: nat
    const brkStart: nat
    var brk: nat
    var vmas: seq<Option<Vma>>
    /** Page addresses with a present entry, and page-table pages there are. */
    var mapped: set<nat>
    var tables: set<nat>
    ghost var stale: set<nat>

    ghost predicate Valid()
      reads this
    {
      && 0 < brkStart <= brk <= top && mmapBase <= top && top % PGSIZE == 0 && top < U32 - PGSIZE
      && top <= userEnd && Tabled(mapped, tables)
      && Layout(vmas, brk, top) && Backed(mapped, vmas, Down(brkStart), brk, top, stale)
    }

    /** After exec: the image below the break, the stack above the top. */
    constructor (userBase: nat, brkStart: nat, mmapBase: nat, top: nat, userEnd: nat, image: set<nat>)
      requires 0 < brkStart <= top <= userEnd && mmapBase <= top && top % PGSIZE == 0 && top < U32 - PGSIZE
      requires forall a :: a in image ==> a % PGSIZE == 0 && (a < Up(brkStart) || a >= top)
      ensures Valid() && brk == brkStart && vmas == seq(NVMA, _ => None) && mapped == image && stale == {}
      ensures tables == TablesOf(image)
      ensures this.userBase == userBase && this.brkStart == brkStart && this.mmapBase == mmapBase && this.top == top
      ensures this.userEnd == userEnd
    {
      this.userBase, this.brkStart, this.mmapBase, this.top := userBase, brkStart, mmapBase, top;
      this.userEnd := userEnd;
      brk, vmas, mapped, tables, stale := brkStart, seq(NVMA, _ => None), image, TablesOf(image), {};
    }

    /** What region_available answers. */
    ghost predicate Available(start: nat, end: nat)
      reads this
    {
      userBase <= start && end <= top && start < end && Up(brk) <= start && Clear(vmas, start, end)
      && Unmapped(mapped, start, end)
    }

    method VmaOverlapRange(start: nat, end: nat) returns (b: bool)
      ensures b <==> !Clear(vmas, start, end)
    {
      var i := 0;
      while i < |vmas|
        invariant 0 <= i <= |vmas|
        invariant forall j :: 0 <= j < i && vmas[j].Some? ==> !Meets(start, end, vmas[j].value.start, vmas[j].value.end)
      {
        if vmas[i].Some? && start < vmas[i].value.end && end > vmas[i].value.start {
          return true;
        }
        i := i + 1;
      }
      b := false;
    }

    method RegionAvailable(start: nat, end: nat) returns (b: bool)
      ensures b <==> Available(start, end)
    {
      if start < userBase || end > top || start >= end || start < Up(brk) {
        return false;
      }
      var o := VmaOverlapRange(start, end);
      if o {
        return false;
      }
      var va := start;
      while va < end
        invariant start <= va && (va - start) % PGSIZE == 0
        invariant forall a :: a in mapped && start <= a < end && a < va ==> (a - start) % PGSIZE != 0
      {
        if va in mapped {
          return false;
        }
        forall a | a in mapped && start <= a < end && va < a < va + PGSIZE
          ensures (a - start) % PGSIZE != 0
        {
          StepPast(start, va, a);
        }
        va := va + PGSIZE;
      }
      b := true;
    }

    /** find_mmap_addr: the highest page-aligned start of an available range below
        the mmap base, or zero if there is none. */
    method FindMmapAddr(len: nat) returns (r: nat)
      requires Valid()
      ensures r != 0 ==> r % PGSIZE == 0 && Candidate(r, len)
      ensures forall s: nat :: s % PGSIZE == 0 && s > r ==> !Candidate(s, len)
      ensures r == 0 <==> forall s: nat :: s % PGSIZE == 0 ==> !Candidate(s, len)
    {
      var low, high := Up(brk), mmapBase;
      if len == 0 || low >= high || len > high - low {
        return 0;
      }
      var start := Down(high - len);
      while true
        invariant start % PGSIZE == 0 && start + len <= high
        invariant forall s: nat :: s % PGSIZE == 0 && s > start ==> !Candidate(s, len)
        decreases start
      {
        if start < low {
          return 0;
        }
        var ok := RegionAvailable(start, start + len);
        if ok {
          assert Candidate(start, len);
          return start;
        }
        if start < low + PGSIZE {
          NextBelow(start, low);
          return 0;
        }
        NextDown(start);
        start := start - PGSIZE;
      }
    }

    /** A range find_mmap_addr may return. */
    ghost predicate Candidate(s: nat, len: nat)
      reads this
    {
      Up(brk) <= s && s + len <= mmapBase && Available(s, s + len)
    }

    /** What mmap of `len` bytes takes: a free entry of the area table, and the
        fixed range, page-aligned, or some range below the mmap base. */
    ghost predicate Mappable(addr: nat, len: nat, fixed: bool)
      reads this
    {
      && len <= top - userBase
      && (exists i :: 0 <= i < |vmas| && vmas[i].None?)
      && Placeable(addr, len, fixed)
    }

    ghost predicate Placeable(addr: nat, len: nat, fixed: bool)
      reads this
    {
      if fixed then addr % PGSIZE == 0 && Available(addr, addr + len)
      else exists s: nat :: s % PGSIZE == 0 && Candidate(s, len)
    }

    /** No aligned range above `start` would do. */
    ghost predicate Highest(start: nat, len: nat)
      reads this
    {
      forall s: nat :: s % PGSIZE == 0 && s > start ==> !Candidate(s, len)
    }

    /** The start of a new area: the fixed address, or the highest one. */
    method ChooseAddr(addr: nat, len: nat, fixed: bool) returns (r: Option<nat>)
      requires Valid() && addr < U32 && 0 < len < U32 && len % PGSIZE == 0
      ensures r.Some? <==> Placeable(addr, len, fixed)
      ensures r.Some? ==> r.value % PGSIZE == 0 && Available(r.value, r.value + len)
      ensures r.Some? ==> if fixed then r.value == addr else Highest(r.value, len)
    {
      hide Layout, Clear, Unmapped, Up;
      if fixed {
        if addr % PGSIZE != 0 {
          return None;
        }
        EndWraps(addr, len);
        assert Available(addr, addr + len) ==> addr + len < U32;
        var ok := RegionAvailable(addr, (addr + len) % U32);
        r := if ok then Some(addr) else None;
      } else {
        var start := FindMmapAddr(len);
        r := if start == 0 then None else Some(start);
      }
    }

    method VmaAllocSlot() returns (r: Option<nat>)
      requires |vmas| == NVMA
      ensures r.Some? ==> r.value < NVMA && vmas[r.value].None?
      ensures r.None? ==> forall i :: 0 <= i < NVMA ==> vmas[i].Some?
    {
      var i := 0;
      while i < NVMA
        invariant 0 <= i <= NVMA && forall j :: 0 <= j < i ==> vmas[j].Some?
      {
        if vmas[i].None? {
          return Some(i);
        }
        i := i + 1;
      }
      r := None;
    }

    /** mmap of anonymous memory: an area of the rounded-up length, at the fixed
        address if that is available, else as high as possible. */
    method DoMmap(addr: nat, len0: nat, fixed: bool) returns (r: Option<nat>)
      requires Valid() && addr < U32 && len0 < U32
      modifies this`vmas
      ensures Valid()
      ensures r.None? ==> vmas == old(vmas)
      ensures r.Some? ==> OneMore(old(vmas), vmas, Vma(r.value, r.value + Up(len0), -1))
      ensures r.Some? ==> old(Available(r.value, r.value + Up(len0)))
      ensures r.Some? <==> old(Mappable(addr, Up(len0), fixed)) && len0 > 0
      ensures r.Some? ==> if fixed then r.value == addr else old(Highest(r.value, Up(len0)))
    {
      hide Layout, Clear, Unmapped, Up, Candidate, Highest, Placeable, Backed;
      LayoutSize(vmas, brk, top);
      Rounded(len0);
      var len := Up(len0) % U32;
      if len0 == 0 || len == 0 || len > top - userBase {
        return None;
      }
      var place := ChooseAddr(addr, len, fixed);
      if place.None? {
        return None;
      }
      var start := place.value;
      var slot := VmaAllocSlot();
      if slot.None? {
        return None;
      }
      Aligned(start, len);
      Added(vmas, brk, top, slot.value, Vma(start, start + len, -1));
      AddedBacked(mapped, vmas, Down(brkStart), brk, top, stale, slot.value, Vma(start, start + len, -1));
      vmas := vmas[slot.value := Some(Vma(start, start + len, -1))];
      r := Some(start);
    }

    /** The entry `i` of the area table goes, with its pages. */
    method DropArea(i: nat)
      requires Valid() && i < NVMA && vmas[i].Some?
      modifies this`vmas, this`mapped
      ensures Valid() && vmas == old(vmas)[i := None]
      ensures forall a :: a in mapped <==> a in old(mapped) && !InArea(old(vmas)[i], a)
    {
      DroppedBacked(mapped, vmas, Down(brkStart), brk, top, stale, i);
      mapped := Unmap(mapped, vmas[i].value.start, vmas[i].value.end);
      vmas := vmas[i := None];
    }

    /** munmap of exactly one area. */
    method DoMunmap(addr: nat, len0: nat) returns (ok: bool)
      requires Valid() && addr < U32 && len0 < U32
      modifies this`vmas, this`mapped
      ensures Valid()
      ensures ok <==> exists i :: 0 <= i < NVMA && Named(old(vmas)[i], addr, addr + Up(len0))
      ensures !ok ==> vmas == old(vmas) && mapped == old(mapped)
      ensures ok ==>
                exists i :: 0 <= i < NVMA && Named(old(vmas)[i], addr, addr + Up(len0)) && vmas == old(vmas)[i := None]
      ensures ok ==> forall a :: a in mapped <==> a in old(mapped) && !(addr <= a < addr + Up(len0))
    {
      hide Layout, Backed;
      LayoutSize(vmas, brk, top);
      var len := Up(len0) % U32;
      var end := (addr + len) % U32;
      NoWrap(vmas, brk, top, addr, len0);
      if len0 == 0 || addr % PGSIZE != 0 || end < addr {
        return false;
      }
      var i := 0;
      while i < NVMA && !Named(vmas[i], addr, end)
        invariant 0 <= i <= NVMA && forall j :: 0 <= j < i ==> !Named(vmas[j], addr, end)
      {
        i := i + 1;
      }
      if i == NVMA {
        return false;
      }
      DropArea(i);
      ok := true;
    }

    /** shmdt of the first attached area that begins at the address. */
    method DoShmdt(addr: nat) returns (ok: bool)
      requires Valid()
      modifies this`vmas, this`mapped
      ensures Valid()
      ensures ok <==> exists i :: 0 <= i < NVMA && AttachedAt(old(vmas)[i], addr)
      ensures !ok ==> vmas == old(vmas) && mapped == old(mapped)
      ensures ok ==> exists i :: 0 <= i < NVMA && AttachedAt(old(vmas)[i], addr) && vmas == old(vmas)[i := None]
                                 && forall a :: a in mapped <==> a in old(mapped) && !InArea(old(vmas)[i], a)
    {
      hide Layout, Backed;
      LayoutSize(vmas, brk, top);
      LayoutAligned(vmas, brk, top);
      if addr % PGSIZE != 0 {
        return false;
      }
      var i := 0;
      while i < NVMA && !AttachedAt(vmas[i], addr)
        invariant 0 <= i <= NVMA && forall j :: 0 <= j < i ==> !AttachedAt(vmas[j], addr)
      {
        i := i + 1;
      }
      if i == NVMA {
        return false;
      }
      DropArea(i);
      ok := true;
    }

    /** Whether shmat gets as far as mapping. */
    ghost predicate Attachable(addr: nat, npages: nat)
      reads this
    {
      Placeable(addr, npages * PGSIZE, addr != 0) && exists i :: 0 <= i < |vmas| && vmas[i].None?
    }

    lemma AvailableFacts(start: nat, end: nat)
      requires Available(start, end)
      ensures start < end <= top && Up(brk) <= start && Clear(vmas, start, end) && Unmapped(mapped, start, end)
    {
    }

    /** shm_map_range over unmapped pages: as many as there are page tables for. */
    method MapPages(start: nat, npages: nat, memory: nat) returns (n: nat)
      modifies this`mapped, this`tables
      ensures n <= npages && mapped == old(mapped) + Pages(start, n) && tables == old(tables) + Dirs(start, n)
      ensures n == npages <==> Need(old(tables), start, npages) <= memory
      ensures n < npages ==> At(start, n) / PDSIZE !in tables && Need(old(tables), start, n) == memory
    {
      hide Pages, Dirs, Need, At;
      n := 0;
      var left := memory;
      NoPages(start);
      assert mapped == old(mapped) + Pages(start, 0) && tables == old(tables) + Dirs(start, 0);
      NeedNone(tables, start);
      while n < npages
        invariant n <= npages && mapped == old(mapped) + Pages(start, n) && tables == old(tables) + Dirs(start, n)
        invariant 0 <= left && left + Need(old(tables), start, n) == memory
      {
        NextPage(start, n);
        NeedNext(old(tables), start, n);
        if At(start, n) / PDSIZE !in tables {
          if left == 0 {
            NeedMore(old(tables), start, n + 1, npages);
            return;
          }
          left := left - 1;
          tables := tables + {At(start, n) / PDSIZE};
        }
        mapped := mapped + {At(start, n)};
        n := n + 1;
      }
    }

    /** shmat of a segment of `npages` pages at a given address, or at the highest
        place if it is zero. `memory` page-table pages can be had. If they do not
        suffice the area goes again, but the pages mapped until then stay. */
    method DoShmat(id: nat, addr: nat, npages: nat, memory: nat) returns (r: Option<nat>, ghost at: nat, ghost n: nat)
      requires Valid() && addr < U32 && 0 < npages && npages * PGSIZE < U32
      modifies this`vmas, this`mapped, this`tables, this`stale
      ensures Valid() && n <= npages
      ensures old(!Attachable(addr, npages)) ==>
                r.None? && vmas == old(vmas) && mapped == old(mapped) && tables == old(tables) && stale == old(stale)
      ensures old(Attachable(addr, npages)) ==>
                && old(Available(at, at + npages * PGSIZE)) && at % PGSIZE == 0
                && (if addr != 0 then at == addr else old(Highest(at, npages * PGSIZE)))
                && mapped == old(mapped) + Pages(at, n) && tables == old(tables) + Dirs(at, n)
                && (r.Some? <==> n == npages) && (n == npages <==> Need(old(tables), at, npages) <= memory)
                && (n < npages ==>
                      At(at, n) / PDSIZE !in old(tables) + Dirs(at, n) && Need(old(tables), at, n) == memory)
                && stale == old(stale) + if r.Some? then {} else Pages(at, n)
      ensures r.Some? ==> r.value == at && OneMore(old(vmas), vmas, Vma(at, at + npages * PGSIZE, id))
      ensures r.None? ==> vmas == old(vmas)
    {
      hide Layout, Clear, Unmapped, Up, Candidate, Highest, Placeable, Backed, Pages, Dirs, Available;
      LayoutSize(vmas, brk, top);
      at, n := 0, 0;
      assert npages * PGSIZE % PGSIZE == 0;
      var place := ChooseAddr(addr, npages * PGSIZE, addr != 0);
      if place.None? {
        return None, 0, 0;
      }
      var start := place.value;
      var slot := VmaAllocSlot();
      if slot.None? {
        return None, 0, 0;
      }
      at := start;
      var v := Vma(start, start + npages * PGSIZE, id);
      AvailableFacts(start, v.end);
      Aligned(start, npages * PGSIZE);
      Added(vmas, brk, top, slot.value, v);
      var got := MapPages(start, npages, memory);
      n := got;
      TabledMore(old(mapped), old(tables), start, n);
      AttachedBacked(old(mapped), vmas, Down(brkStart), brk, top, stale, slot.value, v, npages, n);
      if got < npages {
        stale := stale + Pages(at, n);
        return None, at, n;
      }
      vmas := vmas[slot.value := Some(v)];
      r := Some(start);
    }

    /** A page fault: a page of the heap or of an area is mapped, given memory. */
    method DemandFault(va: nat, memory: bool) returns (ok: bool)
      requires Valid()
      modifies this`mapped, this`tables
      ensures Valid()
      ensures ok <==> userBase <= Down(va) < userEnd && (Down(va) in old(mapped) ||
                        (memory && ((Down(va) < brk && Down(va) + PGSIZE > brkStart) || InSome(vmas, Down(va)))))
      ensures mapped == if ok then old(mapped) + {Down(va)} else old(mapped)
      ensures tables == if ok then old(tables) + {Down(va) / PDSIZE} else old(tables)
    {
      hide Layout, Up, Down;
      LayoutSize(vmas, brk, top);
      var page := Down(va);
      if page < userBase || page >= userEnd {
        return false;
      }
      if page in mapped {
        assert mapped == mapped + {page} && tables == tables + {page / PDSIZE};
        return true;
      }
      if !(page < brk && page + PGSIZE > brkStart) {
        var i := 0;
        while i < NVMA && !InArea(vmas[i], page)
          invariant 0 <= i <= NVMA && forall j :: 0 <= j < i ==> !InArea(vmas[j], page)
        {
          i := i + 1;
        }
        if i == NVMA {
          return false;
        }
        assert InSome(vmas, page);
      }
      if !memory {
        return false;
      }
      FaultBacked(mapped, vmas, brkStart, brk, top, stale, page);
      mapped, tables := mapped + {page}, tables + {page / PDSIZE};
      ok := true;
    }

    /** fork: the child has the parent's break, areas and pages, save the areas of
        segments marked for destruction and their pages. */
    constructor ForkOf(m: Mm, marked: set<int>)
      requires m.Valid()
      ensures Valid() && userBase == m.userBase && top == m.top && mmapBase == m.mmapBase && brkStart == m.brkStart
      ensures userEnd == m.userEnd && tables == TablesOf(m.mapped)
      ensures brk == m.brk && stale == m.stale && |vmas| == NVMA == |m.vmas|
      ensures forall i :: 0 <= i < NVMA ==> vmas[i] == if IsMarked(m.vmas[i], marked) then None else m.vmas[i]
      ensures forall a :: a in mapped <==> a in m.mapped && !InMarked(m.vmas, marked, NVMA, a)
    {
      userBase, top, userEnd, mmapBase, brkStart := m.userBase, m.top, m.userEnd, m.mmapBase, m.brkStart;
      brk, vmas, mapped, tables, stale := m.brk, m.vmas, m.mapped, TablesOf(m.mapped), m.stale;
      new;
      hide Layout, Backed, Down;
      LayoutSize(vmas, brk, top);
      var i := 0;
      while i < NVMA
        invariant 0 <= i <= NVMA && Valid() && brk == m.brk && stale == m.stale && |vmas| == NVMA == |m.vmas|
        invariant forall j :: 0 <= j < i ==> vmas[j] == if IsMarked(m.vmas[j], marked) then None else m.vmas[j]
        invariant forall j :: i <= j < NVMA ==> vmas[j] == m.vmas[j]
        invariant tables == TablesOf(m.mapped)
        invariant forall a :: a in mapped <==> a in m.mapped && !InMarked(m.vmas, marked, i, a)
      {
        ghost var before := mapped;
        if IsMarked(vmas[i], marked) {
          DropArea(i);
        }
        forall a
          ensures InMarked(m.vmas, marked, i + 1, a) <==>
                  InMarked(m.vmas, marked, i, a) || (IsMarked(m.vmas[i], marked) && InArea(m.vmas[i], a))
        {
        }
        i := i + 1;
      }
    }

    /** brk: the new break, or the old one if the address is out of bounds or an
        area is in the way. */
    method SysBrk(addr: nat) returns (r: nat)
      requires Valid() && addr < U32
      modifies this`brk, this`mapped, this`stale
      ensures Valid() && r == brk && (brk == addr || brk == old(brk))
      ensures HasIn(mapped, Up(old(brk)), Up(brk)) <==> HasIn(old(stale), Up(old(brk)), Up(brk))
      ensures brk == addr <==>
                addr == old(brk) || (brkStart <= addr <= top && (addr > old(brk) ==> Clear(vmas, old(brk), addr)))
      ensures mapped == Unmap(old(mapped), Up(brk), Up(old(brk)))
      ensures stale == Unmap(old(stale), Up(brk), Up(old(brk)))
    {
      hide Layout, Clear, Up, Down, Backed, HasIn, Unmap, Tabled;
      NoneUnmapped(mapped, stale, brk);
      if addr < brkStart || addr > top {
        return brk;
      }
      if addr > brk {
        var o := VmaOverlapRange(brk, addr);
        if o {
          return brk;
        }
        BrkGrows(vmas, brk, addr, top);
        GrownBacked(mapped, vmas, Down(brkStart), brk, addr, top, stale);
      } else if addr < brk {
        BrkShrinks(vmas, brk, addr, top);
        ShrunkBacked(mapped, tables, vmas, brkStart, brk, addr, top, stale);
        mapped := Unmap(mapped, Up(addr), Up(brk));
        stale := Unmap(stale, Up(addr), Up(brk));
      }
      brk := addr;
      r := brk;
    }
  }

  ghost predicate OneMore(vmas: seq<Option<Vma>>, vmas': seq<Option<Vma>>, v: Vma) {
    exists i :: 0 <= i < |vmas| && vmas[i].None? && vmas' == vmas[i := Some(v)]
  }

  predicate Named(v: Option<Vma>, start: nat, end: nat) {
    v.Some? && v.value.start == start && v.value.end == end
  }

  predicate AttachedAt(v: Option<Vma>, start: nat) {
    v.Some? && v.value.shm >= 0 && v.value.start == start
  }

  predicate IsMarked(v: Option<Vma>, marked: set<int>) {
    v.Some? && v.value.shm >= 0 && v.value.shm in marked
  }

  /** One of the first `n` areas is of a marked segment and has this address. */
  ghost predicate InMarked(vmas: seq<Option<Vma>>, marked: set<int>, n: nat, a: nat)
    requires n <= |vmas|
  {
    exists i :: 0 <= i < n && IsMarked(vmas[i], marked) && InArea(vmas[i], a)
  }

  /** Some page of the range is among these. */
  ghost predicate HasIn(pages: set<nat>, lo: nat, hi: nat) {
    exists a :: a in pages && lo <= a < hi
  }

  function Unmap(mapped: set<nat>, lo: nat, hi: nat): (r: set<nat>)
    ensures forall a :: a in r <==> a in mapped && !(lo <= a < hi)
  {
    set a | a in mapped && !(lo <= a < hi)
  }

  // ---- Pages and their page tables ----

  lemma NoPages(lo: nat)
    ensures Pages(lo, 0) == {} && Dirs(lo, 0) == {}
  {
  }

  lemma NextPage(lo: nat, n: nat)
    ensures Pages(lo, n + 1) == Pages(lo, n) + {At(lo, n)} && Dirs(lo, n + 1) == Dirs(lo, n) + {At(lo, n) / PDSIZE}
  {
  }

  lemma TabledMore(mapped: set<nat>, tables: set<nat>, lo: nat, n: nat)
    requires Tabled(mapped, tables)
    ensures Tabled(mapped + Pages(lo, n), tables + Dirs(lo, n))
  {
  }

  lemma NeedNone(tables: set<nat>, lo: nat)
    ensures Need(tables, lo, 0) == 0
  {
    assert Dirs(lo, 0) - tables == {};
  }

  lemma NeedNext(tables: set<nat>, lo: nat, n: nat)
    ensures var d := At(lo, n) / PDSIZE;
            Need(tables, lo, n + 1) == Need(tables, lo, n) + if d in tables + Dirs(lo, n) then 0 else 1
  {
    var d := At(lo, n) / PDSIZE;
    NextPage(lo, n);
    hide Dirs;
    if d in tables + Dirs(lo, n) {
      assert Dirs(lo, n + 1) - tables == Dirs(lo, n) - tables;
    } else {
      assert Dirs(lo, n + 1) - tables == (Dirs(lo, n) - tables) + {d};
    }
  }

  lemma NeedMore(tables: set<nat>, lo: nat, m: nat, n: nat)
    requires m <= n
    ensures Need(tables, lo, m) <= Need(tables, lo, n)
  {
    assert Dirs(lo, n) - tables == (Dirs(lo, m) - tables) + ((Dirs(lo, n) - tables) - (Dirs(lo, m) - tables));
  }

  lemma PagesWithin(lo: nat, n: nat, npages: nat)
    requires n <= npages && lo % PGSIZE == 0
    ensures forall a :: a in Pages(lo, n) ==> a % PGSIZE == 0 && lo <= a < lo + npages * PGSIZE
  {
    forall i | 0 <= i < n
      ensures At(lo, i) % PGSIZE == 0 && At(lo, i) < lo + npages * PGSIZE
    {
      assert At(lo, i) + PGSIZE <= lo + npages * PGSIZE;
    }
  }

  // ---- Where pages belong ----

  /** An area over unmapped pages takes none that belonged elsewhere. */
  lemma AddedBacked(mapped: set<nat>, vmas: seq<Option<Vma>>, low: nat, brk: nat, top: nat, stale: set<nat>, i: nat,
                    v: Vma)
    requires Layout(vmas, brk, top) && Backed(mapped, vmas, low, brk, top, stale) && i < NVMA && vmas[i].None?
    requires v.start % PGSIZE == 0 && Unmapped(mapped, v.start, v.end)
    ensures Backed(mapped, vmas[i := Some(v)], low, brk, top, stale)
  {
    InSomeMore(vmas, i, v);
    forall a | a in stale
      ensures !(v.start <= a < v.end)
    {
      assert v.start <= a ==> (a - v.start) % PGSIZE == 0;
    }
  }

  lemma InSomeMore(vmas: seq<Option<Vma>>, i: nat, v: Vma)
    requires i < |vmas| && vmas[i].None?
    ensures forall a: nat :: InSome(vmas[i := Some(v)], a) <==> InSome(vmas, a) || v.start <= a < v.end
  {
    forall a: nat
      ensures InSome(vmas[i := Some(v)], a) <==> InSome(vmas, a) || v.start <= a < v.end
    {
      if j :| 0 <= j < |vmas| && InArea(vmas[j], a) {
        assert InArea(vmas[i := Some(v)][j], a);
      }
      if v.start <= a < v.end {
        assert InArea(vmas[i := Some(v)][i], a);
      }
    }
  }

  lemma InSomeLess(vmas: seq<Option<Vma>>, i: nat)
    requires i < |vmas|
    ensures forall a: nat :: InSome(vmas, a) ==> InSome(vmas[i := None], a) || InArea(vmas[i], a)
    ensures forall a: nat :: InSome(vmas[i := None], a) ==> InSome(vmas, a)
  {
    var less := vmas[i := None];
    forall a: nat
      ensures InSome(vmas, a) ==> InSome(vmas[i := None], a) || InArea(vmas[i], a)
      ensures InSome(vmas[i := None], a) ==> InSome(vmas, a)
    {
      if j :| 0 <= j < |vmas| && InArea(vmas[j], a) {
        assert j != i ==> InArea(less[j], a);
      }
      if j :| 0 <= j < |vmas| && InArea(less[j], a) {
        assert InArea(vmas[j], a);
      }
    }
  }

  /** An area goes with its pages. */
  lemma DroppedBacked(mapped: set<nat>, vmas: seq<Option<Vma>>, low: nat, brk: nat, top: nat, stale: set<nat>, i: nat)
    requires Layout(vmas, brk, top) && Backed(mapped, vmas, low, brk, top, stale) && i < NVMA && vmas[i].Some?
    ensures Layout(vmas[i := None], brk, top)
    ensures Backed(Unmap(mapped, vmas[i].value.start, vmas[i].value.end), vmas[i := None], low, brk, top, stale)
  {
    InSomeLess(vmas, i);
    forall a | a in stale
      ensures !InArea(vmas[i], a)
    {
      assert !InSome(vmas, a);
    }
  }

  /** A segment mapped over an available range, whole or in part. */
  lemma AttachedBacked(mapped: set<nat>, vmas: seq<Option<Vma>>, low: nat, brk: nat, top: nat, stale: set<nat>,
                       i: nat, v: Vma, npages: nat, n: nat)
    requires Layout(vmas, brk, top) && Backed(mapped, vmas, low, brk, top, stale) && i < NVMA && vmas[i].None?
    requires v.start % PGSIZE == 0 && v.end == v.start + npages * PGSIZE && n <= npages && low <= Up(brk) <= v.start
    requires v.end <= top
    requires Unmapped(mapped, v.start, v.end) && Clear(vmas, v.start, v.end)
    ensures Backed(mapped + Pages(v.start, n), vmas[i := Some(v)], low, brk, top, stale)
    ensures Backed(mapped + Pages(v.start, n), vmas, low, brk, top, stale + Pages(v.start, n))
  {
    hide Up, Pages;
    PagesWithin(v.start, n, npages);
    AddedBacked(mapped, vmas, low, brk, top, stale, i, v);
    InSomeMore(vmas, i, v);
    forall a | a in Pages(v.start, n)
      ensures InSome(vmas[i := Some(v)], a)
    {
      assert InArea(vmas[i := Some(v)][i], a);
    }
    forall a | v.start <= a < v.end
      ensures !InSome(vmas, a)
    {
      forall j | 0 <= j < |vmas|
        ensures !InArea(vmas[j], a)
      {
        assert vmas[j].Some? ==> !Meets(v.start, v.end, vmas[j].value.start, vmas[j].value.end);
      }
    }
  }

  /** The pages a growing heap takes over: none but those left behind. */
  lemma GrownBacked(mapped: set<nat>, vmas: seq<Option<Vma>>, low: nat, brk: nat, addr: nat, top: nat, stale: set<nat>)
    requires Layout(vmas, brk, top) && Backed(mapped, vmas, low, brk, top, stale) && brk < addr <= top
    requires Clear(vmas, brk, addr) && low <= Up(brk) && top % PGSIZE == 0
    ensures Backed(mapped, vmas, low, addr, top, stale)
    ensures HasIn(mapped, Up(brk), Up(addr)) <==> HasIn(stale, Up(brk), Up(addr))
    ensures Unmap(mapped, Up(addr), Up(brk)) == mapped && Unmap(stale, Up(addr), Up(brk)) == stale
  {
    assert Up(brk) <= Up(addr) <= top;
    forall a | a in mapped && Up(brk) <= a < Up(addr)
      ensures a in stale
    {
      assert a < addr;
      forall j | 0 <= j < |vmas|
        ensures !InArea(vmas[j], a)
      {
        assert vmas[j].Some? ==> !Meets(brk, addr, vmas[j].value.start, vmas[j].value.end);
      }
      assert !InSome(vmas, a);
    }
  }

  lemma NoneUnmapped(mapped: set<nat>, stale: set<nat>, brk: nat)
    ensures Unmap(mapped, Up(brk), Up(brk)) == mapped && Unmap(stale, Up(brk), Up(brk)) == stale
    ensures !HasIn(mapped, Up(brk), Up(brk)) && !HasIn(stale, Up(brk), Up(brk))
  {
  }

  lemma ShrunkBacked(mapped: set<nat>, tables: set<nat>, vmas: seq<Option<Vma>>, brkStart: nat, brk: nat, addr: nat,
                     top: nat, stale: set<nat>)
    requires Tabled(mapped, tables) && Layout(vmas, brk, top) && Backed(mapped, vmas, Down(brkStart), brk, top, stale)
    requires brkStart <= addr < brk <= top
    ensures Backed(Unmap(mapped, Up(addr), Up(brk)), vmas, Down(brkStart), addr, top, Unmap(stale, Up(addr), Up(brk)))
    ensures Tabled(Unmap(mapped, Up(addr), Up(brk)), tables)
    ensures !HasIn(Unmap(mapped, Up(addr), Up(brk)), Up(brk), Up(addr)) && !HasIn(stale, Up(brk), Up(addr))
  {
    assert Up(addr) <= Up(brk);
  }

  lemma FaultBacked(mapped: set<nat>, vmas: seq<Option<Vma>>, brkStart: nat, brk: nat, top: nat, stale: set<nat>,
                    page: nat)
    requires Backed(mapped, vmas, Down(brkStart), brk, top, stale) && page % PGSIZE == 0
    requires page < brk || InSome(vmas, page)
    ensures Backed(mapped + {page}, vmas, Down(brkStart), brk, top, stale)
  {
  }

  lemma LayoutAligned(vmas: seq<Option<Vma>>, brk: nat, top: nat)
    requires Layout(vmas, brk, top)
    ensures forall i :: 0 <= i < |vmas| && vmas[i].Some? ==> vmas[i].value.start % PGSIZE == 0
  {
    forall i | 0 <= i < |vmas| && vmas[i].Some?
      ensures vmas[i].value.start % PGSIZE == 0
    {
      assert AreaOk(vmas[i].value, brk, top);
    }
  }

  lemma StepPast(start: nat, va: nat, a: nat)
    requires start <= va < a < va + PGSIZE && (va - start) % PGSIZE == 0
    ensures (a - start) % PGSIZE != 0
  {
  }

  lemma NextDown(start: nat)
    requires start % PGSIZE == 0 && start >= PGSIZE
    ensures (start - PGSIZE) % PGSIZE == 0
    ensures forall s: nat :: s % PGSIZE == 0 && start - PGSIZE < s ==> s >= start
  {
  }

  lemma NextBelow(start: nat, low: nat)
    requires start % PGSIZE == 0 && low % PGSIZE == 0 && low <= start < low + PGSIZE
    ensures start == low
  {
  }

  lemma LayoutSize(vmas: seq<Option<Vma>>, brk: nat, top: nat)
    requires Layout(vmas, brk, top)
    ensures |vmas| == NVMA
  {
  }

  lemma Rounded(len: nat)
    requires len < U32
    ensures Up(len) % U32 % PGSIZE == 0 && (Up(len) % U32 != 0 || len == 0 ==> Up(len) % U32 == Up(len))
  {
    if Up(len) >= U32 {
      assert Up(len) == U32;
    }
  }

  lemma EndWraps(start: nat, len: nat)
    requires start < U32 && len < U32
    ensures (start + len) % U32 == if start + len < U32 then start + len else start + len - U32
  {
  }

  /** An area munmap is asked for begins on a page and ends without a wrap; a
      range that wraps or is empty is no area. */
  lemma NoWrap(vmas: seq<Option<Vma>>, brk: nat, top: nat, addr: nat, len0: nat)
    requires Layout(vmas, brk, top) && top < U32 && addr < U32 && len0 < U32
    ensures forall i :: 0 <= i < NVMA && Named(vmas[i], addr, addr + Up(len0)) ==>
              len0 > 0 && addr % PGSIZE == 0 && (addr + Up(len0) % U32) % U32 == addr + Up(len0)
    ensures var end := (addr + Up(len0) % U32) % U32;
            end > addr ==> end == addr + Up(len0)
    ensures forall i :: 0 <= i < NVMA && vmas[i].Some? ==> vmas[i].value.start < vmas[i].value.end
  {
    Rounded(len0);
    forall i | 0 <= i < NVMA && vmas[i].Some?
      ensures AreaOk(vmas[i].value, brk, top)
    {
    }
  }

  lemma Aligned(start: nat, len: nat)
    requires start % PGSIZE == 0 && len % PGSIZE == 0
    ensures (start + len) % PGSIZE == 0
  {
  }

  /** An available range becomes an area. */
  lemma Added(vmas: seq<Option<Vma>>, brk: nat, top: nat, i: nat, v: Vma)
    requires Layout(vmas, brk, top) && i < NVMA && vmas[i].None? && AreaOk(v, brk, top) && Clear(vmas, v.start, v.end)
    ensures Layout(vmas[i := Some(v)], brk, top)
  {
  }

  /** A break that met no area stays below them all, rounded up. */
  lemma BrkGrows(vmas: seq<Option<Vma>>, brk: nat, addr: nat, top: nat)
    requires Layout(vmas, brk, top) && brk < addr && Clear(vmas, brk, addr)
    ensures Layout(vmas, addr, top)
  {
    forall i | 0 <= i < NVMA && vmas[i].Some?
      ensures AreaOk(vmas[i].value, addr, top)
    {
      assert AreaOk(vmas[i].value, brk, top);
      assert vmas[i].value.start >= addr;
    }
  }

  lemma BrkShrinks(vmas: seq<Option<Vma>>, brk: nat, addr: nat, top: nat)
    requires Layout(vmas, brk, top) && addr <= brk
    ensures Layout(vmas, addr, top)
  {
    assert Up(addr) <= Up(brk);
    forall i | 0 <= i < NVMA && vmas[i].Some?
      ensures AreaOk(vmas[i].value, addr, top)
    {
      assert AreaOk(vmas[i].value, brk, top);
    }
  }

  /** Every mapped page between image and stack has one backing: the heap or one
      area, not both, unless a failed shmat left it behind, and then it has no
      area, and the heap only if the break was moved over it. */
  lemma OneBacking(mapped: set<nat>, vmas: seq<Option<Vma>>, low: nat, brk: nat, top: nat, stale: set<nat>, a: nat)
    requires Layout(vmas, brk, top) && Backed(mapped, vmas, low, brk, top, stale)
    requires a in mapped && low <= a < top
    ensures a !in stale ==> (a < Up(brk) <==> !InSome(vmas, a))
    ensures a in stale ==> !InSome(vmas, a)
    ensures forall i, j :: 0 <= i < NVMA && 0 <= j < NVMA && InArea(vmas[i], a) && InArea(vmas[j], a) ==> i == j
  {
    forall i, j | 0 <= i < NVMA && 0 <= j < NVMA && InArea(vmas[i], a) && InArea(vmas[j], a)
      ensures i == j && a >= Up(brk)
    {
      assert AreaOk(vmas[i].value, brk, top);
      assert Meets(vmas[i].value.start, vmas[i].value.end, vmas[j].value.start, vmas[j].value.end);
    }
  }

  /** A page left behind becomes heap: a segment attached across the end of the page
      table that maps the image, with no memory for another one, then the break
      moved over the page that was mapped. */
  method StaleHeap() returns (m: Mm)
    ensures m.Valid() && m.brk == 0x80_0000 && 0x7F_F000 in m.mapped && 0x7F_F000 in m.stale
  {
    hide Layout, Backed, Pages, Dirs, Need, At;
    m := new Mm(0x1000, 0x7F_E000, 0x1000_0000, 0x1000_0000, 0x1000_0000, {0x7F_D000});
    NothingThere(m.vmas);
    assert m.Available(0x7F_F000, 0x7F_F000 + 2 * PGSIZE);
    assert m.vmas[0].None?;
    assert m.Attachable(0x7F_F000, 2);
    assert m.tables == {1};
    NextDir();
    var r, at, n := m.DoShmat(0, 0x7F_F000, 2, 0);
    assert n == 1;
    var b := m.SysBrk(0x80_0000);
  }

  lemma NothingThere(vmas: seq<Option<Vma>>)
    requires forall i :: 0 <= i < |vmas| ==> vmas[i].None?
    ensures forall a, b :: Clear(vmas, a, b)
  {
  }

  lemma NextDir()
    ensures Dirs(0x7F_F000, 0) == {} && At(0x7F_F000, 0) / PDSIZE == 1
    ensures Need({1}, 0x7F_F000, 2) == 1 && 0x7F_F000 in Pages(0x7F_F000, 1)
  {
    hide Dirs, Need, Pages;
    NoPages(0x7F_F000);
    NextPage(0x7F_F000, 0);
    NextPage(0x7F_F000, 1);
    NeedNone({1}, 0x7F_F000);
    NeedNext({1}, 0x7F_F000, 0);
    NeedNext({1}, 0x7F_F000, 1);
    assert At(0x7F_F000, 0) / PDSIZE == 1 && At(0x7F_F000, 1) / PDSIZE == 2;
  }
}
