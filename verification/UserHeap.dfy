/** malloc and free of the user library, over the free list in memory. */
module UserHeap {
  import opened Basics
  import opened FreeList

  /** Bytes in a header, and so in a unit. */
  const UNIT: nat := 16

  /** The block for a request: header and payload, in units. */
  function Units(nbytes: nat): (n: nat)
    ensures (n - 1) * UNIT >= nbytes && n >= 1 && (n - 1) * UNIT < nbytes + UNIT
  {
    (nbytes + UNIT - 1) / UNIT + 1
  }

  /** What is left of a number passed as a 32-bit int. */
  function Int32(x: nat): (n: int)
    ensures -0x8000_0000 <= n < 0x8000_0000
    ensures n == x <==> x < 0x8000_0000
    ensures x < 0x1_8000_0000 ==> n == x || n == x - 0x1_0000_0000
  {
    (x + 0x8000_0000) % 0x1_0000_0000 - 0x8000_0000
  }

  /** What morecore asks for on behalf of a request. */
  function Asked(nunits: nat): (nu: nat) { if nunits < 4096 then 4096 else nunits }

  /** Its byte count fits the int that sbrk takes. */
  predicate Askable(nunits: nat) { Asked(nunits) * UNIT < 0x8000_0000 }

  /** A free block is large enough. */
  ghost predicate HasFit(h: Memory, f: set<nat>, n: nat) {
    exists a :: a in f && Size(h, a) >= n
  }

  /** The allocator's whole state: list, live blocks and the units obtained. */
  ghost predicate Ok(h: Memory, base: nat, f: set<nat>, live: map<nat, nat>, arena: set<nat>) {
    Cycle(h, base, f) && LiveOk(h, base, f, live) && Conserved(h, f, live, arena)
  }

  /** No header inside a live block changed: user data stays as it is. */
  ghost predicate Untouched(h: Memory, h': Memory, live: map<nat, nat>) {
    forall u: nat :: Live(live, u) ==> Ptr(h', u) == Ptr(h, u) && Size(h', u) == Size(h, u)
  }

  lemma LiveNotFree(h: Memory, base: nat, f: set<nat>, live: map<nat, nat>, u: nat)
    requires Cycle(h, base, f) && LiveOk(h, base, f, live) && Live(live, u)
    ensures !Free(h, f, u) && u !in f && u > base
  {
    hide Links, Gaps, Ptr, Size;
    var a :| a in live && a <= u < a + live[a];
    forall b | b in f
      ensures b != u && !(b <= u < b + Size(h, b))
    {
      assert Apart(h, a, live[a], b);
    }
  }

  lemma LiveFits(h: Memory, base: nat, f: set<nat>, live: map<nat, nat>, b: nat)
    requires Cycle(h, base, f) && LiveOk(h, base, f, live) && b in live
    ensures Fits(h, base, f, b, live[b])
  {
    assert Live(live, b);
    LiveNotFree(h, base, f, live, b);
  }

  /** Blocks of units that were free or `b`'s are apart from the live blocks. */
  lemma LiveKept(h: Memory, base: nat, f: set<nat>, live: map<nat, nat>, h': Memory, f': set<nat>)
    requires Cycle(h, base, f) && LiveOk(h, base, f, live) && Cycle(h', base, f')
    requires forall u: nat :: Free(h', f', u) ==> !Live(live, u)
    requires forall a :: a in live ==> Size(h', a) == Size(h, a)
    ensures LiveOk(h', base, f', live)
  {
    hide Links, Gaps, Ptr, Size;
    forall a, c | a in live && c in f'
      ensures Apart(h', a, live[a], c)
    {
      var u := if a >= c then a else c;
      assert u < a + live[a] ==> Live(live, u);
      assert u < c + Size(h', c) ==> Free(h', f', u);
    }
  }

  /** What free leaves. */
  lemma FreedOk(h: Memory, base: nat, f: set<nat>, live: map<nat, nat>, arena: set<nat>, b: nat, h': Memory,
                f': set<nat>)
    requires Ok(h, base, f, live, arena) && b in live && Inserts(h, base, f, b, live[b], h', f')
    ensures Ok(h', base, f', live - {b}, arena)
  {
    hide Cycle, Free, Size;
    var rest := live - {b};
    forall u: nat
      ensures Live(live, u) <==> Live(rest, u) || b <= u < b + live[b]
      ensures Live(rest, u) ==> !(b <= u < b + live[b])
    {
      LiveWithout(live, b, u);
    }
    forall u: nat | Free(h', f', u)
      ensures !Live(rest, u)
    {
      if Live(rest, u) {
        LiveNotFree(h, base, f, live, u);
      }
    }
    forall a | a in rest
      ensures Size(h', a) == Size(h, a)
    {
      assert Live(live, a);
      LiveNotFree(h, base, f, live, a);
    }
    assert LiveOk(h, base, f, rest);
    LiveKept(h, base, f, rest, h', f');
  }

  lemma LiveWithout(live: map<nat, nat>, b: nat, u: nat)
    requires b in live && live[b] > 0
    requires forall a, c :: a in live && c in live && a != c ==> a + live[a] <= c || c + live[c] <= a
    ensures Live(live, u) <==> Live(live - {b}, u) || b <= u < b + live[b]
    ensures Live(live - {b}, u) ==> !(b <= u < b + live[b])
  {
    if Live(live - {b}, u) {
      var a :| a in live - {b} && a <= u < a + (live - {b})[a];
      assert a in live && a <= u < a + live[a];
    }
    if Live(live, u) && !(b <= u < b + live[b]) {
      var a :| a in live && a <= u < a + live[a];
      assert a in live - {b} && a <= u < a + (live - {b})[a];
    }
  }

  /** What taking `n` units at `b` out of the free ones leaves. */
  lemma TakenOk(h: Memory, base: nat, f: set<nat>, live: map<nat, nat>, arena: set<nat>, b: nat, n: nat, h': Memory,
                f': set<nat>)
    requires Ok(h, base, f, live, arena) && Cycle(h', base, f') && n > 0 && Size(h', b) == n
    requires forall u: nat :: b <= u < b + n ==> Free(h, f, u)
    requires forall u: nat :: Free(h', f', u) <==> Free(h, f, u) && !(b <= u < b + n)
    requires forall a :: a != b && a !in f ==> Size(h', a) == Size(h, a)
    requires b > base
    ensures b !in live && Ok(h', base, f', live[b := n], arena)
  {
    hide Cycle, Free, Size;
    forall u: nat | Live(live, u)
      ensures !Free(h, f, u) && u !in f && u != b
    {
      LiveNotFree(h, base, f, live, u);
      assert b <= b < b + n;
    }
    assert b !in live by {
      assert b in live ==> Live(live, b);
    }
    forall a | a in live
      ensures Size(h', a) == Size(h, a)
    {
      assert Live(live, a);
    }
    LiveKept(h, base, f, live, h', f');
    forall u: nat
      ensures Live(live[b := n], u) <==> Live(live, u) || b <= u < b + n
    {
      LiveWith(live, b, n, u);
    }
    LiveMore(h', base, f', live, b, n);
  }

  lemma LiveWith(live: map<nat, nat>, b: nat, n: nat, u: nat)
    requires b !in live
    ensures Live(live[b := n], u) <==> Live(live, u) || b <= u < b + n
  {
    if Live(live, u) {
      var a :| a in live && a <= u < a + live[a];
      assert a in live[b := n] && a <= u < a + live[b := n][a];
    }
    if b <= u < b + n {
      assert b in live[b := n] && b <= u < b + live[b := n][b];
    }
  }

  lemma LiveMore(h: Memory, base: nat, f: set<nat>, live: map<nat, nat>, b: nat, n: nat)
    requires Cycle(h, base, f) && LiveOk(h, base, f, live) && b !in live && n > 0 && Size(h, b) == n && b > base
    requires forall u: nat :: b <= u < b + n ==> !Free(h, f, u) && !Live(live, u)
    ensures LiveOk(h, base, f, live[b := n])
  {
    hide Links, Gaps, Ptr, Size;
    forall c | c in f
      ensures Apart(h, b, n, c)
    {
      var u := if b >= c then b else c;
      assert u < c + Size(h, c) ==> Free(h, f, u);
    }
    forall a | a in live
      ensures a + live[a] <= b || b + n <= a
    {
      var u := if b >= a then b else a;
      assert u < a + live[a] ==> Live(live, u);
    }
  }

  /** A region no unit of which was obtained before, given to the list. */
  lemma GrownOk(h: Memory, base: nat, f: set<nat>, live: map<nat, nat>, arena: set<nat>, b: nat, n: nat, h': Memory,
                f': set<nat>)
    requires Ok(h, base, f, live, arena) && Inserts(h, base, f, b, n, h', f') && n > 0
    requires forall u :: u in arena ==> u < b
    ensures Ok(h', base, f', live, arena + Region(b, n))
  {
    hide Cycle, Free, Size;
    forall u: nat | Live(live, u)
      ensures u < b && !Free(h, f, u) && u !in f
    {
      LiveNotFree(h, base, f, live, u);
    }
    forall a | a in live
      ensures Size(h', a) == Size(h, a)
    {
      assert Live(live, a);
    }
    LiveKept(h, base, f, live, h', f');
  }

  ghost function Region(b: nat, n: nat): (s: set<nat>)
    ensures forall u: nat :: u in s <==> b <= u < b + n
  {
    if n == 0 then {} else Region(b, n - 1) + {b + n - 1}
  }

  lemma AskedInt(nunits: nat)
    requires nunits <= 0x1000_0001
    ensures if Askable(nunits) then Int32(Asked(nunits) * UNIT) / UNIT == Asked(nunits)
            else Int32(Asked(nunits) * UNIT) / UNIT == Asked(nunits) - 0x1000_0000
  {
  }

  lemma UnitsBound(nbytes: nat)
    requires nbytes < 0x1_0000_0000
    ensures 0 < Units(nbytes) <= 0x1000_0001 && (nbytes <= 0xFFFF_FFF0 ==> Units(nbytes) <= 0x1000_0000)
  {
  }

  class Heap {
    /** Address of the sentinel, in the program's data below the heap. */
    const base: nat
    var hdr: Memory
    /** Null (zero) before the first malloc. */
    var freep: nat
    var brk: nat
    ghost var list: set<nat>
    ghost var live: map<nat, nat>
    ghost var arena: set<nat>
    /** How often sbrk has failed. */
    ghost var refused: nat

    /** List and live blocks are in order, over the units of the arena. */
    ghost predicate Sound()
      reads this
    {
      && 0 < base
      && if freep == 0 then list == {} && live == map[] && arena == {}
         else freep in list && Ok(hdr, base, list, live, arena)
    }

    /** Every unit of the arena was got from sbrk. */
    ghost predicate Obtained()
      reads this
    {
      base < brk && forall u :: u in arena ==> u < brk
    }

    ghost predicate Valid()
      reads this
    {
      Sound() && Obtained()
    }

    constructor (base: nat, brk: nat)
      requires 0 < base < brk
      ensures Valid() && live == map[] && arena == {} && freep == 0 && this.base == base && this.brk == brk
      ensures refused == 0
    {
      this.base, this.brk := base, brk;
      hdr, freep, list, live, arena, refused := map[], 0, {}, map[], {}, 0;
    }

    /** sbrk by `n` units: fresh memory at or above the old break, or failure. With
        a count that is not positive it never fails, and the break stays or moves
        down, unless that would take it below zero. */
    method Sbrk(n: int) returns (p: Option<nat>)
      modifies this`brk, this`refused
      ensures p.None? ==> n > 0 && brk == old(brk) && refused == old(refused) + 1
      ensures p.Some? ==> p.value >= old(brk) && brk <= p.value + (if n > 0 then n else 0) && refused == old(refused)
      ensures p.Some? && n > 0 ==> brk == p.value + n
    {
      var fails: bool := *;
      if n > 0 && fails {
        refused := refused + 1;
        return None;
      }
      var gap :| gap >= 0;
      p := Some(brk + gap);
      brk := if brk + gap + n >= 0 then brk + gap + n else brk + gap;
    }

    /** The body of free, for a block header `b` apart from the list. */
    method Insert(b: nat, ghost n: nat) returns (ghost home: nat)
      requires freep in list && Cycle(hdr, base, list) && Fits(hdr, base, list, b, n)
      modifies this`hdr, this`freep, this`list
      ensures Inserts(old(hdr), base, old(list), b, n, hdr, list) && freep in list
      ensures home in list && home <= b && b + n <= home + Size(hdr, home)
      ensures forall a :: a !in old(list) && a != b ==> Ptr(hdr, a) == Ptr(old(hdr), a)
    {
      hide Cycle, Fits, Pred, Inserted, Succ, Todo, Inserts;
      var p := freep;
      SearchTest(hdr, base, list, b, n, p);
      while !(b > p && b < Ptr(hdr, p))
        invariant hdr == old(hdr) && list == old(list) && p in list
        invariant b > p && b < Ptr(hdr, p) ==> Pred(list, b, p)
        decreases Todo(list, p, b)
      {
        SearchTest(hdr, base, list, b, n, p);
        if p >= Ptr(hdr, p) && (b > p || b < Ptr(hdr, p)) {
          break;
        }
        SearchProgress(hdr, base, list, b, n, p);
        p := Ptr(hdr, p);
        SearchTest(hdr, base, list, b, n, p);
      }
      SearchTest(hdr, base, list, b, n, p);
      ghost var h, q := hdr, Ptr(hdr, p);
      FitSize(hdr, base, list, b, n, p);
      JoinedBy(hdr, b, n, p);
      if b + Size(hdr, b) == Ptr(hdr, p) {
        hdr := SetSize(hdr, b, Size(hdr, b) + Size(hdr, Ptr(hdr, p)));
        hdr := SetPtr(hdr, b, Ptr(hdr, Ptr(hdr, p)));
      } else {
        hdr := SetPtr(hdr, b, Ptr(hdr, p));
      }
      assert hdr == JoinNext(h, b, q);
      if p + Size(hdr, p) == b {
        hdr := SetSize(hdr, p, Size(hdr, p) + Size(hdr, b));
        hdr := SetPtr(hdr, p, Ptr(hdr, b));
      } else {
        hdr := SetPtr(hdr, p, b);
      }
      assert hdr == JoinPrev(JoinNext(h, b, q), p, b);
      InsertOk(h, base, list, b, n, p, hdr);
      HomeHolds(h, base, list, b, n, p, hdr);
      PredStays(h, base, list, b, n, p);
      home := Home(h, b, p);
      list := Inserted(h, list, b, n, p);
      freep := p;
    }

    /** free of a block malloc returned. */
    method Release(b: nat)
      requires Valid() && b in live
      modifies this`hdr, this`freep, this`list, this`live
      ensures Valid() && freep != 0 && live == old(live) - {b}
      ensures Untouched(old(hdr), hdr, live)
    {
      hide Cycle, LiveOk, Conserved, Fits, Inserts;
      LiveFits(hdr, base, list, live, b);
      ghost var n, h, f := live[b], hdr, list;
      var _ := Insert(b, n);
      FreedOk(h, base, f, live, arena, b, hdr, list);
      KeptByInsert(h, base, f, live, b, n, hdr, list);
      InList(hdr, base, list, freep);
      live := live - {b};
    }

    /** morecore: at least 4096 units more in the list, or failure. If the byte
        count does not fit an int the units are in the list all the same, but were
        never obtained. */
    method Morecore(nunits: nat) returns (ok: bool, ghost home: nat)
      requires Valid() && freep != 0 && 0 < nunits <= 0x1000_0001
      modifies this`hdr, this`freep, this`brk, this`list, this`arena, this`refused
      ensures Sound() && freep != 0 && Untouched(old(hdr), hdr, live)
      ensures Obtained() <==> Askable(nunits) || !ok
      ensures !Askable(nunits) && nunits <= 0x1000_0000 ==> ok
      ensures refused == old(refused) + if ok then 0 else 1
      ensures ok ==> home in list && Size(hdr, home) >= nunits && arena > old(arena)
      ensures !ok ==> hdr == old(hdr) && freep == old(freep) && list == old(list) && arena == old(arena)
    {
      hide Ok, Cycle, Fits, Inserts, Region, Untouched, Size, Ptr;
      NotTouched(hdr, hdr, live, base);
      var nu := Asked(nunits);
      AskedInt(nunits);
      var p := Sbrk(Int32(nu * UNIT) / UNIT);
      if p.None? {
        return false, 0;
      }
      var b := p.value;
      ghost var h, f := hdr, list;
      RegionFits(hdr, base, list, live, arena, b, nu);
      hdr := SetSize(hdr, b, nu);
      ghost var h1 := hdr;
      home := Insert(b, nu);
      GrownOk(h1, base, f, live, arena, b, nu, hdr, list);
      InsertsCycle(h1, base, f, b, nu, hdr, list);
      RegionKept(h, h1, base, f, live, arena, b, nu, hdr, list);
      InList(hdr, base, list, freep);
      assert b in Region(b, nu) && b + nu - 1 in Region(b, nu);
      arena := arena + Region(b, nu);
      ok := true;
    }

    /** malloc: a block of enough units, disjoint from every live one; none only
        when no free block was large enough and sbrk failed. More is asked for
        exactly if no free block is large enough, and then every unit handed out
        was obtained exactly if the byte count fits the int that sbrk takes. */
    method Malloc(nbytes: nat) returns (r: Option<nat>)
      requires Valid() && nbytes < 0x1_0000_0000
      modifies this
      ensures Obtained() <==> HasFit(old(hdr), old(list), Units(nbytes)) || Askable(Units(nbytes)) || r.None?
      ensures arena == old(arena) <==> HasFit(old(hdr), old(list), Units(nbytes)) || r.None?
      ensures !Askable(Units(nbytes)) && nbytes <= 0xFFFF_FFF0 ==> r.Some?
      ensures Sound() && freep != 0 && Untouched(old(hdr), hdr, old(live))
      ensures r.Some? ==> r.value !in old(live) && live == old(live)[r.value := Units(nbytes)] && arena >= old(arena)
      ensures r.None? ==>
                live == old(live) && !HasFit(old(hdr), old(list), Units(nbytes)) && !HasFit(hdr, list, Units(nbytes))
      ensures r.None? <==> refused > old(refused)
    {
      var nunits := Units(nbytes);
      UnitsBound(nbytes);
      if freep == 0 {
        hdr := hdr[base := Header(base, 0)];
        freep := base;
        list := {base};
        FirstOk(hdr, base);
      }
      hide Ok, Cycle, Succ, Rest, Untouched, Units, Passed, Coming, Size, Ptr;
      var prevp := freep;
      var p := Ptr(hdr, prevp);
      ghost var grown := false;
      StartRound(hdr, base, list, live, arena, freep);
      NotTouched(old(hdr), hdr, old(live), base);
      NonePassed(hdr, list, p, freep, nunits);
      while true
        invariant Sound() && freep != 0 && live == old(live) && Untouched(old(hdr), hdr, old(live))
        invariant Obtained() <==> !grown || Askable(nunits)
        invariant !grown ==> (HasFit(hdr, list, nunits) <==> HasFit(old(hdr), old(list), nunits))
        invariant grown ==> !HasFit(old(hdr), old(list), nunits)
        invariant Succ(list, prevp, p) && prevp in list && p in list && arena >= old(arena)
        invariant !grown ==> arena == old(arena) && Passed(hdr, list, p, freep, nunits)
        invariant grown ==> arena > old(arena) && Coming(hdr, list, p, freep, nunits)
        invariant refused == old(refused)
        decreases !grown, Rest(list, p, freep)
      {
        ghost var h := hdr;
        if Size(hdr, p) >= nunits {
          var b := Take(prevp, p, nunits);
          UntouchedTwice(old(hdr), h, hdr, old(live));
          return Some(b);
        }
        if p == freep {
          AllPassed(hdr, list, freep, nunits, grown);
          var ok, home := Morecore(nunits);
          UntouchedTwice(old(hdr), h, hdr, old(live));
          if !ok {
            return None;
          }
          grown := true;
          p := freep;
          StartRound(hdr, base, list, live, arena, freep);
          ComingHome(hdr, list, Ptr(hdr, freep), freep, home, nunits);
        } else {
          NextRound(hdr, base, list, live, arena, p, freep);
          PassOne(hdr, list, p, Ptr(hdr, p), freep, nunits, grown);
        }
        prevp := p;
        p := Ptr(hdr, p);
      }
    }

    /** The part of malloc that takes the block, whole or its tail. */
    method Take(prevp: nat, q: nat, nunits: nat) returns (p: nat)
      requires Sound() && freep != 0 && nunits > 0 && Succ(list, prevp, q) && Size(hdr, q) >= nunits
      modifies this`hdr, this`freep, this`list, this`live
      ensures Sound() && freep != 0 && p !in old(live) && live == old(live)[p := nunits]
      ensures Untouched(old(hdr), hdr, old(live))
    {
      hide Ok, Untouched, Ptr, Size;
      p := q;
      if Size(hdr, p) == nunits {
        WholeTaken(hdr, base, list, live, arena, prevp, p);
        hdr := SetPtr(hdr, prevp, Ptr(hdr, p));
        list := list - {p};
      } else {
        TailTaken(hdr, base, list, live, arena, prevp, q, nunits);
        var rest := Size(hdr, p) - nunits;
        hdr := SetSize(hdr, p, rest);
        p := p + rest;
        hdr := SetSize(hdr, p, nunits);
      }
      freep := prevp;
      live := live[p := nunits];
    }
  }

  lemma FitSize(h: Memory, base: nat, f: set<nat>, b: nat, n: nat, p: nat)
    requires Fits(h, base, f, b, n) && Pred(f, b, p)
    ensures Size(h, b) == n && p < b && p in f
  {
  }

  lemma PredStays(h: Memory, base: nat, f: set<nat>, b: nat, n: nat, p: nat)
    requires Cycle(h, base, f) && Fits(h, base, f, b, n) && Pred(f, b, p)
    ensures p in Inserted(h, f, b, n, p)
  {
    hide Size, Ptr;
    Neighbours(h, base, f, b, n, p);
  }

  lemma InsertsCycle(h: Memory, base: nat, f: set<nat>, b: nat, n: nat, h': Memory, f': set<nat>)
    requires Inserts(h, base, f, b, n, h', f')
    ensures Cycle(h', base, f')
  {
  }

  lemma UntouchedTwice(h: Memory, h1: Memory, h2: Memory, live: map<nat, nat>)
    requires Untouched(h, h1, live) && Untouched(h1, h2, live)
    ensures Untouched(h, h2, live)
  {
    hide Ptr, Size, Live;
  }

  /** Writing headers of free blocks and free units leaves live blocks alone. */
  lemma KeptElsewhere(h: Memory, base: nat, f: set<nat>, live: map<nat, nat>, h': Memory)
    requires Cycle(h, base, f) && LiveOk(h, base, f, live)
    requires forall u: nat :: u !in f && !Free(h, f, u) ==> Ptr(h', u) == Ptr(h, u) && Size(h', u) == Size(h, u)
    ensures Untouched(h, h', live)
  {
    hide Cycle, Free, Size, Ptr;
    forall u: nat | Live(live, u)
      ensures Ptr(h', u) == Ptr(h, u) && Size(h', u) == Size(h, u)
    {
      LiveNotFree(h, base, f, live, u);
    }
  }

  lemma InList(h: Memory, base: nat, f: set<nat>, a: nat)
    requires Cycle(h, base, f) && a in f
    ensures a > 0
  {
  }

  /** free writes headers of free blocks and of the freed block only. */
  lemma KeptByInsert(h: Memory, base: nat, f: set<nat>, live: map<nat, nat>, b: nat, n: nat, h': Memory, f': set<nat>)
    requires Cycle(h, base, f) && LiveOk(h, base, f, live) && b in live && n == live[b]
    requires Inserts(h, base, f, b, n, h', f')
    requires forall a :: a !in f && a != b ==> Ptr(h', a) == Ptr(h, a)
    ensures Untouched(h, h', live - {b})
  {
    hide Cycle, Free, Size, Ptr;
    forall u: nat | Live(live - {b}, u)
      ensures Ptr(h', u) == Ptr(h, u) && Size(h', u) == Size(h, u)
    {
      LiveWithout(live, b, u);
      LiveNotFree(h, base, f, live, u);
    }
  }

  lemma RegionFits(h: Memory, base: nat, f: set<nat>, live: map<nat, nat>, arena: set<nat>, b: nat, n: nat)
    requires Ok(h, base, f, live, arena) && base < b && n > 0 && forall u :: u in arena ==> u < b
    ensures Ok(SetSize(h, b, n), base, f, live, arena) && Fits(SetSize(h, b, n), base, f, b, n)
    ensures Cycle(SetSize(h, b, n), base, f)
    ensures Untouched(h, SetSize(h, b, n), live)
  {
    var h1 := SetSize(h, b, n);
    forall a | a in f
      ensures a + Size(h, a) <= b && a != b
    {
      if a != base {
        var u := a + Size(h, a) - 1;
        assert Free(h, f, u);
      }
    }
    forall u: nat | Live(live, u)
      ensures u < b
    {
    }
    forall a | a in live
      ensures a < b
    {
      assert Live(live, a);
    }
    hide Free;
    assert forall a :: a != b ==> Size(h1, a) == Size(h, a);
    assert forall a :: Ptr(h1, a) == Ptr(h, a);
    SameLinks(h, f, h1);
    hide Size, Ptr, Links;
    assert Sizes(h1, base, f) && Gaps(h1, f);
    forall u: nat
      ensures Free(h1, f, u) <==> Free(h, f, u)
    {
      SameFree(h, f, h1, u);
    }
  }

  lemma SameFree(h: Memory, f: set<nat>, h': Memory, u: nat)
    requires forall a :: a in f ==> Size(h', a) == Size(h, a)
    ensures Free(h', f, u) <==> Free(h, f, u)
  {
    hide Size;
    if Free(h, f, u) {
      var a :| a in f && a <= u < a + Size(h, a);
      assert a in f && a <= u < a + Size(h', a);
    }
    if Free(h', f, u) {
      var a :| a in f && a <= u < a + Size(h', a);
      assert a in f && a <= u < a + Size(h, a);
    }
  }

  lemma RegionKept(h: Memory, h1: Memory, base: nat, f: set<nat>, live: map<nat, nat>, arena: set<nat>, b: nat, n: nat,
                   h': Memory, f': set<nat>)
    requires Ok(h1, base, f, live, arena) && Inserts(h1, base, f, b, n, h', f') && Untouched(h, h1, live)
    requires forall a :: a !in f && a != b ==> Ptr(h', a) == Ptr(h1, a)
    requires forall u :: u in arena ==> u < b
    ensures Untouched(h, h', live)
  {
    hide Cycle, Free, Size, Ptr;
    forall u: nat | Live(live, u)
      ensures Ptr(h', u) == Ptr(h, u) && Size(h', u) == Size(h, u)
    {
      LiveNotFree(h1, base, f, live, u);
    }
  }

  // ---- The rounds of malloc ----

  lemma FirstOk(h: Memory, base: nat)
    requires base > 0 && base in h && h[base] == Header(base, 0)
    ensures Ok(h, base, {base}, map[], {})
  {
    assert Succ({base}, base, base);
    forall u: nat
      ensures !Free(h, {base}, u) && !Live(map[], u)
    {
    }
  }

  lemma NotTouched(h: Memory, h': Memory, live: map<nat, nat>, base: nat)
    requires h' == h || live == map[]
    ensures Untouched(h, h', live)
  {
  }

  lemma StartRound(h: Memory, base: nat, f: set<nat>, live: map<nat, nat>, arena: set<nat>, freep: nat)
    requires Ok(h, base, f, live, arena) && freep in f
    ensures Succ(f, freep, Ptr(h, freep)) && Ptr(h, freep) in f && Rest(f, Ptr(h, freep), freep) == f
  {
    LinkAt(h, base, f, freep);
    RestAll(f, Ptr(h, freep), freep);
  }

  /** The blocks malloc has looked at are too small. */
  ghost predicate Passed(h: Memory, f: set<nat>, p: nat, freep: nat, n: nat) {
    forall a :: a in f && a !in Rest(f, p, freep) ==> Size(h, a) < n
  }

  /** A large enough block is still to come in this round. */
  ghost predicate Coming(h: Memory, f: set<nat>, p: nat, freep: nat, n: nat) {
    exists a :: a in Rest(f, p, freep) && Size(h, a) >= n
  }

  lemma NonePassed(h: Memory, f: set<nat>, p: nat, freep: nat, n: nat)
    requires Rest(f, p, freep) == f
    ensures Passed(h, f, p, freep, n)
  {
  }

  lemma ComingHome(h: Memory, f: set<nat>, p: nat, freep: nat, home: nat, n: nat)
    requires Rest(f, p, freep) == f && home in f && Size(h, home) >= n
    ensures Coming(h, f, p, freep, n)
  {
  }

  lemma PassOne(h: Memory, f: set<nat>, p: nat, q: nat, freep: nat, n: nat, grown: bool)
    requires Rest(f, q, freep) == Rest(f, p, freep) - {p} && Size(h, p) < n
    requires if grown then Coming(h, f, p, freep, n) else Passed(h, f, p, freep, n)
    ensures if grown then Coming(h, f, q, freep, n) else Passed(h, f, q, freep, n)
  {
    hide Rest, Size;
    if grown {
      var a :| a in Rest(f, p, freep) && Size(h, a) >= n;
      assert a in Rest(f, q, freep);
    }
  }

  /** Back at the start without a find: no block is large enough, and that does
      not happen after morecore. */
  lemma AllPassed(h: Memory, f: set<nat>, freep: nat, n: nat, grown: bool)
    requires freep in f && Size(h, freep) < n
    requires if grown then Coming(h, f, freep, freep, n) else Passed(h, f, freep, freep, n)
    ensures !grown && forall a :: a in f ==> Size(h, a) < n
  {
    hide Size;
    RestLast(f, freep);
  }

  lemma NextRound(h: Memory, base: nat, f: set<nat>, live: map<nat, nat>, arena: set<nat>, p: nat, freep: nat)
    requires Ok(h, base, f, live, arena) && p in f && freep in f && p != freep
    ensures Succ(f, p, Ptr(h, p)) && Ptr(h, p) in f
    ensures Rest(f, Ptr(h, p), freep) == Rest(f, p, freep) - {p} && p in Rest(f, p, freep)
  {
    LinkAt(h, base, f, p);
    RestNext(f, p, Ptr(h, p), freep);
  }

  lemma WholeTaken(h: Memory, base: nat, f: set<nat>, live: map<nat, nat>, arena: set<nat>, prevp: nat, q: nat)
    requires Ok(h, base, f, live, arena) && Succ(f, prevp, q) && Size(h, q) > 0
    ensures q !in live && Ok(SetPtr(h, prevp, Ptr(h, q)), base, f - {q}, live[q := Size(h, q)], arena)
    ensures Untouched(h, SetPtr(h, prevp, Ptr(h, q)), live) && prevp in f - {q} && prevp > 0
  {
    var h' := SetPtr(h, prevp, Ptr(h, q));
    assert q != base;
    RemoveOk(h, base, f, prevp, q, h');
    assert forall u: nat :: q <= u < q + Size(h, q) ==> Free(h, f, u);
    KeptElsewhere(h, base, f, live, h');
    hide Cycle, Free, Ptr, Size;
    InList(h, base, f, prevp);
    assert q > base by { AboveBase(h, base, f, q); }
    TakenOk(h, base, f, live, arena, q, Size(h, q), h', f - {q});
  }

  lemma AboveBase(h: Memory, base: nat, f: set<nat>, q: nat)
    requires Cycle(h, base, f) && q in f && q != base
    ensures q > base
  {
  }

  lemma TailTaken(h: Memory, base: nat, f: set<nat>, live: map<nat, nat>, arena: set<nat>, prevp: nat, q: nat, n: nat)
    requires Ok(h, base, f, live, arena) && Succ(f, prevp, q) && 0 < n < Size(h, q)
    ensures var b := q + (Size(h, q) - n);
            var h' := SetSize(SetSize(h, q, Size(h, q) - n), b, n);
            b !in live && Ok(h', base, f, live[b := n], arena) && Untouched(h, h', live) && prevp > 0
  {
    var b := q + (Size(h, q) - n);
    var h' := SetSize(SetSize(h, q, Size(h, q) - n), b, n);
    ShrunkHeads(h, q, n, b, h');
    assert q != base;
    ShrinkOk(h, base, f, q, n, h');
    assert forall u: nat :: b <= u < q + Size(h, q) ==> Free(h, f, u);
    KeptElsewhere(h, base, f, live, h');
    hide Cycle, Free, Ptr, Size;
    InList(h, base, f, prevp);
    AboveBase(h, base, f, q);
    assert b + n == q + Size(h, q);
    TakenOk(h, base, f, live, arena, b, n, h', f);
  }

  /** malloc(0xFFFFFFF0) asks sbrk for 2^32 bytes, which is an int of zero: it
      returns a block, and nothing was obtained. */
  method Truncated() returns (h: Heap, r: Option<nat>)
    ensures r.Some? && h.Sound() && r.value in h.live && !h.Obtained()
  {
    h := new Heap(1, 2);
    r := h.Malloc(0xFFFF_FFF0);
    BlockInArena(h.hdr, h.base, h.list, h.live, h.arena, r.value);
  }

  lemma BlockInArena(h: Memory, base: nat, f: set<nat>, live: map<nat, nat>, arena: set<nat>, a: nat)
    requires Ok(h, base, f, live, arena) && a in live
    ensures a in arena
  {
    assert Live(live, a);
  }
}
