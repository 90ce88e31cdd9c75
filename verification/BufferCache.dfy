/** The buffer cache of one disk device: NBUF buffers on a list ordered by how
    recently each was released, with a wrapping 32-bit reference count per
    buffer. Locks are not modelled: a method is one critical section. */
module BufferCache {
  import opened Basics
  import opened LogProtocol

  const NBUF: nat := MAXOPBLOCKS * 3
  const ROOTDEV: nat := 1
  const U32: nat := 0x1_0000_0000

  /** One buffer; before first use it names block 0 of device 0. */
  datatype Buf = Buf(dev: nat, blockno: nat, valid: bool, refcnt: nat, data: Block)

  function Inc(n: nat): (r: nat) { (n + 1) % U32 }
  function Dec(n: nat): (r: nat) { (n + U32 - 1) % U32 }

  /** Counts are 32-bit, only buffers of the device are referenced, and no two
      of them name one block. */
  ghost predicate BufsOk(bufs: seq<Buf>, n: nat) {
    && |bufs| == NBUF
    && (forall i :: 0 <= i < NBUF ==> bufs[i].refcnt < U32)
    && (forall i :: 0 <= i < NBUF && bufs[i].dev == ROOTDEV ==> bufs[i].blockno < n)
    && (forall i :: 0 <= i < NBUF && bufs[i].dev != ROOTDEV ==> bufs[i].refcnt == 0)
    && (forall i, j :: 0 <= i < j < NBUF && bufs[i].dev == ROOTDEV && bufs[j].dev == ROOTDEV ==>
          bufs[i].blockno != bufs[j].blockno)
  }

  ghost predicate Holds(bufs: seq<Buf>, i: nat, b: nat) {
    i < |bufs| && bufs[i].dev == ROOTDEV && bufs[i].blockno == b
  }

  ghost predicate Cached(bufs: seq<Buf>, b: nat) {
    exists i: nat :: Holds(bufs, i, b)
  }

  ghost predicate HasUnused(bufs: seq<Buf>) {
    exists i: nat :: i < |bufs| && bufs[i].refcnt == 0
  }

  /** What a reader of block `b` is given. */
  ghost function View(bufs: seq<Buf>, d: Disk, b: nat): (x: Block)
    requires b < |d|
  {
    if i: nat :| Holds(bufs, i, b) && bufs[i].valid then bufs[i].data else d[b]
  }

  ghost function Views(bufs: seq<Buf>, d: Disk): (v: Disk)
    ensures |v| == |d|
  {
    seq(|d|, b requires 0 <= b < |d| => View(bufs, d, b))
  }

  /** The reference count of the buffer of `b`, zero when there is none. */
  ghost function Ref(bufs: seq<Buf>, b: nat): (r: nat) {
    if i: nat :| Holds(bufs, i, b) then bufs[i].refcnt else 0
  }

  ghost function Refs(bufs: seq<Buf>, n: nat): (r: seq<nat>)
    ensures |r| == n
  {
    seq(n, b requires 0 <= b < n => Ref(bufs, b))
  }

  /** Every block readers see differently from the disk is referenced, so no
      recycling can lose it. */
  ghost predicate DirtyReferenced(bufs: seq<Buf>, d: Disk) {
    forall b: nat :: b < |d| && Views(bufs, d)[b] != d[b] ==> Refs(bufs, |d|)[b] != 0
  }

  /** View and count of a block whose buffer is known. */
  lemma Held(bufs: seq<Buf>, d: Disk, i: nat, b: nat)
    requires BufsOk(bufs, |d|) && b < |d| && Holds(bufs, i, b)
    ensures View(bufs, d, b) == if bufs[i].valid then bufs[i].data else d[b]
    ensures Ref(bufs, b) == bufs[i].refcnt
  {
    assert forall j: nat :: Holds(bufs, j, b) ==> j == i;
  }

  /** Replacing the buffer of `b`, or an unreferenced one by a buffer of `b`,
      leaves everybody's view and count of every other block, as long as what
      differs from the disk is referenced. */
  lemma Others(before: seq<Buf>, after: seq<Buf>, d: Disk, i: nat, b: nat, c: nat)
    requires BufsOk(before, |d|) && BufsOk(after, |d|) && c < |d| && c != b
    requires i < NBUF && after == before[i := after[i]] && Holds(after, i, b)
    requires Holds(before, i, b) || before[i].refcnt == 0
    ensures Ref(after, c) == Ref(before, c)
    ensures Holds(before, i, b) || DirtyReferenced(before, d) ==> View(after, d, c) == View(before, d, c)
  {
    if j: nat :| j != i && Holds(before, j, c) {
      assert Holds(after, j, c);
      Held(before, d, j, c);
      Held(after, d, j, c);
    } else if Holds(before, i, c) {
      Held(before, d, i, c);
      assert !Cached(after, c);
    } else {
      assert forall j: nat :: Holds(after, j, c) ==> j != i && Holds(before, j, c);
    }
  }

  /** The buffer of `b` replaced: only the view and count of `b` change. */
  lemma Replaced(before: seq<Buf>, after: seq<Buf>, d: Disk, i: nat, b: nat)
    requires BufsOk(before, |d|) && BufsOk(after, |d|) && b < |d|
    requires i < NBUF && after == before[i := after[i]] && Holds(after, i, b)
    requires Holds(before, i, b) || before[i].refcnt == 0
    ensures Refs(after, |d|) == Refs(before, |d|)[b := after[i].refcnt]
    ensures Holds(before, i, b) || DirtyReferenced(before, d) ==>
              Views(after, d) == Views(before, d)[b := if after[i].valid then after[i].data else d[b]]
  {
    Held(after, d, i, b);
    forall c: nat | c < |d| && c != b
      ensures Ref(after, c) == Ref(before, c)
      ensures Holds(before, i, b) || DirtyReferenced(before, d) ==> View(after, d, c) == View(before, d, c)
    {
      Others(before, after, d, i, b, c);
    }
  }

  /** An uncached block may be given any buffer. */
  lemma RecycleOk(bufs: seq<Buf>, n: nat, i: nat, x: Buf)
    requires BufsOk(bufs, n) && i < NBUF && x.dev == ROOTDEV && x.blockno < n && x.refcnt < U32
    requires !Cached(bufs, x.blockno)
    ensures BufsOk(bufs[i := x], n)
  {
    forall j: nat | j < NBUF && bufs[j].dev == ROOTDEV
      ensures bufs[j].blockno != x.blockno
    {
      assert !Holds(bufs, j, x.blockno);
    }
  }

  lemma SameBlock(bufs: seq<Buf>, n: nat, i: nat, x: Buf)
    requires BufsOk(bufs, n) && i < NBUF && x == bufs[i].(data := x.data, valid := x.valid)
    ensures BufsOk(bufs[i := x], n)
  {
  }

  /** The list is a permutation of all buffers, latest release first. */
  ghost predicate ListOk(lru: seq<nat>, stamp: seq<nat>, clock: nat) {
    && |lru| == NBUF && |stamp| == NBUF
    && (forall p :: 0 <= p < NBUF ==> lru[p] < NBUF && stamp[lru[p]] < clock)
    && (forall i: nat :: i < NBUF ==> i in lru)
    && (forall p, q :: 0 <= p < q < NBUF ==> stamp[lru[p]] > stamp[lru[q]])
  }

  /** Buffer `i` is first on the list and the others kept their release times. */
  ghost predicate MovedToHead(was: seq<nat>, lru: seq<nat>, stamp: seq<nat>, i: nat) {
    && |was| == |stamp| && lru != [] && lru[0] == i
    && forall j :: 0 <= j < |stamp| && j != i ==> stamp[j] == was[j]
  }

  /** No buffer was released later than `i`. */
  ghost predicate Newest(stamp: seq<nat>, i: nat) {
    i < |stamp| && forall j :: 0 <= j < |stamp| && j != i ==> stamp[j] < stamp[i]
  }

  lemma FirstIsNewest(lru: seq<nat>, stamp: seq<nat>, clock: nat)
    requires ListOk(lru, stamp, clock)
    ensures Newest(stamp, lru[0])
  {
    forall j: nat | j < NBUF && j != lru[0]
      ensures stamp[j] < stamp[lru[0]]
    {
      assert j in lru;
    }
  }

  /** Of the unreferenced buffers, `i` was released longest ago. */
  ghost predicate Oldest(bufs: seq<Buf>, stamp: seq<nat>, i: nat) {
    && i < |bufs| <= |stamp| && bufs[i].refcnt == 0
    && forall j: nat :: j < |bufs| && bufs[j].refcnt == 0 && j != i ==> stamp[i] < stamp[j]
  }

  /** Unlinking position `k` and linking it back at the head. */
  function ToHead(lru: seq<nat>, k: nat): (r: seq<nat>)
    requires k < |lru|
    ensures |r| == |lru|
    ensures forall p :: 0 <= p < |lru| ==>
              r[p] == lru[if p == 0 then k else if p <= k then p - 1 else p]
  {
    [lru[k]] + lru[..k] + lru[k + 1..]
  }

  lemma ToHeadAll(lru: seq<nat>, k: nat, i: nat)
    requires k < |lru| && i in lru
    ensures i in ToHead(lru, k)
  {
    var q :| 0 <= q < |lru| && lru[q] == i;
    assert ToHead(lru, k)[if q < k then q + 1 else if q == k then 0 else q] == i;
  }

  lemma ToHeadOk(lru: seq<nat>, stamp: seq<nat>, clock: nat, k: nat)
    requires ListOk(lru, stamp, clock) && k < NBUF
    ensures ListOk(ToHead(lru, k), stamp[lru[k] := clock], clock + 1)
  {
    var r, s := ToHead(lru, k), stamp[lru[k] := clock];
    forall i: nat | i < NBUF
      ensures i in r
    {
      ToHeadAll(lru, k, i);
    }
    forall p, q | 0 <= p < q < NBUF
      ensures s[r[p]] > s[r[q]]
    {
      var q0 := if q <= k then q - 1 else q;
      assert r[q] == lru[q0] && stamp[lru[q0]] < clock;
      assert q0 != k;
      if p > 0 {
        var p0 := if p <= k then p - 1 else p;
        assert r[p] == lru[p0] && p0 < q0 && p0 != k;
        assert stamp[lru[p0]] > stamp[lru[q0]];
      }
    }
  }

  /** The buffer bread leaves at `i`, given the buffers it started from. */
  ghost function ReadBuf(before: seq<Buf>, d: Disk, i: nat, b: nat): (x: Buf)
    requires i < |before| && b < |d|
  {
    if !Cached(before, b) then Buf(ROOTDEV, b, true, 1, d[b])
    else
      before[i].(refcnt := Inc(before[i].refcnt), valid := true,
                 data := if before[i].valid then before[i].data else d[b])
  }

  lemma ReadEffect(before: seq<Buf>, after: seq<Buf>, d: Disk, i: nat, b: nat)
    requires BufsOk(before, |d|) && BufsOk(after, |d|) && b < |d| && i < NBUF
    requires if Cached(before, b) then Holds(before, i, b) else before[i].refcnt == 0
    requires after == before[i := ReadBuf(before, d, i, b)]
    ensures after[i].data == Views(before, d)[b]
    ensures Refs(after, |d|) == Refs(before, |d|)[b := Inc(Refs(before, |d|)[b])]
    ensures after[i].refcnt == Refs(after, |d|)[b]
    ensures DirtyReferenced(before, d) ==> Views(after, d) == Views(before, d)
  {
    if Cached(before, b) {
      Held(before, d, i, b);
    }
    Replaced(before, after, d, i, b);
  }

  ghost function Busy(refs: seq<nat>): (s: set<nat>) {
    set b: nat | b < |refs| && refs[b] != 0
  }

  /** Distinct referenced blocks, one for each of the first `m` buffers. */
  lemma {:induction false} BusyCount(bufs: seq<Buf>, d: Disk, m: nat) returns (s: set<nat>)
    requires BufsOk(bufs, |d|) && m <= NBUF
    requires forall i :: 0 <= i < m ==> bufs[i].refcnt != 0
    ensures s <= Busy(Refs(bufs, |d|)) && |s| == m
    ensures forall x :: x in s ==> exists i :: 0 <= i < m && bufs[i].blockno == x
  {
    if m == 0 {
      s := {};
    } else {
      s := BusyCount(bufs, d, m - 1);
      var x := bufs[m - 1].blockno;
      Held(bufs, d, m - 1, x);
      s := s + {x};
    }
  }

  /** Fewer referenced blocks than buffers leaves an unused buffer. */
  lemma UnusedLeft(bufs: seq<Buf>, d: Disk)
    requires BufsOk(bufs, |d|) && |Busy(Refs(bufs, |d|))| < NBUF
    ensures HasUnused(bufs)
  {
    if !HasUnused(bufs) {
      var s := BusyCount(bufs, d, NBUF);
      SubsetSize(s, Busy(Refs(bufs, |d|)));
    }
  }

  ghost function Below(n: nat): (s: set<nat>)
    ensures |s| == n && forall i: nat :: i in s <==> i < n
  {
    if n == 0 then {} else Below(n - 1) + {n - 1}
  }

  lemma AllBelow(s: set<nat>, n: nat)
    requires |s| >= n && forall i :: i in s ==> i < n
    ensures forall i: nat :: i < n ==> i in s
  {
    var all := Below(n);
    SubsetSize(s, all);
    assert all == s + (all - s);
    assert |all - s| == 0;
  }

  /** The buffers of referenced blocks: one each. */
  lemma {:induction false} Holders(bufs: seq<Buf>, d: Disk, bs: set<nat>) returns (s: set<nat>)
    requires BufsOk(bufs, |d|) && bs <= Busy(Refs(bufs, |d|))
    ensures |s| == |bs| && forall i :: i in s ==> i < NBUF && bufs[i].dev == ROOTDEV && bufs[i].blockno in bs
    decreases |bs|
  {
    if bs == {} {
      s := {};
    } else {
      var b :| b in bs;
      s := Holders(bufs, d, bs - {b});
      assert Ref(bufs, b) == Refs(bufs, |d|)[b] != 0;
      var i: nat :| Holds(bufs, i, b);
      s := s + {i};
    }
  }

  /** As many referenced blocks as buffers: there is no buffer for another block. */
  lemma NoneLeft(bufs: seq<Buf>, d: Disk)
    requires BufsOk(bufs, |d|) && |Busy(Refs(bufs, |d|))| >= NBUF
    ensures !HasUnused(bufs) && forall b :: Cached(bufs, b) ==> b in Busy(Refs(bufs, |d|))
  {
    var s := Holders(bufs, d, Busy(Refs(bufs, |d|)));
    AllBelow(s, NBUF);
    forall i: nat | i < NBUF
      ensures bufs[i].refcnt != 0
    {
      Held(bufs, d, i, bufs[i].blockno);
    }
  }

  /** There are more blocks than buffers, so some block has none. */
  lemma NotAllCached(bufs: seq<Buf>, n: nat)
    requires |bufs| == NBUF < n
    ensures exists b: nat :: b < n && !Cached(bufs, b)
  {
    if forall b: nat :: b < n ==> Cached(bufs, b) {
      var s := CachedBelow(bufs, n);
      SubsetSize(s, Below(NBUF));
    }
  }

  lemma {:induction false} CachedBelow(bufs: seq<Buf>, n: nat) returns (s: set<nat>)
    requires |bufs| == NBUF && forall b: nat :: b < n ==> Cached(bufs, b)
    ensures |s| == n && forall i :: i in s ==> i < NBUF && bufs[i].blockno < n
  {
    if n == 0 {
      s := {};
    } else {
      s := CachedBelow(bufs, n - 1);
      var b: nat := n - 1;
      assert Cached(bufs, b);
      var i: nat :| Holds(bufs, i, b);
      s := s + {i};
    }
  }

  lemma DecInc(bufs: seq<Buf>, n: nat, b: nat)
    requires BufsOk(bufs, n) && b < n
    ensures Refs(bufs, n)[b] < U32 && Dec(Inc(Refs(bufs, n)[b])) == Refs(bufs, n)[b]
  {
  }

  lemma RefCached(bufs: seq<Buf>, b: nat)
    requires Ref(bufs, b) != 0
    ensures Cached(bufs, b)
  {
  }

  class Cache {
    /** The device, and every block write it was given, oldest first. */
    var disk: Disk
    ghost var writes: seq<Write>
    var bufs: seq<Buf>
    /** Buffer numbers from head.next to head.prev. */
    var lru: seq<nat>
    /** When each buffer was last released to a zero count. */
    ghost var stamp: seq<nat>
    ghost var clock: nat

    /** What readers see, and how often each block is referenced. */
    ghost function V(): (v: Disk)
      reads this
      ensures |v| == |disk|
    {
      Views(bufs, disk)
    }

    ghost function R(): (r: seq<nat>)
      reads this
      ensures |r| == |disk|
    {
      Refs(bufs, |disk|)
    }

    ghost predicate Valid()
      reads this
    {
      |bufs| == NBUF && ListOk(lru, stamp, clock) && BufsOk(bufs, |disk|)
    }

    /** binit: each buffer is pushed at the head in turn. */
    constructor (d: Disk)
      ensures Valid() && disk == d && writes == []
      ensures forall i :: 0 <= i < NBUF ==> bufs[i] == Buf(0, 0, false, 0, bufs[i].data)
      ensures V() == d && R() == seq(|d|, _ => 0)
    {
      disk, writes := d, [];
      bufs := seq(NBUF, _ => Buf(0, 0, false, 0, Block(seq(WORDS, _ => 0))));
      stamp := seq(NBUF, i => i);
      clock := NBUF;
      lru := [];
      new;
      var n := 0;
      while n < NBUF
        invariant 0 <= n <= NBUF
        invariant disk == d && writes == [] && |stamp| == NBUF && clock == NBUF
        invariant forall i :: 0 <= i < NBUF ==> stamp[i] == i
        invariant bufs == seq(NBUF, _ => Buf(0, 0, false, 0, Block(seq(WORDS, _ => 0))))
        invariant |lru| == n
        invariant forall p :: 0 <= p < n ==> lru[p] == n - 1 - p
      {
        lru := [n] + lru;
        n := n + 1;
      }
      forall i: nat | i < NBUF
        ensures i in lru
      {
        assert lru[NBUF - 1 - i] == i;
      }
    }

    /** Whether bget finds a buffer for `b`, rather than panic. */
    predicate CanGet(b: nat)
      reads this
    {
      exists i :: 0 <= i < |bufs| && ((bufs[i].dev == ROOTDEV && bufs[i].blockno == b) || bufs[i].refcnt == 0)
    }

    lemma GetsIff(b: nat)
      ensures CanGet(b) <==> Cached(bufs, b) || HasUnused(bufs)
    {
      if i: nat :| Holds(bufs, i, b) {
        assert CanGet(b);
      }
      if CanGet(b) {
        var i: nat :| i < |bufs| && ((bufs[i].dev == ROOTDEV && bufs[i].blockno == b) || bufs[i].refcnt == 0);
        assert Holds(bufs, i, b) || bufs[i].refcnt == 0;
      }
    }

    lemma GetsRef(b: nat)
      requires Valid() && b < |disk|
      ensures CanGet(b) <==> R()[b] != 0 || HasUnused(bufs)
    {
      GetsIff(b);
      if i: nat :| Holds(bufs, i, b) {
        Held(bufs, disk, i, b);
      }
    }

    /** bget: the buffer of `b` if there is one, else the unused buffer released
        longest ago. With neither the source panics. */
    method Bget(b: nat) returns (i: nat)
      requires Valid() && b < |disk|
      requires Cached(bufs, b) || HasUnused(bufs)
      modifies this`bufs
      ensures Valid() && Holds(bufs, i, b)
      ensures Cached(old(bufs), b) ==>
                Holds(old(bufs), i, b) && bufs == old(bufs)[i := old(bufs[i]).(refcnt := Inc(old(bufs[i]).refcnt))]
      ensures !Cached(old(bufs), b) ==>
                Oldest(old(bufs), stamp, i) && bufs == old(bufs)[i := Buf(ROOTDEV, b, false, 1, old(bufs[i]).data)]
    {
      var p := 0;
      while p < NBUF
        invariant 0 <= p <= NBUF && bufs == old(bufs)
        invariant forall q :: 0 <= q < p ==> !Holds(bufs, lru[q], b)
      {
        i := lru[p];
        if bufs[i].dev == ROOTDEV && bufs[i].blockno == b {
          assert Holds(bufs, i, b);
          bufs := bufs[i := bufs[i].(refcnt := Inc(bufs[i].refcnt))];
          return;
        }
        p := p + 1;
      }
      assert !Cached(bufs, b) by {
        forall j: nat | j < NBUF
          ensures !Holds(bufs, j, b)
        {
          assert j in lru;
        }
      }
      p := NBUF;
      assert exists q :: 0 <= q < p && bufs[lru[q]].refcnt == 0 by {
        var j: nat :| j < NBUF && bufs[j].refcnt == 0;
        assert j in lru;
      }
      while true
        invariant 0 <= p <= NBUF && bufs == old(bufs)
        invariant forall q :: p <= q < NBUF ==> bufs[lru[q]].refcnt != 0
        invariant exists q :: 0 <= q < p && bufs[lru[q]].refcnt == 0
        decreases p
      {
        p := p - 1;
        i := lru[p];
        if bufs[i].refcnt == 0 {
          forall j: nat | j < NBUF && bufs[j].refcnt == 0 && j != i
            ensures stamp[i] < stamp[j]
          {
            assert j in lru;
          }
          RecycleOk(bufs, |disk|, i, bufs[i].(dev := ROOTDEV, blockno := b, valid := false, refcnt := 1));
          bufs := bufs[i := bufs[i].(dev := ROOTDEV, blockno := b, valid := false, refcnt := 1)];
          return;
        }
      }
    }

    /** bread: a buffer holding what readers of `b` are to see. Nobody's view
        of any block changes, as long as what differs from the disk is
        referenced. */
    method Bread(b: nat) returns (i: nat)
      requires Valid() && b < |disk|
      requires R()[b] != 0 || HasUnused(bufs)
      modifies this`bufs
      ensures Valid() && Holds(bufs, i, b) && bufs[i].valid && bufs[i].data == old(V())[b]
      ensures R() == old(R())[b := Inc(old(R())[b])] && bufs[i].refcnt == R()[b]
      ensures old(DirtyReferenced(bufs, disk)) ==> V() == old(V())
      ensures bufs == old(bufs)[i := bufs[i]]
      ensures if Cached(old(bufs), b) then Holds(old(bufs), i, b) else Oldest(old(bufs), stamp, i)
    {
      hide ListOk, BufsOk, Views, DirtyReferenced;
      ghost var before := bufs;
      if Ref(bufs, b) != 0 {
        RefCached(bufs, b);
      }
      i := Bget(b);
      if !bufs[i].valid {
        SameBlock(bufs, |disk|, i, bufs[i].(data := disk[b], valid := true));
        bufs := bufs[i := bufs[i].(data := disk[b], valid := true)];
      }
      ReadEffect(before, bufs, disk, i, b);
    }

    /** bwrite: the buffer's contents go to the disk as one block write. */
    method Bwrite(i: nat)
      requires Valid() && i < NBUF && bufs[i].dev == ROOTDEV
      modifies this`disk, this`writes
      ensures Valid()
      ensures disk == old(disk)[bufs[i].blockno := bufs[i].data]
      ensures writes == old(writes) + [Write(bufs[i].blockno, bufs[i].data)]
      ensures R() == old(R())
      ensures V() == old(V())[bufs[i].blockno := bufs[i].data]
    {
      assert V()[bufs[i].blockno] == View(bufs, disk, bufs[i].blockno);
      Held(bufs, disk, i, bufs[i].blockno);
      ghost var d := disk;
      disk := disk[bufs[i].blockno := bufs[i].data];
      writes := writes + [Write(bufs[i].blockno, bufs[i].data)];
      Held(bufs, disk, i, bufs[i].blockno);
      assert forall c: nat :: c < |disk| && c != bufs[i].blockno ==> View(bufs, disk, c) == View(bufs, d, c);
    }

    /** brelse: drop a reference; on the last one become most recently used. */
    method Brelse(i: nat)
      requires Valid() && i < NBUF && bufs[i].dev == ROOTDEV
      modifies this`bufs, this`lru, this`stamp, this`clock
      ensures Valid()
      ensures bufs == old(bufs)[i := old(bufs[i]).(refcnt := Dec(old(bufs[i]).refcnt))]
      ensures V() == old(V())
      ensures R() == old(R())[bufs[i].blockno := Dec(old(R())[bufs[i].blockno])]
      ensures if bufs[i].refcnt != 0 then lru == old(lru) && stamp == old(stamp)
              else MovedToHead(old(stamp), lru, stamp, i)
    {
      ghost var before := bufs;
      bufs := bufs[i := bufs[i].(refcnt := Dec(bufs[i].refcnt))];
      Held(before, disk, i, bufs[i].blockno);
      Replaced(before, bufs, disk, i, bufs[i].blockno);
      if bufs[i].refcnt == 0 {
        MoveToHead(i);
      }
    }

    method MoveToHead(i: nat)
      requires ListOk(lru, stamp, clock) && i < NBUF
      modifies this`lru, this`stamp, this`clock
      ensures ListOk(lru, stamp, clock) && MovedToHead(old(stamp), lru, stamp, i)
    {
      assert i in lru;
      var k :| 0 <= k < |lru| && lru[k] == i;
      ToHeadOk(lru, stamp, clock, k);
      lru := ToHead(lru, k);
      stamp := stamp[i := clock];
      clock := clock + 1;
    }

    method Bpin(i: nat)
      requires Valid() && i < NBUF && bufs[i].dev == ROOTDEV
      modifies this`bufs
      ensures Valid()
      ensures bufs == old(bufs)[i := old(bufs[i]).(refcnt := Inc(old(bufs[i]).refcnt))]
      ensures V() == old(V())
      ensures R() == old(R())[bufs[i].blockno := Inc(old(R())[bufs[i].blockno])]
    {
      ghost var before := bufs;
      bufs := bufs[i := bufs[i].(refcnt := Inc(bufs[i].refcnt))];
      Held(before, disk, i, bufs[i].blockno);
      Replaced(before, bufs, disk, i, bufs[i].blockno);
    }

    method Bunpin(i: nat)
      requires Valid() && i < NBUF && bufs[i].dev == ROOTDEV
      modifies this`bufs
      ensures Valid()
      ensures bufs == old(bufs)[i := old(bufs[i]).(refcnt := Dec(old(bufs[i]).refcnt))]
      ensures V() == old(V())
      ensures R() == old(R())[bufs[i].blockno := Dec(old(R())[bufs[i].blockno])]
    {
      ghost var before := bufs;
      bufs := bufs[i := bufs[i].(refcnt := Dec(bufs[i].refcnt))];
      Held(before, disk, i, bufs[i].blockno);
      Replaced(before, bufs, disk, i, bufs[i].blockno);
    }

    /** The caller's memmove into a buffer it has read. */
    method Fill(i: nat, x: Block)
      requires Valid() && i < NBUF && bufs[i].dev == ROOTDEV && bufs[i].valid
      modifies this`bufs
      ensures Valid() && bufs == old(bufs)[i := old(bufs[i]).(data := x)]
      ensures V() == old(V())[bufs[i].blockno := x]
      ensures R() == old(R())
    {
      ghost var before := bufs;
      bufs := bufs[i := bufs[i].(data := x)];
      Held(before, disk, i, bufs[i].blockno);
      Replaced(before, bufs, disk, i, bufs[i].blockno);
    }
  }
}
