/** The group-commit redo log on top of the buffer cache. Each method is one
    step under log.lock, except that a commit's block writes are recorded one
    by one so that a crash can be placed between any two of them. */
module RedoLog {
  import opened Basics
  import opened LogProtocol
  import opened BufferCache
  import opened LogSpace

  /** Blocks the header may name: distinct, outside the log, no more than fit. */
  ghost predicate LhOk(lh: seq<nat>, lay: Layout, n: nat) {
    && |lh| <= LOGSIZE && |lh| <= lay.size - 1
    && (forall i :: 0 <= i < |lh| ==> lh[i] < n && !lay.InLog(lh[i]))
    && (forall i, j :: 0 <= i < j < |lh| ==> lh[i] != lh[j])
  }

  /** The references of a block are those its readers hold, `q` of them, and one
      more if it is in `pins`; and only pinned blocks may differ from the disk. */
  ghost predicate PinnedExactly(v: Disk, r: seq<nat>, d: Disk, pins: seq<nat>, q: seq<nat>) {
    && |v| == |r| == |d| == |q|
    && (forall b: nat :: b < |d| ==> q[b] + 2 < U32 && r[b] == q[b] + if b in pins then 1 else 0)
    && (forall b: nat :: b < |d| && b !in pins ==> v[b] == d[b])
  }

  /** Nobody but the log itself reads its blocks. */
  ghost predicate OutsideLog(q: seq<nat>, lay: Layout) {
    forall b: nat :: b < |q| && lay.InLog(b) ==> q[b] == 0
  }

  /** Blocks that keep a buffer. */
  ghost function InUse(pins: seq<nat>, q: seq<nat>): (s: set<nat>) {
    Elems(pins) + Busy(q)
  }

  ghost function Elems(s: seq<nat>): (r: set<nat>)
    ensures |r| <= |s|
    ensures forall x :: x in r <==> x in s
  {
    if s == [] then {} else {s[0]} + Elems(s[1..])
  }

  lemma {:induction false} DistinctElems(s: seq<nat>)
    requires forall i, j :: 0 <= i < j < |s| ==> s[i] != s[j]
    ensures |Elems(s)| == |s|
  {
    if s != [] {
      DistinctElems(s[1..]);
    }
  }

  lemma BusyIsPins(v: Disk, r: seq<nat>, d: Disk, pins: seq<nat>, q: seq<nat>)
    requires PinnedExactly(v, r, d, pins, q)
    ensures Busy(r) <= InUse(pins, q) && |Busy(r)| <= |InUse(pins, q)|
  {
    hide Elems;
    assert Busy(r) <= InUse(pins, q);
    SubsetSize(Busy(r), InUse(pins, q));
  }

  lemma LessInUse(pins: seq<nat>, q: seq<nat>)
    ensures |InUse([], q)| <= |InUse(pins, q)|
  {
    SubsetSize(InUse([], q), InUse(pins, q));
  }

  lemma PinnedReferenced(bufs: seq<Buf>, d: Disk, pins: seq<nat>, q: seq<nat>)
    requires PinnedExactly(Views(bufs, d), Refs(bufs, |d|), d, pins, q)
    ensures DirtyReferenced(bufs, d)
  {
  }

  /** Logging block `b`, absorbed or new, keeps header and pins in step. */
  lemma PinAdded(v: Disk, r: seq<nat>, d: Disk, lay: Layout, lh: seq<nat>, q: seq<nat>, b: nat, x: Block)
    requires PinnedExactly(v, r, d, lh, q) && LhOk(lh, lay, |d|)
    requires b < |d| && !lay.InLog(b) && |lh| < LOGSIZE && |lh| < lay.size - 1
    ensures b in lh ==> PinnedExactly(v[b := x], r, d, lh, q)
    ensures b !in lh ==>
              PinnedExactly(v[b := x], r[b := Inc(r[b])], d, lh + [b], q) && LhOk(lh + [b], lay, |d|)
  {
    if b !in lh {
      assert forall c :: c in lh + [b] <==> c in lh || c == b;
    }
  }

  /** What the blocks of `lh` are to become. */
  ghost function Contents(v: Disk, lh: seq<nat>): (data: seq<Block>)
    requires forall i :: 0 <= i < |lh| ==> lh[i] < |v|
    ensures |data| == |lh|
    ensures forall i :: 0 <= i < |lh| ==> data[i] == v[lh[i]]
  {
    seq(|lh|, i requires 0 <= i < |lh| => v[lh[i]])
  }

  /** Installing into the disk everything readers see differently makes the
      home blocks what readers see. */
  lemma {:induction false} InstallsView(d: Disk, v: Disk, lay: Layout, lh: seq<nat>, b: nat)
    requires |v| == |d| && LhOk(lh, lay, |d|) && b < |d|
    ensures Installed(d, lay, Txn(lh, Contents(v, lh)))[b] == if b in lh then v[b] else d[b]
    decreases |lh|
  {
    var t := Txn(lh, Contents(v, lh));
    if lh != [] {
      var m := |lh| - 1;
      InstallsView(d, v, lay, lh[..m], b);
      assert InstallWrites(t)[..m] == InstallWrites(Txn(lh[..m], Contents(v, lh[..m])));
      assert lh == lh[..m] + [lh[m]];
    }
  }

  /** The counts after one reference to each block of `lh` was dropped. */
  ghost function Released(r: seq<nat>, lh: seq<nat>): (q: seq<nat>)
    requires forall i :: 0 <= i < |lh| ==> lh[i] < |r|
    ensures |q| == |r|
    decreases |lh|
  {
    if lh == [] then r
    else
      var m := |lh| - 1;
      var p := Released(r, lh[..m]);
      p[lh[m] := Dec(p[lh[m]])]
  }

  lemma ReleasedNone(r: seq<nat>, lh: seq<nat>)
    ensures Released(r, lh[..0]) == r
  {
    assert lh[..0] == [];
  }

  lemma ReleasedNext(r: seq<nat>, lh: seq<nat>, j: nat)
    requires forall i :: 0 <= i < |lh| ==> lh[i] < |r|
    requires j < |lh|
    ensures var p := Released(r, lh[..j]); Released(r, lh[..j + 1]) == p[lh[j] := Dec(p[lh[j]])]
  {
    assert lh[..j + 1][..j] == lh[..j];
  }

  lemma {:induction false} ReleasedOther(r: seq<nat>, lh: seq<nat>, b: nat)
    requires forall i :: 0 <= i < |lh| ==> lh[i] < |r|
    requires b < |r| && b !in lh
    ensures Released(r, lh)[b] == r[b]
    decreases |lh|
  {
    if lh != [] {
      ReleasedOther(r, lh[..|lh| - 1], b);
    }
  }

  /** Pins are returned: dropping one reference per logged block leaves those of its
      readers. */
  lemma {:induction false} ReleasedPins(r: seq<nat>, lh: seq<nat>, b: nat)
    requires forall i :: 0 <= i < |lh| ==> lh[i] < |r|
    requires forall i, j :: 0 <= i < j < |lh| ==> lh[i] != lh[j]
    requires b < |r| && b in lh && 1 <= r[b] < U32
    ensures Released(r, lh)[b] == r[b] - 1
    decreases |lh|
  {
    var m := |lh| - 1;
    if lh[m] == b {
      assert b !in lh[..m];
      ReleasedOther(r, lh[..m], b);
    } else {
      assert b in lh[..m];
      ReleasedPins(r, lh[..m], b);
    }
  }

  lemma DecWraps(c: nat)
    requires c < U32
    ensures Dec((U32 - c) % U32) == (U32 - (c + 1)) % U32
  {
  }

  /** With nothing pinned, as at boot, the counts go below zero and wrap. */
  lemma {:induction false} ReleasedUnpinned(r: seq<nat>, lh: seq<nat>, b: nat)
    requires forall i :: 0 <= i < |lh| ==> lh[i] < |r|
    requires b < |r| && r[b] == 0 && |lh| < U32
    ensures multiset(lh)[b] <= |lh|
    ensures Released(r, lh)[b] == (U32 - multiset(lh)[b]) % U32
    decreases |lh|
  {
    if lh != [] {
      var m := |lh| - 1;
      ReleasedUnpinned(r, lh[..m], b);
      DecWraps(multiset(lh[..m])[b]);
      assert lh == lh[..m] + [lh[m]];
    }
  }

  /** The slots of the on-disk log as readers see them. */
  ghost function Slots(v: Disk, lay: Layout, n: nat): (data: seq<Block>)
    requires n <= lay.size - 1 && lay.start + lay.size <= |v|
    ensures |data| == n
    ensures forall i :: 0 <= i < n ==> data[i] == v[lay.start + 1 + i]
  {
    seq(n, i requires 0 <= i < n => v[lay.start + 1 + i])
  }

  class Log {
    const cache: Cache
    const lay: Layout
    /** The block numbers of the in-memory header; log.lh.n is its length. */
    var lh: seq<nat>
    var outstanding: nat
    var committing: bool
    /** Log slots each operation in progress has filled. */
    ghost var used: seq<nat>
    /** References to each block that readers hold. */
    ghost var held: seq<nat>

    /** initlog: adopt the disk layout, then replay whatever transaction the
        disk holds. The disk contents come out right for every recoverable
        log. The reference counts come out balanced only if there was nothing
        to replay: install_trans drops a reference recovery never took, so the
        count of each replayed block wraps below zero. */
    constructor (c: Cache, l: Layout)
      requires c.Valid() && LogOk(c.disk, l)
      requires |Elems(LoggedTxn(c.disk, l).lh)| < NBUF
      requires c.V() == c.disk && c.R() == seq(|c.disk|, _ => 0)
      modifies c
      ensures cache == c && lay == l && c.Valid()
      ensures lh == [] && !committing && outstanding == 0 && used == []
      ensures c.writes == old(c.writes) + RecoverWrites(old(c.disk), l)
      ensures c.disk == Recovered(old(c.disk), l) && c.V() == c.disk
      ensures Wrapped(c.R(), LoggedTxn(old(c.disk), l).lh)
      ensures Valid() <==> LoggedTxn(old(c.disk), l).lh == []
    {
      hide *;
      cache, lay := c, l;
      lh, outstanding, committing, used, held := [], 0, false, [], seq(|c.disk|, _ => 0);
      new;
      InitLog();
    }

    method InitLog()
      requires cache.Valid() && LogOk(cache.disk, lay)
      requires |Elems(LoggedTxn(cache.disk, lay).lh)| < NBUF
      requires cache.V() == cache.disk && cache.R() == seq(|cache.disk|, _ => 0)
      requires lh == [] && !committing && outstanding == 0 && used == [] && held == seq(|cache.disk|, _ => 0)
      modifies this`lh, cache
      ensures cache.Valid() && lh == []
      ensures cache.writes == old(cache.writes) + RecoverWrites(old(cache.disk), lay)
      ensures cache.disk == Recovered(old(cache.disk), lay) && cache.V() == cache.disk
      ensures Wrapped(cache.R(), LoggedTxn(old(cache.disk), lay).lh)
      ensures Valid() <==> LoggedTxn(old(cache.disk), lay).lh == []
    {
      hide BufsOk, ListOk, Views, Refs, Apply, Wrapped, LoggedTxn, PinnedExactly;
      ghost var d := cache.disk;
      RecoverFromLog();
      ReplayUnbalances(cache.V(), cache.R(), cache.disk, LoggedTxn(d, lay).lh, held);
      RecoverIsInstall(d, lay);
    }

    /** read_head, install_trans, then a cleared header. */
    method RecoverFromLog()
      requires cache.Valid() && LogOk(cache.disk, lay)
      requires |Elems(LoggedTxn(cache.disk, lay).lh)| < NBUF
      requires cache.V() == cache.disk && cache.R() == seq(|cache.disk|, _ => 0)
      requires held == seq(|cache.disk|, _ => 0)
      modifies this`lh, cache
      ensures cache.Valid() && lh == []
      ensures cache.writes == old(cache.writes) + RecoverWrites(old(cache.disk), lay)
      ensures cache.disk == Recovered(old(cache.disk), lay) && cache.V() == cache.disk
      ensures Wrapped(cache.R(), LoggedTxn(old(cache.disk), lay).lh)
    {
      hide BufsOk, ListOk, Views, Refs, Apply, Released, Wrapped, HeaderOk, ReadHeader, Elems, InUse;
      ghost var d := cache.disk;
      ghost var t := LoggedTxn(d, lay);
      assert Busy(cache.R()) == {};
      UnusedLeft(cache.bufs, cache.disk);
      ReadHead();
      assert Slots(cache.V(), lay, |lh|) == t.data;
      ReplayRefs(cache.R(), lay, lh);
      ReplayDisk(d, lay);
      ZeroInUse(lh, |cache.disk|);
      InstallTrans();
      UnusedLeft(cache.bufs, cache.disk);
      lh := [];
      WriteHead();
    }

    /** read_head: load the header the disk holds. */
    method ReadHead()
      requires cache.Valid() && LogOk(cache.disk, lay) && HasUnused(cache.bufs)
      requires cache.V() == cache.disk && cache.R() == seq(|cache.disk|, _ => 0)
      modifies this`lh, cache`bufs, cache`lru, cache`stamp, cache`clock
      ensures cache.Valid() && lh == LoggedTxn(cache.disk, lay).lh
      ensures cache.V() == cache.disk && cache.R() == seq(|cache.disk|, _ => 0)
    {
      hide BufsOk, ListOk, Views, Refs, MovedToHead;
      var i := cache.Bread(lay.start);
      lh := ReadHeader(cache.bufs[i].data);
      cache.Brelse(i);
    }

    /** After a replay, changing a replayed block through the log may leave the
        change unreferenced, so that recycling the buffer loses it: exactly
        when the block's count had wrapped to the largest value, or is zero
        and the block is logged already. */
    method ModifyReplayed(b: nat, x: Block)
      requires |lh| < LOGSIZE && |lh| < lay.size - 1 && outstanding >= 1
      requires cache.Valid() && b < |cache.disk|
      requires DirtyReferenced(cache.bufs, cache.disk) && (cache.R()[b] != 0 || HasUnused(cache.bufs))
      modifies this`lh, cache`bufs, cache`lru, cache`stamp, cache`clock
      ensures cache.Valid() && cache.V() == old(cache.V())[b := x]
      ensures lh == if b in old(lh) then old(lh) else old(lh) + [b]
      ensures DirtyReferenced(cache.bufs, cache.disk) <==>
              (x == cache.disk[b] || old(cache.R())[b] != if b in old(lh) then 0 else U32 - 1)
      ensures cache.R()[b] == 0 ==> forall i: nat :: Holds(cache.bufs, i, b) ==> Newest(cache.stamp, i)
    {
      hide BufsOk, ListOk, Views, Refs, Newest, Holds;
      DecInc(cache.bufs, |cache.disk|, b);
      Modify(b, x);
      assert forall c: nat :: c < |cache.disk| && c != b ==>
          cache.V()[c] == old(cache.V())[c] && cache.R()[c] == old(cache.R())[c];
      assert cache.V()[b] == x;
    }

    /** What that comes to: once the changed block's buffer is the unreferenced one
        released longest ago, reading any block not cached and then this one
        again returns the old contents. */
    method LoseReplayed(b: nat, c: nat, ghost k: nat) returns (i: nat)
      requires cache.Valid() && b < |cache.disk| && c < |cache.disk| && !Cached(cache.bufs, c)
      requires Holds(cache.bufs, k, b) && Oldest(cache.bufs, cache.stamp, k) && cache.V()[b] != cache.disk[b]
      modifies cache`bufs, cache`lru, cache`stamp, cache`clock
      ensures cache.Valid() && Holds(cache.bufs, i, b) && cache.bufs[i].valid
      ensures cache.bufs[i].data == cache.disk[b] != old(cache.V())[b]
    {
      hide ListOk, MovedToHead;
      assert HasUnused(cache.bufs);
      var j := cache.Bread(c);
      assert j == k && forall l: nat :: !Holds(cache.bufs, l, b);
      assert cache.V()[b] == cache.disk[b];
      cache.Brelse(j);
      assert HasUnused(cache.bufs);
      i := cache.Bread(b);
    }

    /** Readers take blocks not cached, one after the other, until the buffer `k` of
        block `b` is the only one left that nobody references. */
    method ReadOthers(b: nat, k: nat)
      requires cache.Valid() && |cache.disk| > NBUF && b < |cache.disk|
      requires Holds(cache.bufs, k, b) && cache.bufs[k].refcnt == 0 && Newest(cache.stamp, k)
      modifies cache`bufs
      ensures cache.Valid() && Holds(cache.bufs, k, b) && Oldest(cache.bufs, cache.stamp, k)
      ensures cache.V()[b] == old(cache.V())[b]
    {
      hide BufsOk, Views, Refs;
      OneHolder(cache.bufs, cache.disk, k, b);
      while exists l :: 0 <= l < NBUF && l != k && cache.bufs[l].refcnt == 0
        invariant cache.Valid() && cache.bufs[k] == old(cache.bufs)[k]
        decreases Unused(cache.bufs)
      {
        ghost var before := cache.bufs;
        var c := PickUncached();
        ghost var l: nat :| l < NBUF && l != k && cache.bufs[l].refcnt == 0;
        var i := cache.Bread(c);
        assert i != k && cache.stamp[l] < cache.stamp[k];
        UnusedLess(before, cache.bufs, i);
      }
      OneHolder(cache.bufs, cache.disk, k, b);
    }

    method FindBuffer(b: nat) returns (k: nat)
      requires cache.Valid() && b < |cache.disk| && cache.V()[b] != cache.disk[b]
      ensures Holds(cache.bufs, k, b) && cache.bufs[k].refcnt == cache.R()[b]
    {
      hide BufsOk, ListOk, Views, Refs;
      CachedIfDirty(cache.bufs, cache.disk, b);
      k :| 0 <= k < |cache.bufs| && cache.bufs[k].dev == ROOTDEV && cache.bufs[k].blockno == b;
      OneHolder(cache.bufs, cache.disk, k, b);
    }

    method PickUncached() returns (c: nat)
      requires cache.Valid() && |cache.disk| > NBUF
      ensures c < |cache.disk| && !Cached(cache.bufs, c) && cache.R()[c] == 0
    {
      NotAllCached(cache.bufs, |cache.disk|);
      ghost var b: nat :| b < |cache.disk| && !Cached(cache.bufs, b);
      InSomeIff(cache.bufs, b);
      c :| 0 <= c < |cache.disk| && !InSome(cache.bufs, c);
      InSomeIff(cache.bufs, c);
    }

    /** The log as it is between steps: the on-disk log is empty, and the blocks
        logged in memory are pinned exactly once. */
    ghost predicate Valid()
      reads this, cache
    {
      && cache.Valid()
      && LogOk(cache.disk, lay) && LoggedTxn(cache.disk, lay) == Txn([], [])
      && LhOk(lh, lay, |cache.disk|)
      && PinnedExactly(cache.V(), cache.R(), cache.disk, lh, held) && OutsideLog(held, lay)
      && !committing && outstanding == |used|
      && SpaceInv(Space(|lh|, used), MAXOPBLOCKS)
    }

    /** A reader takes a block, short of bget's panic, and gives it back. What it
        holds stays counted whatever the log does. */
    method Hold(b: nat) returns (i: nat)
      requires Valid() && b < |cache.disk| && !lay.InLog(b) && held[b] + 3 < U32 && cache.CanGet(b)
      modifies this`held, cache`bufs
      ensures Valid() && held == old(held)[b := old(held)[b] + 1]
      ensures Holds(cache.bufs, i, b) && cache.bufs[i].data == cache.V()[b] && cache.V() == old(cache.V())
    {
      hide BufsOk, ListOk, Views, Refs, LoggedTxn, HeaderOk, SpaceInv;
      cache.GetsRef(b);
      PinnedReferenced(cache.bufs, cache.disk, lh, held);
      i := cache.Bread(b);
      held := held[b := held[b] + 1];
    }

    method Drop(i: nat)
      requires Valid() && i < NBUF && cache.bufs[i].dev == ROOTDEV
      requires cache.bufs[i].blockno < |held| && held[cache.bufs[i].blockno] > 0
      modifies this`held, cache`bufs, cache`lru, cache`stamp, cache`clock
      ensures Valid() && cache.V() == old(cache.V())
      ensures var b := old(cache.bufs)[i].blockno; held == old(held)[b := old(held)[b] - 1]
    {
      hide BufsOk, ListOk, Views, Refs, LoggedTxn, HeaderOk, SpaceInv, MovedToHead;
      var b := cache.bufs[i].blockno;
      cache.Brelse(i);
      held := held[b := held[b] - 1];
    }

    /** One turn of begin_op's loop; not admitted means the caller sleeps. */
    method BeginOp() returns (admitted: bool)
      requires SpaceInv(Space(|lh|, used), MAXOPBLOCKS) && outstanding == |used|
      modifies this`outstanding, this`used
      ensures SpaceInv(Space(|lh|, used), MAXOPBLOCKS) && outstanding == |used|
      ensures old(Valid()) ==> Valid()
      ensures admitted <==> !committing && |lh| + (old(outstanding) + 1) * MAXOPBLOCKS <= LOGSIZE
      ensures used == if admitted then old(used) + [0] else old(used)
    {
      if committing {
        admitted := false;
      } else if |lh| + (outstanding + 1) * MAXOPBLOCKS > LOGSIZE {
        admitted := false;
      } else {
        SpaceStepInv(Space(|lh|, used), Begin, MAXOPBLOCKS);
        outstanding := outstanding + 1;
        used := used + [0];
        admitted := true;
      }
    }

    /** log_write: absorb the block if it is already logged, else append and
        pin it. Its three panics are the three first preconditions. */
    method LogWrite(i: nat)
      requires |lh| < LOGSIZE && |lh| < lay.size - 1
      requires outstanding >= 1
      requires cache.Valid() && i < NBUF && cache.bufs[i].dev == ROOTDEV
      modifies this`lh, cache`bufs
      ensures cache.Valid() && cache.V() == old(cache.V())
      ensures var b := old(cache.bufs)[i].blockno;
              if b in old(lh) then lh == old(lh) && cache.bufs == old(cache.bufs)
              else lh == old(lh) + [b] && cache.R() == old(cache.R())[b := Inc(old(cache.R())[b])]
                   && cache.bufs == old(cache.bufs)[i := cache.bufs[i]] && Holds(cache.bufs, i, b)
    {
      var b := cache.bufs[i].blockno;
      var k := 0;
      while k < |lh| && lh[k] != b
        invariant 0 <= k <= |lh| && b !in lh[..k]
      {
        k := k + 1;
      }
      if k == |lh| {
        assert lh[..k] == lh;
        cache.Bpin(i);
        lh := lh + [b];
      } else {
        lh := lh[k := b];
      }
    }

    /** How the file system changes block `b`: read it, modify it, log it,
        release it. A newly logged block gains one reference. */
    method Modify(b: nat, x: Block)
      requires |lh| < LOGSIZE && |lh| < lay.size - 1
      requires outstanding >= 1
      requires cache.Valid() && b < |cache.disk|
      requires DirtyReferenced(cache.bufs, cache.disk) && (cache.R()[b] != 0 || HasUnused(cache.bufs))
      modifies this`lh, cache`bufs, cache`lru, cache`stamp, cache`clock
      ensures cache.Valid() && cache.V() == old(cache.V())[b := x]
      ensures lh == if b in old(lh) then old(lh) else old(lh) + [b]
      ensures cache.R() == if b in old(lh) then old(cache.R()) else old(cache.R())[b := Inc(old(cache.R())[b])]
      ensures cache.R()[b] == 0 ==> forall i: nat :: Holds(cache.bufs, i, b) ==> Newest(cache.stamp, i)
    {
      hide BufsOk, ListOk, Views, Refs, Newest;
      DecInc(cache.bufs, |cache.disk|, b);
      var i := cache.Bread(b);
      DecInc(cache.bufs, |cache.disk|, b);
      cache.Fill(i, x);
      LogWrite(i);
      cache.Brelse(i);
      OneHolder(cache.bufs, cache.disk, i, b);
      FirstIsNewest(cache.lru, cache.stamp, cache.clock);
    }

    /** Block `b` changed by the k-th operation in progress, which has reserved
        blocks left if it needs one, and short of log_write's panics. Readers see
        the change at once; the disk does not. */
    method LogBlock(k: nat, b: nat, x: Block)
      requires Valid() && k < |used| && (b in lh || used[k] < MAXOPBLOCKS)
      requires b < |cache.disk| && !lay.InLog(b)
      requires |lh| < LOGSIZE && |lh| < lay.size - 1 && cache.CanGet(b)
      modifies this`lh, this`used, cache`bufs, cache`lru, cache`stamp, cache`clock
      ensures Valid()
      ensures cache.V() == old(cache.V())[b := x]
      ensures lh == if b in old(lh) then old(lh) else old(lh) + [b]
      ensures used == if b in old(lh) then old(used) else old(used)[k := old(used)[k] + 1]
    {
      hide BufsOk, ListOk, Views, Refs, Remaining, LoggedTxn, HeaderOk, PinnedExactly, LhOk, OutsideLog;
      PinnedReferenced(cache.bufs, cache.disk, lh, held);
      cache.GetsRef(b);
      if b !in lh {
        SpaceStepInv(Space(|lh|, used), Add(k), MAXOPBLOCKS);
      }
      PinAdded(cache.V(), cache.R(), cache.disk, lay, lh, held, b, x);
      ghost var isNew := b !in lh;
      Modify(b, x);
      if isNew {
        used := used[k := used[k] + 1];
      }
    }

    /** Read two blocks, the first of which nobody references. */
    method ReadBoth(a: nat, b: nat) returns (i: nat, j: nat)
      requires cache.Valid() && a < |cache.disk| && b < |cache.disk| && a != b
      requires cache.R()[a] == 0 && DirtyReferenced(cache.bufs, cache.disk)
      requires |Busy(cache.R())| < if cache.R()[b] != 0 then NBUF else NBUF - 1
      modifies cache`bufs
      ensures cache.Valid() && Holds(cache.bufs, i, a) && Holds(cache.bufs, j, b)
      ensures cache.bufs[i].valid && cache.bufs[i].data == old(cache.V())[a]
      ensures cache.bufs[j].valid && cache.bufs[j].data == old(cache.V())[b]
      ensures cache.V() == old(cache.V())
      ensures cache.R() == old(cache.R())[a := 1][b := Inc(old(cache.R())[b])]
    {
      hide BufsOk, ListOk, Views, Refs;
      UnusedLeft(cache.bufs, cache.disk);
      ghost var r := cache.R();
      i := cache.Bread(a);
      if r[b] == 0 {
        assert Busy(cache.R()) == Busy(r) + {a};
        UnusedLeft(cache.bufs, cache.disk);
      }
      j := cache.Bread(b);
    }

    /** One turn of write_log's loop: block `lh[tail]` as readers see it goes to
        its slot in the on-disk log. */
    method WriteLogSlot(tail: nat)
      requires cache.Valid() && LhOk(lh, lay, |cache.disk|) && lay.Fits(cache.disk) && tail < |lh|
      requires OutsideLog(held, lay) && |InUse(lh, held)| < NBUF
      requires PinnedExactly(cache.V(), cache.R(), cache.disk, lh, held)
      modifies cache
      ensures cache.Valid() && PinnedExactly(cache.V(), cache.R(), cache.disk, lh, held)
      ensures cache.disk == old(cache.disk)[lay.start + 1 + tail := old(cache.V())[lh[tail]]]
      ensures cache.writes == old(cache.writes) + [Write(lay.start + 1 + tail, old(cache.V())[lh[tail]])]
      ensures cache.V() == old(cache.V())[lay.start + 1 + tail := old(cache.V())[lh[tail]]]
    {
      hide BufsOk, ListOk, Views, Refs, MovedToHead, InUse, Elems;
      var slot, b := lay.start + 1 + tail, lh[tail];
      BusyIsPins(cache.V(), cache.R(), cache.disk, lh, held);
      ghost var r := cache.R();
      var to, from := ReadBoth(slot, b);
      cache.Fill(to, cache.bufs[from].data);
      cache.Bwrite(to);
      cache.Brelse(from);
      assert cache.R() == r[slot := 1];
      cache.Brelse(to);
      assert cache.R() == r;
    }

    /** write_head: the header block gets the in-memory header over whatever it
        held. */
    method WriteHead()
      requires cache.Valid() && lay.Fits(cache.disk) && |lh| <= LOGSIZE
      requires cache.V()[lay.start] == cache.disk[lay.start] && cache.R()[lay.start] == 0
      requires DirtyReferenced(cache.bufs, cache.disk) && HasUnused(cache.bufs)
      modifies cache
      ensures cache.Valid()
      ensures var h := HeaderBlock(old(cache.disk)[lay.start], lh);
              && cache.disk == old(cache.disk)[lay.start := h]
              && cache.writes == old(cache.writes) + [Write(lay.start, h)]
              && cache.V() == old(cache.V())[lay.start := h]
      ensures cache.R() == old(cache.R())
    {
      var i := cache.Bread(lay.start);
      cache.Fill(i, HeaderBlock(cache.bufs[i].data, lh));
      cache.Bwrite(i);
      cache.Brelse(i);
    }

    /** One turn of install_trans' loop: slot `tail` of the on-disk log goes to
        its home block, whose buffer loses one reference. */
    method InstallSlot(tail: nat)
      requires cache.Valid() && lay.Fits(cache.disk) && tail < |lh| <= lay.size - 1
      requires lh[tail] < |cache.disk| && !lay.InLog(lh[tail])
      requires cache.R()[lay.start + 1 + tail] == 0
      requires DirtyReferenced(cache.bufs, cache.disk)
      requires |Busy(cache.R())| < if cache.R()[lh[tail]] != 0 then NBUF else NBUF - 1
      modifies cache
      ensures cache.Valid()
      ensures var x := old(cache.V())[lay.start + 1 + tail];
              && cache.disk == old(cache.disk)[lh[tail] := x]
              && cache.writes == old(cache.writes) + [Write(lh[tail], x)]
              && cache.V() == old(cache.V())[lh[tail] := x]
      ensures cache.R() == old(cache.R())[lh[tail] := Dec(old(cache.R())[lh[tail]])]
    {
      hide BufsOk, ListOk, Views, Refs, MovedToHead;
      var lb, hb := lay.start + 1 + tail, lh[tail];
      DecInc(cache.bufs, |cache.disk|, hb);
      ghost var r := cache.R();
      var lbuf, dbuf := ReadBoth(lb, hb);
      cache.Fill(dbuf, cache.bufs[lbuf].data);
      cache.Bwrite(dbuf);
      cache.Bunpin(dbuf);
      assert cache.R() == r[lb := 1];
      cache.Brelse(lbuf);
      assert cache.R() == r;
      cache.Brelse(dbuf);
    }

    /** write_log: every logged block goes to its slot, in header order. */
    method WriteLog()
      requires cache.Valid() && LhOk(lh, lay, |cache.disk|) && lay.Fits(cache.disk) && OutsideLog(held, lay)
      requires |InUse(lh, held)| < NBUF
      requires PinnedExactly(cache.V(), cache.R(), cache.disk, lh, held)
      modifies cache
      ensures cache.Valid() && PinnedExactly(cache.V(), cache.R(), cache.disk, lh, held)
      ensures var ws := LogWrites(lay, Contents(old(cache.V()), lh));
              && cache.disk == Apply(old(cache.disk), ws)
              && cache.writes == old(cache.writes) + ws
      ensures SameHome(cache.V(), old(cache.V()), lay)
    {
      hide BufsOk, ListOk, Views, Refs, Apply, PinnedExactly, InUse, OutsideLog;
      ghost var ws := LogWrites(lay, Contents(cache.V(), lh));
      ApplyNone(cache.disk, ws);
      var tail := 0;
      while tail < |lh|
        invariant 0 <= tail <= |lh|
        invariant cache.Valid() && |cache.disk| == |old(cache.disk)|
        invariant PinnedExactly(cache.V(), cache.R(), cache.disk, lh, held)
        invariant cache.disk == Apply(old(cache.disk), ws[..tail])
        invariant cache.writes == old(cache.writes) + ws[..tail]
        invariant SameHome(cache.V(), old(cache.V()), lay)
        invariant cache.disk[lay.start] == old(cache.disk)[lay.start]
      {
        ApplyNext(old(cache.disk), ws, tail);
        assert !lay.InLog(lh[tail]);
        WriteLogSlot(tail);
        tail := tail + 1;
      }
      assert ws[..tail] == ws;
    }

    /** install_trans: every slot goes home, in order, and each home block loses
        a reference. Commit has the blocks pinned; recovery starts with no
        buffer referenced. */
    method InstallTrans()
      requires cache.Valid() && lay.Fits(cache.disk) && |lh| <= lay.size - 1
      requires forall i :: 0 <= i < |lh| ==> lh[i] < |cache.disk| && !lay.InLog(lh[i])
      requires forall b: nat :: lay.InLog(b) ==> cache.R()[b] == 0
      requires DirtyReferenced(cache.bufs, cache.disk)
      requires PinnedExactly(cache.V(), cache.R(), cache.disk, lh, held) || Busy(cache.R()) == {}
      requires |InUse(lh, held)| < NBUF
      modifies cache
      ensures cache.Valid()
      ensures var ws := InstallWrites(Txn(lh, Slots(old(cache.V()), lay, |lh|)));
              && cache.disk == Apply(old(cache.disk), ws)
              && cache.writes == old(cache.writes) + ws
              && cache.V() == Apply(old(cache.V()), ws)
      ensures cache.R() == Released(old(cache.R()), lh)
      ensures DirtyReferenced(cache.bufs, cache.disk)
    {
      hide BufsOk, ListOk, Views, Refs, Apply, Released, PinnedExactly, LhOk, Busy, Elems, InUse, InstallWrites, Slots;
      ghost var d, v, r := cache.disk, cache.V(), cache.R();
      ghost var ws := InstallWrites(Txn(lh, Slots(v, lay, |lh|)));
      ApplyNone(d, ws);
      ApplyNone(v, ws);
      ReleasedNone(r, lh);
      var tail := 0;
      while tail < |lh|
        invariant 0 <= tail <= |lh|
        invariant cache.Valid() && |cache.disk| == |d| && lay.Fits(cache.disk)
        invariant cache.disk == Apply(d, ws[..tail])
        invariant cache.writes == old(cache.writes) + ws[..tail]
        invariant cache.V() == Apply(v, ws[..tail])
        invariant cache.R() == Released(r, lh[..tail])
        invariant DirtyReferenced(cache.bufs, cache.disk)
      {
        InstallRoom(d, v, r, lay, lh, held, tail);
        SlotKept(v, lay, lh, tail);
        ApplyNext(d, ws, tail);
        ApplyNext(v, ws, tail);
        ReleasedNext(r, lh, tail);
        assert ws[tail] == Write(lh[tail], v[lay.start + 1 + tail]) && ws[..tail + 1] == ws[..tail] + [ws[tail]];
        InstallSlot(tail);
        tail := tail + 1;
      }
      assert ws[..tail] == ws && lh[..tail] == lh;
    }

    /** commit: with nothing logged, nothing; else log, header, install, cleared
        header. The source enters it with `committing` set. */
    method Commit()
      requires cache.Valid() && LogOk(cache.disk, lay)
      requires LhOk(lh, lay, |cache.disk|) && PinnedExactly(cache.V(), cache.R(), cache.disk, lh, held)
      requires OutsideLog(held, lay) && (lh == [] || |InUse(lh, held)| < NBUF)
      modifies this`lh, cache
      ensures cache.Valid() && lh == []
      ensures var t := Txn(old(lh), Contents(old(cache.V()), old(lh)));
              && TxnOk(t, lay, |old(cache.disk)|)
              && cache.writes == old(cache.writes) + CommitWrites(old(cache.disk), lay, t)
              && cache.disk == Apply(old(cache.disk), CommitWrites(old(cache.disk), lay, t))
      ensures PinnedExactly(cache.V(), cache.R(), cache.disk, [], held)
    {
      hide BufsOk, ListOk, Views, Refs, Apply, Released, PinnedExactly, LoggedTxn, HeaderOk, InUse, OutsideLog;
      ghost var d, t := cache.disk, Txn(lh, Contents(cache.V(), lh));
      ApplyNone(d, []);
      if |lh| > 0 {
        CommitDisk(d, lay, t);
        WriteLog();
        WriteCommitHeader(d, t);
        InstallLogged(t);
        LessInUse(lh, held);
        lh := [];
        PinnedRoom(cache.bufs, cache.disk, lay, lh, held);
        PinnedPut(cache.V(), cache.R(), cache.disk, [], held, lay.start, HeaderBlock(cache.disk[lay.start], []));
        WriteHead();
      }
    }

    /** The header write that commits, after the log data was written to `d`. */
    method WriteCommitHeader(ghost d: Disk, ghost t: Txn)
      requires cache.Valid() && lay.Fits(d) && |d| == |cache.disk| && TxnOk(t, lay, |d|) && t.lh == lh
      requires LhOk(lh, lay, |cache.disk|) && PinnedExactly(cache.V(), cache.R(), cache.disk, lh, held)
      requires OutsideLog(held, lay) && |InUse(lh, held)| < NBUF && cache.disk == Apply(d, LogWrites(lay, t.data))
      modifies cache
      ensures cache.Valid() && PinnedExactly(cache.V(), cache.R(), cache.disk, lh, held)
      ensures cache.disk == AtHeader(d, lay, t)
      ensures cache.writes == old(cache.writes) + [Write(lay.start, HeaderBlock(d[lay.start], lh))]
    {
      hide BufsOk, ListOk, Views, Refs, Apply, PinnedExactly, LhOk, InUse, OutsideLog;
      LogPhase(d, lay, t, cache.disk);
      PinnedRoom(cache.bufs, cache.disk, lay, lh, held);
      PinnedPut(cache.V(), cache.R(), cache.disk, lh, held, lay.start, HeaderBlock(d[lay.start], lh));
      WriteHead();
    }

    /** The install that follows it. */
    method InstallLogged(ghost t: Txn)
      requires cache.Valid() && LogOk(cache.disk, lay) && LoggedTxn(cache.disk, lay) == t && t.lh == lh
      requires LhOk(lh, lay, |cache.disk|) && PinnedExactly(cache.V(), cache.R(), cache.disk, lh, held)
      requires OutsideLog(held, lay) && |InUse(lh, held)| < NBUF
      modifies cache
      ensures cache.Valid() && PinnedExactly(cache.V(), cache.R(), cache.disk, [], held)
      ensures cache.disk == Installed(old(cache.disk), lay, t)
      ensures cache.writes == old(cache.writes) + InstallWrites(t)
    {
      hide BufsOk, ListOk, Views, Refs, Apply, Released, PinnedExactly, InUse, OutsideLog;
      PinnedRoom(cache.bufs, cache.disk, lay, lh, held);
      assert Slots(cache.V(), lay, |lh|) == t.data;
      InstallPhase(cache.V(), cache.R(), cache.disk, lay, t, held);
      InstallTrans();
    }

    /** end_op: unless it is the last operation in progress, only the reservation
        goes. The last one commits everything logged since the log was last
        empty, after which the disk holds what readers see. Not `ok` is the panic
        of bget for want of a buffer, met before anything is written. */
    method EndOp(k: nat) returns (ok: bool)
      requires Valid() && k < |used|
      modifies this, cache
      ensures ok <==> |old(used)| > 1 || old(lh) == [] || |InUse(old(lh), old(held))| < NBUF
      ensures held == old(held)
      ensures ok ==> Valid() && used == old(used)[..k] + old(used)[k + 1..]
      ensures !ok || |old(used)| > 1 ==>
                lh == old(lh) && cache.V() == old(cache.V())
                && cache.disk == old(cache.disk) && cache.writes == old(cache.writes)
      ensures ok && |old(used)| == 1 ==>
                var t := Txn(old(lh), Contents(old(cache.V()), old(lh)));
                && lh == []
                && cache.writes == old(cache.writes) + CommitWrites(old(cache.disk), lay, t)
                && cache.V() == cache.disk && SameHome(cache.disk, old(cache.V()), lay)
    {
      hide BufsOk, ListOk, Views, Refs, Apply, SpaceInv, PinnedExactly, LhOk, LoggedTxn, HeaderOk, InUse, OutsideLog;
      ValidLh(lh, lay, |cache.disk|);
      SpaceStepInv(Space(|lh|, used), End(k), MAXOPBLOCKS);
      CommitNeedsABuffer(cache.bufs, cache.disk, lay, lh, held);
      cache.GetsIff(lay.start + 1);
      outstanding := outstanding - 1;
      used := used[..k] + used[k + 1..];
      if outstanding == 0 {
        committing := true;
        if |lh| > 0 && !cache.CanGet(lay.start + 1) {
          return false;
        }
        ghost var d, v, t := cache.disk, cache.V(), Txn(lh, Contents(cache.V(), lh));
        CommitInstallsView(d, v, cache.R(), lay, lh, held);
        Commit();
        NothingLogged(cache.V(), cache.R(), cache.disk, lay, held, Space(|lh|, used));
        committing := false;
      }
      ok := true;
    }
  }

  lemma OneHolder(bufs: seq<Buf>, d: Disk, i: nat, b: nat)
    requires BufsOk(bufs, |d|) && b < |d| && Holds(bufs, i, b)
    ensures Refs(bufs, |d|)[b] == bufs[i].refcnt
    ensures Views(bufs, d)[b] == if bufs[i].valid then bufs[i].data else d[b]
    ensures forall j: nat :: Holds(bufs, j, b) ==> j == i
  {
    Held(bufs, d, i, b);
  }

  lemma CachedIfDirty(bufs: seq<Buf>, d: Disk, b: nat)
    requires b < |d| && Views(bufs, d)[b] != d[b]
    ensures exists k: nat :: Holds(bufs, k, b)
  {
  }

  /** How many buffers are unreferenced. */
  ghost function Unused(bufs: seq<Buf>): (n: nat) {
    |set i: nat | i < |bufs| && bufs[i].refcnt == 0|
  }

  lemma UnusedLess(before: seq<Buf>, after: seq<Buf>, i: nat)
    requires i < |before| == |after| && after == before[i := after[i]] && before[i].refcnt == 0 && after[i].refcnt != 0
    ensures Unused(after) < Unused(before)
  {
    var s, t := set j: nat | j < |before| && before[j].refcnt == 0, set j: nat | j < |after| && after[j].refcnt == 0;
    assert s == t + {i} && i !in t;
  }

  /** Cached, as a search of the buffers finds it. */
  predicate InSome(bufs: seq<Buf>, b: nat) {
    exists i :: 0 <= i < |bufs| && bufs[i].dev == ROOTDEV && bufs[i].blockno == b
  }

  lemma InSomeIff(bufs: seq<Buf>, b: nat)
    ensures InSome(bufs, b) <==> Cached(bufs, b)
  {
    if InSome(bufs, b) {
      var i: nat :| i < |bufs| && bufs[i].dev == ROOTDEV && bufs[i].blockno == b;
      assert Holds(bufs, i, b);
    }
  }

  lemma OnceLogged(d: Disk, lay: Layout, b: nat, r: seq<nat>)
    requires LogOk(d, lay) && multiset(LoggedTxn(d, lay).lh)[b] == 1 && b < |r|
    requires Wrapped(r, LoggedTxn(d, lay).lh)
    ensures lay.size > 1 && r[b] == U32 - 1
  {
    assert b in multiset(LoggedTxn(d, lay).lh);
  }

  lemma ValidLh(lh: seq<nat>, lay: Layout, n: nat)
    requires LhOk(lh, lay, n)
    ensures forall i :: 0 <= i < |lh| ==> lh[i] < n
  {
  }

  /** With nothing logged, readers see the disk. */
  lemma NothingLogged(v: Disk, r: seq<nat>, d: Disk, lay: Layout, q: seq<nat>, s: Space)
    requires PinnedExactly(v, r, d, [], q) && lay.Fits(d) && s == Idle
    ensures v == d && LhOk([], lay, |d|) && SpaceInv(s, MAXOPBLOCKS)
  {
  }

  /** The whole commit makes the home blocks what readers saw. */
  lemma CommitInstallsView(d: Disk, v: Disk, r: seq<nat>, lay: Layout, lh: seq<nat>, q: seq<nat>)
    requires LogOk(d, lay) && LoggedTxn(d, lay) == Txn([], [])
    requires LhOk(lh, lay, |d|) && PinnedExactly(v, r, d, lh, q)
    ensures var e := Apply(d, CommitWrites(d, lay, Txn(lh, Contents(v, lh))));
            LogOk(e, lay) && LoggedTxn(e, lay) == Txn([], []) && SameHome(e, v, lay)
  {
    hide Apply;
    var t := Txn(lh, Contents(v, lh));
    CommitCompletes(d, lay, t);
    ViewInstalled(d, v, r, lay, lh, q);
  }

  lemma ViewInstalled(d: Disk, v: Disk, r: seq<nat>, lay: Layout, lh: seq<nat>, q: seq<nat>)
    requires LhOk(lh, lay, |d|) && PinnedExactly(v, r, d, lh, q)
    ensures SameHome(Installed(d, lay, Txn(lh, Contents(v, lh))), v, lay)
  {
    forall b: nat | b < |d|
      ensures Installed(d, lay, Txn(lh, Contents(v, lh)))[b] == v[b]
    {
      InstallsView(d, v, lay, lh, b);
    }
  }

  /** Group commit is atomic: lose power after any `m` of the block writes of an
      end_op, and recovery finds either everything readers saw when it began or
      what the disk held before, never a part of an operation. */
  lemma GroupCommitAtomic(d: Disk, v: Disk, r: seq<nat>, lay: Layout, lh: seq<nat>, q: seq<nat>, m: nat)
    requires LogOk(d, lay) && LoggedTxn(d, lay) == Txn([], [])
    requires LhOk(lh, lay, |d|) && PinnedExactly(v, r, d, lh, q)
    requires m <= |CommitWrites(d, lay, Txn(lh, Contents(v, lh)))|
    ensures var e := CommitPrefix(d, lay, Txn(lh, Contents(v, lh)), m);
            LogOk(e, lay) && SameHome(Recovered(e, lay), if m > |lh| then v else d, lay)
  {
    hide Apply;
    CommitAtomic(d, lay, Txn(lh, Contents(v, lh)), m);
    ViewInstalled(d, v, r, lay, lh, q);
  }

  /** Recovery's install leaves the header block, which is then cleared. */
  lemma ReplayDisk(d: Disk, lay: Layout)
    requires LogOk(d, lay)
    ensures var e := Apply(d, InstallWrites(LoggedTxn(d, lay)));
            && lay.Fits(e) && e[lay.start] == d[lay.start]
            && e[lay.start := HeaderBlock(d[lay.start], [])] == Recovered(d, lay)
  {
    hide Apply;
    var t := LoggedTxn(d, lay);
    assert InstallWrites(t)[..|t.lh|] == InstallWrites(t);
    InstallKeepsLog(d, lay, t, |t.lh|);
    var w := Write(lay.start, HeaderBlock(d[lay.start], []));
    ApplyConcat(d, InstallWrites(t), [w]);
    ApplyOne(Apply(d, InstallWrites(t)), w);
  }

  /** The count a block has after a replay of `lh` with nothing pinned. */
  ghost predicate Wrapped(r: seq<nat>, lh: seq<nat>) {
    forall b: nat :: b < |r| ==> r[b] == (U32 - multiset(lh)[b]) % U32
  }

  lemma ReplayRefs(r: seq<nat>, lay: Layout, lh: seq<nat>)
    requires forall b: nat :: b < |r| ==> r[b] == 0
    requires forall i :: 0 <= i < |lh| ==> lh[i] < |r| && !lay.InLog(lh[i])
    requires |Elems(lh)| < NBUF && |lh| <= LOGSIZE && lay.start < |r| && lay.size > 0
    ensures Wrapped(Released(r, lh), lh)
    ensures Released(r, lh)[lay.start] == 0
    ensures |Busy(Released(r, lh))| < NBUF
  {
    hide Released, Elems;
    var q := Released(r, lh);
    forall b: nat | b < |r|
      ensures q[b] == (U32 - multiset(lh)[b]) % U32
    {
      ReleasedUnpinned(r, lh, b);
    }
    forall b: nat | b < |r| && b !in lh
      ensures q[b] == 0
    {
      ReleasedOther(r, lh, b);
    }
    assert lay.start !in lh;
    SubsetSize(Busy(q), Elems(lh));
  }

  /** Counts are all zero after a replay only if nothing was replayed. */
  lemma ReplayUnbalances(v: Disk, r: seq<nat>, d: Disk, lh: seq<nat>, q: seq<nat>)
    requires q == seq(|d|, _ => 0) && |v| == |r| == |d| && v == d && |lh| <= LOGSIZE
    requires forall i :: 0 <= i < |lh| ==> lh[i] < |d|
    requires Wrapped(r, lh)
    ensures PinnedExactly(v, r, d, [], q) <==> lh == []
  {
    if lh != [] {
      var b := lh[0];
      ReleasedUnpinned(seq(|d|, _ => 0), lh, b);
      assert b in multiset(lh);
      assert r[b] != 0;
    }
  }

  /** The log data written: the header block is still the old one, and writing
      the new header over it commits. */
  lemma LogPhase(d: Disk, lay: Layout, t: Txn, e: Disk)
    requires lay.Fits(d) && TxnOk(t, lay, |d|) && e == Apply(d, LogWrites(lay, t.data))
    ensures lay.Fits(e) && e[lay.start] == d[lay.start]
    ensures e[lay.start := HeaderBlock(d[lay.start], t.lh)] == AtHeader(d, lay, t)
  {
    var lw := LogWrites(lay, t.data);
    var w := Write(lay.start, HeaderBlock(d[lay.start], t.lh));
    ApplyUntouched(d, lw, lay.start);
    ApplyConcat(d, lw, [w]);
    assert [w][..0] == [];
  }

  /** Exact pins leave the log region clean and unreferenced, and fewer pins
      than buffers leave an unused buffer. */
  lemma PinnedRoom(bufs: seq<Buf>, d: Disk, lay: Layout, lh: seq<nat>, q: seq<nat>)
    requires BufsOk(bufs, |d|) && PinnedExactly(Views(bufs, d), Refs(bufs, |d|), d, lh, q)
    requires LhOk(lh, lay, |d|) && lay.Fits(d) && OutsideLog(q, lay) && |InUse(lh, q)| < NBUF
    ensures DirtyReferenced(bufs, d) && HasUnused(bufs)
    ensures forall b: nat :: lay.InLog(b) ==> Refs(bufs, |d|)[b] == 0 && Views(bufs, d)[b] == d[b]
  {
    hide Views, Refs;
    BusyIsPins(Views(bufs, d), Refs(bufs, |d|), d, lh, q);
    UnusedLeft(bufs, d);
  }

  /** A block written through keeps the pins exact. */
  lemma PinnedPut(v: Disk, r: seq<nat>, d: Disk, pins: seq<nat>, q: seq<nat>, b: nat, x: Block)
    requires PinnedExactly(v, r, d, pins, q) && b < |d|
    ensures PinnedExactly(v[b := x], r, d[b := x], pins, q)
  {
  }

  /** Installing what is pinned leaves nothing pinned and nothing dirty. */
  lemma InstallPhase(v: Disk, r: seq<nat>, d: Disk, lay: Layout, t: Txn, q: seq<nat>)
    requires PinnedExactly(v, r, d, t.lh, q) && LhOk(t.lh, lay, |d|) && |t.data| == |t.lh|
    ensures PinnedExactly(Apply(v, InstallWrites(t)), Released(r, t.lh), Apply(d, InstallWrites(t)), [], q)
  {
    hide Apply, Released;
    var ws := InstallWrites(t);
    forall b: nat | b < |d|
      ensures Released(r, t.lh)[b] == q[b] && Apply(v, ws)[b] == Apply(d, ws)[b]
    {
      if b in t.lh {
        ReleasedPins(r, t.lh, b);
        var i :| 0 <= i < |t.lh| && t.lh[i] == b;
        assert ws[i].block == b;
        ApplyTouched(v, d, ws, b);
      } else {
        ReleasedOther(r, t.lh, b);
        assert !Touches(ws, b);
        ApplyUntouched(v, ws, b);
        ApplyUntouched(d, ws, b);
      }
    }
  }

  /** A whole commit, phase by phase. */
  lemma CommitDisk(d: Disk, lay: Layout, t: Txn)
    requires lay.Fits(d) && TxnOk(t, lay, |d|) && t.lh != []
    ensures var h := HeaderBlock(d[lay.start], t.lh);
            var e := Installed(AtHeader(d, lay, t), lay, t);
            && LogOk(AtHeader(d, lay, t), lay) && LoggedTxn(AtHeader(d, lay, t), lay) == t
            && lay.Fits(e) && e[lay.start] == h
            && e[lay.start := HeaderBlock(h, [])] == Apply(d, CommitWrites(d, lay, t))
  {
    hide Apply, LoggedTxn, AtHeader;
    var ws := CommitWrites(d, lay, t);
    var n := |t.lh|;
    var h := HeaderBlock(d[lay.start], t.lh);
    var w := Write(lay.start, HeaderBlock(h, []));
    HeaderCommits(d, lay, t);
    PrefixAfterHeader(d, lay, t, n);
    assert InstallWrites(t)[..n] == InstallWrites(t);
    InstallKeepsLog(AtHeader(d, lay, t), lay, t, n);
    LogPhase(d, lay, t, Apply(d, LogWrites(lay, t.data)));
    assert ws == ws[..2 * n + 1] + [w];
    ApplyConcat(d, ws[..2 * n + 1], [w]);
    ApplyOne(Apply(d, ws[..2 * n + 1]), w);
  }

  /** Installs leave the slots of the on-disk log alone. */
  lemma SlotKept(v: Disk, lay: Layout, lh: seq<nat>, tail: nat)
    requires lay.start + lay.size <= |v| && tail < |lh| <= lay.size - 1
    requires forall i :: 0 <= i < |lh| ==> !lay.InLog(lh[i])
    ensures var ws := InstallWrites(Txn(lh, Slots(v, lay, |lh|)));
            Apply(v, ws[..tail])[lay.start + 1 + tail] == v[lay.start + 1 + tail]
  {
    hide Apply;
    var ws := InstallWrites(Txn(lh, Slots(v, lay, |lh|)));
    var b := lay.start + 1 + tail;
    assert !Touches(ws[..tail], b) by {
      forall i | 0 <= i < tail
        ensures ws[..tail][i].block != b
      {
        assert !lay.InLog(lh[i]);
      }
    }
    ApplyUntouched(v, ws[..tail], b);
  }

  /** Before turn `tail` of install_trans no buffer shortage is possible. */
  lemma InstallRoom(d: Disk, v: Disk, r: seq<nat>, lay: Layout, lh: seq<nat>, q: seq<nat>, tail: nat)
    requires |d| == |v| == |r| && lay.Fits(d) && |lh| <= lay.size - 1 && tail < |lh| && |InUse(lh, q)| < NBUF
    requires forall i :: 0 <= i < |lh| ==> lh[i] < |d| && !lay.InLog(lh[i])
    requires forall b: nat :: lay.InLog(b) ==> r[b] == 0
    requires PinnedExactly(v, r, d, lh, q) || Busy(r) == {}
    ensures var p := Released(r, lh[..tail]);
            && p[lay.start + 1 + tail] == 0
            && |Busy(p)| < if p[lh[tail]] != 0 then NBUF else NBUF - 1
  {
    hide Released, Elems;
    ReleasedOther(r, lh[..tail], lay.start + 1 + tail);
    var p := Released(r, lh[..tail]);
    forall b: nat | b < |r| && b !in lh[..tail]
      ensures p[b] == r[b]
    {
      ReleasedOther(r, lh[..tail], b);
    }
    forall b | b in Busy(p)
      ensures b in InUse(lh, q)
    {
      if b !in lh {
        assert b !in lh[..tail] && r[b] != 0 && b in Busy(r);
        assert b in Busy(q);
      }
    }
    assert lh[tail] in InUse(lh, q);
    SubsetSize(Busy(p), InUse(lh, q));
    SubsetSize(Busy(p) + {lh[tail]}, InUse(lh, q));
    assert p[lh[tail]] == 0 ==> |Busy(p) + {lh[tail]}| == |Busy(p)| + 1;
  }

  /** Commit's first read of a log slot finds a buffer exactly when fewer blocks
      are logged or held by readers than there are buffers; a log filled to LOGSIZE
      starves it. */
  lemma CommitNeedsABuffer(bufs: seq<Buf>, d: Disk, lay: Layout, lh: seq<nat>, q: seq<nat>)
    requires BufsOk(bufs, |d|) && PinnedExactly(Views(bufs, d), Refs(bufs, |d|), d, lh, q)
    requires LhOk(lh, lay, |d|) && lay.Fits(d) && OutsideLog(q, lay)
    ensures Cached(bufs, lay.start + 1) || HasUnused(bufs) <==> |InUse(lh, q)| < NBUF
  {
    hide Views, Refs, BufsOk, Elems;
    if |InUse(lh, q)| < NBUF {
      PinnedRoom(bufs, d, lay, lh, q);
    } else {
      forall b | b in lh
        ensures b in Busy(Refs(bufs, |d|))
      {
      }
      SubsetSize(InUse(lh, q), Busy(Refs(bufs, |d|)));
      NoneLeft(bufs, d);
    }
  }

  lemma ZeroInUse(lh: seq<nat>, n: nat)
    ensures InUse(lh, seq(n, _ => 0)) == Elems(lh)
  {
  }

  /** Replaying NBUF different blocks starves itself: each replayed block keeps
      its buffer, so with all but one replayed and the last slot read there is
      none for the last home block. Fewer never do (InstallRoom). */
  lemma ReplayStarves(bufs: seq<Buf>, d: Disk, lay: Layout, lh: seq<nat>)
    requires lay.Fits(d) && |lh| == NBUF <= lay.size - 1 && LhOk(lh, lay, |d|)
    requires BufsOk(bufs, |d|)
    requires Refs(bufs, |d|) == Released(seq(|d|, _ => 0), lh[..NBUF - 1])[lay.start + NBUF := 1]
    ensures !HasUnused(bufs) && !Cached(bufs, lh[NBUF - 1])
  {
    hide Released, Elems, Refs, BufsOk, Busy;
    AllReferenced(|d|, lay, lh);
    NoneLeft(bufs, d);
  }

  lemma AllReferenced(n: nat, lay: Layout, lh: seq<nat>)
    requires lay.start + lay.size <= n && |lh| == NBUF <= lay.size - 1 && LhOk(lh, lay, n)
    ensures var q := Released(seq(n, _ => 0), lh[..NBUF - 1])[lay.start + NBUF := 1];
            |Busy(q)| >= NBUF && lh[NBUF - 1] !in Busy(q)
  {
    hide Released, Elems;
    var r: seq<nat>, m, slot := seq(n, _ => 0), NBUF - 1, lay.start + NBUF;
    var q := Released(r, lh[..m]);
    forall b | b in lh[..m]
      ensures q[b] != 0
    {
      ReleasedUnpinned(r, lh[..m], b);
      assert b in multiset(lh[..m]);
    }
    ReleasedOther(r, lh[..m], lh[m]);
    assert lay.InLog(slot);
    assert slot !in lh;
    DistinctElems(lh[..m]);
    assert slot !in Elems(lh[..m]);
    SubsetSize(Elems(lh[..m]) + {slot}, Busy(q[slot := 1]));
  }

  // ---- Which logs are safe ----

  /** A commit is about to start, operations having logged at most `b` new blocks
      each and readers holding at most `r` blocks besides those logged. */
  ghost predicate AtCommit(es: seq<SpaceEvent>, lh: seq<nat>, q: seq<nat>, lay: Layout, b: nat, r: nat) {
    && BeforeCommit(es, b) && |lh| == SpaceRun(Idle, es, b).n
    && LhOk(lh, lay, |q|) && OutsideLog(q, lay) && |Busy(q) - Elems(lh)| <= r
  }

  /** Every commit that has something to write finds its buffer (see EndOp). */
  ghost predicate CommitsFit(lay: Layout, b: nat, r: nat) {
    forall es, lh, q :: AtCommit(es, lh, q, lay, b, r) ==> lh == [] || |InUse(lh, q)| < NBUF
  }

  lemma InUseSize(lh: seq<nat>, q: seq<nat>)
    requires forall i, j :: 0 <= i < j < |lh| ==> lh[i] != lh[j]
    ensures |InUse(lh, q)| == |lh| + |Busy(q) - Elems(lh)|
  {
    DistinctElems(lh);
    assert InUse(lh, q) == Elems(lh) + (Busy(q) - Elems(lh));
  }

  /** `k` blocks from `lo` on. */
  function Consecutive(lo: nat, k: nat): (s: seq<nat>)
    ensures |s| == k && forall i :: 0 <= i < k ==> s[i] == lo + i
  {
    seq(k, i requires 0 <= i => lo + i)
  }

  /** Readers of the `k` blocks from `lo` on, one each, and of no others. */
  function ReadersOf(lo: nat, k: nat): (q: seq<nat>)
    ensures |q| == lo + k && forall x: nat :: x < lo + k ==> q[x] == if x < lo then 0 else 1
  {
    seq(lo + k, x => if x < lo then 0 else 1)
  }

  lemma OthersRead(lo: nat, m: nat, r: nat)
    ensures |Busy(ReadersOf(lo + m, r)) - Elems(Consecutive(lo, m))| == r
    ensures |InUse(Consecutive(lo, m), ReadersOf(lo + m, r))| == m + r
  {
    hide Elems, Consecutive, ReadersOf;
    var lh, q, rs := Consecutive(lo, m), ReadersOf(lo + m, r), Consecutive(lo + m, r);
    forall x: nat
      ensures x in Elems(rs) <==> lo + m <= x < lo + m + r
    {
      if lo + m <= x < lo + m + r {
        assert rs[x - lo - m] == x;
      }
    }
    assert Busy(q) - Elems(lh) == Elems(rs);
    DistinctElems(rs);
    InUseSize(lh, q);
  }

  /** On a log that takes all the blocks, operations and readers can use this many
      buffers at a commit. */
  lemma FullCommit(lay: Layout, b: nat, r: nat) returns (es: seq<SpaceEvent>, lh: seq<nat>, q: seq<nat>)
    requires 0 < b <= MAXOPBLOCKS && lay.size > Most(b)
    ensures AtCommit(es, lh, q, lay, b, r) && lh != [] && |InUse(lh, q)| == Most(b) + r
  {
    hide Elems, InUse, Busy, IsSpaceRun, SpaceRun, BeforeCommit, Consecutive, ReadersOf;
    var m, lo := Most(b), lay.start + lay.size;
    es := MostCommitted(b);
    lh := Consecutive(lo, m);
    q := ReadersOf(lo + m, r);
    OthersRead(lo, m, r);
  }

  lemma CommitsFitIff(lay: Layout, b: nat, r: nat)
    requires b <= MAXOPBLOCKS && (b == 0 || lay.size > Most(b))
    ensures CommitsFit(lay, b, r) <==> b == 0 || Most(b) + r < NBUF
  {
    hide Elems;
    if b == 0 || Most(b) + r < NBUF {
      forall es, lh, q | AtCommit(es, lh, q, lay, b, r)
        ensures lh == [] || |InUse(lh, q)| < NBUF
      {
        NeverOverflows(Idle, es, b);
        InUseSize(lh, q);
      }
    } else {
      var es, lh, q := FullCommit(lay, b, r);
    }
  }

  /** Operations of at most `b` new blocks each, beside readers of at most `r` other
      blocks, meet neither log_write's panic nor a commit without a buffer exactly
      on these logs. On a log of LOGSIZE blocks, as mkfs makes it, a block logged
      per operation costs two readers. */
  lemma SafeLogs(lay: Layout, b: nat, r: nat)
    requires b <= MAXOPBLOCKS
    ensures PanicFree(lay.size, b) && CommitsFit(lay, b, r)
            <==> b == 0 || (lay.size >= Most(b) + 2 && Most(b) + r < NBUF)
    ensures lay.size == LOGSIZE && b > 0 ==>
              (PanicFree(lay.size, b) && CommitsFit(lay, b, r) <==> 2 * b + r < 2 * MAXOPBLOCKS)
  {
    PanicFreeIff(lay.size, b);
    if b == 0 || lay.size >= Most(b) + 2 {
      CommitsFitIff(lay, b, r);
    }
  }

  /** Operations that stay one block below their reservation are safe from
      log_write's panic on a log of LOGSIZE blocks, but two readers starve their
      commit. */
  lemma TwoReaders(lay: Layout) returns (es: seq<SpaceEvent>, lh: seq<nat>, q: seq<nat>)
    requires lay.size == LOGSIZE
    ensures PanicFree(lay.size, MAXOPBLOCKS - 1)
    ensures AtCommit(es, lh, q, lay, MAXOPBLOCKS - 1, 2) && lh != [] && |InUse(lh, q)| == NBUF
  {
    PanicFreeIff(lay.size, MAXOPBLOCKS - 1);
    es, lh, q := FullCommit(lay, MAXOPBLOCKS - 1, 2);
  }

  /** No log is large enough for operations that use all they reserve: on one
      that takes every new block, a commit finds no buffer even without readers. */
  lemma NoLogLargeEnough(lay: Layout)
    ensures !(NewPanicFree(lay.size, MAXOPBLOCKS) && CommitsFit(lay, MAXOPBLOCKS, 0))
  {
    NewPanicFreeIff(lay.size, MAXOPBLOCKS);
    if lay.size > Most(MAXOPBLOCKS) {
      CommitsFitIff(lay, MAXOPBLOCKS, 0);
    }
  }

  // ---- A change lost after a replay ----

  /** A crash once the header of a commit of one block is written leaves a disk that
      LostUpdate starts from. */
  lemma OneBlockLog(d: Disk, lay: Layout, b: nat, y: Block)
    requires lay.Fits(d) && TxnOk(Txn([b], [y]), lay, |d|)
    ensures var e := AtHeader(d, lay, Txn([b], [y]));
            && LogOk(e, lay) && LoggedTxn(e, lay).lh == [b] && |e| == |d|
            && |Elems([b])| < NBUF && multiset([b])[b] == 1 && Recovered(e, lay)[b] == y
  {
    var t := Txn([b], [y]);
    HeaderCommits(d, lay, t);
    RecoverIsInstall(AtHeader(d, lay, t), lay);
  }

  /** On every disk whose log names block `b` exactly once, and for every change to
      its contents: initlog replays, an operation logs the change, readers take
      other blocks, and the next reader of `b` is given the contents from
      before the change, although the log still lists it. */
  method LostUpdate(d: Disk, lay: Layout, b: nat, x: Block) returns (log: Log, i: nat)
    requires LogOk(d, lay) && |Elems(LoggedTxn(d, lay).lh)| < NBUF < |d|
    requires multiset(LoggedTxn(d, lay).lh)[b] == 1 && b < |d| && x != Recovered(d, lay)[b]
    ensures log.lh == [b] && log.outstanding == 1 && log.cache.Valid()
    ensures log.cache.disk == Recovered(d, lay) && Holds(log.cache.bufs, i, b) && log.cache.bufs[i].valid
    ensures log.cache.bufs[i].data == log.cache.disk[b] != x
  {
    hide BufsOk, ListOk, Views, Refs, RecoverWrites, Elems, Recovered, PinnedExactly, LhOk, LogOk, Wrapped,
         HasUnused, Newest, Oldest;
    var cache := new Cache(d);
    log := new Log(cache, lay);
    OnceLogged(d, lay, b, cache.R());
    var admitted := log.BeginOp();
    log.ModifyReplayed(b, x);
    var k := log.FindBuffer(b);
    log.ReadOthers(b, k);
    var c := log.PickUncached();
    i := log.LoseReplayed(b, c, k);
  }
}
