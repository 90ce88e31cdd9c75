/** A write to a file through the log: the blocks writei logs are what a commit
    installs, so power lost anywhere in it leaves the whole write or nothing. */
module CrashSafeWrites {
  import opened Basics
  import L = LogProtocol
  import R = RedoLog
  import opened InodeBlocks
  import opened FileContents
  import opened Truncation
  import opened FileSystem

  /** Where on the disk log, inode blocks and bitmap blocks are; data blocks are
      where their numbers say. */
  datatype Format = Format(lay: L.Layout, inode0: nat, ni: nat, bitmap0: nat, nb: nat)

  ghost predicate FormatOk(f: Format, v: Vol, n: nat) {
    && f.lay.start + f.lay.size <= v.meta && f.inode0 + f.ni <= v.meta && f.bitmap0 + f.nb <= v.meta
    && (f.inode0 + f.ni <= f.lay.start || f.lay.start + f.lay.size <= f.inode0)
    && (f.bitmap0 + f.nb <= f.lay.start || f.lay.start + f.lay.size <= f.bitmap0)
    && (f.bitmap0 + f.nb <= f.inode0 || f.inode0 + f.ni <= f.bitmap0)
    && v.meta <= v.Size() <= n && v.Size() <= f.nb * BPB && |v.inodes| <= f.ni * IPB
  }

  function Loc(f: Format, id: LogId): (b: nat) {
    match id
    case BitmapBlock(n) => f.bitmap0 + n
    case InodeBlock(n) => f.inode0 + n
    case DataBlock(b) => b
  }

  // ---- What a block holds ----

  /** Size and addresses of an inode, one after the other. */
  const FIELDS: nat := NDIRECT + 2

  function Field(inodes: seq<Inode>, j: nat, q: nat): (x: int) {
    if j >= |inodes| then 0
    else if q == 0 then inodes[j].size
    else if q <= |inodes[j].addrs| then inodes[j].addrs[q - 1]
    else 0
  }

  function Bit(bitmap: seq<bool>, b: nat): (x: int) {
    if b < |bitmap| && bitmap[b] then 1 else 0
  }

  ghost function Enc(v: Vol, id: LogId): (x: L.Block) {
    match id
    case BitmapBlock(n) => L.Block(seq(BPB, k requires 0 <= k < BPB => Bit(v.bitmap, n * BPB + k)))
    case InodeBlock(n) =>
      L.Block(seq(IPB * FIELDS, k requires 0 <= k < IPB * FIELDS => Field(v.inodes, n * IPB + k / FIELDS, k % FIELDS)))
    case DataBlock(b) => L.Block(if b < |v.data| then v.data[b] else [])
  }

  /** The disk holds the volume. */
  ghost predicate Image(f: Format, d: L.Disk, v: Vol) {
    FormatOk(f, v, |d|) && forall id :: InVol(v, id) && Loc(f, id) < |d| ==> d[Loc(f, id)] == Enc(v, id)
  }

  lemma LocHome(f: Format, v: Vol, n: nat, id: LogId)
    requires FormatOk(f, v, n) && InVol(v, id)
    ensures Loc(f, id) < n && !f.lay.InLog(Loc(f, id))
  {
    match id
    case BitmapBlock(k) => assert k < f.nb;
    case InodeBlock(k) => assert k < f.ni;
    case DataBlock(_) =>
  }

  lemma LocDistinct(f: Format, v: Vol, n: nat, id: LogId, jd: LogId)
    requires FormatOk(f, v, n) && InVol(v, id) && InVol(v, jd) && Loc(f, id) == Loc(f, jd)
    ensures id == jd
  {
    assert id.BitmapBlock? ==> id.n < f.nb;
    assert id.InodeBlock? ==> id.n < f.ni;
    assert jd.BitmapBlock? ==> jd.n < f.nb;
    assert jd.InodeBlock? ==> jd.n < f.ni;
  }

  /** Volumes of one shape on one disk are the same: bitmap, inodes and data. */
  lemma ImageUnique(f: Format, d: L.Disk, v: Vol, w: Vol)
    requires Image(f, d, v) && Image(f, d, w) && VolOk(v) && VolOk(w)
    requires v.meta == w.meta && v.Size() == w.Size() && |v.inodes| == |w.inodes|
    ensures v.bitmap == w.bitmap && v.inodes == w.inodes
    ensures forall b :: v.meta <= b < v.Size() ==> v.data[b] == w.data[b]
  {
    hide Enc, FormatOk;
    forall id | InVol(v, id)
      ensures Enc(v, id) == Enc(w, id)
    {
      LocHome(f, v, |d|, id);
    }
    forall b | 0 <= b < |v.bitmap|
      ensures v.bitmap[b] == w.bitmap[b]
    {
      BitBack(v, w, b);
    }
    forall j | 0 <= j < |v.inodes|
      ensures v.inodes[j] == w.inodes[j]
    {
      InodeBack(v, w, j);
    }
    forall b | v.meta <= b < v.Size()
      ensures v.data[b] == w.data[b]
    {
      assert InVol(v, DataBlock(b));
      DataBack(v, w, b);
    }
  }

  lemma DataBack(v: Vol, w: Vol, b: nat)
    requires b < |v.data| && b < |w.data| && Enc(v, DataBlock(b)) == Enc(w, DataBlock(b))
    ensures v.data[b] == w.data[b]
  {
  }

  lemma BitBack(v: Vol, w: Vol, b: nat)
    requires |v.bitmap| == |w.bitmap| && b < |v.bitmap|
    requires InVol(v, BitmapBlock(b / BPB)) ==> Enc(v, BitmapBlock(b / BPB)) == Enc(w, BitmapBlock(b / BPB))
    ensures v.bitmap[b] == w.bitmap[b]
  {
    var n, k := b / BPB, b % BPB;
    assert b == n * BPB + k && InVol(v, BitmapBlock(n));
    assert Enc(v, BitmapBlock(n)).words[k] == Bit(v.bitmap, b);
    assert Enc(w, BitmapBlock(n)).words[k] == Bit(w.bitmap, b);
  }

  lemma FieldAt(v: Vol, j: nat, q: nat)
    requires q < FIELDS
    ensures var k := j % IPB * FIELDS + q;
            k < IPB * FIELDS && |Enc(v, InodeBlock(j / IPB)).words| == IPB * FIELDS
            && Enc(v, InodeBlock(j / IPB)).words[k] == Field(v.inodes, j, q)
  {
    var k := j % IPB * FIELDS + q;
    assert k / FIELDS == j % IPB && k % FIELDS == q;
    assert j / IPB * IPB + j % IPB == j;
  }

  lemma InodeBack(v: Vol, w: Vol, j: nat)
    requires VolOk(v) && VolOk(w) && |v.inodes| == |w.inodes| && j < |v.inodes|
    requires InVol(v, InodeBlock(j / IPB)) ==> Enc(v, InodeBlock(j / IPB)) == Enc(w, InodeBlock(j / IPB))
    ensures v.inodes[j] == w.inodes[j]
  {
    assert j / IPB * IPB <= j;
    hide Enc;
    forall q: nat | q < FIELDS
      ensures Field(v.inodes, j, q) == Field(w.inodes, j, q)
    {
      FieldAt(v, j, q);
      FieldAt(w, j, q);
    }
    assert InodeOk(v, v.inodes[j]) && InodeOk(w, w.inodes[j]);
    assert Field(v.inodes, j, 0) == v.inodes[j].size;
    forall k | 0 <= k <= NDIRECT
      ensures v.inodes[j].addrs[k] == w.inodes[j].addrs[k]
    {
      assert Field(v.inodes, j, k + 1) == v.inodes[j].addrs[k];
      assert Field(w.inodes, j, k + 1) == w.inodes[j].addrs[k];
    }
  }

  // ---- What readers see after the writes ----

  /** The blocks of `order`, as volume `w` has them, over the disk. */
  ghost function Viewed(f: Format, d: L.Disk, w: Vol, order: seq<LogId>): (e: L.Disk)
    ensures |e| == |d|
  {
    if order == [] then d
    else
      var e := Viewed(f, d, w, order[..|order| - 1]);
      var id := order[|order| - 1];
      if Loc(f, id) < |e| then e[Loc(f, id) := Enc(w, id)] else e
  }

  lemma {:induction false} ViewedAt(f: Format, d: L.Disk, w: Vol, order: seq<LogId>, id: LogId)
    requires FormatOk(f, w, |d|) && InVol(w, id) && forall jd :: jd in order ==> InVol(w, jd)
    ensures Loc(f, id) < |d| && Viewed(f, d, w, order)[Loc(f, id)] == if id in order then Enc(w, id) else d[Loc(f, id)]
    decreases |order|
  {
    hide Enc, FormatOk;
    LocHome(f, w, |d|, id);
    if order != [] {
      var m := |order| - 1;
      ViewedAt(f, d, w, order[..m], id);
      assert order == order[..m] + [order[m]];
      if Loc(f, order[m]) == Loc(f, id) {
        LocDistinct(f, w, |d|, id, order[m]);
      }
    }
  }

  lemma {:induction false} ViewedElsewhere(f: Format, d: L.Disk, w: Vol, order: seq<LogId>, b: nat)
    requires b < |d| && b !in Locs(f, order)
    ensures Viewed(f, d, w, order)[b] == d[b]
    decreases |order|
  {
    if order != [] {
      var m := |order| - 1;
      assert Locs(f, order)[m] == Loc(f, order[m]);
      assert Locs(f, order)[..m] == Locs(f, order[..m]);
      ViewedElsewhere(f, d, w, order[..m], b);
    }
  }

  ghost function Locs(f: Format, order: seq<LogId>): (lh: seq<nat>)
    ensures |lh| == |order| && forall k :: 0 <= k < |order| ==> lh[k] == Loc(f, order[k])
  {
    seq(|order|, k requires 0 <= k < |order| => Loc(f, order[k]))
  }

  ghost function Ids(order: seq<LogId>): (s: set<LogId>)
    ensures forall id :: id in s <==> id in order
  {
    set k | 0 <= k < |order| :: order[k]
  }

  /** From volume `v` to `w` every bit, block and inode that differs is logged, and
      nothing but blocks of the volume. */
  ghost predicate Changed(v: Vol, w: Vol, h: set<LogId>) {
    && (forall id :: id in h ==> InVol(w, id))
    && w.meta == v.meta && |w.bitmap| == |v.bitmap| && |w.data| == |v.data| && |w.inodes| == |v.inodes|
    && (forall b :: 0 <= b < |v.bitmap| && w.bitmap[b] != v.bitmap[b] ==> BitmapBlock(b / BPB) in h)
    && (forall b :: 0 <= b < |v.data| && w.data[b] != v.data[b] ==> DataBlock(b) in h)
    && (forall j :: 0 <= j < |v.inodes| && w.inodes[j] != v.inodes[j] ==> InodeBlock(j / IPB) in h)
  }

  lemma NothingChanged(v: Vol)
    ensures Changed(v, v, {})
  {
  }

  /** One write more, to any file, in the same transaction. */
  lemma ChangedMore(v: Vol, u: Vol, h: set<LogId>, w: Vol, k: set<LogId>, i: nat)
    requires Changed(v, u, h) && AllCovered(u, h, w, k, i)
    ensures Changed(v, w, k)
  {
    forall id | id in k
      ensures InVol(w, id)
    {
      assert id in h ==> InVol(u, id);
    }
  }

  /** A block not logged holds the same before and after. */
  lemma EncSame(v: Vol, w: Vol, h: set<LogId>, id: LogId)
    requires Changed(v, w, h) && id !in h
    ensures Enc(w, id) == Enc(v, id)
  {
    match id
    case BitmapBlock(n) =>
      forall k | 0 <= k < BPB
        ensures Enc(w, id).words[k] == Enc(v, id).words[k]
      {
        var b := n * BPB + k;
        assert b / BPB == n;
        assert b < |v.bitmap| ==> w.bitmap[b] == v.bitmap[b];
        assert Enc(w, id).words[k] == Bit(w.bitmap, b) && Enc(v, id).words[k] == Bit(v.bitmap, b);
      }
      assert Enc(w, id).words == Enc(v, id).words;
    case InodeBlock(n) =>
      forall k | 0 <= k < IPB * FIELDS
        ensures Enc(w, id).words[k] == Enc(v, id).words[k]
      {
        var j := n * IPB + k / FIELDS;
        assert j / IPB == n;
        assert j < |v.inodes| ==> w.inodes[j] == v.inodes[j];
      }
      assert Enc(w, id).words == Enc(v, id).words;
    case DataBlock(b) =>
  }

  /** Logged block by block, the disk of `v` becomes to its readers that of `w`. */
  lemma ViewImage(f: Format, d: L.Disk, v: Vol, w: Vol, order: seq<LogId>)
    requires Image(f, d, v) && Changed(v, w, Ids(order))
    ensures Image(f, Viewed(f, d, w, order), w)
  {
    hide Enc, Viewed;
    var e := Viewed(f, d, w, order);
    forall id | InVol(w, id)
      ensures e[Loc(f, id)] == Enc(w, id)
    {
      ViewedAt(f, d, w, order, id);
      if id !in order {
        EncSame(v, w, Ids(order), id);
        assert InVol(v, id);
      }
    }
  }

  /** What is on the home blocks decides which volume it is. */
  lemma ImageHome(f: Format, d: L.Disk, e: L.Disk, v: Vol)
    requires Image(f, d, v) && L.SameHome(e, d, f.lay)
    ensures Image(f, e, v)
  {
    hide Enc;
    forall id | InVol(v, id)
      ensures e[Loc(f, id)] == Enc(v, id)
    {
      LocHome(f, v, |d|, id);
    }
  }

  /** The transaction end_op commits for a write that logged `order`. */
  ghost function WriteTxn(f: Format, d: L.Disk, w: Vol, order: seq<LogId>): (t: L.Txn)
    requires FormatOk(f, w, |d|) && forall id :: id in order ==> InVol(w, id)
  {
    LocsHome(f, w, |d|, order);
    L.Txn(Locs(f, order), R.Contents(Viewed(f, d, w, order), Locs(f, order)))
  }

  lemma LocsHome(f: Format, w: Vol, n: nat, order: seq<LogId>)
    requires FormatOk(f, w, n) && forall id :: id in order ==> InVol(w, id)
    ensures forall k :: 0 <= k < |order| ==> Locs(f, order)[k] < n && !f.lay.InLog(Locs(f, order)[k])
  {
    forall k | 0 <= k < |order|
      ensures Locs(f, order)[k] < n && !f.lay.InLog(Locs(f, order)[k])
    {
      LocHome(f, w, n, order[k]);
    }
  }

  lemma LocsDistinct(f: Format, w: Vol, n: nat, order: seq<LogId>)
    requires FormatOk(f, w, n) && (forall id :: id in order ==> InVol(w, id))
    requires forall j, k :: 0 <= j < k < |order| ==> order[j] != order[k]
    ensures forall j, k :: 0 <= j < k < |order| ==> Locs(f, order)[j] != Locs(f, order)[k]
  {
    forall j, k | 0 <= j < k < |order|
      ensures Locs(f, order)[j] != Locs(f, order)[k]
    {
      if Loc(f, order[j]) == Loc(f, order[k]) {
        LocDistinct(f, w, n, order[j], order[k]);
      }
    }
  }

  /** The changes from `v` to `w` committed over disk `d`, and power lost after `m` of
      the block writes: after recovery the disk holds `w` if the header was
      written and `v` otherwise. */
  ghost predicate WholeOrNothing(f: Format, d: L.Disk, v: Vol, w: Vol, order: seq<LogId>, m: nat) {
    && FormatOk(f, w, |d|) && (forall id :: id in order ==> InVol(w, id))
    && var t := WriteTxn(f, d, w, order);
       && L.TxnOk(t, f.lay, |d|) && L.LogOk(d, f.lay) && m <= |L.CommitWrites(d, f.lay, t)|
       && var e := L.CommitPrefix(d, f.lay, t, m);
          L.LogOk(e, f.lay) && Image(f, L.Recovered(e, f.lay), if m > |order| then w else v)
  }

  /** A place in the commit of this many blocks. */
  predicate InCommit(n: nat, m: nat) { m <= 2 * n + 2 && (n == 0 ==> m == 0) }

  /** The disk holds the volume, and its log is empty. */
  ghost predicate AtRest(f: Format, d: L.Disk, v: Vol) {
    Image(f, d, v) && L.LogOk(d, f.lay) && L.LoggedTxn(d, f.lay) == L.Txn([], [])
  }

  /** The log's view of it: these blocks are pinned, and differ from the disk. */
  lemma Pinned(f: Format, d: L.Disk, w: Vol, order: seq<LogId>) returns (r: seq<nat>, q: seq<nat>)
    requires FormatOk(f, w, |d|) && (forall id :: id in order ==> InVol(w, id))
    requires |order| <= L.LOGSIZE && |order| <= f.lay.size - 1
    requires forall j, k :: 0 <= j < k < |order| ==> order[j] != order[k]
    ensures R.LhOk(Locs(f, order), f.lay, |d|)
    ensures R.PinnedExactly(Viewed(f, d, w, order), r, d, Locs(f, order), q)
  {
    hide Enc, Viewed, FormatOk;
    var lh, e := Locs(f, order), Viewed(f, d, w, order);
    LocsHome(f, w, |d|, order);
    LocsDistinct(f, w, |d|, order);
    q := seq(|d|, _ => 0);
    r := seq(|d|, b requires 0 <= b < |d| => if b in lh then 1 else 0);
    forall b: nat | b < |d| && b !in lh
      ensures e[b] == d[b]
    {
      ViewedElsewhere(f, d, w, order, b);
    }
  }

  /** However many writes to however many files one transaction has. */
  lemma WriteAtomic(f: Format, d: L.Disk, v: Vol, w: Vol, order: seq<LogId>, m: nat)
    requires AtRest(f, d, v) && Changed(v, w, Ids(order))
    requires |order| <= L.LOGSIZE && |order| <= f.lay.size - 1 && InCommit(|order|, m)
    requires forall j, k :: 0 <= j < k < |order| ==> order[j] != order[k]
    ensures WholeOrNothing(f, d, v, w, order, m)
  {
    hide Enc, Viewed, Image, FormatOk, Changed, R.PinnedExactly, L.Apply, L.LoggedTxn, L.HeaderOk, L.Recovered,
         L.CommitPrefix;
    SameFormat(f, d, v, w, order);
    var lh, e := Locs(f, order), Viewed(f, d, w, order);
    var r, q := Pinned(f, d, w, order);
    var t := WriteTxn(f, d, w, order);
    R.GroupCommitAtomic(d, e, r, f.lay, lh, q, m);
    ViewImage(f, d, v, w, order);
    var c := L.Recovered(L.CommitPrefix(d, f.lay, t, m), f.lay);
    if m > |lh| {
      ImageHome(f, e, c, w);
    } else {
      ImageHome(f, d, c, v);
    }
  }

  lemma SameFormat(f: Format, d: L.Disk, v: Vol, w: Vol, order: seq<LogId>)
    requires Image(f, d, v) && Changed(v, w, Ids(order))
    ensures FormatOk(f, w, |d|) && forall id :: id in order ==> InVol(w, id)
  {
  }

  /** A chunk of filewrite is crash-atomic, and always fits the log. */
  lemma ChunkAtomic(f: Format, d: L.Disk, v: Vol, w: Vol, order: seq<LogId>, i: nat, off: nat, n: nat, m: nat)
    requires AtRest(f, d, v) && Good(v) && Good(w) && n <= CHUNK && v.Size() <= BPB && f.lay.size >= 8
    requires AllCovered(v, {}, w, Ids(order), i) && WriteLogs(w, {}, Ids(order), i, off, n)
    requires forall j, k :: 0 <= j < k < |order| ==> order[j] != order[k]
    requires InCommit(|order|, m)
    ensures |order| <= 7 && WholeOrNothing(f, d, v, w, order, m)
  {
    hide AtRest, WriteLogs, Good, AllCovered, Changed, WholeOrNothing;
    SizeKept(v, w, order, i);
    ChunkFits(w, Ids(order), i, off, n);
    DistinctIds(order);
    NothingChanged(v);
    ChangedMore(v, v, {}, w, Ids(order), i);
    WriteAtomic(f, d, v, w, order, m);
  }

  lemma SizeKept(v: Vol, w: Vol, order: seq<LogId>, i: nat)
    requires AllCovered(v, {}, w, Ids(order), i) && Good(w)
    ensures w.Size() == v.Size() && VolOk(w)
  {
  }

  // ---- Writes made, and power lost ----

  /** Bytes to write into a file, or the file to be emptied. */
  datatype Request = Write(i: nat, off: nat, src: seq<int>) | Truncate(i: nat)

  /** What file `j`, with contents `c`, comes to by these requests. */
  ghost function AllSpliced(c: seq<int>, ws: seq<Request>, j: nat): (r: seq<int>) {
    if ws == [] then c
    else
      var p, w := AllSpliced(c, ws[..|ws| - 1], j), ws[|ws| - 1];
      if w.i != j then p
      else if w.Truncate? then []
      else if w.off <= |p| then Spliced(p, w.off, w.src)
      else p
  }

  /** Every file has what the first `n` requests make of it. */
  ghost predicate AfterWrites(v: Vol, w: Vol, ws: seq<Request>, n: nat)
    requires n <= |ws|
  {
    && Good(v) && Good(w) && |w.inodes| == |v.inodes|
    && forall j :: 0 <= j < |v.inodes| ==> Contents(w, j) == AllSpliced(Contents(v, j), ws[..n], j)
  }

  lemma WroteNone(v: Vol, ws: seq<Request>)
    requires Good(v)
    ensures AfterWrites(v, v, ws, 0)
  {
  }

  lemma WroteMore(v: Vol, u: Vol, w: Vol, ws: seq<Request>, n: nat)
    requires n < |ws| && AfterWrites(v, u, ws, n) && Good(w) && |w.inodes| == |v.inodes|
    requires ws[n].Write? && ws[n].i < |v.inodes| && ws[n].off <= u.inodes[ws[n].i].size
    requires Contents(w, ws[n].i) == Spliced(Contents(u, ws[n].i), ws[n].off, ws[n].src)
    requires forall j :: 0 <= j < |v.inodes| && j != ws[n].i ==> Contents(w, j) == Contents(u, j)
    ensures AfterWrites(v, w, ws, n + 1)
  {
    hide Contents, Spliced, Good;
    assert ws[..n + 1][..n] == ws[..n];
  }

  lemma EmptiedMore(v: Vol, u: Vol, w: Vol, ws: seq<Request>, n: nat)
    requires n < |ws| && AfterWrites(v, u, ws, n) && ws[n].Truncate? && ws[n].i < |v.inodes|
    requires Truncated(u, w, ws[n].i)
    ensures AfterWrites(v, w, ws, n + 1)
  {
    assert ws[..n + 1][..n] == ws[..n];
    assert |Contents(w, ws[n].i)| == 0;
    hide Contents, Spliced, Good;
  }

  /** A request that can be made at all. */
  ghost predicate RequestOk(w: Request, inodes: nat) {
    w.i < inodes && (w.Write? ==> w.off < U32 && |w.src| < U32 && BytesOk(w.src))
  }

  /** Requests one after the other in one transaction, and the power lost anywhere in
      its commit: recovery finds a volume where all of them were carried out or
      none was. Not `ok` is a write that is refused or finds the disk full. */
  method WriteAll(fs: Fs, ws: seq<Request>, ghost f: Format, ghost d: L.Disk)
    returns (ok: bool, ghost order: seq<LogId>)
    requires Good(fs.V()) && fs.logged == {} && AtRest(f, d, fs.V())
    requires forall k :: 0 <= k < |ws| ==> RequestOk(ws[k], |fs.inodes|)
    modifies fs
    ensures ok ==> AfterWrites(old(fs.V()), fs.V(), ws, |ws|) && Ids(order) == fs.logged
    ensures ok && |order| <= L.LOGSIZE && |order| <= f.lay.size - 1 ==>
              forall m: nat :: InCommit(|order|, m) ==> WholeOrNothing(f, d, old(fs.V()), fs.V(), order, m)
  {
    hide Image, FormatOk, Contents, Spliced, WriteLogs, Good, AllCovered, Changed, WholeOrNothing, AfterWrites, AtRest,
         Truncated;
    order := [];
    ghost var v := fs.V();
    NothingChanged(v);
    WroteNone(v, ws);
    var n := 0;
    while n < |ws|
      invariant 0 <= n <= |ws| && Good(fs.V()) && |fs.inodes| == |v.inodes|
      invariant AfterWrites(v, fs.V(), ws, n) && Changed(v, fs.V(), fs.logged)
    {
      ghost var u, h := fs.V(), fs.logged;
      if ws[n].Truncate? {
        fs.Itrunc(ws[n].i);
        EmptiedMore(v, u, fs.V(), ws, n);
        TruncatedGood(u, fs.V(), ws[n].i);
      } else {
        var r := fs.Writei(ws[n].i, ws[n].src, ws[n].off);
        if r != Some(|ws[n].src|) {
          return false, [];
        }
        WroteMore(v, u, fs.V(), ws, n);
      }
      ChangedMore(v, u, h, fs.V(), fs.logged, ws[n].i);
      n := n + 1;
    }
    order := Enumerated(fs.logged);
    ok := true;
    if |order| <= L.LOGSIZE && |order| <= f.lay.size - 1 {
      forall m: nat | InCommit(|order|, m)
        ensures WholeOrNothing(f, d, v, fs.V(), order, m)
      {
        WriteAtomic(f, d, v, fs.V(), order, m);
      }
    }
  }

  lemma TruncatedGood(v: Vol, w: Vol, i: nat)
    requires Good(v) && Truncated(v, w, i)
    ensures Good(w) && |w.inodes| == |v.inodes|
  {
  }

  lemma {:induction false} Enumerated(h: set<LogId>) returns (order: seq<LogId>)
    ensures Ids(order) == h && forall j, k :: 0 <= j < k < |order| ==> order[j] != order[k]
    decreases |h|
  {
    if h == {} {
      order := [];
    } else {
      var id :| id in h;
      order := Enumerated(h - {id});
      assert forall k :: 0 <= k < |order| ==> order[k] in Ids(order);
      order := order + [id];
      assert Ids(order) == h;
    }
  }

  /** The same for a chunk, which is bound to fit. */
  method WriteChunk(fs: Fs, i: nat, src: seq<int>, off: nat, ghost f: Format, ghost d: L.Disk)
    returns (ok: bool, ghost order: seq<LogId>)
    requires Good(fs.V()) && fs.logged == {} && AtRest(f, d, fs.V())
    requires i < |fs.inodes| && off < U32 && |src| < U32 && BytesOk(src)
    requires |src| <= CHUNK && fs.V().Size() <= BPB && f.lay.size >= 8
    modifies fs
    ensures ok ==> Good(fs.V()) && |fs.inodes| == |old(fs.inodes)| && off <= old(fs.inodes)[i].size
    ensures ok ==> Contents(fs.V(), i) == Spliced(Contents(old(fs.V()), i), off, src)
    ensures ok ==> forall j :: 0 <= j < |fs.inodes| && j != i ==> Contents(fs.V(), j) == Contents(old(fs.V()), j)
    ensures ok ==> Ids(order) == fs.logged && |order| <= 7
    ensures ok ==> forall m: nat :: InCommit(|order|, m) ==>
                     WholeOrNothing(f, d, old(fs.V()), fs.V(), order, m)
  {
    hide Image, FormatOk, Contents, Spliced, WriteLogs, Good, AllCovered, WholeOrNothing, AtRest;
    order := [];
    ghost var v := fs.V();
    var r := fs.Writei(i, src, off);
    if r != Some(|src|) {
      return false, [];
    }
    order := Enumerated(fs.logged);
    ok := true;
    ChunkAtomic(f, d, v, fs.V(), order, i, off, |src|, 0);
    forall m: nat | InCommit(|order|, m)
      ensures WholeOrNothing(f, d, v, fs.V(), order, m)
    {
      ChunkAtomic(f, d, v, fs.V(), order, i, off, |src|, m);
    }
  }

  lemma {:induction false} DistinctIds(order: seq<LogId>)
    requires forall j, k :: 0 <= j < k < |order| ==> order[j] != order[k]
    ensures |Ids(order)| == |order|
    decreases |order|
  {
    if order == [] {
      assert Ids(order) == {};
    } else {
      var m := |order| - 1;
      DistinctIds(order[..m]);
      assert order == order[..m] + [order[m]];
      assert Ids(order) == Ids(order[..m]) + {order[m]};
    }
  }

  /** filewrite with the power lost anywhere in the commit of any of its transactions:
      recovery finds the file with a first part of the bytes written, the chunk
      under way whole or not at all, and the other files as they were. */
  method WriteFile(fs: Fs, i: nat, off: nat, src: seq<int>, ghost f: Format)
    returns (ret: Option<int>, ghost ts: seq<Chunk>)
    requires Good(fs.V()) && i < |fs.inodes| && off < U32 && |src| < U32 / 2 && BytesOk(src)
    requires fs.V().Size() <= BPB && f.lay.size >= 8
    modifies fs
    ensures Chained(old(fs.V()), ts, i) && (ret.Some? ==> LastVol(old(fs.V()), ts) == fs.V())
    ensures forall t :: t in ts ==> PartWritten(old(fs.V()), t.before, i, off, src)
    ensures forall t :: t in ts ==> PartWritten(old(fs.V()), t.after, i, off, src)
    ensures forall t, d, order, m: nat ::
              t in ts && AtRest(f, d, t.before) && Lists(order, t.logged) && InCommit(|order|, m) ==>
                WholeOrNothing(f, d, t.before, t.after, order, m)
  {
    var off';
    ret, off', ts := fs.FileWrite(i, off, src);
    hide Image, FormatOk, Contents, Spliced, Good, AllCovered, WholeOrNothing, AtRest, Chained, PartWritten;
    forall t, d, order, m: nat | t in ts && AtRest(f, d, t.before) && Lists(order, t.logged) && InCommit(|order|, m)
      ensures WholeOrNothing(f, d, t.before, t.after, order, m)
    {
      InChain(old(fs.V()), ts, i, t);
      DistinctIds(order);
      NothingChanged(t.before);
      ChangedMore(t.before, t.before, {}, t.after, t.logged, i);
      WriteAtomic(f, d, t.before, t.after, order, m);
    }
  }

  /** The blocks of a transaction in some order, each once. */
  ghost predicate Lists(order: seq<LogId>, h: set<LogId>) {
    Ids(order) == h && forall j, k :: 0 <= j < k < |order| ==> order[j] != order[k]
  }

  lemma {:induction false} InChain(v: Vol, ts: seq<Chunk>, i: nat, t: Chunk)
    requires Chained(v, ts, i) && t in ts
    ensures AllCovered(t.before, {}, t.after, t.logged, i)
    decreases |ts|
  {
    var m := |ts| - 1;
    if ts[m] != t {
      assert ts == ts[..m] + [ts[m]];
      InChain(v, ts[..m], i, t);
    }
  }
}
