/** Blocks and inodes of the on-disk file system: what an inode's direct slots
    and indirect block map to, who owns which block, and what a file contains.
    A block is its 1024 bytes; an indirect block is read as 256 little-endian
    32-bit block numbers. */
module InodeBlocks {

  const BSIZE: nat := 1024
  const NDIRECT: nat := 12
  const NINDIRECT: nat := BSIZE / 4
  const MAXFILE: nat := NDIRECT + NINDIRECT
  const U32: nat := 0x1_0000_0000

  type Block = seq<int>

  /** The disk part of an inode that matters here: size in bytes and addrs[]. */
  datatype Inode = Inode(size: nat, addrs: seq<nat>)

  ghost predicate BlockOk(b: Block) {
    |b| == BSIZE && forall i :: 0 <= i < BSIZE ==> 0 <= b[i] < 256
  }

  function Zero(): (b: Block)
    ensures |b| == BSIZE && forall i :: 0 <= i < BSIZE ==> b[i] == 0
  {
    seq(BSIZE, _ => 0)
  }

  // ---- 32-bit words of a block ----

  function Get32(b: Block, i: nat): (v: nat)
    requires i < NINDIRECT && BlockOk(b)
  {
    b[4 * i] + 0x100 * b[4 * i + 1] + 0x1_0000 * b[4 * i + 2] + 0x100_0000 * b[4 * i + 3]
  }

  function Put32(b: Block, i: nat, v: nat): (r: Block)
    requires i < NINDIRECT && |b| == BSIZE
    ensures |r| == BSIZE
  {
    b[4 * i := v % 0x100][4 * i + 1 := v / 0x100 % 0x100]
     [4 * i + 2 := v / 0x1_0000 % 0x100][4 * i + 3 := v / 0x100_0000 % 0x100]
  }

  lemma Word(v: nat)
    requires v < U32
    ensures v == v % 0x100 + 0x100 * (v / 0x100 % 0x100) + 0x1_0000 * (v / 0x1_0000 % 0x100)
                 + 0x100_0000 * (v / 0x100_0000 % 0x100)
  {
  }

  lemma PutGet(b: Block, i: nat, v: nat, j: nat)
    requires BlockOk(b) && i < NINDIRECT && j < NINDIRECT && v < U32
    ensures BlockOk(Put32(b, i, v))
    ensures Get32(Put32(b, i, v), j) == if j == i then v else Get32(b, j)
  {
    Word(v);
  }

  lemma ZeroWords(j: nat)
    requires j < NINDIRECT
    ensures BlockOk(Zero()) && Get32(Zero(), j) == 0
  {
  }

  // ---- What an inode maps ----

  /** The disk below the log and the cache: blocks below `meta` are metadata;
      one bit per block says whether it is in use. */
  datatype Vol = Vol(meta: nat, bitmap: seq<bool>, data: seq<Block>, inodes: seq<Inode>) {
    function Size(): (n: nat) { |bitmap| }
  }

  ghost predicate InodeOk(v: Vol, ip: Inode) {
    |ip.addrs| == NDIRECT + 1 && ip.addrs[NDIRECT] < v.Size()
  }

  ghost predicate DataOk(v: Vol) {
    && 0 < v.meta <= v.Size() < U32 && |v.data| == v.Size()
    && forall b :: 0 <= b < |v.data| ==> BlockOk(v.data[b])
  }

  ghost predicate VolOk(v: Vol) {
    DataOk(v) && forall i :: 0 <= i < |v.inodes| ==> InodeOk(v, v.inodes[i])
  }

  /** Slot `k` of an inode: below MAXFILE the block of the k-th file block, zero
      if there is none; at MAXFILE the indirect block. */
  ghost function Slot(v: Vol, ip: Inode, k: nat): (b: nat)
    requires DataOk(v) && InodeOk(v, ip) && k <= MAXFILE
  {
    if k < NDIRECT then ip.addrs[k]
    else if k == MAXFILE then ip.addrs[NDIRECT]
    else if ip.addrs[NDIRECT] == 0 then 0
    else Get32(v.data[ip.addrs[NDIRECT]], k - NDIRECT)
  }

  /** A slot of an inode on the disk. */
  datatype Ref = Ref(i: nat, k: nat)

  ghost predicate IsRef(v: Vol, r: Ref) {
    r.i < |v.inodes| && r.k <= MAXFILE
  }

  ghost function At(v: Vol, r: Ref): (b: nat)
    requires VolOk(v) && IsRef(v, r)
  {
    Slot(v, v.inodes[r.i], r.k)
  }

  /** The slot owns a block; slots of `gone` have given theirs up already. */
  ghost predicate Owns(v: Vol, gone: set<Ref>, r: Ref)
    requires VolOk(v)
  {
    IsRef(v, r) && r !in gone && At(v, r) != 0
  }

  ghost predicate Owned(v: Vol, gone: set<Ref>, b: nat)
    requires VolOk(v)
  {
    exists r :: Owns(v, gone, r) && At(v, r) == b
  }

  /** Every owned block is a data block, and no block has two owners. */
  ghost predicate Disjoint(v: Vol, gone: set<Ref>, hand: set<nat>)
    requires VolOk(v)
  {
    && (forall r :: Owns(v, gone, r) ==> v.meta <= At(v, r) < v.Size() && At(v, r) !in hand)
    && (forall r, q :: Owns(v, gone, r) && Owns(v, gone, q) && At(v, r) == At(v, q) ==> r == q)
  }

  /** The set bits of the bitmap are exactly the metadata blocks, the blocks just
      allocated and not yet linked (`hand`), and the blocks slots own. */
  ghost predicate Exact(v: Vol, gone: set<Ref>, hand: set<nat>)
    requires VolOk(v)
  {
    && (forall b :: b in hand ==> v.meta <= b < v.Size())
    && (forall b: nat :: b < v.Size() ==> (v.bitmap[b] <==> b < v.meta || b in hand || Owned(v, gone, b)))
  }

  ghost predicate Ownership(v: Vol, gone: set<Ref>, hand: set<nat>) {
    VolOk(v) && Disjoint(v, gone, hand) && Exact(v, gone, hand)
  }

  /** Every slot maps what it mapped. */
  ghost predicate SameSlots(v: Vol, w: Vol) {
    && VolOk(v) && VolOk(w) && |v.inodes| == |w.inodes| && v.Size() == w.Size() && v.meta == w.meta
    && forall r :: IsRef(v, r) ==> At(w, r) == At(v, r)
  }

  /** Every slot but `r` maps what it mapped; that one went from nothing to `b`. */
  ghost predicate Linked(v: Vol, w: Vol, r: Ref, b: nat) {
    && VolOk(v) && VolOk(w) && |v.inodes| == |w.inodes| && v.Size() == w.Size() && v.meta == w.meta
    && IsRef(v, r) && At(v, r) == 0 && At(w, r) == b
    && forall q :: IsRef(v, q) && q != r ==> At(w, q) == At(v, q)
  }

  lemma OwnedSame(v: Vol, w: Vol, gone: set<Ref>, b: nat)
    requires SameSlots(v, w)
    ensures Owned(v, gone, b) <==> Owned(w, gone, b)
  {
    hide Slot;
    if Owned(v, gone, b) {
      var r :| Owns(v, gone, r) && At(v, r) == b;
      assert Owns(w, gone, r);
    }
    if Owned(w, gone, b) {
      var r :| Owns(w, gone, r) && At(w, r) == b;
      assert Owns(v, gone, r);
    }
  }

  /** With the slots as they were and one bit set, the block is in hand. */
  lemma TookBlock(v: Vol, w: Vol, hand: set<nat>, b: nat)
    requires Ownership(v, {}, hand) && SameSlots(v, w) && b < v.Size() && !v.bitmap[b]
    requires w.bitmap == v.bitmap[b := true]
    ensures Ownership(w, {}, hand + {b}) && b >= v.meta
  {
    hide Slot, At, VolOk;
    forall r | Owns(w, {}, r)
      ensures Owns(v, {}, r) && At(w, r) == At(v, r) && At(v, r) != b
    {
      assert Owned(v, {}, At(v, r));
    }
    forall c: nat | c < w.Size()
      ensures w.bitmap[c] <==> c < w.meta || c in hand + {b} || Owned(w, {}, c)
    {
      OwnedSame(v, w, {}, c);
    }
  }

  lemma LinkedBlock(v: Vol, w: Vol, hand: set<nat>, r: Ref, b: nat)
    requires Ownership(v, {}, hand) && Linked(v, w, r, b) && b in hand && w.bitmap == v.bitmap
    ensures Ownership(w, {}, hand - {b})
  {
    assert b != 0;
    hide Slot, At, VolOk;
    forall q | Owns(w, {}, q) && q != r
      ensures Owns(v, {}, q) && At(w, q) == At(v, q) && At(v, q) != b
    {
    }
    forall c: nat | c < w.Size()
      ensures w.bitmap[c] <==> c < w.meta || c in hand - {b} || Owned(w, {}, c)
    {
      if c == b {
        assert Owns(w, {}, r);
      } else {
        if Owned(v, {}, c) {
          var q :| Owns(v, {}, q) && At(v, q) == c;
          assert Owns(w, {}, q) && At(w, q) == c;
        }
        if Owned(w, {}, c) {
          var q :| Owns(w, {}, q) && At(w, q) == c;
          assert Owns(v, {}, q);
        }
      }
    }
  }

  /** With the slots as they were and the bit of an owned block cleared, its slot
      has given it up. */
  lemma GaveBlock(v: Vol, w: Vol, gone: set<Ref>, r: Ref)
    requires Ownership(v, gone, {}) && SameSlots(v, w) && Owns(v, gone, r)
    requires w.bitmap == v.bitmap[At(v, r) := false]
    ensures Ownership(w, gone + {r}, {})
  {
    hide Slot, At, VolOk;
    var b := At(v, r);
    forall q | Owns(w, gone + {r}, q)
      ensures Owns(v, gone, q) && At(w, q) == At(v, q) && At(v, q) != b
    {
    }
    forall c: nat | c < w.Size()
      ensures w.bitmap[c] <==> c < w.meta || c in {} || Owned(w, gone + {r}, c)
    {
      if Owned(v, gone, c) && c != b {
        var q :| Owns(v, gone, q) && At(v, q) == c;
        assert Owns(w, gone + {r}, q) && At(w, q) == c;
      }
      if Owned(w, gone + {r}, c) {
        var q :| Owns(w, gone + {r}, q) && At(w, q) == c;
        assert Owns(v, gone, q) && At(v, q) == c;
      }
    }
  }

  /** Slots of `gone` cleared, and no others. */
  ghost predicate Cleared(v: Vol, w: Vol, gone: set<Ref>, gone': set<Ref>) {
    && VolOk(v) && VolOk(w) && |v.inodes| == |w.inodes| && v.Size() == w.Size() && v.meta == w.meta
    && gone' <= gone
    && (forall r :: IsRef(v, r) && r in gone && r !in gone' ==> At(w, r) == 0)
    && (forall r :: IsRef(v, r) && r !in gone ==> At(w, r) == At(v, r))
  }

  lemma ClearedBlocks(v: Vol, w: Vol, gone: set<Ref>, gone': set<Ref>)
    requires Ownership(v, gone, {}) && Cleared(v, w, gone, gone') && w.bitmap == v.bitmap
    ensures Ownership(w, gone', {})
  {
    hide Slot, At, VolOk;
    forall q
      ensures Owns(w, gone', q) <==> Owns(v, gone, q)
      ensures Owns(w, gone', q) ==> At(w, q) == At(v, q)
    {
    }
    forall c: nat | c < w.Size()
      ensures Owned(w, gone', c) <==> Owned(v, gone, c)
    {
    }
  }

  // ---- What each change does to the slots ----

  /** Overwriting a block no inode uses as its indirect block changes no slot. */
  lemma BlockWritten(v: Vol, b: nat, x: Block, bitmap: seq<bool>)
    requires VolOk(v) && b < v.Size() && BlockOk(x) && |bitmap| == v.Size()
    requires forall i :: 0 <= i < |v.inodes| ==> v.inodes[i].addrs[NDIRECT] != b || b == 0
    ensures SameSlots(v, Vol(v.meta, bitmap, v.data[b := x], v.inodes))
  {
    hide Get32;
    var w := Vol(v.meta, bitmap, v.data[b := x], v.inodes);
    assert VolOk(w);
  }

  /** A free block, or a block a file slot owns, is no indirect block. */
  lemma NotIndirect(v: Vol, gone: set<Ref>, hand: set<nat>, b: nat, i: nat)
    requires Ownership(v, gone, hand) && i < |v.inodes| && Ref(i, MAXFILE) !in gone
    requires b < v.Size() && v.inodes[i].addrs[NDIRECT] == b != 0
    ensures v.bitmap[b] && forall r :: Owns(v, gone, r) && At(v, r) == b ==> r == Ref(i, MAXFILE)
  {
    assert At(v, Ref(i, MAXFILE)) == b;
    assert Owns(v, gone, Ref(i, MAXFILE));
    assert Owned(v, gone, b);
  }

  /** balloc's effect on a block whose bit was clear. */
  ghost function Taken(v: Vol, b: nat): (w: Vol)
    requires b < v.Size() == |v.data|
  {
    Vol(v.meta, v.bitmap[b := true], v.data[b := Zero()], v.inodes)
  }

  lemma TakenOk(v: Vol, hand: set<nat>, b: nat)
    requires Ownership(v, {}, hand) && b < v.Size() && !v.bitmap[b]
    ensures SameSlots(v, Taken(v, b)) && Ownership(Taken(v, b), {}, hand + {b}) && b != 0
  {
    ZeroWords(0);
    forall i | 0 <= i < |v.inodes|
      ensures v.inodes[i].addrs[NDIRECT] != b || b == 0
    {
      if v.inodes[i].addrs[NDIRECT] == b && b != 0 {
        NotIndirect(v, {}, hand, b, i);
      }
    }
    BlockWritten(v, b, Zero(), v.bitmap[b := true]);
    TookBlock(v, Taken(v, b), hand, b);
  }

  /** An address of an inode set. */
  ghost function WithAddr(v: Vol, i: nat, k: nat, b: nat): (w: Vol)
    requires i < |v.inodes| && k < |v.inodes[i].addrs|
  {
    Vol(v.meta, v.bitmap, v.data, v.inodes[i := Inode(v.inodes[i].size, v.inodes[i].addrs[k := b])])
  }

  lemma LinkAddr(v: Vol, i: nat, k: nat, b: nat)
    requires VolOk(v) && i < |v.inodes| && k <= NDIRECT && v.inodes[i].addrs[k] == 0
    requires b < v.Size() && (k == NDIRECT ==> v.data[b] == Zero())
    ensures Linked(v, WithAddr(v, i, k, b), Ref(i, if k == NDIRECT then MAXFILE else k), b)
  {
    hide Get32;
    var w := WithAddr(v, i, k, b);
    assert VolOk(w);
    var r := Ref(i, if k == NDIRECT then MAXFILE else k);
    forall q | IsRef(v, q) && q != r
      ensures At(w, q) == At(v, q)
    {
      if q.i == i && k == NDIRECT && NDIRECT <= q.k < MAXFILE {
        ZeroWords(q.k - NDIRECT);
      }
    }
  }

  ghost function WithBlock(v: Vol, b: nat, x: Block): (w: Vol)
    requires b < |v.data|
  {
    Vol(v.meta, v.bitmap, v.data[b := x], v.inodes)
  }

  ghost function WithEntry(v: Vol, i: nat, j: nat, b: nat): (w: Vol)
    requires VolOk(v) && i < |v.inodes| && j < NINDIRECT
  {
    WithBlock(v, v.inodes[i].addrs[NDIRECT], Put32(v.data[v.inodes[i].addrs[NDIRECT]], j, b))
  }

  lemma IndirectsDiffer(v: Vol, hand: set<nat>, i: nat, j: nat)
    requires Ownership(v, {}, hand) && i < |v.inodes| && j < |v.inodes| && i != j && v.inodes[i].addrs[NDIRECT] != 0
    ensures v.inodes[j].addrs[NDIRECT] != v.inodes[i].addrs[NDIRECT]
  {
    assert At(v, Ref(i, MAXFILE)) == v.inodes[i].addrs[NDIRECT];
    assert At(v, Ref(j, MAXFILE)) == v.inodes[j].addrs[NDIRECT];
    assert Owns(v, {}, Ref(i, MAXFILE));
    assert v.inodes[j].addrs[NDIRECT] != 0 ==> Owns(v, {}, Ref(j, MAXFILE));
  }

  lemma LinkEntry(v: Vol, hand: set<nat>, i: nat, j: nat, b: nat)
    requires Ownership(v, {}, hand) && i < |v.inodes| && j < NINDIRECT && b < v.Size()
    requires v.inodes[i].addrs[NDIRECT] != 0 && At(v, Ref(i, NDIRECT + j)) == 0
    ensures Linked(v, WithEntry(v, i, j, b), Ref(i, NDIRECT + j), b)
  {
    hide Get32, Put32;
    var a := v.inodes[i].addrs[NDIRECT];
    PutGet(v.data[a], j, b, j);
    var w := WithEntry(v, i, j, b);
    assert VolOk(w);
    forall q | IsRef(v, q) && q != Ref(i, NDIRECT + j)
      ensures At(w, q) == At(v, q)
    {
      if NDIRECT <= q.k < MAXFILE {
        if q.i == i {
          PutGet(v.data[a], j, b, q.k - NDIRECT);
        } else {
          IndirectsDiffer(v, hand, i, q.i);
        }
      }
    }
  }

  // ---- Files ----

  /** Below its size a file has no holes. */
  ghost predicate FileOk(v: Vol, i: nat)
    requires VolOk(v) && i < |v.inodes|
  {
    && v.inodes[i].size <= MAXFILE * BSIZE
    && forall k: nat :: k * BSIZE < v.inodes[i].size ==> At(v, Ref(i, k)) != 0
  }

  /** Byte `off` of file `i`, if its block exists. */
  ghost function Byte(v: Vol, i: nat, off: nat): (x: int)
    requires VolOk(v) && i < |v.inodes| && off < MAXFILE * BSIZE
  {
    var b := At(v, Ref(i, off / BSIZE));
    if b < v.Size() then v.data[b][off % BSIZE] else 0
  }

  /** The whole volume: exact ownership, and files without holes. */
  ghost predicate Good(v: Vol) {
    Ownership(v, {}, {}) && forall i :: 0 <= i < |v.inodes| ==> FileOk(v, i)
  }

  ghost predicate InFile(v: Vol, i: nat, off: nat)
    requires VolOk(v)
  {
    i < |v.inodes| && off < MAXFILE * BSIZE && At(v, Ref(i, off / BSIZE)) != 0
  }

  lemma BlockBelow(v: Vol, hand: set<nat>, i: nat, off: nat)
    requires Ownership(v, {}, hand) && InFile(v, i, off)
    ensures v.meta <= At(v, Ref(i, off / BSIZE)) < v.Size()
    ensures At(v, Ref(i, off / BSIZE)) !in hand
  {
    assert Owns(v, {}, Ref(i, off / BSIZE));
  }

  ghost function Contents(v: Vol, i: nat): (s: seq<int>)
    requires Good(v) && i < |v.inodes|
    ensures |s| == v.inodes[i].size
  {
    seq(v.inodes[i].size, off requires 0 <= off < v.inodes[i].size =>
      InBlock(v, i, off);
      Byte(v, i, off))
  }

  lemma InBlock(v: Vol, i: nat, off: nat)
    requires Good(v) && i < |v.inodes| && off < v.inodes[i].size
    ensures InFile(v, i, off) && At(v, Ref(i, off / BSIZE)) < v.Size()
  {
    assert FileOk(v, i);
    assert off / BSIZE * BSIZE <= off;
    BlockBelow(v, {}, i, off);
  }

  /** Bytes of blocks that exist are kept by a change that keeps the slots and
      the data of every block in use. */
  ghost predicate SameBytes(v: Vol, w: Vol)
    requires VolOk(v)
  {
    && VolOk(w) && |w.inodes| == |v.inodes| && w.Size() == v.Size()
    && forall i: nat, off: nat :: InFile(v, i, off) ==>
         At(w, Ref(i, off / BSIZE)) == At(v, Ref(i, off / BSIZE)) < v.Size() && Byte(w, i, off) == Byte(v, i, off)
  }

  /** Allocating a block touches nobody's bytes. */
  lemma TakenBytes(v: Vol, hand: set<nat>, b: nat)
    requires Ownership(v, {}, hand) && b < v.Size() && !v.bitmap[b]
    ensures VolOk(Taken(v, b)) && SameBytes(v, Taken(v, b))
  {
    hide Slot, At;
    var w := Taken(v, b);
    TakenOk(v, hand, b);
    forall i: nat, off: nat | InFile(v, i, off)
      ensures At(w, Ref(i, off / BSIZE)) == At(v, Ref(i, off / BSIZE)) < v.Size() && Byte(w, i, off) == Byte(v, i, off)
    {
      BlockBelow(v, hand, i, off);
      assert IsRef(v, Ref(i, off / BSIZE));
      assert Owns(v, {}, Ref(i, off / BSIZE));
      assert Owned(v, {}, At(v, Ref(i, off / BSIZE)));
    }
  }

  /** Linking a block into an empty slot touches nobody's bytes. */
  lemma LinkedBytes(v: Vol, w: Vol, hand: set<nat>, r: Ref, b: nat)
    requires Ownership(v, {}, hand) && Linked(v, w, r, b)
    requires forall c: nat :: c < v.Size() && (exists q :: Owns(v, {}, q) && q.k < MAXFILE && At(v, q) == c) ==>
               w.data[c] == v.data[c]
    ensures SameBytes(v, w)
  {
    hide Slot, At;
    forall i: nat, off: nat | InFile(v, i, off)
      ensures At(w, Ref(i, off / BSIZE)) == At(v, Ref(i, off / BSIZE)) < v.Size() && Byte(w, i, off) == Byte(v, i, off)
    {
      BlockBelow(v, hand, i, off);
      assert IsRef(v, Ref(i, off / BSIZE));
      assert Owns(v, {}, Ref(i, off / BSIZE)) && off / BSIZE < MAXFILE;
    }
  }

  /** Slots that mapped something still map it. */
  ghost predicate KeepsSlots(v: Vol, w: Vol)
    requires VolOk(v)
  {
    && VolOk(w) && |w.inodes| == |v.inodes| && w.Size() == v.Size() && w.meta == v.meta
    && (forall r :: IsRef(v, r) && At(v, r) != 0 ==> At(w, r) == At(v, r))
    && (forall i :: 0 <= i < |v.inodes| ==> w.inodes[i].size == v.inodes[i].size)
  }

  /** Slot `r`, empty before, now has the fresh zeroed block `b`; nothing else
      changed that anybody can read. */
  ghost predicate Grown(v: Vol, w: Vol, r: Ref, b: nat)
    requires Ownership(v, {}, {})
  {
    && Ownership(w, {}, {}) && KeepsSlots(v, w) && SameBytes(v, w)
    && IsRef(v, r) && At(v, r) == 0 && At(w, r) == b < w.Size() && b != 0 && w.data[b] == Zero()
    && (forall q :: IsRef(v, q) && q != r ==> At(w, q) == At(v, q))
  }

  lemma AddrAllocated(v: Vol, i: nat, k: nat, b: nat)
    requires Ownership(v, {}, {}) && b < v.Size() && !v.bitmap[b]
    requires i < |v.inodes| && k <= NDIRECT && v.inodes[i].addrs[k] == 0
    ensures Grown(v, WithAddr(Taken(v, b), i, k, b), Ref(i, if k == NDIRECT then MAXFILE else k), b)
  {
    var r := Ref(i, if k == NDIRECT then MAXFILE else k);
    var u := Taken(v, b);
    var w := WithAddr(u, i, k, b);
    TakenOk(v, {}, b);
    TakenBytes(v, {}, b);
    LinkAddr(u, i, k, b);
    LinkedBlock(u, w, {} + {b}, r, b);
    LinkedBytes(u, w, {} + {b}, r, b);
    assert {} + {b} - {b} == {};
    hide Slot, At;
    BytesTwice(v, u, w);
  }

  lemma BytesTwice(v: Vol, u: Vol, w: Vol)
    requires VolOk(v) && SameBytes(v, u) && SameBytes(u, w)
    ensures SameBytes(v, w)
  {
    hide Slot, At;
    forall i: nat, off: nat | InFile(v, i, off)
      ensures At(w, Ref(i, off / BSIZE)) == At(v, Ref(i, off / BSIZE)) < v.Size() && Byte(w, i, off) == Byte(v, i, off)
    {
      assert InFile(u, i, off);
    }
  }

  lemma EntryAllocated(v: Vol, i: nat, j: nat, b: nat)
    requires Ownership(v, {}, {}) && b < v.Size() && !v.bitmap[b]
    requires i < |v.inodes| && j < NINDIRECT && v.inodes[i].addrs[NDIRECT] != 0 && At(v, Ref(i, NDIRECT + j)) == 0
    ensures VolOk(Taken(v, b)) && Grown(v, WithEntry(Taken(v, b), i, j, b), Ref(i, NDIRECT + j), b)
  {
    var r := Ref(i, NDIRECT + j);
    var u := Taken(v, b);
    TakenOk(v, {}, b);
    TakenBytes(v, {}, b);
    var w := WithEntry(u, i, j, b);
    LinkEntry(u, {} + {b}, i, j, b);
    LinkedBlock(u, w, {} + {b}, r, b);
    EntryWriteApart(u, {} + {b}, i, j, b);
    assert w.data[b] == Zero() by {
      assert Owns(u, {}, Ref(i, MAXFILE));
    }
    LinkedBytes(u, w, {} + {b}, r, b);
    assert {} + {b} - {b} == {};
    hide Slot, At;
    BytesTwice(v, u, w);
  }

  /** Writing an indirect block leaves the blocks that hold file data alone. */
  lemma EntryWriteApart(v: Vol, hand: set<nat>, i: nat, j: nat, b: nat)
    requires Ownership(v, {}, hand) && i < |v.inodes| && j < NINDIRECT && v.inodes[i].addrs[NDIRECT] != 0
    ensures forall c: nat :: c < v.Size() && (exists q :: Owns(v, {}, q) && q.k < MAXFILE && At(v, q) == c) ==>
              WithEntry(v, i, j, b).data[c] == v.data[c]
  {
    assert Owns(v, {}, Ref(i, MAXFILE));
  }
}
