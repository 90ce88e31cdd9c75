/** What writing file bytes, block by block, does to the contents of every file. */
module FileContents {
  import opened InodeBlocks

  ghost predicate BytesOk(s: seq<int>) {
    forall k :: 0 <= k < |s| ==> 0 <= s[k] < 256
  }

  /** `s` laid over `x` from `at` on. */
  function Patch(x: Block, at: nat, s: seq<int>): (r: Block)
    requires at + |s| <= |x|
    ensures |r| == |x|
    ensures forall k :: 0 <= k < |x| ==> r[k] == if at <= k < at + |s| then s[k - at] else x[k]
  {
    x[..at] + s + x[at + |s|..]
  }

  lemma PatchOk(x: Block, at: nat, s: seq<int>)
    requires BlockOk(x) && at + |s| <= |x| && BytesOk(s)
    ensures BlockOk(Patch(x, at, s))
  {
  }

  /** A file after `src` was written at `off`: overwritten, and longer if need be. */
  ghost function Spliced(s: seq<int>, off: nat, src: seq<int>): (r: seq<int>)
    requires off <= |s|
  {
    s[..off] + src + (if off + |src| < |s| then s[off + |src|..] else [])
  }

  /** From `v` to `w`, bytes [lo, lo + |src|) of file `i` became `src`; no other
      byte of an existing block changed and no slot lost its block. */
  ghost predicate Written(v: Vol, w: Vol, i: nat, lo: nat, src: seq<int>)
    requires VolOk(v)
  {
    && Ownership(w, {}, {}) && KeepsSlots(v, w) && i < |v.inodes|
    && OthersKept(v, w, i, lo, lo + |src|)
    && forall off: nat :: lo <= off < lo + |src| ==> InFile(w, i, off) && Byte(w, i, off) == src[off - lo]
  }

  ghost predicate OthersKept(v: Vol, w: Vol, i: nat, lo: nat, hi: nat)
    requires VolOk(v) && VolOk(w) && |w.inodes| == |v.inodes|
  {
    forall j: nat, off: nat :: InFile(v, j, off) && !(j == i && lo <= off < hi) ==> Byte(w, j, off) == Byte(v, j, off)
  }

  lemma NothingWritten(v: Vol, i: nat, lo: nat)
    requires Ownership(v, {}, {}) && i < |v.inodes|
    ensures Written(v, v, i, lo, [])
  {
  }

  /** Growing the block map in between changes nothing. */
  lemma MappedInBetween(v: Vol, u: Vol, w: Vol, i: nat, lo: nat, src: seq<int>)
    requires VolOk(v) && Written(v, u, i, lo, src)
    requires Ownership(w, {}, {}) && KeepsSlots(u, w) && SameBytes(u, w)
    ensures Written(v, w, i, lo, src)
  {
    hide At, Slot, Byte, Ownership;
    assert VolOk(w);
    forall j: nat, off: nat | InFile(v, j, off) && !(j == i && lo <= off < lo + |src|)
      ensures Byte(w, j, off) == Byte(v, j, off)
    {
      assert IsRef(v, Ref(j, off / BSIZE));
      assert InFile(u, j, off);
    }
    forall off: nat | lo <= off < lo + |src|
      ensures InFile(w, i, off) && Byte(w, i, off) == src[off - lo]
    {
      assert InFile(u, i, off);
      assert IsRef(u, Ref(i, off / BSIZE));
    }
  }

  /** Overwriting the block of file block `bn` changes the bytes of that file
      block and nothing else. */
  lemma BlockOverwritten(v: Vol, i: nat, bn: nat, x: Block)
    requires Ownership(v, {}, {}) && i < |v.inodes| && bn < MAXFILE && BlockOk(x)
    requires 0 != At(v, Ref(i, bn)) < v.Size()
    ensures VolOk(WithBlock(v, At(v, Ref(i, bn)), x)) && SameSlots(v, WithBlock(v, At(v, Ref(i, bn)), x))
    ensures Ownership(WithBlock(v, At(v, Ref(i, bn)), x), {}, {})
    ensures forall j: nat, off: nat :: InFile(v, j, off) ==>
              Byte(WithBlock(v, At(v, Ref(i, bn)), x), j, off)
              == if j == i && off / BSIZE == bn then x[off % BSIZE] else Byte(v, j, off)
  {
    var b := At(v, Ref(i, bn));
    var w := WithBlock(v, b, x);
    assert Owns(v, {}, Ref(i, bn));
    forall j | 0 <= j < |v.inodes|
      ensures v.inodes[j].addrs[NDIRECT] != b || b == 0
    {
      if v.inodes[j].addrs[NDIRECT] == b {
        NotIndirect(v, {}, {}, b, j);
      }
    }
    BlockWritten(v, b, x, v.bitmap);
    SameOwnership(v, w);
    hide At, Slot, Ownership, VolOk;
    assert VolOk(w);
    forall j: nat, off: nat | InFile(v, j, off)
      ensures Byte(w, j, off) == if j == i && off / BSIZE == bn then x[off % BSIZE] else Byte(v, j, off)
    {
      var r := Ref(j, off / BSIZE);
      assert IsRef(v, r);
      OwnedOnce(v, r, Ref(i, bn));
    }
  }

  lemma OwnedOnce(v: Vol, r: Ref, q: Ref)
    requires Ownership(v, {}, {}) && IsRef(v, r) && IsRef(v, q) && At(v, r) != 0
    ensures r != q ==> At(v, r) != At(v, q)
    ensures At(v, r) < v.Size()
  {
    hide At, Slot;
    assert Owns(v, {}, r);
    assert At(v, q) != 0 ==> Owns(v, {}, q);
  }

  lemma SameOwnership(v: Vol, w: Vol)
    requires Ownership(v, {}, {}) && SameSlots(v, w) && w.bitmap == v.bitmap
    ensures Ownership(w, {}, {})
  {
    hide At, Slot, VolOk;
    forall b: nat | b < w.Size()
      ensures Owned(w, {}, b) <==> Owned(v, {}, b)
    {
      OwnedSame(v, w, {}, b);
    }
    forall r | Owns(w, {}, r)
      ensures Owns(v, {}, r) && At(w, r) == At(v, r)
    {
    }
  }

  /** The next piece of a write, inside file block `bn`. */
  lemma PieceWritten(v: Vol, u: Vol, i: nat, lo: nat, done: seq<int>, piece: seq<int>)
    requires VolOk(v) && Written(v, u, i, lo, done) && BytesOk(piece)
    requires lo + |done| < MAXFILE * BSIZE && (lo + |done|) % BSIZE + |piece| <= BSIZE
    requires 0 != At(u, Ref(i, (lo + |done|) / BSIZE)) < u.Size()
    ensures var b := At(u, Ref(i, (lo + |done|) / BSIZE));
            Written(v, WithBlock(u, b, Patch(u.data[b], (lo + |done|) % BSIZE, piece)), i, lo, done + piece)
  {
    var at := lo + |done|;
    var bn := at / BSIZE;
    var b := At(u, Ref(i, bn));
    var x := Patch(u.data[b], at % BSIZE, piece);
    var w := WithBlock(u, b, x);
    BlockOverwritten(u, i, bn, x);
    hide At, Slot, Ownership, Byte;
    KeptSlots(v, u, w);
    forall j: nat, off: nat | InFile(v, j, off) && !(j == i && lo <= off < at + |piece|)
      ensures Byte(w, j, off) == Byte(v, j, off)
    {
      assert IsRef(v, Ref(j, off / BSIZE));
      assert InFile(u, j, off);
      if j == i && off / BSIZE == bn {
        SameByte(u, i, off, b);
      }
    }
    forall off: nat | lo <= off < at + |piece|
      ensures InFile(w, i, off) && Byte(w, i, off) == (done + piece)[off - lo]
    {
      if off >= at {
        assert off / BSIZE == bn;
      }
      assert InFile(u, i, off);
      assert IsRef(u, Ref(i, off / BSIZE));
      if off < at && off / BSIZE == bn {
        SameByte(u, i, off, b);
      }
    }
  }

  lemma SameByte(v: Vol, i: nat, off: nat, b: nat)
    requires VolOk(v) && i < |v.inodes| && off < MAXFILE * BSIZE && At(v, Ref(i, off / BSIZE)) == b < v.Size()
    ensures Byte(v, i, off) == v.data[b][off % BSIZE]
  {
  }

  lemma KeptSlots(v: Vol, u: Vol, w: Vol)
    requires VolOk(v) && KeepsSlots(v, u) && SameSlots(u, w) && w.inodes == u.inodes
    ensures KeepsSlots(v, w)
  {
    hide At, Slot;
  }

  /** What readi returns: the slice clipped at the file's end, nothing when the
      start is past the end or the 32-bit sum wraps. */
  function Clipped(s: seq<int>, off: nat, n: nat): (r: seq<int>) {
    if off > |s| || off + n >= U32 then []
    else if off + n > |s| then s[off..]
    else s[off..off + n]
  }

  /** The bytes read are those from `off` on, as many as asked for or as there are;
      none if the start is past the end or the 32-bit sum wraps. */
  lemma ClippedBytes(s: seq<int>, off: nat, n: nat)
    ensures off > |s| || off + n >= U32 ==> |Clipped(s, off, n)| == 0
    ensures off <= |s| && off + n < U32 ==> |Clipped(s, off, n)| == if n < |s| - off then n else |s| - off
    ensures off <= |s| && off + n < U32 ==>
              forall k :: 0 <= k < n && off + k < |s| ==>
                  k < |Clipped(s, off, n)| && Clipped(s, off, n)[k] == s[off + k]
  {
  }

  /** A write replaces bytes from `off` on and grows the file no more than it must. */
  lemma SplicedBytes(s: seq<int>, off: nat, src: seq<int>)
    requires off <= |s|
    ensures |Spliced(s, off, src)| == if off + |src| > |s| then off + |src| else |s|
    ensures forall k :: 0 <= k < |Spliced(s, off, src)| ==>
              (off <= k < off + |src| ==> Spliced(s, off, src)[k] == src[k - off])
              && (k < off || off + |src| <= k ==> k < |s| && Spliced(s, off, src)[k] == s[k])
  {
  }

  /** Reading from where `src` was written finds it, then what the file had behind
      it, however long the read; and reads that end before it or begin behind it
      find what they found before. */
  lemma ReadBack(s: seq<int>, off: nat, src: seq<int>, n: nat)
    requires off <= |s| && off + n < U32
    ensures n <= |src| ==> Clipped(Spliced(s, off, src), off, n) == src[..n]
    ensures n >= |src| ==> Clipped(Spliced(s, off, src), off, n) == src + Clipped(s, off + |src|, n - |src|)
    ensures forall at: nat, m: nat :: at + m <= off || off + |src| <= at ==>
              Clipped(Spliced(s, off, src), at, m) == Clipped(s, at, m)
  {
    var t := Spliced(s, off, src);
    SplicedBytes(s, off, src);
    hide Spliced;
    if n <= |src| {
      assert t[off..off + n] == src[..n];
    } else {
      assert Clipped(t, off, n) == src + Clipped(s, off + |src|, n - |src|);
    }
    forall at: nat, m: nat | at + m <= off || off + |src| <= at
      ensures Clipped(t, at, m) == Clipped(s, at, m)
    {
      if at <= |s| && at + m <= |s| {
        assert t[at..at + m] == s[at..at + m];
      } else if at <= |s| {
        assert t[at..] == s[at..];
      }
    }
  }

  /** What reads of the given lengths return, each from where the one before it
      stopped. */
  ghost function Pieces(s: seq<int>, off: nat, ns: seq<nat>): (r: seq<int>)
    decreases |ns|
  {
    if ns == [] then [] else
      var p := Clipped(s, off, ns[0]);
      p + Pieces(s, off + |p|, ns[1..])
  }

  ghost function Total(ns: seq<nat>): (n: nat) {
    if ns == [] then 0 else ns[0] + Total(ns[1..])
  }

  /** How far reads of `n` bytes from `off` on get in a file of this size. */
  function Reach(size: nat, off: nat, n: nat): (end: nat)
    requires off <= size
  {
    if n < size - off then off + n else size
  }

  lemma ClippedSlice(s: seq<int>, off: nat, n: nat)
    requires off <= |s| && off + n < U32
    ensures Clipped(s, off, n) == s[off..Reach(|s|, off, n)]
  {
  }

  /** Pieces of any size, together, are the file as far as they reach. */
  lemma {:induction false} PiecesRead(s: seq<int>, off: nat, ns: seq<nat>)
    requires off <= |s| && forall k :: 0 <= k < |ns| ==> |s| + ns[k] < U32
    ensures Pieces(s, off, ns) == s[off..Reach(|s|, off, Total(ns))]
    decreases |ns|
  {
    hide Clipped;
    if ns == [] {
    } else {
      var mid := Reach(|s|, off, ns[0]);
      ClippedSlice(s, off, ns[0]);
      PiecesRead(s, mid, ns[1..]);
      var end := Reach(|s|, mid, Total(ns[1..]));
      assert end == Reach(|s|, off, Total(ns));
      assert s[off..mid] + s[mid..end] == s[off..end];
    }
  }

  /** Splicing in two consecutive pieces is splicing in the whole. */
  lemma SplicedTwice(s: seq<int>, off: nat, a: seq<int>, b: seq<int>)
    requires off <= |s|
    ensures off + |a| <= |Spliced(s, off, a)|
    ensures Spliced(Spliced(s, off, a), off + |a|, b) == Spliced(s, off, a + b)
  {
    var t := Spliced(s, off, a);
    assert t[..off + |a|] == s[..off] + a;
    if off + |a| + |b| < |t| {
      assert t[off + |a| + |b|..] == s[off + |a| + |b|..];
    }
  }

  /** Setting the size after the bytes are in place. */
  ghost function WithSize(v: Vol, i: nat, size: nat): (w: Vol)
    requires i < |v.inodes|
  {
    Vol(v.meta, v.bitmap, v.data, v.inodes[i := Inode(size, v.inodes[i].addrs)])
  }

  lemma SizeOnly(v: Vol, i: nat, size: nat)
    requires Ownership(v, {}, {}) && i < |v.inodes|
    ensures SameSlots(v, WithSize(v, i, size)) && Ownership(WithSize(v, i, size), {}, {})
    ensures forall j: nat, off: nat :: InFile(v, j, off) ==> Byte(WithSize(v, i, size), j, off) == Byte(v, j, off)
  {
    hide Get32;
    var w := WithSize(v, i, size);
    assert VolOk(w);
    assert SameSlots(v, w);
    SameOwnership(v, w);
  }

  /** writei as a whole: the file is spliced, every other file is as it was. */
  lemma WriteFinished(v: Vol, u: Vol, i: nat, lo: nat, src: seq<int>)
    requires Good(v) && i < |v.inodes| && lo <= v.inodes[i].size && lo + |src| <= MAXFILE * BSIZE
    requires Written(v, u, i, lo, src)
    ensures var size := if lo + |src| > u.inodes[i].size then lo + |src| else u.inodes[i].size;
            var w := WithSize(u, i, size);
            && Good(w) && |w.inodes| == |v.inodes| && w.Size() == v.Size() && w.meta == v.meta
            && Contents(w, i) == Spliced(Contents(v, i), lo, src)
            && (forall j :: 0 <= j < |v.inodes| && j != i ==> Contents(w, j) == Contents(v, j))
  {
    var size := if lo + |src| > u.inodes[i].size then lo + |src| else u.inodes[i].size;
    var w := WithSize(u, i, size);
    SizeOnly(u, i, size);
    hide At, Slot, Disjoint, Exact, Byte, FileOk, SameSlots, OthersKept, BlockOk;
    GoodAfter(v, u, w, i, lo, src);
    forall j: nat | j < |v.inodes|
      ensures j != i ==> Contents(w, j) == Contents(v, j)
      ensures j == i ==> Contents(w, j) == Spliced(Contents(v, j), lo, src)
    {
      WrittenContents(v, u, w, i, lo, src, j);
    }
  }

  lemma WrittenContents(v: Vol, u: Vol, w: Vol, i: nat, lo: nat, src: seq<int>, j: nat)
    requires Good(v) && Good(w) && i < |v.inodes| && j < |v.inodes| == |w.inodes|
    requires Written(v, u, i, lo, src) && lo <= v.inodes[i].size
    requires w.inodes[j].size == if j == i && lo + |src| > v.inodes[j].size then lo + |src| else v.inodes[j].size
    requires forall j: nat, off: nat :: InFile(u, j, off) ==> Byte(w, j, off) == Byte(u, j, off)
    ensures Contents(w, j) == if j == i then Spliced(Contents(v, j), lo, src) else Contents(v, j)
  {
    hide At, Slot, Ownership, Byte, FileOk, Written, Contents;
    forall off: nat | off < w.inodes[j].size
      ensures j == i && lo <= off < lo + |src| ==> Contents(w, j)[off] == src[off - lo]
      ensures !(j == i && lo <= off < lo + |src|) ==>
                off < v.inodes[j].size && Contents(w, j)[off] == Contents(v, j)[off]
    {
      WrittenByte(v, u, w, i, lo, src, j, off);
    }
    if j == i {
      assert Contents(w, j) == Spliced(Contents(v, j), lo, src);
    } else {
      assert Contents(w, j) == Contents(v, j);
    }
  }

  lemma GoodAfter(v: Vol, u: Vol, w: Vol, i: nat, lo: nat, src: seq<int>)
    requires Good(v) && i < |v.inodes| && lo <= v.inodes[i].size && lo + |src| <= MAXFILE * BSIZE
    requires Written(v, u, i, lo, src) && SameSlots(u, w) && Ownership(w, {}, {})
    requires forall j: nat :: j < |v.inodes| ==>
               w.inodes[j].size == if j == i && lo + |src| > v.inodes[j].size then lo + |src| else v.inodes[j].size
    ensures Good(w)
  {
    hide At, Slot, Disjoint, Exact, Byte;
    forall j: nat | j < |v.inodes|
      ensures FileOk(w, j)
    {
      assert FileOk(v, j);
      WrittenFile(v, u, w, i, lo, src, j);
    }
  }

  lemma WrittenFile(v: Vol, u: Vol, w: Vol, i: nat, lo: nat, src: seq<int>, j: nat)
    requires VolOk(v) && i < |v.inodes| && j < |v.inodes| && FileOk(v, j)
    requires Written(v, u, i, lo, src) && lo <= v.inodes[i].size && lo + |src| <= MAXFILE * BSIZE
    requires SameSlots(u, w)
    requires w.inodes[j].size == if j == i && lo + |src| > v.inodes[j].size then lo + |src| else v.inodes[j].size
    ensures FileOk(w, j)
  {
    hide At, Slot, Ownership, Byte;
    forall k: nat | k * BSIZE < w.inodes[j].size
      ensures At(w, Ref(j, k)) != 0
    {
      assert IsRef(v, Ref(j, k));
      if k * BSIZE >= v.inodes[j].size {
        assert k * BSIZE / BSIZE == k;
        assert InFile(u, i, k * BSIZE);
      }
    }
  }

  lemma WrittenByte(v: Vol, u: Vol, w: Vol, i: nat, lo: nat, src: seq<int>, j: nat, off: nat)
    requires Good(v) && Good(w) && i < |v.inodes| && j < |v.inodes| == |w.inodes|
    requires Written(v, u, i, lo, src) && lo <= v.inodes[i].size && off < w.inodes[j].size
    requires w.inodes[j].size == if j == i && lo + |src| > v.inodes[j].size then lo + |src| else v.inodes[j].size
    requires forall j: nat, off: nat :: InFile(u, j, off) ==> Byte(w, j, off) == Byte(u, j, off)
    ensures j == i && lo <= off < lo + |src| ==> Contents(w, j)[off] == src[off - lo]
    ensures !(j == i && lo <= off < lo + |src|) ==>
              off < v.inodes[j].size && Contents(w, j)[off] == Contents(v, j)[off]
  {
    hide At, Slot, Ownership, Byte;
    if j == i && lo <= off < lo + |src| {
      assert InFile(u, i, off);
    } else {
      InBlock(v, j, off);
      assert IsRef(v, Ref(j, off / BSIZE));
      assert InFile(u, j, off);
    }
  }
}
