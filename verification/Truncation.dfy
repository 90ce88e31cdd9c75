/** What freeing an inode's blocks does to ownership and to the other files. */
module Truncation {
  import opened InodeBlocks
  import opened FileContents

  /** The blocks in use after freeing the block of slot `r`. */
  ghost function Released(v: Vol, b: nat): (w: Vol)
    requires b < v.Size()
  {
    Vol(v.meta, v.bitmap[b := false], v.data, v.inodes)
  }

  /** A block a slot owns has its bit set, so freeing it cannot panic. */
  lemma OwnedBit(v: Vol, gone: set<Ref>, r: Ref)
    requires Ownership(v, gone, {}) && Owns(v, gone, r)
    ensures v.meta <= At(v, r) < v.Size() && v.bitmap[At(v, r)]
  {
    hide At, Slot;
    assert Owned(v, gone, At(v, r));
  }

  lemma ReleasedOk(v: Vol, gone: set<Ref>, r: Ref)
    requires Ownership(v, gone, {}) && Owns(v, gone, r)
    ensures At(v, r) < v.Size() && SameSlots(v, Released(v, At(v, r)))
    ensures Ownership(Released(v, At(v, r)), gone + {r}, {})
  {
    OwnedBit(v, gone, r);
    var w := Released(v, At(v, r));
    BitsOnly(v, w);
    GaveBlock(v, w, gone, r);
  }

  lemma BitsOnly(v: Vol, w: Vol)
    requires VolOk(v) && |w.bitmap| == |v.bitmap| && w == Vol(v.meta, w.bitmap, v.data, v.inodes)
    ensures SameSlots(v, w)
  {
    hide Get32;
  }

  /** Slots below `n` of inode `i` are empty; all else is as it was. */
  ghost predicate Emptied(v: Vol, w: Vol, i: nat, n: nat) {
    && VolOk(v) && VolOk(w) && |v.inodes| == |w.inodes| && v.Size() == w.Size() && v.meta == w.meta
    && w.data == v.data && i < |v.inodes| && w.inodes[i].size == v.inodes[i].size
    && (forall r :: IsRef(v, r) && !(r.i == i && r.k < n) ==> At(w, r) == At(v, r))
    && (forall r :: IsRef(v, r) && r.i == i && r.k < n ==> At(w, r) == 0)
    && (forall j :: 0 <= j < |v.inodes| && j != i ==> w.inodes[j] == v.inodes[j])
  }

  lemma NothingEmptied(v: Vol, i: nat)
    requires VolOk(v) && i < |v.inodes|
    ensures Emptied(v, v, i, 0)
  {
  }

  lemma EmptiedOk(v: Vol, w: Vol, i: nat, n: nat)
    requires Emptied(v, w, i, n)
    ensures VolOk(w) && |w.inodes| == |v.inodes| && i < |w.inodes| && w.Size() == v.Size()
    ensures |w.inodes[i].addrs| == NDIRECT + 1
  {
  }

  /** The turn of the direct loop for a slot that has a block. */
  lemma DirectFreed(v: Vol, u: Vol, i: nat, k: nat)
    requires Ownership(u, {}, {}) && Emptied(v, u, i, k) && k < NDIRECT && u.inodes[i].addrs[k] != 0
    ensures var b := u.inodes[i].addrs[k];
            && b < u.Size() && u.bitmap[b]
            && Ownership(WithAddr(Released(u, b), i, k, 0), {}, {})
            && Emptied(v, WithAddr(Released(u, b), i, k, 0), i, k + 1)
  {
    var r := Ref(i, k);
    var b := u.inodes[i].addrs[k];
    assert At(u, r) == b;
    assert Owns(u, {}, r);
    OwnedBit(u, {}, r);
    ReleasedOk(u, {}, r);
    var w := Released(u, b);
    var z := WithAddr(w, i, k, 0);
    AddrDropped(w, i, k);
    hide At, Slot, Disjoint, Exact;
    assert {} + {r} == {r};
    ClearedBlocks(w, z, {r}, {});
    DirectEmptied(v, u, w, z, i, k);
  }

  lemma DirectEmptied(v: Vol, u: Vol, w: Vol, z: Vol, i: nat, k: nat)
    requires Emptied(v, u, i, k) && SameSlots(u, w) && Cleared(w, z, {Ref(i, k)}, {}) && k < NDIRECT
    requires w.data == z.data == u.data && w.inodes == u.inodes && z.inodes[i].size == u.inodes[i].size
    requires forall j :: 0 <= j < |v.inodes| && j != i ==> z.inodes[j] == u.inodes[j]
    ensures Emptied(v, z, i, k + 1)
  {
    hide At, Slot;
  }

  lemma AddrDropped(v: Vol, i: nat, k: nat)
    requires VolOk(v) && i < |v.inodes| && k < NDIRECT
    ensures Cleared(v, WithAddr(v, i, k, 0), {Ref(i, k)}, {})
  {
    hide Get32;
    assert VolOk(WithAddr(v, i, k, 0));
  }

  /** The turn of the direct loop for an empty slot. */
  lemma DirectEmpty(v: Vol, u: Vol, i: nat, k: nat)
    requires Emptied(v, u, i, k) && k < NDIRECT && u.inodes[i].addrs[k] == 0
    ensures Emptied(v, u, i, k + 1)
  {
    hide Get32;
  }

  /** Entries of the indirect block that have given up their block. */
  ghost predicate EntriesGone(v: Vol, i: nat, gone: set<Ref>, j: nat)
    requires VolOk(v) && i < |v.inodes|
  {
    && (forall r :: r in gone ==> r.i == i && NDIRECT <= r.k < NDIRECT + j)
    && (forall r :: IsRef(v, r) && r.i == i && NDIRECT <= r.k < NDIRECT + j && At(v, r) != 0 ==> r in gone)
  }

  lemma NothingGone(v: Vol, i: nat)
    requires VolOk(v) && i < |v.inodes|
    ensures EntriesGone(v, i, {}, 0)
  {
  }

  lemma EntryEmpty(v: Vol, i: nat, gone: set<Ref>, j: nat)
    requires VolOk(v) && i < |v.inodes| && EntriesGone(v, i, gone, j) && j < NINDIRECT
    requires At(v, Ref(i, NDIRECT + j)) == 0
    ensures EntriesGone(v, i, gone, j + 1)
  {
    hide Slot, At;
  }

  lemma EntryFreed(v: Vol, i: nat, gone: set<Ref>, j: nat)
    requires Ownership(v, gone, {}) && i < |v.inodes| && EntriesGone(v, i, gone, j) && j < NINDIRECT
    requires At(v, Ref(i, NDIRECT + j)) != 0
    ensures var b := At(v, Ref(i, NDIRECT + j));
            && b < v.Size() && v.bitmap[b]
            && Ownership(Released(v, b), gone + {Ref(i, NDIRECT + j)}, {})
            && EntriesGone(Released(v, b), i, gone + {Ref(i, NDIRECT + j)}, j + 1)
  {
    hide Slot, At;
    var r := Ref(i, NDIRECT + j);
    assert Owns(v, gone, r);
    OwnedBit(v, gone, r);
    ReleasedOk(v, gone, r);
  }

  /** The indirect block itself, after all of its entries. */
  lemma IndirectFreed(v: Vol, i: nat, gone: set<Ref>)
    requires Ownership(v, gone, {}) && i < |v.inodes| && EntriesGone(v, i, gone, NINDIRECT)
    requires v.inodes[i].addrs[NDIRECT] != 0
    ensures var b := v.inodes[i].addrs[NDIRECT];
            && b < v.Size() && v.bitmap[b]
            && Ownership(WithAddr(Released(v, b), i, NDIRECT, 0), {}, {})
            && TailDropped(v, WithAddr(Released(v, b), i, NDIRECT, 0), i)
  {
    var r := Ref(i, MAXFILE);
    var b := v.inodes[i].addrs[NDIRECT];
    assert At(v, r) == b;
    assert Owns(v, gone, r);
    OwnedBit(v, gone, r);
    ReleasedOk(v, gone, r);
    var w := Released(v, b);
    var z := WithAddr(w, i, NDIRECT, 0);
    TailCleared(w, i);
    BitsOnly(v, w);
    hide At, Slot, Disjoint, Exact;
    TailCovered(v, w, z, i, gone);
    ClearedBlocks(w, z, gone + {r}, {});
  }

  /** Slots of inode `i` from NDIRECT on are empty; the others are as they were. */
  ghost predicate TailDropped(v: Vol, w: Vol, i: nat) {
    && VolOk(v) && VolOk(w) && |v.inodes| == |w.inodes| && v.Size() == w.Size() && v.meta == w.meta && i < |v.inodes|
    && (forall r :: IsRef(v, r) && !(r.i == i && r.k >= NDIRECT) ==> At(w, r) == At(v, r))
    && (forall r :: IsRef(v, r) && r.i == i && r.k >= NDIRECT ==> At(w, r) == 0)
  }

  lemma TailCleared(v: Vol, i: nat)
    requires VolOk(v) && i < |v.inodes|
    ensures TailDropped(v, WithAddr(v, i, NDIRECT, 0), i)
  {
    hide Get32;
    assert VolOk(WithAddr(v, i, NDIRECT, 0));
  }

  lemma TailCovered(v: Vol, w: Vol, z: Vol, i: nat, gone: set<Ref>)
    requires VolOk(v) && i < |v.inodes| && EntriesGone(v, i, gone, NINDIRECT) && SameSlots(v, w) && TailDropped(w, z, i)
    ensures Cleared(w, z, gone + {Ref(i, MAXFILE)}, {}) && TailDropped(v, z, i)
  {
    hide At, Slot;
  }

  lemma TailTwice(u: Vol, w: Vol, z: Vol, i: nat)
    requires VolOk(u) && VolOk(w) && w == Vol(u.meta, w.bitmap, u.data, u.inodes) && w.Size() == u.Size()
    requires TailDropped(w, z, i)
    ensures TailDropped(u, z, i)
  {
    BitsOnly(u, w);
    hide At, Slot;
  }

  lemma AllEmptied(v: Vol, u: Vol, w: Vol, i: nat)
    requires Emptied(v, u, i, NDIRECT) && TailDropped(u, w, i) && w.data == u.data
    requires w.inodes[i].size == u.inodes[i].size
    requires forall j :: 0 <= j < |u.inodes| && j != i ==> w.inodes[j] == u.inodes[j]
    ensures Emptied(v, w, i, MAXFILE + 1)
  {
    hide At, Slot;
  }

  /** With no indirect block the tail is empty as it stands. */
  lemma NoTail(v: Vol, u: Vol, i: nat)
    requires Emptied(v, u, i, NDIRECT) && u.inodes[i].addrs[NDIRECT] == 0
    ensures Emptied(v, u, i, MAXFILE + 1)
  {
    hide Get32;
  }

  /** What truncation leaves: an empty file, the others untouched, and in the
      bitmap exactly the file's own blocks given back. */
  ghost predicate Truncated(v: Vol, w: Vol, i: nat)
    requires Good(v)
  {
    && Good(w) && |w.inodes| == |v.inodes| && w.Size() == v.Size() && w.meta == v.meta && i < |v.inodes|
    && w.inodes[i].size == 0 && (forall k: nat :: k <= MAXFILE ==> At(w, Ref(i, k)) == 0)
    && (forall j :: 0 <= j < |v.inodes| && j != i ==> w.inodes[j] == v.inodes[j] && Contents(w, j) == Contents(v, j))
    && (forall b: nat :: b < v.Size() ==> (w.bitmap[b] <==> v.bitmap[b] && !BlockOf(v, i, b)))
  }

  /** Block `b` belongs to inode `i`. */
  ghost predicate BlockOf(v: Vol, i: nat, b: nat)
    requires VolOk(v) && i < |v.inodes|
  {
    exists k: nat :: k <= MAXFILE && At(v, Ref(i, k)) == b != 0
  }

  lemma TruncatedOk(v: Vol, u: Vol, i: nat)
    requires Good(v) && Emptied(v, u, i, MAXFILE + 1) && Ownership(u, {}, {})
    ensures Truncated(v, WithSize(u, i, 0), i)
  {
    var w := WithSize(u, i, 0);
    SizeOnly(u, i, 0);
    hide At, Slot, Disjoint, Exact;
    forall r | IsRef(v, r)
      ensures At(w, r) == if r.i == i then 0 else At(v, r)
    {
      assert IsRef(u, r);
    }
    OthersGood(v, w, i);
    forall j | 0 <= j < |v.inodes| && j != i
      ensures Contents(w, j) == Contents(v, j)
    {
      SameContents(v, w, i, j);
    }
    forall b: nat | b < v.Size()
      ensures w.bitmap[b] <==> v.bitmap[b] && !BlockOf(v, i, b)
    {
      BitAfter(v, w, i, b);
    }
  }

  lemma OthersGood(v: Vol, w: Vol, i: nat)
    requires Good(v) && Ownership(w, {}, {}) && i < |v.inodes| == |w.inodes| && w.inodes[i].size == 0
    requires forall r :: IsRef(v, r) ==> At(w, r) == if r.i == i then 0 else At(v, r)
    requires forall j :: 0 <= j < |v.inodes| && j != i ==> w.inodes[j].size == v.inodes[j].size
    ensures Good(w)
  {
    hide At, Slot, Disjoint, Exact;
    forall j: nat | j < |w.inodes|
      ensures FileOk(w, j)
    {
      assert FileOk(v, j);
      forall k: nat | k * BSIZE < w.inodes[j].size
        ensures At(w, Ref(j, k)) != 0
      {
        assert IsRef(v, Ref(j, k));
      }
    }
  }

  lemma SameContents(v: Vol, w: Vol, i: nat, j: nat)
    requires Good(v) && Good(w) && i < |v.inodes| == |w.inodes| && j < |v.inodes| && j != i
    requires w.data == v.data && w.Size() == v.Size() && w.inodes[j].size == v.inodes[j].size
    requires forall r :: IsRef(v, r) ==> At(w, r) == if r.i == i then 0 else At(v, r)
    ensures Contents(w, j) == Contents(v, j)
  {
    hide At, Slot, Disjoint, Exact, FileOk;
    forall off: nat | off < v.inodes[j].size
      ensures Contents(w, j)[off] == Contents(v, j)[off]
    {
      InBlock(v, j, off);
      assert IsRef(v, Ref(j, off / BSIZE));
    }
  }

  lemma BitAfter(v: Vol, w: Vol, i: nat, b: nat)
    requires Ownership(v, {}, {}) && Ownership(w, {}, {}) && i < |v.inodes| == |w.inodes|
    requires b < v.Size() == w.Size() && v.meta == w.meta
    requires forall r :: IsRef(v, r) ==> At(w, r) == if r.i == i then 0 else At(v, r)
    ensures w.bitmap[b] <==> v.bitmap[b] && !BlockOf(v, i, b)
  {
    hide At, Slot;
    if Owned(w, {}, b) {
      var r :| Owns(w, {}, r) && At(w, r) == b;
      assert Owns(v, {}, r);
    }
    if BlockOf(v, i, b) {
      var k: nat :| k <= MAXFILE && At(v, Ref(i, k)) == b != 0;
      assert Owns(v, {}, Ref(i, k));
    } else if Owned(v, {}, b) {
      var r :| Owns(v, {}, r) && At(v, r) == b;
      assert Owns(w, {}, r);
    }
  }
}
