/** The file system operations on blocks and inodes: allocation, the block map,
    truncation, reading and writing. The buffer cache and the log below are
    transparent here; every block passed to log_write is remembered. */
module FileSystem {
  import opened Basics
  import opened InodeBlocks
  import opened FileContents
  import opened Truncation

  /** Bits in one bitmap block, and inodes in one inode block. */
  const BPB: nat := BSIZE * 8
  const IPB: nat := 16
  const MAXOPBLOCKS: nat := 10

  /** A block that goes into the log. */
  datatype LogId = BitmapBlock(n: nat) | InodeBlock(n: nat) | DataBlock(b: nat)

  class Fs {
    const meta: nat
    var bitmap: seq<bool>
    var data: seq<Block>
    var inodes: seq<Inode>
    /** Blocks given to log_write so far. */
    ghost var logged: set<LogId>

    constructor (v: Vol)
      ensures V() == v && logged == {}
    {
      meta, bitmap, data, inodes, logged := v.meta, v.bitmap, v.data, v.inodes, {};
    }

    ghost function V(): (v: Vol)
      reads this
    {
      Vol(meta, bitmap, data, inodes)
    }

    /** balloc: the lowest clear bit, its block zeroed. With none the source
        panics, modelled as `None`. */
    method Balloc() returns (b: Option<nat>)
      requires Ownership(V(), {}, {})
      modifies this`bitmap, this`data, this`logged
      ensures b.None? <==> forall c :: 0 <= c < |old(bitmap)| ==> old(bitmap)[c]
      ensures b.None? ==> V() == old(V()) && logged == old(logged)
      ensures b.Some? ==>
                && b.value < |old(bitmap)| && !old(bitmap)[b.value]
                && (forall c :: 0 <= c < b.value ==> old(bitmap)[c])
                && V() == Taken(old(V()), b.value)
                && logged == old(logged) + {BitmapBlock(b.value / BPB), DataBlock(b.value)}
    {
      var base := 0;
      while base < |bitmap|
        invariant V() == old(V()) && logged == old(logged)
        invariant forall c :: 0 <= c < base && c < |bitmap| ==> bitmap[c]
      {
        var bi := 0;
        while bi < BPB && base + bi < |bitmap|
          invariant 0 <= bi <= BPB && V() == old(V()) && logged == old(logged)
          invariant forall c :: 0 <= c < base + bi && c < |bitmap| ==> bitmap[c]
        {
          if !bitmap[base + bi] {
            bitmap := bitmap[base + bi := true];
            data := data[base + bi := Zero()];
            logged := logged + {BitmapBlock((base + bi) / BPB), DataBlock(base + bi)};
            return Some(base + bi);
          }
          bi := bi + 1;
        }
        base := base + BPB;
      }
      b := None;
    }

    /** bfree: clear the bit, which must be set. */
    method Bfree(b: nat)
      requires b < |bitmap| && bitmap[b]
      modifies this`bitmap, this`logged
      ensures bitmap == old(bitmap)[b := false]
      ensures logged == old(logged) + {BitmapBlock(b / BPB)}
    {
      bitmap := bitmap[b := false];
      logged := logged + {BitmapBlock(b / BPB)};
    }

    /** A direct address, or the indirect block, allocated into an empty slot. */
    method AllocAddr(i: nat, k: nat) returns (b: Option<nat>)
      requires Ownership(V(), {}, {}) && i < |inodes| && k <= NDIRECT && inodes[i].addrs[k] == 0
      modifies this
      ensures b.None? ==> forall c :: 0 <= c < |bitmap| ==> bitmap[c]
      ensures b.Some? ==> Grown(old(V()), V(), Ref(i, if k == NDIRECT then MAXFILE else k), b.value)
      ensures b.Some? ==> Covered(old(V()), old(logged), V(), logged, i)
      ensures b.Some? ==> logged == old(logged) + {BitmapBlock(b.value / BPB), DataBlock(b.value)}
    {
      assert |inodes[i].addrs| == NDIRECT + 1;
      hide Grown, Ownership, Slot, Covered;
      b := Balloc();
      if b.Some? {
        AddrAllocated(old(V()), i, k, b.value);
        CoveredAddr(old(V()), old(logged), i, k, b.value);
        var ip := inodes[i];
        inodes := inodes[i := Inode(ip.size, ip.addrs[k := b.value])];
      }
    }

    /** An entry of the indirect block allocated into an empty slot. */
    method AllocEntry(i: nat, j: nat) returns (b: Option<nat>)
      requires Ownership(V(), {}, {}) && i < |inodes| && j < NINDIRECT
      requires inodes[i].addrs[NDIRECT] != 0 && At(V(), Ref(i, NDIRECT + j)) == 0
      modifies this
      ensures b.None? ==> forall c :: 0 <= c < |bitmap| ==> bitmap[c]
      ensures b.Some? ==> Grown(old(V()), V(), Ref(i, NDIRECT + j), b.value)
      ensures b.Some? ==> Covered(old(V()), old(logged), V(), logged, i)
      ensures b.Some? ==>
                logged == old(logged) + {BitmapBlock(b.value / BPB), DataBlock(b.value),
                                         DataBlock(old(inodes)[i].addrs[NDIRECT])}
    {
      var a := inodes[i].addrs[NDIRECT];
      assert a < |bitmap|;
      hide Grown, Slot, Covered;
      b := Balloc();
      if b.Some? {
        EntryAllocated(old(V()), i, j, b.value);
        CoveredEntry(old(V()), old(logged), i, j, b.value);
        data := data[a := Put32(data[a], j, b.value)];
        logged := logged + {DataBlock(a)};
      }
    }

    /** bmap: the block of file block `bn`, allocated if there was none. A block
        that existed is returned without touching anything. */
    method Bmap(i: nat, bn: nat) returns (b: Option<nat>)
      requires Ownership(V(), {}, {}) && i < |inodes| && bn < MAXFILE
      modifies this
      ensures b.Some? ==> Covered(old(V()), old(logged), V(), logged, i)
      ensures b.None? ==> forall c :: 0 <= c < |bitmap| ==> bitmap[c]
      ensures b.Some? ==> Mapped(old(V()), V(), i, bn) && b.value == At(V(), Ref(i, bn))
      ensures At(old(V()), Ref(i, bn)) != 0 ==> b.Some? && V() == old(V()) && logged == old(logged)
      ensures b.Some? ==> LoggedFor(V(), old(logged), logged, i, bn)
    {
      if bn < NDIRECT {
        b := BmapDirect(i, bn);
      } else {
        var j := bn - NDIRECT;
        if inodes[i].addrs[NDIRECT] == 0 {
          b := BmapFresh(i, j);
        } else {
          b := BmapEntry(i, j);
        }
      }
    }

    method BmapDirect(i: nat, bn: nat) returns (b: Option<nat>)
      requires Ownership(V(), {}, {}) && i < |inodes| && bn < NDIRECT
      modifies this
      ensures b.Some? ==> Covered(old(V()), old(logged), V(), logged, i)
      ensures b.None? ==> forall c :: 0 <= c < |bitmap| ==> bitmap[c]
      ensures b.Some? ==> Mapped(old(V()), V(), i, bn) && b.value == At(V(), Ref(i, bn))
      ensures At(old(V()), Ref(i, bn)) != 0 ==> b.Some? && V() == old(V()) && logged == old(logged)
      ensures b.Some? ==> LoggedFor(V(), old(logged), logged, i, bn)
    {
      DirectSlot(V(), i, bn);
      hide Slot, At, Grown, Mapped, LoggedFor, Disjoint, Exact, BlockOk, Covered;
      if inodes[i].addrs[bn] == 0 {
        b := AllocAddr(i, bn);
        if b.Some? {
          GrownMapped(old(V()), V(), i, bn, b.value);
          GrownLogged(V(), old(logged), logged, i, bn, b.value);
        }
      } else {
        KeptMapped(V(), i, bn);
        KeptLogged(V(), logged, i, bn);
        CoveredSame(V(), logged, i);
        b := Some(inodes[i].addrs[bn]);
      }
    }

    /** The indirect block exists. */
    method BmapEntry(i: nat, j: nat) returns (b: Option<nat>)
      requires Ownership(V(), {}, {}) && i < |inodes| && j < NINDIRECT && inodes[i].addrs[NDIRECT] != 0
      modifies this
      ensures b.Some? ==> Covered(old(V()), old(logged), V(), logged, i)
      ensures b.None? ==> forall c :: 0 <= c < |bitmap| ==> bitmap[c]
      ensures b.Some? ==> Mapped(old(V()), V(), i, NDIRECT + j) && b.value == At(V(), Ref(i, NDIRECT + j))
      ensures b.Some? ==> At(V(), Ref(i, MAXFILE)) == old(inodes)[i].addrs[NDIRECT]
      ensures At(old(V()), Ref(i, NDIRECT + j)) != 0 ==> b.Some? && V() == old(V()) && logged == old(logged)
      ensures b.Some? ==> LoggedFor(V(), old(logged), logged, i, NDIRECT + j)
    {
      hide Slot, At, Get32, Grown, Mapped, LoggedFor, Disjoint, Exact, Covered;
      var a := inodes[i].addrs[NDIRECT];
      var e := Get32(data[a], j);
      EntrySlot(V(), i, j);
      if e == 0 {
        b := AllocEntry(i, j);
        if b.Some? {
          GrownMapped(old(V()), V(), i, NDIRECT + j, b.value);
          GrownKeeps(old(V()), V(), i, NDIRECT + j, b.value);
          GrownLogged(V(), old(logged), logged, i, NDIRECT + j, b.value);
        }
      } else {
        KeptMapped(V(), i, NDIRECT + j);
        KeptLogged(V(), logged, i, NDIRECT + j);
        CoveredSame(V(), logged, i);
        b := Some(e);
      }
    }

    /** The indirect block is missing and is allocated first. */
    method BmapFresh(i: nat, j: nat) returns (b: Option<nat>)
      requires Ownership(V(), {}, {}) && i < |inodes| && j < NINDIRECT && inodes[i].addrs[NDIRECT] == 0
      modifies this
      ensures b.Some? ==> Covered(old(V()), old(logged), V(), logged, i)
      ensures b.None? ==> forall c :: 0 <= c < |bitmap| ==> bitmap[c]
      ensures b.Some? ==> Mapped(old(V()), V(), i, NDIRECT + j) && b.value == At(V(), Ref(i, NDIRECT + j))
      ensures At(old(V()), Ref(i, NDIRECT + j)) == 0
      ensures b.Some? ==> LoggedFor(V(), old(logged), logged, i, NDIRECT + j)
    {
      ghost var v := V();
      assert At(v, Ref(i, NDIRECT + j)) == 0;
      hide Slot, Grown, Mapped, Disjoint, Exact, LoggedFor, Covered;
      b := AllocAddr(i, NDIRECT);
      if b.None? {
        return;
      }
      ghost var u := V();
      ghost var g := logged;
      GrownOk(v, u, i, b.value);
      var a := inodes[i].addrs[NDIRECT];
      b := BmapEntry(i, j);
      if b.Some? {
        MappedTwice(v, u, V(), i, j, a);
        LoggedTwice(V(), old(logged), g, logged, i, NDIRECT + j, a);
        CoveredTwice(v, old(logged), u, g, V(), logged, i);
      }
    }

    /** readi with copies that succeed: the clipped slice of the contents. No
        block is allocated, nothing is logged. */
    method Readi(i: nat, off: nat, n: nat) returns (r: seq<int>)
      requires Good(V()) && i < |inodes| && off < U32 && n < U32
      modifies this
      ensures V() == old(V()) && logged == old(logged)
      ensures r == Clipped(Contents(V(), i), off, n)
      ensures |r| == if off > inodes[i].size || off + n >= U32 then 0
                     else if n < inodes[i].size - off then n else inodes[i].size - off
      ensures forall k :: 0 <= k < |r| ==> r[k] == Contents(V(), i)[off + k]
    {
      if off > inodes[i].size || (off + n) % U32 < off {
        return [];
      }
      var len := n;
      if off + n > inodes[i].size {
        len := inodes[i].size - off;
      }
      r := ReadBlocks(i, off, len);
    }

    /** A file read from its start in pieces of `n` bytes until there are no more, as
        cat does. */
    method ReadFile(i: nat, n: nat) returns (r: seq<int>)
      requires Good(V()) && i < |inodes| && 0 < n && inodes[i].size + n < U32
      modifies this
      ensures V() == old(V()) && logged == old(logged) && r == Contents(V(), i)
    {
      r := [];
      hide Good, Contents, Clipped;
      while true
        invariant V() == old(V()) && logged == old(logged)
        invariant |r| <= inodes[i].size && r == Contents(V(), i)[..|r|]
        decreases inodes[i].size - |r|
      {
        var p := Readi(i, |r|, n);
        if p == [] {
          return;
        }
        assert r + p == Contents(V(), i)[..|r| + |p|];
        r := r + p;
      }
    }

    /** The loop of readi, below the file's size. */
    method ReadBlocks(i: nat, off: nat, len: nat) returns (r: seq<int>)
      requires Good(V()) && i < |inodes| && off + len <= inodes[i].size
      modifies this
      ensures V() == old(V()) && logged == old(logged)
      ensures r == Contents(V(), i)[off..off + len]
    {
      var tot := 0;
      r := [];
      hide Disjoint, Exact, FileOk, At, Slot, Contents, Mapped, Covered;
      while tot < len
        invariant 0 <= tot <= len && V() == old(V()) && logged == old(logged)
        invariant r == Contents(V(), i)[off..off + tot]
      {
        var at := off + tot;
        InBlock(V(), i, at);
        var b := Bmap(i, at / BSIZE);
        var m := if len - tot < BSIZE - at % BSIZE then len - tot else BSIZE - at % BSIZE;
        SliceOfBlock(V(), i, at, m);
        r := r + data[b.value][at % BSIZE..at % BSIZE + m];
        tot := tot + m;
        assert r == Contents(V(), i)[off..off + tot];
      }
    }

    /** The loop of writei: one file block a turn, mapped and patched. */
    method WriteBlocks(i: nat, src: seq<int>, off: nat) returns (ok: bool)
      requires Ownership(V(), {}, {}) && i < |inodes| && off + |src| <= MAXFILE * BSIZE && BytesOk(src)
      modifies this
      ensures !ok ==> forall c :: 0 <= c < |bitmap| ==> bitmap[c]
      ensures ok ==> Written(old(V()), V(), i, off, src)
      ensures ok ==> DataLogs(V(), old(logged), logged, i, off / BSIZE, BlockCount(off, |src|))
      ensures ok ==> Covered(old(V()), old(logged), V(), logged, i) && (|src| == 0 ==> V() == old(V()))
    {
      hide Ownership, VolOk, Written, DataLogs, BlockCount, BytesOk, Covered;
      var tot := 0;
      ghost var v := V();
      OwnershipVol(v);
      NothingWritten(v, i, off);
      NothingLogged(v, i, off, logged);
      CoveredSame(v, logged, i);
      while tot < |src|
        invariant 0 <= tot <= |src|
        invariant tot < |src| && tot > 0 ==> (off + tot) % BSIZE == 0
        invariant VolOk(V()) && Written(v, V(), i, off, src[..tot])
        invariant DataLogs(V(), old(logged), logged, i, off / BSIZE, BlockCount(off, tot))
        invariant Covered(v, old(logged), V(), logged, i) && (|src| == 0 ==> V() == v)
      {
        ghost var u, g := V(), logged;
        var m := WritePiece(v, i, src, off, tot, old(logged));
        if m.None? {
          return false;
        }
        CoveredTwice(v, old(logged), u, g, V(), logged, i);
        tot := tot + m.value;
      }
      assert src[..tot] == src;
      ok := true;
    }

    /** A turn of that loop: the rest of a file block, or of the source. */
    method WritePiece(ghost v: Vol, i: nat, src: seq<int>, off: nat, tot: nat, ghost before: set<LogId>)
      returns (m: Option<nat>)
      requires VolOk(v) && i < |v.inodes| && off + |src| <= MAXFILE * BSIZE && BytesOk(src) && tot < |src|
      requires tot > 0 ==> (off + tot) % BSIZE == 0
      requires VolOk(V()) && Written(v, V(), i, off, src[..tot])
      requires DataLogs(V(), before, logged, i, off / BSIZE, BlockCount(off, tot))
      modifies this
      ensures m.None? ==> forall c :: 0 <= c < |bitmap| ==> bitmap[c]
      ensures m.Some? ==> Covered(old(V()), old(logged), V(), logged, i)
      ensures m.Some? ==>
                && 0 < m.value && tot + m.value <= |src|
                && (tot + m.value < |src| ==> (off + tot + m.value) % BSIZE == 0)
                && VolOk(V()) && Written(v, V(), i, off, src[..tot + m.value])
                && DataLogs(V(), before, logged, i, off / BSIZE, BlockCount(off, tot + m.value))
    {
      hide Written, DataLogs, Mapped, LoggedFor, Ownership, BlockCount;
      hide VolOk, At, Slot, KeepsSlots, SameBytes, SlotsKept, BlockOk, Covered;
      var at := off + tot;
      ghost var u, g := V(), logged;
      WrittenOk(v, u, i, off, src[..tot]);
      var b := Bmap(i, at / BSIZE);
      if b.None? {
        return None;
      }
      ghost var w, h := V(), logged;
      MappedOk(u, w, i, at / BSIZE);
      var n := if |src| - tot < BSIZE - at % BSIZE then |src| - tot else BSIZE - at % BSIZE;
      ghost var c := NextCount(off, tot, n);
      PatchOk(data[b.value], at % BSIZE, src[tot..tot + n]);
      var x := Patch(data[b.value], at % BSIZE, src[tot..tot + n]);
      data := data[b.value := x];
      logged := logged + {DataBlock(b.value)};
      PieceDone(v, u, w, i, off, src, tot, n, b.value, x);
      PieceLogged(u, w, V(), before, g, h, i, off / BSIZE, c, b.value, x);
      CoveredPatch(u, g, w, h, i, at / BSIZE, x);
      m := Some(n);
    }

    /** writei with copies that succeed. `None` is balloc's out-of-blocks panic. */
    method Writei(i: nat, src: seq<int>, off: nat) returns (r: Option<int>)
      requires Good(V()) && i < |inodes| && off < U32 && |src| < U32 && BytesOk(src)
      modifies this
      ensures r.Some? ==> Good(V()) && |inodes| == |old(inodes)| && V().Size() == old(V()).Size()
      ensures off > old(inodes)[i].size || off + |src| > MAXFILE * BSIZE ==>
                r == Some(-1) && V() == old(V()) && logged == old(logged)
      ensures off <= old(inodes)[i].size && off + |src| <= MAXFILE * BSIZE ==> r == Some(|src|) || r.None?
      ensures r.None? ==> forall c :: 0 <= c < |bitmap| ==> bitmap[c]
      ensures r == Some(|src|) ==>
                && off <= old(inodes)[i].size
                && Contents(V(), i) == Spliced(Contents(old(V()), i), off, src)
                && (forall j :: 0 <= j < |inodes| && j != i ==> Contents(V(), j) == Contents(old(V()), j))
                && WriteLogs(V(), old(logged), logged, i, off, |src|)
                && AllCovered(old(V()), old(logged), V(), logged, i)
    {
      if off > inodes[i].size || (off + |src|) % U32 < off {
        return Some(-1);
      }
      if off + |src| > MAXFILE * BSIZE {
        return Some(-1);
      }
      hide Disjoint, Exact, FileOk, DataLogs, Contents, Spliced, WriteLogs, BlockCount, Covered;
      var ok := WriteBlocks(i, src, off);
      if !ok {
        return None;
      }
      ghost var u := V();
      ghost var size := if off + |src| > u.inodes[i].size then off + |src| else u.inodes[i].size;
      WriteFinished(old(V()), u, i, off, src);
      SizeLogged(u, i, size, off, |src|, old(logged), logged);
      CoveredSize(old(V()), old(logged), u, logged, i, size, |src|);
      if |src| > 0 {
        if off + |src| > inodes[i].size {
          inodes := inodes[i := Inode(off + |src|, inodes[i].addrs)];
        }
        logged := logged + {InodeBlock(i / IPB)};
      }
      assert V() == WithSize(u, i, size);
      r := Some(|src|);
    }

    /** itrunc: an empty file, its blocks and no others returned to the bitmap.
        Every bfree meets its precondition, so "freeing free block" is never
        reached. */
    method Itrunc(i: nat)
      requires Good(V()) && i < |inodes|
      modifies this
      ensures Truncated(old(V()), V(), i) && AllCovered(old(V()), old(logged), V(), logged, i)
      ensures V().Size() <= BPB ==> logged <= old(logged) + {BitmapBlock(0), InodeBlock(i / IPB)}
    {
      hide Covered;
      ghost var v := V();
      FreeDirect(i);
      hide Ownership, Emptied, Good;
      ghost var u, g := V(), logged;
      EmptiedOk(v, V(), i, NDIRECT);
      if inodes[i].addrs[NDIRECT] != 0 {
        FreeIndirect(v, i);
      } else {
        NoTail(v, V(), i);
        CoveredSame(u, g, i);
      }
      CoveredTwice(v, old(logged), u, g, V(), logged, i);
      TruncatedOk(v, V(), i);
      EmptiedOk(v, V(), i, MAXFILE + 1);
      CoveredInode(v, old(logged), V(), logged, i, Inode(0, inodes[i].addrs));
      inodes := inodes[i := Inode(0, inodes[i].addrs)];
      logged := logged + {InodeBlock(i / IPB)};
    }

    method FreeDirect(i: nat)
      requires Ownership(V(), {}, {}) && i < |inodes|
      modifies this
      ensures Ownership(V(), {}, {}) && Emptied(old(V()), V(), i, NDIRECT)
      ensures Covered(old(V()), old(logged), V(), logged, i)
      ensures V().Size() <= BPB ==> logged <= old(logged) + {BitmapBlock(0)}
    {
      ghost var v := V();
      hide At, Slot, Disjoint, Exact, Emptied, Covered;
      NothingEmptied(v, i);
      CoveredSame(v, logged, i);
      for k := 0 to NDIRECT
        invariant Ownership(V(), {}, {}) && Emptied(v, V(), i, k) && Covered(v, old(logged), V(), logged, i)
        invariant V().Size() <= BPB ==> logged <= old(logged) + {BitmapBlock(0)}
      {
        ghost var u := V();
        EmptiedOk(v, u, i, k);
        if inodes[i].addrs[k] != 0 {
          DirectFreed(v, u, i, k);
          var b := inodes[i].addrs[k];
          CoveredFree(v, old(logged), u, logged, i, b, Inode(inodes[i].size, inodes[i].addrs[k := 0]));
          Bfree(b);
          inodes := inodes[i := Inode(inodes[i].size, inodes[i].addrs[k := 0])];
          assert V() == WithAddr(Released(u, b), i, k, 0);
        } else {
          DirectEmpty(v, u, i, k);
        }
      }
    }

    method FreeIndirect(ghost v: Vol, i: nat)
      requires Ownership(V(), {}, {}) && Emptied(v, V(), i, NDIRECT) && i < |inodes| && inodes[i].addrs[NDIRECT] != 0
      modifies this
      ensures Ownership(V(), {}, {}) && Emptied(v, V(), i, MAXFILE + 1)
      ensures V().Size() == old(V()).Size() && Covered(old(V()), old(logged), V(), logged, i)
      ensures V().Size() <= BPB ==> logged <= old(logged) + {BitmapBlock(0)}
    {
      hide Slot, At, Disjoint, Exact, Emptied, EntriesGone, BlockOk, Covered;
      ghost var u := V();
      var a := inodes[i].addrs[NDIRECT];
      EmptiedOk(v, u, i, NDIRECT);
      ghost var gone := FreeEntries(i);
      ghost var w := V();
      IndirectFreed(w, i, gone);
      CoveredFree(u, old(logged), w, logged, i, a, Inode(inodes[i].size, inodes[i].addrs[NDIRECT := 0]));
      Bfree(a);
      inodes := inodes[i := Inode(inodes[i].size, inodes[i].addrs[NDIRECT := 0])];
      assert V() == WithAddr(Released(w, a), i, NDIRECT, 0);
      TailTwice(u, w, V(), i);
      AllEmptied(v, u, V(), i);
    }

    /** The loop over the entries of the indirect block. */
    method FreeEntries(i: nat) returns (ghost gone: set<Ref>)
      requires Ownership(V(), {}, {}) && i < |inodes| && inodes[i].addrs[NDIRECT] != 0
      modifies this`bitmap, this`logged
      ensures V().Size() == old(V()).Size() && Covered(old(V()), old(logged), V(), logged, i)
      ensures Ownership(V(), gone, {}) && EntriesGone(V(), i, gone, NINDIRECT)
      ensures V().Size() <= BPB ==> logged <= old(logged) + {BitmapBlock(0)}
    {
      hide Slot, At, Disjoint, Exact, EntriesGone, Get32, BlockOk, Covered;
      gone := {};
      CoveredSame(V(), logged, i);
      var entries := data[inodes[i].addrs[NDIRECT]];
      NothingGone(V(), i);
      for j := 0 to NINDIRECT
        invariant V().Size() == old(V()).Size() && Covered(old(V()), old(logged), V(), logged, i)
        invariant Ownership(V(), gone, {}) && EntriesGone(V(), i, gone, j)
        invariant V().Size() <= BPB ==> logged <= old(logged) + {BitmapBlock(0)}
      {
        EntrySlot(V(), i, j);
        var e := Get32(entries, j);
        if e != 0 {
          EntryFreed(V(), i, gone, j);
          CoveredFree(old(V()), old(logged), V(), logged, i, e, inodes[i]);
          Bfree(e);
          gone := gone + {Ref(i, NDIRECT + j)};
        } else {
          EntryEmpty(V(), i, gone, j);
        }
      }
    }

    /** filewrite on an inode: one transaction per chunk. `txns` collects them, each
        with the volume before and after it and what it logged. */
    method FileWrite(i: nat, off: nat, src: seq<int>) returns (ret: Option<int>, off': nat, ghost txns: seq<Chunk>)
      requires Good(V()) && i < |inodes| && off < U32 && |src| < U32 / 2 && BytesOk(src)
      modifies this
      ensures Chained(old(V()), txns, i) && (ret.Some? ==> LastVol(old(V()), txns) == V())
      ensures forall t :: t in txns ==> PartWritten(old(V()), t.before, i, off, src)
      ensures forall t :: t in txns ==> PartWritten(old(V()), t.after, i, off, src)
      ensures forall t :: t in txns && old(V()).Size() <= BPB ==> |t.logged| <= 7 < MAXOPBLOCKS
      ensures ret.None? ==> forall c :: 0 <= c < |bitmap| ==> bitmap[c]
      ensures ret.Some? && off > old(inodes)[i].size ==>
                V() == old(V()) && off' == off && ret.value == if |src| == 0 then 0 else -1
      ensures ret.Some? && off <= old(inodes)[i].size ==>
                && var w := Accepted(off, |src|);
                && FileIs(old(V()), V(), i, Spliced(Contents(old(V()), i), off, src[..w]))
                && off' == off + w && ret.value == if w == |src| then |src| else -1
    {
      ghost var v := V();
      hide Disjoint, Exact, FileOk, Contents, Spliced, WriteLogs, FileIs, Accepted, AllCovered, Chained, PartWritten;
      var pos := 0;
      off', txns := off, [];
      NoChunk(v, i);
      var r := 0;
      Untouched(v, i, off);
      while pos < |src|
        invariant 0 <= pos <= |src| && off' == off + pos && (pos < |src| ==> pos % CHUNK == 0)
        invariant Good(V()) && |inodes| == |v.inodes| && V().Size() == v.Size()
        invariant off > v.inodes[i].size ==> pos == 0 && V() == v
        invariant off <= v.inodes[i].size ==> off + pos <= MAXFILE * BSIZE
        invariant off <= v.inodes[i].size ==> FileIs(v, V(), i, Spliced(Contents(v, i), off, src[..pos]))
        invariant forall t :: t in txns && v.Size() <= BPB ==> |t.logged| <= 7
        invariant Chained(v, txns, i) && LastVol(v, txns) == V()
        invariant forall t :: t in txns ==>
                    PartWritten(v, t.before, i, off, src) && PartWritten(v, t.after, i, off, src)
      {
        var n1 := if |src| - pos > CHUNK then CHUNK else |src| - pos;
        ghost var u := V();
        if off <= v.inodes[i].size {
          LongEnough(v, u, i, off, src[..pos]);
        }
        PartSoFar(v, u, i, off, src, pos);
        logged := {};
        var res := Writei(i, src[pos..pos + n1], off');
        if res.None? {
          return None, off', txns;
        }
        r := res.value;
        if r < 0 {
          NoChange(u, i);
          NextTxn(v, txns, i, Chunk(u, V(), logged));
          txns := txns + [Chunk(u, V(), logged)];
          if off <= v.inodes[i].size {
            StopsAt(off, |src|, pos);
          }
          break;
        }
        if V().Size() <= BPB {
          ChunkFits(V(), logged, i, off', n1);
        }
        ChunkSpliced(v, u, V(), i, off, src, pos, n1);
        PartSoFar(v, V(), i, off, src, pos + n1);
        NextTxn(v, txns, i, Chunk(u, V(), logged));
        txns := txns + [Chunk(u, V(), logged)];
        off' := off' + r;
        NextChunk(pos);
        pos := pos + r;
      }
      if pos == |src| && off <= v.inodes[i].size {
        AllAccepted(off, |src|);
      }
      ret := Some(if pos == |src| then |src| else -1);
    }
  }

  /** File block `bn` of inode `i` exists, and nothing that existed changed. */
  ghost predicate Mapped(v: Vol, w: Vol, i: nat, bn: nat)
    requires Ownership(v, {}, {})
  {
    && Ownership(w, {}, {}) && KeepsSlots(v, w) && SameBytes(v, w)
    && i < |v.inodes| && bn < MAXFILE && At(w, Ref(i, bn)) != 0 && Ensured(v, w, i, bn)
  }

  lemma GrownMapped(v: Vol, w: Vol, i: nat, bn: nat, b: nat)
    requires Ownership(v, {}, {}) && Grown(v, w, Ref(i, bn), b) && bn < MAXFILE
    ensures Mapped(v, w, i, bn) && VolOk(w) && At(w, Ref(i, bn)) == b < w.Size() && |w.inodes| == |v.inodes|
  {
    hide Slot, At, SameBytes;
  }

  lemma DirectSlot(v: Vol, i: nat, bn: nat)
    requires VolOk(v) && i < |v.inodes| && bn < NDIRECT
    ensures At(v, Ref(i, bn)) == v.inodes[i].addrs[bn]
  {
  }

  lemma EntrySlot(v: Vol, i: nat, j: nat)
    requires VolOk(v) && i < |v.inodes| && j < NINDIRECT && v.inodes[i].addrs[NDIRECT] != 0
    ensures At(v, Ref(i, NDIRECT + j)) == Get32(v.data[v.inodes[i].addrs[NDIRECT]], j)
    ensures At(v, Ref(i, MAXFILE)) == v.inodes[i].addrs[NDIRECT]
  {
  }

  // ---- What changes is logged ----

  /** A block of the volume: not of the boot block, superblock or log. */
  ghost predicate InVol(v: Vol, id: LogId) {
    match id
    case BitmapBlock(n) => n * BPB < v.Size()
    case InodeBlock(n) => n * IPB < |v.inodes|
    case DataBlock(b) => v.meta <= b < v.Size()
  }

  /** From volume `v` to `w`: bits and blocks that differ are logged, no inode but
      `i` differs, and only blocks of the volume were logged. */
  ghost predicate Covered(v: Vol, g: set<LogId>, w: Vol, h: set<LogId>, i: nat) {
    && g <= h && (forall id :: id in h && id !in g ==> InVol(w, id))
    && w.meta == v.meta && |w.bitmap| == |v.bitmap| && |w.data| == |v.data| && |w.inodes| == |v.inodes|
    && (forall b :: 0 <= b < |v.bitmap| && w.bitmap[b] != v.bitmap[b] ==> BitmapBlock(b / BPB) in h)
    && (forall b :: 0 <= b < |v.data| && w.data[b] != v.data[b] ==> DataBlock(b) in h)
    && (forall j :: 0 <= j < |v.inodes| && j != i ==> w.inodes[j] == v.inodes[j])
  }

  /** And inode `i` too. */
  ghost predicate AllCovered(v: Vol, g: set<LogId>, w: Vol, h: set<LogId>, i: nat) {
    Covered(v, g, w, h, i) && i < |v.inodes| && (w.inodes[i] != v.inodes[i] ==> InodeBlock(i / IPB) in h)
  }

  lemma CoveredSame(v: Vol, g: set<LogId>, i: nat)
    ensures Covered(v, g, v, g, i)
  {
  }

  lemma CoveredTwice(v: Vol, g: set<LogId>, u: Vol, h: set<LogId>, w: Vol, k: set<LogId>, i: nat)
    requires Covered(v, g, u, h, i) && Covered(u, h, w, k, i)
    ensures Covered(v, g, w, k, i)
  {
    forall id | id in k && id !in g
      ensures InVol(w, id)
    {
      assert id in h ==> InVol(u, id);
    }
  }

  /** A block given back, and the inode with or without its address. */
  lemma CoveredFree(v: Vol, g: set<LogId>, u: Vol, h: set<LogId>, i: nat, b: nat, ip: Inode)
    requires Covered(v, g, u, h, i) && b < |u.bitmap| && i < |u.inodes|
    ensures Covered(v, g, Vol(u.meta, u.bitmap[b := false], u.data, u.inodes[i := ip]), h + {BitmapBlock(b / BPB)}, i)
    ensures u.inodes[i := u.inodes[i]] == u.inodes
  {
    assert b / BPB * BPB <= b;
  }

  lemma CoveredInode(v: Vol, g: set<LogId>, u: Vol, h: set<LogId>, i: nat, ip: Inode)
    requires Covered(v, g, u, h, i) && i < |u.inodes|
    ensures AllCovered(v, g, Vol(u.meta, u.bitmap, u.data, u.inodes[i := ip]), h + {InodeBlock(i / IPB)}, i)
  {
    assert i / IPB * IPB <= i;
  }

  lemma CoveredTaken(v: Vol, g: set<LogId>, i: nat, b: nat)
    requires Ownership(v, {}, {}) && b < v.Size() && !v.bitmap[b]
    ensures Covered(v, g, Taken(v, b), g + {BitmapBlock(b / BPB), DataBlock(b)}, i)
  {
    assert v.meta <= b && b / BPB * BPB <= b;
  }

  lemma CoveredAddr(v: Vol, g: set<LogId>, i: nat, k: nat, b: nat)
    requires Ownership(v, {}, {}) && b < v.Size() && !v.bitmap[b] && i < |v.inodes| && k <= NDIRECT
    ensures Covered(v, g, WithAddr(Taken(v, b), i, k, b), g + {BitmapBlock(b / BPB), DataBlock(b)}, i)
  {
    CoveredTaken(v, g, i, b);
    hide Ownership;
  }

  lemma CoveredEntry(v: Vol, g: set<LogId>, i: nat, j: nat, b: nat)
    requires Ownership(v, {}, {}) && b < v.Size() && !v.bitmap[b] && i < |v.inodes| && j < NINDIRECT
    requires v.inodes[i].addrs[NDIRECT] != 0 && VolOk(Taken(v, b))
    ensures Covered(v, g, WithEntry(Taken(v, b), i, j, b),
                    g + {BitmapBlock(b / BPB), DataBlock(b), DataBlock(v.inodes[i].addrs[NDIRECT])}, i)
  {
    assert Owns(v, {}, Ref(i, MAXFILE));
    CoveredTaken(v, g, i, b);
  }

  lemma CoveredPatch(u: Vol, g: set<LogId>, w: Vol, h: set<LogId>, i: nat, bn: nat, x: Block)
    requires Ownership(w, {}, {}) && i < |w.inodes| && bn < MAXFILE && At(w, Ref(i, bn)) != 0 && Covered(u, g, w, h, i)
    ensures At(w, Ref(i, bn)) < w.Size()
    ensures Covered(u, g, WithBlock(w, At(w, Ref(i, bn)), x), h + {DataBlock(At(w, Ref(i, bn)))}, i)
  {
    assert Owns(w, {}, Ref(i, bn));
  }

  lemma CoveredSize(v: Vol, g: set<LogId>, u: Vol, h: set<LogId>, i: nat, size: nat, n: nat)
    requires Covered(v, g, u, h, i) && i < |u.inodes|
    requires (n == 0 ==> u.inodes[i] == v.inodes[i] && size == u.inodes[i].size)
    ensures AllCovered(v, g, WithSize(u, i, size), if n > 0 then h + {InodeBlock(i / IPB)} else h, i)
  {
    assert i / IPB * IPB <= i;
  }

  lemma GrownKeeps(v: Vol, w: Vol, i: nat, bn: nat, b: nat)
    requires Ownership(v, {}, {}) && Grown(v, w, Ref(i, bn), b) && bn < MAXFILE
    ensures At(w, Ref(i, MAXFILE)) == At(v, Ref(i, MAXFILE))
  {
    hide Slot, At;
    assert IsRef(v, Ref(i, MAXFILE));
  }

  lemma GrownLogged(w: Vol, before: set<LogId>, after: set<LogId>, i: nat, bn: nat, b: nat)
    requires VolOk(w) && i < |w.inodes| && bn < MAXFILE && At(w, Ref(i, bn)) == b < w.Size()
    requires after <= before + {BitmapBlock(b / BPB), DataBlock(b)} + Indirect(w, i)
    ensures LoggedFor(w, before, after, i, bn)
  {
    hide Slot, At, VolOk;
  }

  lemma KeptLogged(v: Vol, before: set<LogId>, i: nat, bn: nat)
    requires VolOk(v) && i < |v.inodes| && bn < MAXFILE
    ensures LoggedFor(v, before, before, i, bn)
  {
  }

  lemma GrownOk(v: Vol, w: Vol, i: nat, b: nat)
    requires Ownership(v, {}, {}) && Grown(v, w, Ref(i, MAXFILE), b)
    ensures Ownership(w, {}, {}) && |w.inodes| == |v.inodes| && w.inodes[i].addrs[NDIRECT] == b != 0
  {
  }

  lemma LoggedTwice(v: Vol, before: set<LogId>, mid: set<LogId>, after: set<LogId>, i: nat, bn: nat, a: nat)
    requires VolOk(v) && i < |v.inodes| && bn < MAXFILE && At(v, Ref(i, MAXFILE)) == a && 0 < a < v.Size()
    requires mid == before + {BitmapBlock(a / BPB), DataBlock(a)} && LoggedFor(v, mid, after, i, bn)
    ensures LoggedFor(v, before, after, i, bn)
  {
    hide At, Slot;
  }

  lemma KeptMapped(v: Vol, i: nat, bn: nat)
    requires Ownership(v, {}, {}) && i < |v.inodes| && bn < MAXFILE && At(v, Ref(i, bn)) != 0
    ensures Mapped(v, v, i, bn)
  {
    hide Slot, At;
    KeptRefl(v);
  }

  lemma MappedTwice(v: Vol, u: Vol, w: Vol, i: nat, j: nat, a: nat)
    requires Ownership(v, {}, {}) && i < |v.inodes| && j < NINDIRECT
    requires Grown(v, u, Ref(i, MAXFILE), a) && Mapped(u, w, i, NDIRECT + j)
    ensures Mapped(v, w, i, NDIRECT + j) && a < w.Size()
  {
    hide Slot, At, SameBytes;
    KeptTwice(v, u, w);
  }

  /** Only file block `bn` of inode `i`, and its indirect block, may have gone
      from nothing to something. */
  ghost predicate Ensured(v: Vol, w: Vol, i: nat, bn: nat)
    requires VolOk(v) && VolOk(w)
  {
    |v.inodes| == |w.inodes| &&
    forall r :: IsRef(v, r) && r != Ref(i, bn) && r != Ref(i, MAXFILE) ==> At(w, r) == At(v, r)
  }

  /** What mapping file block `bn` may log, when the bitmap is one block. */
  ghost predicate LoggedFor(v: Vol, before: set<LogId>, after: set<LogId>, i: nat, bn: nat)
    requires VolOk(v) && i < |v.inodes| && bn < MAXFILE
  {
    v.Size() <= BPB ==>
      after <= before + {BitmapBlock(0), DataBlock(At(v, Ref(i, bn)))} + Indirect(v, i)
  }

  /** The indirect block of inode `i`, if it has one. */
  ghost function Indirect(v: Vol, i: nat): (s: set<LogId>)
    requires VolOk(v) && i < |v.inodes|
  {
    if At(v, Ref(i, MAXFILE)) == 0 then {} else {DataBlock(At(v, Ref(i, MAXFILE)))}
  }

  // ---- What a write logs ----

  /** File blocks a write of `n` bytes at `off` touches. */
  function BlockCount(off: nat, n: nat): (c: nat) {
    if n == 0 then 0 else (off + n - 1) / BSIZE - off / BSIZE + 1
  }

  ghost predicate Present(v: Vol, i: nat, k: nat, c: nat)
    requires VolOk(v)
  {
    i < |v.inodes| && k + c <= MAXFILE && forall q: nat :: k <= q < k + c ==> At(v, Ref(i, q)) != 0
  }

  /** The blocks of file blocks k .. k + c - 1. */
  ghost function FileBlocks(v: Vol, i: nat, k: nat, c: nat): (s: set<LogId>)
    requires VolOk(v) && i < |v.inodes| && k + c <= MAXFILE
    ensures |s| <= c
  {
    if c == 0 then {} else FileBlocks(v, i, k, c - 1) + {DataBlock(At(v, Ref(i, k + c - 1)))}
  }

  /** What the loop of writei may log, when the bitmap is one block. */
  ghost predicate DataLogs(v: Vol, before: set<LogId>, after: set<LogId>, i: nat, k: nat, c: nat)
    requires VolOk(v)
  {
    && Present(v, i, k, c)
    && (v.Size() <= BPB ==> after <= before + {BitmapBlock(0)} + Indirect(v, i) + FileBlocks(v, i, k, c))
  }

  ghost predicate SlotsKept(v: Vol, w: Vol) {
    && VolOk(v) && VolOk(w) && |v.inodes| == |w.inodes| && v.Size() == w.Size()
    && forall r :: IsRef(v, r) && At(v, r) != 0 ==> At(w, r) == At(v, r)
  }

  lemma {:induction false} SameFileBlocks(v: Vol, w: Vol, i: nat, k: nat, c: nat)
    requires SlotsKept(v, w) && Present(v, i, k, c)
    ensures FileBlocks(w, i, k, c) == FileBlocks(v, i, k, c)
  {
    hide At, Slot;
    if c > 0 {
      SameFileBlocks(v, w, i, k, c - 1);
      assert IsRef(v, Ref(i, k + c - 1));
    }
  }

  lemma StillPresent(v: Vol, w: Vol, i: nat, k: nat, c: nat)
    requires SlotsKept(v, w) && Present(v, i, k, c)
    ensures Present(w, i, k, c) && Indirect(v, i) <= Indirect(w, i)
  {
    hide At, Slot;
    assert IsRef(v, Ref(i, MAXFILE));
    forall q: nat | k <= q < k + c
      ensures At(w, Ref(i, q)) != 0
    {
      assert IsRef(v, Ref(i, q));
    }
  }

  lemma LoggedSame(v: Vol, w: Vol, before: set<LogId>, after: set<LogId>, i: nat, k: nat, c: nat)
    requires SlotsKept(v, w) && DataLogs(v, before, after, i, k, c)
    ensures DataLogs(w, before, after, i, k, c)
  {
    hide At, Slot, SlotsKept, Present, Indirect, FileBlocks, VolOk;
    SameFileBlocks(v, w, i, k, c);
    StillPresent(v, w, i, k, c);
    assert v.Size() == w.Size() && VolOk(w) by { SlotsKeptOk(v, w); }
  }

  lemma SlotsKeptOk(v: Vol, w: Vol)
    requires SlotsKept(v, w)
    ensures v.Size() == w.Size() && VolOk(w) && |v.inodes| == |w.inodes|
  {
  }

  lemma NothingLogged(v: Vol, i: nat, off: nat, before: set<LogId>)
    requires VolOk(v) && i < |v.inodes| && off <= MAXFILE * BSIZE
    ensures DataLogs(v, before, before, i, off / BSIZE, BlockCount(off, 0))
  {
  }

  /** One more file block mapped and logged. */
  lemma MoreLogged(w: Vol, before: set<LogId>, mid: set<LogId>, after: set<LogId>, i: nat, k: nat, bn: nat)
    requires VolOk(w) && k <= bn < MAXFILE && DataLogs(w, before, mid, i, k, bn - k)
    requires LoggedFor(w, mid, after, i, bn) && At(w, Ref(i, bn)) != 0
    ensures DataLogs(w, before, after + {DataBlock(At(w, Ref(i, bn)))}, i, k, bn + 1 - k)
  {
    hide At, Slot, Indirect, VolOk;
    assert k + (bn + 1 - k) - 1 == bn;
    assert Present(w, i, k, bn + 1 - k);
    assert FileBlocks(w, i, k, bn + 1 - k) == FileBlocks(w, i, k, bn - k) + {DataBlock(At(w, Ref(i, bn)))};
    hide FileBlocks, Present;
  }

  /** A turn of writei's loop ends at a block boundary or at the end. */
  lemma NextCount(off: nat, tot: nat, m: nat) returns (c: nat)
    requires 0 < m && (off + tot) % BSIZE + m <= BSIZE && (tot > 0 ==> (off + tot) % BSIZE == 0)
    ensures off / BSIZE + c == (off + tot) / BSIZE
    ensures BlockCount(off, tot) == c && BlockCount(off, tot + m) == c + 1
    ensures (off + tot) % BSIZE + m == BSIZE ==> (off + tot + m) % BSIZE == 0
  {
    c := (off + tot) / BSIZE - off / BSIZE;
  }

  /** One turn of writei's loop: `w` after bmap, then the block patched. */
  lemma PieceDone(v: Vol, u: Vol, w: Vol, i: nat, off: nat, src: seq<int>, tot: nat, m: nat, b: nat, x: Block)
    requires VolOk(v) && Ownership(u, {}, {}) && tot + m <= |src| && Written(v, u, i, off, src[..tot]) && BytesOk(src)
    requires off + |src| <= MAXFILE * BSIZE && 0 < m && (off + tot) % BSIZE + m <= BSIZE
    requires Mapped(u, w, i, (off + tot) / BSIZE) && b == At(w, Ref(i, (off + tot) / BSIZE)) < w.Size()
    requires |w.data[b]| == BSIZE && x == Patch(w.data[b], (off + tot) % BSIZE, src[tot..tot + m])
    ensures VolOk(WithBlock(w, b, x)) && Written(v, WithBlock(w, b, x), i, off, src[..tot + m])
  {
    MappedOk(u, w, i, (off + tot) / BSIZE);
    hide Mapped, Disjoint, Exact, At, Slot;
    MappedInBetween(v, u, w, i, off, src[..tot]);
    PieceWritten(v, w, i, off, src[..tot], src[tot..tot + m]);
    assert src[..tot] + src[tot..tot + m] == src[..tot + m];
  }

  lemma SameKept(v: Vol, w: Vol)
    requires SameSlots(v, w)
    ensures SlotsKept(v, w)
  {
    hide At, Slot;
  }

  lemma PieceLogged(u: Vol, w: Vol, z: Vol, before: set<LogId>, mid: set<LogId>, after: set<LogId>,
                    i: nat, k: nat, c: nat, b: nat, x: Block)
    requires Ownership(u, {}, {}) && VolOk(w) && DataLogs(u, before, mid, i, k, c) && k + c < MAXFILE
    requires Mapped(u, w, i, k + c) && LoggedFor(w, mid, after, i, k + c)
    requires b == At(w, Ref(i, k + c)) < w.Size() && BlockOk(x) && z == WithBlock(w, b, x)
    ensures VolOk(z) && DataLogs(z, before, after + {DataBlock(b)}, i, k, c + 1)
  {
    hide Mapped, Disjoint, Exact, At, Slot, DataLogs, LoggedFor, SlotsKept, SameSlots, SameBytes, KeepsSlots, VolOk;
    MappedOk(u, w, i, k + c);
    BlockOverwritten(w, i, k + c, x);
    SameKept(w, z);
    SlotsKeptOk(w, z);
    LoggedSame(u, w, before, mid, i, k, c);
    MoreLogged(w, before, mid, after, i, k, k + c);
    LoggedSame(w, z, before, after + {DataBlock(b)}, i, k, c + 1);
  }

  lemma OwnershipVol(v: Vol)
    requires Ownership(v, {}, {})
    ensures VolOk(v)
  {
  }

  lemma WrittenOk(v: Vol, w: Vol, i: nat, lo: nat, src: seq<int>)
    requires VolOk(v) && Written(v, w, i, lo, src)
    ensures Ownership(w, {}, {}) && VolOk(w) && |w.inodes| == |v.inodes| && i < |v.inodes| && w.Size() == v.Size()
  {
  }

  lemma MappedOk(v: Vol, w: Vol, i: nat, bn: nat)
    requires Ownership(v, {}, {}) && Mapped(v, w, i, bn)
    ensures Ownership(w, {}, {}) && KeepsSlots(v, w) && SameBytes(v, w) && 0 != At(w, Ref(i, bn)) < w.Size()
    ensures VolOk(w) && SlotsKept(v, w) && |w.data| == w.Size() && i < |w.inodes| == |v.inodes|
    ensures BlockOk(w.data[At(w, Ref(i, bn))]) && |w.data[At(w, Ref(i, bn))]| == BSIZE
  {
    hide Slot, At;
    assert Owns(w, {}, Ref(i, bn));
  }

  /** What writei may log, when the bitmap is one block. */
  ghost predicate WriteLogs(v: Vol, before: set<LogId>, after: set<LogId>, i: nat, off: nat, n: nat)
    requires VolOk(v)
  {
    && Present(v, i, off / BSIZE, BlockCount(off, n))
    && (v.Size() <= BPB ==> after <= before + {BitmapBlock(0), InodeBlock(i / IPB)} + Indirect(v, i)
                                     + FileBlocks(v, i, off / BSIZE, BlockCount(off, n)))
  }

  lemma SizeLogged(u: Vol, i: nat, size: nat, off: nat, n: nat, before: set<LogId>, after: set<LogId>)
    requires Ownership(u, {}, {}) && i < |u.inodes|
    requires DataLogs(u, before, after, i, off / BSIZE, BlockCount(off, n))
    ensures VolOk(WithSize(u, i, size))
    ensures WriteLogs(WithSize(u, i, size), before, after, i, off, n)
    ensures WriteLogs(WithSize(u, i, size), before, after + {InodeBlock(i / IPB)}, i, off, n)
  {
    SizeOnly(u, i, size);
    hide At, Slot, Ownership, BlockCount;
    LoggedSame(u, WithSize(u, i, size), before, after, i, off / BSIZE, BlockCount(off, n));
  }

  /** A slice of the contents that lies in one block is a slice of that block. */
  lemma SliceOfBlock(v: Vol, i: nat, at: nat, m: nat)
    requires Good(v) && i < |v.inodes| && at + m <= v.inodes[i].size && at % BSIZE + m <= BSIZE && 0 < m
    ensures InFile(v, i, at) && At(v, Ref(i, at / BSIZE)) < v.Size()
    ensures v.data[At(v, Ref(i, at / BSIZE))][at % BSIZE..at % BSIZE + m] == Contents(v, i)[at..at + m]
  {
    hide At, Slot;
    InBlock(v, i, at);
    forall x: nat | at <= x < at + m
      ensures v.data[At(v, Ref(i, at / BSIZE))][at % BSIZE + (x - at)] == Contents(v, i)[x]
    {
      assert x / BSIZE == at / BSIZE && x % BSIZE == at % BSIZE + (x - at);
    }
  }

  // ---- The chunks of filewrite ----

  const CHUNK: nat := (MAXOPBLOCKS - 1 - 1 - 2) / 2 * BSIZE

  /** How many of `n` bytes filewrite puts into the file: all of them if they
      fit, else the whole chunks that do. */
  function Accepted(off: nat, n: nat): (w: nat)
    ensures w <= n
  {
    if off + n <= MAXFILE * BSIZE then n
    else if off > MAXFILE * BSIZE then 0
    else (MAXFILE * BSIZE - off) / CHUNK * CHUNK
  }

  lemma StopsAt(off: nat, n: nat, pos: nat)
    requires pos < n && pos % CHUNK == 0 && off + pos <= MAXFILE * BSIZE
    requires off + pos + (if n - pos > CHUNK then CHUNK else n - pos) > MAXFILE * BSIZE
    ensures Accepted(off, n) == pos
  {
    var room := MAXFILE * BSIZE - off;
    assert CHUNK == 3072 && pos <= room < pos + CHUNK;
    assert room / 3072 == pos / 3072;
  }

  lemma AllAccepted(off: nat, n: nat)
    requires off + n <= MAXFILE * BSIZE
    ensures Accepted(off, n) == n
  {
  }

  lemma NextChunk(pos: nat)
    requires pos % CHUNK == 0
    ensures (pos + CHUNK) % CHUNK == 0
  {
  }

  /** File `i` now holds `s`; the other files hold what they held. */
  ghost predicate FileIs(v: Vol, w: Vol, i: nat, s: seq<int>)
    requires Good(v)
  {
    && Good(w) && |w.inodes| == |v.inodes| && i < |v.inodes| && Contents(w, i) == s
    && forall j :: 0 <= j < |v.inodes| && j != i ==> Contents(w, j) == Contents(v, j)
  }

  /** A transaction of filewrite. */
  datatype Chunk = Chunk(before: Vol, after: Vol, logged: set<LogId>)

  ghost function LastVol(v: Vol, ts: seq<Chunk>): (w: Vol) {
    if ts == [] then v else ts[|ts| - 1].after
  }

  /** The transactions lead on from one another and log what they change. */
  ghost predicate Chained(v: Vol, ts: seq<Chunk>, i: nat) {
    if ts == [] then true
    else
      var m := |ts| - 1;
      Chained(v, ts[..m], i) && ts[m].before == LastVol(v, ts[..m])
      && AllCovered(ts[m].before, {}, ts[m].after, ts[m].logged, i)
  }

  lemma NoChunk(v: Vol, i: nat)
    ensures Chained(v, [], i)
  {
  }

  lemma NextTxn(v: Vol, ts: seq<Chunk>, i: nat, t: Chunk)
    requires Chained(v, ts, i) && t.before == LastVol(v, ts) && AllCovered(t.before, {}, t.after, t.logged, i)
    ensures Chained(v, ts + [t], i) && LastVol(v, ts + [t]) == t.after
  {
    assert (ts + [t])[..|ts|] == ts;
  }

  lemma NoChange(v: Vol, i: nat)
    requires i < |v.inodes|
    ensures AllCovered(v, {}, v, {}, i)
  {
  }

  /** The file holds what it did with a first part of `src` written, and the other
      files what they held. */
  ghost predicate PartWritten(v: Vol, w: Vol, i: nat, off: nat, src: seq<int>)
    requires Good(v)
  {
    w == v || exists n :: 0 <= n <= |src| && PartIs(v, w, i, off, src, n)
  }

  ghost predicate PartIs(v: Vol, w: Vol, i: nat, off: nat, src: seq<int>, n: nat)
    requires Good(v) && n <= |src|
  {
    i < |v.inodes| && off <= v.inodes[i].size && FileIs(v, w, i, Spliced(Contents(v, i), off, src[..n]))
  }

  lemma PartSoFar(v: Vol, w: Vol, i: nat, off: nat, src: seq<int>, pos: nat)
    requires Good(v) && i < |v.inodes| && pos <= |src|
    requires if off <= v.inodes[i].size then FileIs(v, w, i, Spliced(Contents(v, i), off, src[..pos])) else w == v
    ensures PartWritten(v, w, i, off, src)
  {
    assert off <= v.inodes[i].size ==> PartIs(v, w, i, off, src, pos);
  }

  /** A chunk logs at most four data blocks, the bitmap block, the indirect
      block and the inode block, so it fits the reservation of begin_op. */
  lemma ChunkFits(v: Vol, after: set<LogId>, i: nat, off: nat, n: nat)
    requires VolOk(v) && WriteLogs(v, {}, after, i, off, n) && n <= CHUNK && v.Size() <= BPB
    ensures |after| <= 7
  {
    hide At, Slot, VolOk;
    var c := BlockCount(off, n);
    assert c <= 4;
    var f := FileBlocks(v, i, off / BSIZE, c);
    var ind := Indirect(v, i);
    hide FileBlocks;
    assert |ind| <= 1;
    var two := {BitmapBlock(0), InodeBlock(i / IPB)};
    var most := two + ind + f;
    assert after <= most;
    SubsetSize(after, most);
  }

  lemma Untouched(v: Vol, i: nat, off: nat)
    requires Good(v) && i < |v.inodes|
    ensures off <= v.inodes[i].size ==>
              off <= MAXFILE * BSIZE && FileIs(v, v, i, Spliced(Contents(v, i), off, []))
  {
    assert FileOk(v, i);
    if off <= v.inodes[i].size {
      assert Spliced(Contents(v, i), off, []) == Contents(v, i);
    }
  }

  lemma LongEnough(v: Vol, u: Vol, i: nat, off: nat, done: seq<int>)
    requires Good(v) && i < |v.inodes| && off <= v.inodes[i].size
    requires FileIs(v, u, i, Spliced(Contents(v, i), off, done))
    ensures off + |done| <= u.inodes[i].size
  {
    SplicedTwice(Contents(v, i), off, done, []);
  }

  lemma ChunkSpliced(v: Vol, u: Vol, w: Vol, i: nat, off: nat, src: seq<int>, pos: nat, n: nat)
    requires Good(v) && i < |v.inodes| && off <= v.inodes[i].size && pos + n <= |src|
    requires FileIs(v, u, i, Spliced(Contents(v, i), off, src[..pos])) && off + pos <= u.inodes[i].size
    requires FileIs(u, w, i, Spliced(Contents(u, i), off + pos, src[pos..pos + n]))
    ensures FileIs(v, w, i, Spliced(Contents(v, i), off, src[..pos + n]))
  {
    SplicedTwice(Contents(v, i), off, src[..pos], src[pos..pos + n]);
    assert src[..pos] + src[pos..pos + n] == src[..pos + n];
  }

  lemma KeptRefl(v: Vol)
    requires Ownership(v, {}, {})
    ensures KeepsSlots(v, v) && SameBytes(v, v) && forall i, bn :: Ensured(v, v, i, bn)
  {
    forall i: nat, off: nat | InFile(v, i, off)
      ensures At(v, Ref(i, off / BSIZE)) < v.Size()
    {
      BlockBelow(v, {}, i, off);
    }
  }

  lemma KeptTwice(v: Vol, u: Vol, w: Vol)
    requires VolOk(v) && KeepsSlots(v, u) && SameBytes(v, u) && KeepsSlots(u, w) && SameBytes(u, w)
    ensures KeepsSlots(v, w) && SameBytes(v, w)
  {
    hide Slot, At, SameBytes;
    BytesTwice(v, u, w);
  }
}
