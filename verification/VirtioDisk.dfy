/** The virtio disk driver and its device. Submitting, finishing and each turn of
    the interrupt handler run under the driver's lock; the device takes and
    finishes requests at any time in between. */
module VirtioDisk {
  import opened Basics
  import opened VirtioRing

  class Disk {
    var free: seq<bool>
    var desc: seq<Desc>
    var info: seq<Option<nat>>
    /** avail[2..], avail[1]; used->elems, used->id; the driver's used_idx. */
    var avail: seq<nat>
    var availIdx: nat
    var used: seq<nat>
    var usedIdx: nat
    var seen: nat
    /** How far the device has looked into the available ring. */
    var devIdx: nat
    /** b->disk of each buffer. */
    var disk: map<nat, bool>
    ghost var live: Live
    ghost var hist: Hist

    ghost predicate Valid()
      reads this
    {
      && Chains(live, free) && Linked(live, desc, info) && Histories(hist, live)
      && Rings(hist, avail, availIdx, devIdx, used, usedIdx, seen) && Buffers(hist, live, disk)
    }

    constructor ()
      ensures Valid() && live == map[] && hist == Hist([], 0, [], 0)
    {
      free := seq(NUM, _ => true);
      desc := seq(NUM, _ => Desc(false, 0));
      info := seq(NUM, _ => None);
      avail, used := seq(NUM, _ => 0), seq(NUM, _ => 0);
      availIdx, usedIdx, seen, devIdx := 0, 0, 0, 0;
      disk, live, hist := map[], map[], Hist([], 0, [], 0);
      new;
      forall d: nat
        ensures !Taken(live, d)
      {
      }
    }

    /** alloc_desc: the lowest free descriptor. */
    method AllocDesc() returns (i: Option<nat>)
      requires |free| == NUM
      modifies this`free
      ensures i.None? ==> free == old(free) && forall d :: 0 <= d < NUM ==> !free[d]
      ensures i.Some? ==> i.value < NUM && old(free)[i.value] && free == old(free)[i.value := false]
    {
      var k := 0;
      while k < NUM
        invariant 0 <= k <= NUM && free == old(free) && forall d :: 0 <= d < k ==> !free[d]
      {
        if free[k] {
          free := free[k := false];
          return Some(k);
        }
        k := k + 1;
      }
      i := None;
    }

    /** free_desc: the descriptor must be in range and in use, else it panics. */
    method FreeDesc(i: nat)
      requires |free| == NUM && i < NUM && !free[i]
      modifies this`free
      ensures free == old(free)[i := true]
    {
      free := free[i := true];
    }

    /** alloc3_desc: three descriptors, or none taken. */
    method Alloc3Desc() returns (idx: Option<seq<nat>>)
      requires |free| == NUM
      modifies this`free
      ensures idx.None? ==> free == old(free) && |FreeSet(free)| < 3
      ensures idx.Some? ==> Three(idx.value, old(free)) && free == Marked(old(free), idx.value)
    {
      var s := [];
      var i := 0;
      while i < 3
        invariant 0 <= i <= 3 && |s| == i && Picked(s, old(free)) && free == Marked(old(free), s)
      {
        var d := AllocDesc();
        if d.None? {
          AllMarked(old(free), s);
          var j := 0;
          while j < i
            invariant 0 <= j <= i && free == Marked(old(free), s[j..])
          {
            Unmark(old(free), s, j);
            FreeDesc(s[j]);
            j := j + 1;
          }
          assert s[i..] == [];
          return None;
        }
        MarkMore(old(free), s, d.value);
        s := s + [d.value];
        i := i + 1;
      }
      idx := Some(s);
    }

    /** virtio_disk_rw up to the notification: with three descriptors the request
        is posted, without them the caller sleeps and nothing changed. */
    method Submit(b: nat) returns (head: Option<nat>, ghost c: Chain)
      requires Valid() && forall h :: h in live ==> live[h].buf != b
      modifies this
      ensures Valid() && (head.Some? <==> |old(live)| < 2)
      ensures head.None? ==> hist == old(hist) && live == old(live) && disk == old(disk)
      ensures head.Some? ==>
                && head.value !in old(live) && live == old(live)[head.value := c] && c.buf == b
                && c.rid == |old(hist).posted|
                && hist == Hist(old(hist).posted + [head.value], old(hist).taken, old(hist).served, old(hist).acked)
    {
      hide Linked, Histories, Rings, Buffers, Chains, Three, Marked, FreeSet;
      ghost var free0 := free;
      c := Chain(0, 0, b, |hist.posted|);
      ChainsSize(live, free);
      var idx := Alloc3Desc();
      Conservation(live, free0);
      if idx.None? {
        head := None;
        return;
      }
      c := Post(idx.value, b, free0);
      head := Some(idx.value[0]);
    }

    /** Three descriptors formatted, the buffer recorded, the chain made visible
        to the device. */
    method Post(idx: seq<nat>, b: nat, ghost free0: seq<bool>) returns (ghost c: Chain)
      requires Chains(live, free0) && Linked(live, desc, info) && Histories(hist, live) && Buffers(hist, live, disk)
      requires Rings(hist, avail, availIdx, devIdx, used, usedIdx, seen) && Three(idx, free0)
      requires free == Marked(free0, idx)
      requires forall h :: h in live ==> live[h].buf != b
      modifies this`desc, this`info, this`avail, this`availIdx, this`disk, this`live, this`hist
      ensures Valid() && |idx| == 3 && idx[0] !in old(live) && |old(live)| < 2
      ensures c.buf == b && c.rid == |old(hist).posted| && live == old(live)[idx[0] := c]
      ensures hist == Hist(old(hist).posted + [idx[0]], old(hist).taken, old(hist).served, old(hist).acked)
    {
      hide Linked, Histories, Rings, Buffers, Chains, Three, Marked;
      ThreeSize(idx, free0);
      var h, m, l := idx[0], idx[1], idx[2];
      c := Chain(m, l, b, |hist.posted|);
      PostedOk(hist, live, free0, desc, info, disk, idx, c);
      RingPosted(hist, live, free0, avail, availIdx, devIdx, used, usedIdx, seen, h);
      desc := desc[h := Desc(true, m)];
      desc := desc[m := Desc(true, l)];
      desc := desc[l := Desc(false, 0)];
      disk := disk[b := true];
      info := info[h := Some(b)];
      avail := avail[availIdx % NUM := h];
      availIdx := (availIdx + 1) % U16;
      hist := Hist(hist.posted + [h], hist.taken, hist.served, hist.acked);
      live := live[h := c];
    }

    /** The device takes the next posted request, if there is one. */
    method DevTake() returns (h: Option<nat>)
      requires Valid()
      modifies this`devIdx, this`hist
      ensures Valid() && (h.Some? <==> old(hist).taken < |old(hist).posted|)
      ensures h.None? ==> hist == old(hist)
      ensures h.Some? ==> old(hist).taken < |old(hist).posted| && h.value == old(hist).posted[old(hist).taken]
                          && hist == Hist(old(hist).posted, old(hist).taken + 1, old(hist).served, old(hist).acked)
    {
      hide Chains, Linked, Buffers;
      Window(hist, live, free);
      NoAlias(hist.taken, |hist.posted|);
      if devIdx == availIdx {
        return None;
      }
      Wrap(hist.taken);
      SameAcked(hist, Hist(hist.posted, hist.taken + 1, hist.served, hist.acked));
      h := Some(avail[devIdx % NUM]);
      BuffersSame(hist, Hist(hist.posted, hist.taken + 1, hist.served, hist.acked), live, disk);
      devIdx := (devIdx + 1) % U16;
      hist := Hist(hist.posted, hist.taken + 1, hist.served, hist.acked);
    }

    /** The device finishes a request it has taken, in any order. */
    method DevFinish(h: nat, ghost rid: nat)
      requires Valid() && rid < hist.taken && rid !in hist.served && hist.posted[rid] == h
      modifies this`used, this`usedIdx, this`hist
      ensures Valid() && hist == Hist(old(hist).posted, old(hist).taken, old(hist).served + [rid], old(hist).acked)
    {
      hide Chains, Linked, Buffers;
      ghost var t' := Hist(hist.posted, hist.taken, hist.served + [rid], hist.acked);
      Window(hist, live, free);
      Wrap(|hist.served|);
      SameAcked(hist, t');
      BuffersSame(hist, t', live, disk);
      RingFinished(hist, avail, availIdx, devIdx, used, usedIdx, seen, h, rid);
      used := used[usedIdx % NUM := h];
      usedIdx := (usedIdx + 1) % U16;
      hist := t';
    }

    /** One turn of the interrupt handler: the buffer of the next finished
        request is handed back. The guard is true exactly when there is one. */
    method IntrOne() returns (more: bool, ghost b: nat)
      requires Valid()
      modifies this`disk, this`seen, this`hist
      ensures Valid() && (more <==> old(hist).acked < |old(hist).served|)
      ensures !more ==> hist == old(hist) && disk == old(disk) && seen == old(seen)
      ensures more ==>
                && hist == Hist(old(hist).posted, old(hist).taken, old(hist).served, old(hist).acked + 1)
                && HandedBack(old(hist), live, old(disk), disk, b)
    {
      hide Chains, Linked, Histories, Rings, Buffers, HandedBack;
      SeenAll(hist, live, free, avail, availIdx, devIdx, used, usedIdx, seen);
      b := 0;
      if seen % NUM == usedIdx % NUM {
        return false, b;
      }
      NextServed(hist, live, free, used, desc, info, disk, avail, availIdx, devIdx, usedIdx, seen);
      var id := used[seen];
      b := live[id].buf;
      disk := disk[info[id].value := false];
      seen := (seen + 1) % NUM;
      hist := Hist(hist.posted, hist.taken, hist.served, hist.acked + 1);
      more := true;
    }

    /** virtio_disk_intr: everything finished so far is handed back. */
    method Intr()
      requires Valid()
      modifies this`disk, this`seen, this`hist
      ensures Valid() && hist == Hist(old(hist).posted, old(hist).taken, old(hist).served, |old(hist).served|)
    {
      var more, b := IntrOne();
      while more
        invariant Valid() && old(hist).acked <= hist.acked <= |hist.served|
        invariant hist == Hist(old(hist).posted, old(hist).taken, old(hist).served, hist.acked)
        invariant !more ==> hist.acked == |hist.served|
        decreases more, |hist.served| - hist.acked
      {
        more, b := IntrOne();
      }
    }

    /** free_chain. */
    method FreeChain(h: nat)
      requires Chains(live, free) && Linked(live, desc, info) && h in live
      modifies this`free
      ensures ChainOk(h, live[h]) && |old(free)| == NUM
      ensures free == old(free)[h := true][live[h].mid := true][live[h].last := true]
    {
      hide Chains;
      BusyFlags(live, free);
      var i := h;
      FreeDesc(i);
      while desc[i].more
        invariant |free| == NUM && i < NUM && (i == h || i == live[h].mid || i == live[h].last)
        invariant i == h ==> free == old(free)[h := true]
        invariant i == live[h].mid ==> free == old(free)[h := true][live[h].mid := true]
        invariant i == live[h].last ==> free == old(free)[h := true][live[h].mid := true][live[h].last := true]
        decreases if i == h then 2 else if i == live[h].mid then 1 else 0
      {
        i := desc[i].next;
        FreeDesc(i);
      }
    }

    /** The end of virtio_disk_rw, once the buffer has been handed back: the
        device has finished the request, once, and the descriptors are free. */
    method Finish(h: nat)
      requires Valid() && h in live && live[h].buf in disk && !disk[live[h].buf]
      modifies this`info, this`free, this`live
      ensures Valid() && live == DropChain(old(live), h)
      ensures Acked(hist, old(live)[h].rid) && hist.posted[old(live)[h].rid] == h
    {
      hide Chains, Linked, Histories, Rings, Buffers, Acked;
      FinishOk(hist, live, free, desc, info, disk, h);
      FreeChain(h);
      info := info[h := None];
      live := DropChain(live, h);
    }
  }

  /** Distinct descriptors that were free. */
  ghost predicate Picked(s: seq<nat>, free: seq<bool>) {
    && |free| == NUM && (forall i :: 0 <= i < |s| ==> s[i] < NUM && free[s[i]])
    && forall i, j :: 0 <= i < j < |s| ==> s[i] != s[j]
  }

  ghost predicate Three(s: seq<nat>, free: seq<bool>) {
    |s| == 3 && Picked(s, free)
  }

  /** The free flags with those of `s` cleared. */
  ghost function Marked(free: seq<bool>, s: seq<nat>): (r: seq<bool>)
    ensures |r| == |free| && forall d :: 0 <= d < |free| ==> (r[d] <==> free[d] && d !in s)
  {
    seq(|free|, d requires 0 <= d < |free| => free[d] && d !in s)
  }

  lemma MarkMore(free: seq<bool>, s: seq<nat>, d: nat)
    requires Picked(s, free) && d < NUM && Marked(free, s)[d]
    ensures Picked(s + [d], free) && Marked(free, s)[d := false] == Marked(free, s + [d])
  {
  }

  lemma Unmark(free: seq<bool>, s: seq<nat>, j: nat)
    requires Picked(s, free) && j < |s|
    ensures s[j] < NUM && !Marked(free, s[j..])[s[j]]
    ensures Marked(free, s[j..])[s[j] := true] == Marked(free, s[j + 1..])
    ensures Marked(free, []) == free
  {
    assert s[j..] == [s[j]] + s[j + 1..];
    forall i | j < i < |s|
      ensures s[i] != s[j]
    {
    }
    assert s[j] !in s[j + 1..];
  }

  /** With no flag left after taking fewer than three, there were fewer. */
  lemma AllMarked(free: seq<bool>, s: seq<nat>)
    requires Picked(s, free) && |s| < 3 && forall d :: 0 <= d < NUM ==> !Marked(free, s)[d]
    ensures |FreeSet(free)| < 3 && s[0..] == s
  {
    var t := set i: nat | i < |s| :: s[i];
    Distinct(s, t);
    forall d | d in FreeSet(free)
      ensures d in t
    {
      assert !Marked(free, s)[d];
      var i :| 0 <= i < |s| && s[i] == d;
    }
    SubsetSize(FreeSet(free), t);
  }

  lemma ThreeSize(s: seq<nat>, free: seq<bool>)
    requires Three(s, free)
    ensures |s| == 3
  {
  }

  lemma ChainsSize(live: Live, free: seq<bool>)
    requires Chains(live, free)
    ensures |free| == NUM
  {
  }

  lemma ThreeLeft(live: Live, free: seq<bool>, s: seq<nat>)
    requires Chains(live, free) && Three(s, free)
    ensures |live| < 2
  {
    hide Chains;
    ChainsSize(live, free);
    Conservation(live, free);
    var t := set i: nat | i < |s| :: s[i];
    Distinct(s, t);
    SubsetSize(t, FreeSet(free));
  }

  lemma MarkThree(free: seq<bool>, s: seq<nat>)
    requires Three(s, free)
    ensures free[s[0] := false][s[1] := false][s[2] := false] == Marked(free, s)
    ensures s[0] != s[1] && s[0] != s[2] && s[1] != s[2]
  {
    assert s == [s[0], s[1], s[2]];
  }

  lemma LinkPosted(live: Live, free: seq<bool>, desc: seq<Desc>, info: seq<Option<nat>>, h: nat, c: Chain)
    requires Chains(live, free) && Linked(live, desc, info) && ChainOk(h, c) && free[h] && free[c.mid] && free[c.last]
    ensures |desc| == NUM && |info| == NUM
    ensures Linked(live[h := c], desc[h := Desc(true, c.mid)][c.mid := Desc(true, c.last)][c.last := Desc(false, 0)],
                   info[h := Some(c.buf)])
  {
    hide Chains;
    BusyFlags(live, free);
  }

  lemma BusyFlags(live: Live, free: seq<bool>)
    requires Chains(live, free)
    ensures |free| == NUM
    ensures forall g :: g in live ==> ChainOk(g, live[g]) && !free[g] && !free[live[g].mid] && !free[live[g].last]
  {
    forall g | g in live
      ensures ChainOk(g, live[g]) && !free[g] && !free[live[g].mid] && !free[live[g].last]
    {
      assert In(live, g, g) && In(live, g, live[g].mid) && In(live, g, live[g].last);
    }
  }

  lemma PostedOk(t: Hist, live: Live, free: seq<bool>, desc: seq<Desc>, info: seq<Option<nat>>, disk: map<nat, bool>,
                 s: seq<nat>, c: Chain)
    requires Chains(live, free) && Linked(live, desc, info) && Histories(t, live) && Buffers(t, live, disk)
    requires Three(s, free)
    requires c.mid == s[1] && c.last == s[2] && c.rid == |t.posted| && forall g :: g in live ==> live[g].buf != c.buf
    ensures s[0] !in live && |live| < 2 && |desc| == NUM && |info| == NUM && s[0] < NUM && s[1] < NUM && s[2] < NUM
    ensures Chains(live[s[0] := c], Marked(free, s))
    ensures Linked(live[s[0] := c],
                   desc[s[0] := Desc(true, c.mid)][c.mid := Desc(true, c.last)][c.last := Desc(false, 0)],
                   info[s[0] := Some(c.buf)])
    ensures var t' := Hist(t.posted + [s[0]], t.taken, t.served, t.acked);
            Histories(t', live[s[0] := c]) && Buffers(t', live[s[0] := c], disk[c.buf := true])
  {
    hide Chains, Linked, Histories, Buffers, Marked, Acked;
    ThreeLeft(live, free, s);
    MarkThree(free, s);
    ChainAdded(live, free, s[0], c);
    Posted(t, live, s[0], c);
    LinkPosted(live, free, desc, info, s[0], c);
    BufferPosted(t, live, disk, s[0], c);
  }

  lemma RingPosted(t: Hist, live: Live, free: seq<bool>, avail: seq<nat>, availIdx: nat, devIdx: nat, used: seq<nat>,
                   usedIdx: nat, seen: nat, h: nat)
    requires Rings(t, avail, availIdx, devIdx, used, usedIdx, seen) && Chains(live, free) && Histories(t, live)
    ensures |avail| == NUM && availIdx % NUM < NUM
    ensures Rings(Hist(t.posted + [h], t.taken, t.served, t.acked), avail[availIdx % NUM := h], (availIdx + 1) % U16,
                  devIdx, used, usedIdx, seen)
  {
    hide Chains;
    Window(t, live, free);
    var n := |t.posted|;
    Wrap(n);
    forall k | t.taken <= k < n + 1
      ensures avail[availIdx % NUM := h][k % NUM] == (t.posted + [h])[k]
    {
      NoAlias(k, n);
    }
  }

  lemma BufferPosted(t: Hist, live: Live, disk: map<nat, bool>, h: nat, c: Chain)
    requires Histories(t, live) && Buffers(t, live, disk) && h !in live && c.rid == |t.posted|
    requires forall g :: g in live ==> live[g].buf != c.buf
    requires forall k: nat :: Acked(Hist(t.posted + [h], t.taken, t.served, t.acked), k) <==> Acked(t, k)
    requires !Acked(t, c.rid)
    ensures Buffers(Hist(t.posted + [h], t.taken, t.served, t.acked), live[h := c], disk[c.buf := true])
  {
    hide Acked;
  }

  // ---- The device's steps ----

  lemma SameAcked(t: Hist, t': Hist)
    requires t.acked == t'.acked <= |t.served| && t.served <= t'.served
    ensures forall k: nat :: Acked(t', k) <==> Acked(t, k)
  {
    assert t'.served[..t.acked] == t.served[..t.acked];
  }

  lemma BuffersSame(t: Hist, t': Hist, live: Live, disk: map<nat, bool>)
    requires t.acked <= |t.served| && Buffers(t, live, disk) && t'.acked <= |t'.served|
    requires forall k: nat :: Acked(t', k) <==> Acked(t, k)
    ensures Buffers(t', live, disk)
  {
    hide Acked;
  }

  lemma RingFinished(t: Hist, avail: seq<nat>, availIdx: nat, devIdx: nat, used: seq<nat>, usedIdx: nat, seen: nat,
                     h: nat, rid: nat)
    requires Rings(t, avail, availIdx, devIdx, used, usedIdx, seen) && t.acked <= |t.served| <= t.acked + 2
    requires rid < |t.posted| && t.posted[rid] == h
    ensures |used| == NUM && usedIdx % NUM < NUM
    ensures Rings(Hist(t.posted, t.taken, t.served + [rid], t.acked), avail, availIdx, devIdx, used[usedIdx % NUM := h],
                  (usedIdx + 1) % U16, seen)
  {
    var n := |t.served|;
    Wrap(n);
    forall j | t.acked <= j < n + 1 && (t.served + [rid])[j] < |t.posted|
      ensures used[usedIdx % NUM := h][j % NUM] == t.posted[(t.served + [rid])[j]]
    {
      NoAlias(j, n);
    }
  }

  // ---- The driver's ----

  /** The buffer of request served[acked], and no other, went back. */
  ghost predicate HandedBack(t: Hist, live: Live, disk: map<nat, bool>, disk': map<nat, bool>, b: nat) {
    && t.acked < |t.served| && t.served[t.acked] < |t.posted| && t.posted[t.served[t.acked]] in live
    && live[t.posted[t.served[t.acked]]].rid == t.served[t.acked] && live[t.posted[t.served[t.acked]]].buf == b
    && b in disk && disk[b] && disk' == disk[b := false]
  }

  lemma NextServed(t: Hist, live: Live, free: seq<bool>, used: seq<nat>, desc: seq<Desc>, info: seq<Option<nat>>,
                   disk: map<nat, bool>, avail: seq<nat>, availIdx: nat, devIdx: nat, usedIdx: nat, seen: nat)
    requires Chains(live, free) && Linked(live, desc, info) && Histories(t, live) && Buffers(t, live, disk)
    requires Rings(t, avail, availIdx, devIdx, used, usedIdx, seen) && t.acked < |t.served|
    ensures seen < |used| && used[seen] in live && used[seen] < |info| && info[used[seen]] == Some(live[used[seen]].buf)
    ensures HandedBack(t, live, disk, disk[live[used[seen]].buf := false], live[used[seen]].buf)
    ensures var t' := Hist(t.posted, t.taken, t.served, t.acked + 1);
            && Histories(t', live) && Buffers(t', live, disk[live[used[seen]].buf := false])
            && Rings(t', avail, availIdx, devIdx, used, usedIdx, (seen + 1) % NUM)
  {
    hide Chains, Acked, Linked, Histories, Rings, Buffers;
    var t' := Hist(t.posted, t.taken, t.served, t.acked + 1);
    var h := ServedHead(t, live, disk);
    RingAck(t, avail, availIdx, devIdx, used, usedIdx, seen, h);
    InfoOf(live, free, desc, info, h);
    BuffersAck(t, t', live, disk, h);
  }

  /** The next request to be seen finished is live, and its head is in the ring. */
  lemma ServedHead(t: Hist, live: Live, disk: map<nat, bool>) returns (h: nat)
    requires Histories(t, live) && t.acked < |t.served| && Buffers(t, live, disk)
    ensures h in live && live[h].rid == t.served[t.acked] < |t.posted| && t.posted[t.served[t.acked]] == h
    ensures live[h].buf in disk && disk[live[h].buf]
    ensures forall g :: g in live && live[g].rid == live[h].rid ==> g == h
    ensures var t' := Hist(t.posted, t.taken, t.served, t.acked + 1);
            Histories(t', live) && forall k: nat :: Acked(t', k) <==> Acked(t, k) || k == live[h].rid
  {
    var rid := t.served[t.acked];
    var t' := Hist(t.posted, t.taken, t.served, t.acked + 1);
    assert !Acked(t, rid);
    h := t.posted[rid];
    assert t.served[..t.acked + 1] == t.served[..t.acked] + [rid];
    forall k: nat
      ensures Acked(t', k) <==> Acked(t, k) || k == rid
    {
    }
    hide Acked;
  }

  /** The handler's comparison modulo eight is exact. */
  lemma SeenAll(t: Hist, live: Live, free: seq<bool>, avail: seq<nat>, availIdx: nat, devIdx: nat, used: seq<nat>,
                usedIdx: nat, seen: nat)
    requires Chains(live, free) && Histories(t, live) && Rings(t, avail, availIdx, devIdx, used, usedIdx, seen)
    ensures t.acked <= |t.served| && (seen % NUM == usedIdx % NUM <==> t.acked == |t.served|)
  {
    hide Chains, Acked;
    Window(t, live, free);
    NoAlias(t.acked, |t.served|);
    Wrap(|t.served|);
  }

  lemma RingAck(t: Hist, avail: seq<nat>, availIdx: nat, devIdx: nat, used: seq<nat>, usedIdx: nat, seen: nat, h: nat)
    requires Rings(t, avail, availIdx, devIdx, used, usedIdx, seen) && t.acked < |t.served|
    requires t.served[t.acked] < |t.posted| && t.posted[t.served[t.acked]] == h
    ensures seen < |used| && used[seen] == h
    ensures Rings(Hist(t.posted, t.taken, t.served, t.acked + 1),
                  avail, availIdx, devIdx, used, usedIdx, (seen + 1) % NUM)
  {
    Wrap(t.acked);
  }

  lemma InfoOf(live: Live, free: seq<bool>, desc: seq<Desc>, info: seq<Option<nat>>, h: nat)
    requires Chains(live, free) && Linked(live, desc, info) && h in live
    ensures h < |info| && info[h] == Some(live[h].buf)
  {
    hide Chains;
    BusyFlags(live, free);
  }

  lemma BuffersAck(t: Hist, t': Hist, live: Live, disk: map<nat, bool>, h: nat)
    requires t.acked <= |t.served| && Buffers(t, live, disk) && h in live && t'.acked <= |t'.served|
    requires forall k: nat :: Acked(t', k) <==> Acked(t, k) || k == live[h].rid
    requires forall g :: g in live && live[g].rid == live[h].rid ==> g == h
    ensures Buffers(t', live, disk[live[h].buf := false])
  {
    hide Acked;
  }

  lemma FinishOk(t: Hist, live: Live, free: seq<bool>, desc: seq<Desc>, info: seq<Option<nat>>, disk: map<nat, bool>,
                 h: nat)
    requires Chains(live, free) && Linked(live, desc, info) && Histories(t, live) && Buffers(t, live, disk)
    requires h in live && live[h].buf in disk && !disk[live[h].buf]
    ensures Acked(t, live[h].rid) && live[h].rid < |t.posted| && t.posted[live[h].rid] == h
    ensures ChainOk(h, live[h]) && |free| == NUM && |info| == NUM
    ensures Chains(DropChain(live, h), free[h := true][live[h].mid := true][live[h].last := true])
    ensures Linked(DropChain(live, h), desc, info[h := None]) && Histories(t, DropChain(live, h))
    ensures Buffers(t, DropChain(live, h), disk)
  {
    hide Chains, Acked, Linked, Histories, Buffers;
    ChainsSize(live, free);
    ChainFreed(live, free, h);
    FinishLinked(live, free, desc, info, h);
    FinishHist(t, live, disk, h);
  }

  lemma FinishLinked(live: Live, free: seq<bool>, desc: seq<Desc>, info: seq<Option<nat>>, h: nat)
    requires Chains(live, free) && Linked(live, desc, info) && h in live
    ensures |info| == NUM && h < NUM && Linked(DropChain(live, h), desc, info[h := None])
  {
    hide Chains;
    BusyFlags(live, free);
  }

  lemma FinishHist(t: Hist, live: Live, disk: map<nat, bool>, h: nat)
    requires Histories(t, live) && Buffers(t, live, disk) && h in live && live[h].buf in disk && !disk[live[h].buf]
    ensures Acked(t, live[h].rid) && live[h].rid < |t.posted| && t.posted[live[h].rid] == h
    ensures Histories(t, DropChain(live, h)) && Buffers(t, DropChain(live, h), disk)
  {
    hide Acked;
  }

  /** A request whose chain has been released was finished by the device exactly
      once, after the device had taken it, and seen finished. */
  lemma ExactlyOnce(t: Hist, live: Live, k: nat)
    requires Histories(t, live) && k < |t.posted| && (t.posted[k] in live ==> live[t.posted[k]].rid != k)
    ensures k < t.taken && exists i :: 0 <= i < t.acked && t.served[i] == k
    ensures forall i, j :: 0 <= i < |t.served| && 0 <= j < |t.served| && t.served[i] == k && t.served[j] == k ==> i == j
  {
    assert Acked(t, k);
    var i :| 0 <= i < t.acked && t.served[..t.acked][i] == k;
    assert t.served[i] == k;
  }
}
