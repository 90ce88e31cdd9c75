/** The virtio split ring of the disk driver: three-descriptor chains, the
    available ring the driver fills and the used ring the device fills. Requests
    are numbered in the order they are posted; the ghost histories say which the
    device has taken, which it has finished and which the driver has seen
    finished. */
module VirtioRing {
  import opened Basics

  const NUM: nat := 8
  const U16: nat := 0x1_0000

  /** A descriptor, as far as chaining goes. */
  datatype Desc = Desc(more: bool, next: nat)

  /** A request under way: its second and third descriptor (the first is its
      key), its buffer and its number. */
  datatype Chain = Chain(mid: nat, last: nat, buf: nat, rid: nat)

  type Live = map<nat, Chain>

  ghost function Parts(h: nat, c: Chain): (s: set<nat>) { {h, c.mid, c.last} }

  /** Descriptor `d` is part of the chain at `h`. */
  ghost predicate In(live: Live, h: nat, d: nat) {
    h in live && d in Parts(h, live[h])
  }

  ghost predicate Taken(live: Live, d: nat) {
    exists h :: In(live, h, d)
  }

  ghost predicate ChainOk(h: nat, c: Chain) {
    h < NUM && c.mid < NUM && c.last < NUM && h != c.mid && h != c.last && c.mid != c.last
  }

  /** No descriptor belongs to two chains. */
  ghost predicate Apart(live: Live) {
    && (forall h :: h in live ==> ChainOk(h, live[h]))
    && (forall h, g, d :: In(live, h, d) && In(live, g, d) ==> h == g)
  }

  /** The free descriptors are those in no chain. */
  ghost predicate Chains(live: Live, free: seq<bool>) {
    Apart(live) && |free| == NUM && forall d: nat :: d < NUM ==> (free[d] <==> !Taken(live, d))
  }

  /** Each chain is linked up in the descriptor table and has its buffer noted. */
  ghost predicate Linked(live: Live, desc: seq<Desc>, info: seq<Option<nat>>) {
    && |desc| == NUM && |info| == NUM
    && forall h :: h in live && h < NUM && live[h].mid < NUM && live[h].last < NUM ==>
         desc[h] == Desc(true, live[h].mid) && desc[live[h].mid] == Desc(true, live[h].last)
         && !desc[live[h].last].more && info[h] == Some(live[h].buf)
  }

  /** Histories: posted heads, how many the device took, and finished requests,
      `acked` of which the driver has seen. */
  datatype Hist = Hist(posted: seq<nat>, taken: nat, served: seq<nat>, acked: nat)

  ghost predicate Acked(t: Hist, rid: nat)
    requires t.acked <= |t.served|
  {
    rid in t.served[..t.acked]
  }

  ghost predicate Histories(t: Hist, live: Live) {
    && t.taken <= |t.posted| && t.acked <= |t.served|
    && (forall i :: 0 <= i < |t.served| ==> t.served[i] < t.taken)
    && (forall i, j :: 0 <= i < j < |t.served| ==> t.served[i] != t.served[j])
    && (forall h :: h in live ==> live[h].rid < |t.posted| && t.posted[live[h].rid] == h)
    && (forall k: nat :: k < |t.posted| && !Acked(t, k) ==> t.posted[k] in live && live[t.posted[k]].rid == k)
  }

  /** The rings hold what the other side has yet to see, at wrapping indices. */
  ghost predicate Rings(t: Hist, avail: seq<nat>, availIdx: nat, devIdx: nat, used: seq<nat>, usedIdx: nat, seen: nat) {
    && |avail| == NUM && |used| == NUM
    && availIdx == |t.posted| % U16 && devIdx == t.taken % U16 && usedIdx == |t.served| % U16 && seen == t.acked % NUM
    && (forall k :: t.taken <= k < |t.posted| ==> avail[k % NUM] == t.posted[k])
    && (forall j :: t.acked <= j < |t.served| && t.served[j] < |t.posted| ==> used[j % NUM] == t.posted[t.served[j]])
  }

  /** A buffer belongs to the device until its request is seen finished. */
  ghost predicate Buffers(t: Hist, live: Live, disk: map<nat, bool>)
    requires t.acked <= |t.served|
  {
    && (forall h :: h in live ==> live[h].buf in disk && (disk[live[h].buf] <==> !Acked(t, live[h].rid)))
    && (forall h, g :: h in live && g in live && live[h].buf == live[g].buf ==> h == g)
  }

  // ---- Counting ----

  ghost function Busy(live: Live): (s: set<nat>)
    requires Apart(live)
    ensures forall d: nat :: d in s <==> Taken(live, d)
  {
    var s := set d: nat | d < NUM && Taken(live, d);
    assert forall d: nat :: Taken(live, d) ==> d in s by {
      forall d: nat | Taken(live, d)
        ensures d < NUM
      {
        var h :| In(live, h, d);
        assert ChainOk(h, live[h]);
      }
    }
    s
  }

  function DropChain(live: Live, h: nat): (r: Live)
    ensures forall g :: g in r <==> g in live && g != h
    ensures forall g :: g in r ==> r[g] == live[g]
    ensures h in live ==> |r| == |live| - 1
  {
    var r := map g | g in live && g != h :: live[g];
    assert h in live ==> r.Keys == live.Keys - {h};
    r
  }

  lemma Dropped(live: Live, h: nat)
    requires Apart(live) && h in live
    ensures Apart(DropChain(live, h))
    ensures forall d: nat :: Taken(live, d) <==> Taken(DropChain(live, h), d) || d in Parts(h, live[h])
    ensures forall d: nat :: d in Parts(h, live[h]) ==> !Taken(DropChain(live, h), d)
  {
    var rest := DropChain(live, h);
    forall g, d
      ensures In(rest, g, d) <==> In(live, g, d) && g != h
    {
    }
    hide In, Parts, ChainOk;
    forall d: nat
      ensures Taken(live, d) <==> Taken(rest, d) || In(live, h, d)
      ensures In(live, h, d) ==> !Taken(rest, d)
    {
    }
    assert forall d: nat :: In(live, h, d) <==> d in Parts(h, live[h]) by { InParts(live, h); }
  }

  lemma InParts(live: Live, h: nat)
    requires h in live
    ensures forall d: nat :: In(live, h, d) <==> d in Parts(h, live[h])
  {
  }

  lemma PartsSize(h: nat, c: Chain)
    requires ChainOk(h, c)
    ensures |Parts(h, c)| == 3
  {
  }

  /** Descriptors of live chains: three each. */
  lemma {:induction false} ThreeEach(live: Live)
    requires Apart(live)
    ensures |Busy(live)| == 3 * |live|
    decreases |live|
  {
    if live != map[] {
      var h :| h in live;
      var rest := DropChain(live, h);
      Dropped(live, h);
      assert ChainOk(h, live[h]);
      PartsSize(h, live[h]);
      hide Apart, Taken, Parts, ChainOk;
      ThreeEach(rest);
      assert Busy(live) == Busy(rest) + Parts(h, live[h]);
      assert Busy(rest) !! Parts(h, live[h]);
    } else {
      assert Busy(live) == {};
    }
  }

  ghost function Below(n: nat): (s: set<nat>)
    ensures (forall d: nat :: d in s <==> d < n) && |s| == n
  {
    if n == 0 then {} else Below(n - 1) + {n - 1}
  }

  ghost function FreeSet(free: seq<bool>): (s: set<nat>)
    ensures forall d: nat :: d in s <==> d < |free| && free[d]
  {
    set d: nat | d < |free| && free[d]
  }

  lemma BusyBelow(live: Live)
    requires Apart(live)
    ensures forall d: nat :: d in Busy(live) ==> d < NUM
  {
    forall d: nat | Taken(live, d)
      ensures d < NUM
    {
      var h :| In(live, h, d);
      assert ChainOk(h, live[h]);
    }
  }

  /** Free descriptors plus three for each chain make eight, so at most two
      requests are under way. */
  lemma Conservation(live: Live, free: seq<bool>)
    requires Chains(live, free)
    ensures |FreeSet(free)| + 3 * |live| == NUM && |live| <= 2
  {
    hide Apart, Taken, Below, FreeSet, Busy;
    ThreeEach(live);
    BusyBelow(live);
    var a, b, all := FreeSet(free), Busy(live), Below(NUM);
    assert a !! b;
    assert a + b == all;
    assert |a + b| == |a| + |b|;
  }

  /** Three requests cannot be unfinished at once, so neither ring ever holds
      more than two entries and the indices do not alias. */
  lemma Window(t: Hist, live: Live, free: seq<bool>)
    requires Chains(live, free) && Histories(t, live)
    ensures |t.posted| - t.taken <= 2 && |t.served| - t.acked <= 2
  {
    Conservation(live, free);
    if |t.posted| - t.taken > 2 {
      ThreePending(t, live, t.taken, t.taken + 1, t.taken + 2);
    }
    if |t.served| - t.acked > 2 {
      forall j | t.acked <= j < |t.served|
        ensures !Acked(t, t.served[j])
      {
      }
      ThreePending(t, live, t.served[t.acked], t.served[t.acked + 1], t.served[t.acked + 2]);
    }
  }

  lemma ThreePending(t: Hist, live: Live, a: nat, b: nat, c: nat)
    requires Histories(t, live) && a < |t.posted| && b < |t.posted| && c < |t.posted|
    requires a != b && a != c && b != c && !Acked(t, a) && !Acked(t, b) && !Acked(t, c)
    ensures |live| >= 3
  {
    var s := {t.posted[a], t.posted[b], t.posted[c]};
    assert |s| == 3 && s <= live.Keys;
    SubsetSize(s, live.Keys);
  }

  // ---- Indices ----

  lemma Wrap(n: nat)
    ensures n % U16 % NUM == n % NUM && (n % U16 + 1) % U16 == (n + 1) % U16 && (n % NUM + 1) % NUM == (n + 1) % NUM
  {
    var q, r := n / 0x1_0000, n % 0x1_0000;
    var a, b := r / 8, r % 8;
    ModNum(n, 8192 * q + a, b);
    if r + 1 < 0x1_0000 {
      ModU16(n + 1, q, r + 1);
    } else {
      ModU16(n + 1, q + 1, 0);
    }
    if b + 1 < 8 {
      ModNum(n + 1, 8192 * q + a, b + 1);
    } else {
      ModNum(n + 1, 8192 * q + a + 1, 0);
    }
  }

  lemma ModNum(n: nat, q: nat, r: nat)
    requires r < 8 && n == 8 * q + r
    ensures n % NUM == r
  {
  }

  lemma ModU16(n: nat, q: nat, r: nat)
    requires r < 0x1_0000 && n == 0x1_0000 * q + r
    ensures n % U16 == r
  {
  }

  /** Indices a few apart are told apart modulo eight. */
  lemma NoAlias(a: nat, b: nat)
    requires a <= b <= a + 7
    ensures a % NUM == b % NUM <==> a == b
    ensures a % U16 == b % U16 <==> a == b
  {
    if a != b {
      var d := b - a;
      assert b % NUM == (a % NUM + d) % NUM;
    }
  }

  lemma {:induction false} Distinct(q: seq<nat>, s: set<nat>)
    requires forall i, j :: 0 <= i < j < |q| ==> q[i] != q[j]
    requires s == set i: nat | i < |q| :: q[i]
    ensures |s| == |q|
  {
    if q != [] {
      var n := |q| - 1;
      var s' := set i: nat | i < n :: q[..n][i];
      Distinct(q[..n], s');
      assert s == s' + {q[n]};
    }
  }

  // ---- Steps ----

  /** Three free descriptors become a chain. */
  lemma ChainAdded(live: Live, free: seq<bool>, h: nat, c: Chain)
    requires Chains(live, free) && ChainOk(h, c) && free[h] && free[c.mid] && free[c.last]
    ensures h !in live && Chains(live[h := c], free[h := false][c.mid := false][c.last := false])
  {
    assert h in live ==> In(live, h, h);
    var live' := live[h := c];
    forall g, d
      ensures In(live', g, d) <==> In(live, g, d) || (g == h && d in Parts(h, c))
    {
    }
    forall d: nat | d in Parts(h, c)
      ensures !Taken(live, d)
    {
    }
    hide In, Parts;
    forall d: nat
      ensures Taken(live', d) <==> Taken(live, d) || d in Parts(h, c)
    {
      if d in Parts(h, c) {
        assert In(live', h, d);
      }
      if Taken(live, d) {
        var g :| In(live, g, d);
        assert In(live', g, d);
      }
    }
    assert Apart(live');
    hide Apart, Taken;
    assert forall d: nat :: d in Parts(h, c) <==> d == h || d == c.mid || d == c.last by { PartsAre(h, c); }
  }

  lemma PartsAre(h: nat, c: Chain)
    ensures forall d: nat :: d in Parts(h, c) <==> d == h || d == c.mid || d == c.last
  {
  }

  lemma ChainFreed(live: Live, free: seq<bool>, h: nat)
    requires Chains(live, free) && h in live
    ensures ChainOk(h, live[h]) && !free[h] && !free[live[h].mid] && !free[live[h].last]
    ensures Chains(DropChain(live, h), free[h := true][live[h].mid := true][live[h].last := true])
  {
    Dropped(live, h);
    assert ChainOk(h, live[h]);
    PartsAre(h, live[h]);
    hide Apart, Taken, Parts;
  }

  lemma Posted(t: Hist, live: Live, h: nat, c: Chain)
    requires Histories(t, live) && h !in live && c.rid == |t.posted|
    ensures Histories(Hist(t.posted + [h], t.taken, t.served, t.acked), live[h := c])
    ensures forall k: nat :: Acked(Hist(t.posted + [h], t.taken, t.served, t.acked), k) <==> Acked(t, k)
    ensures !Acked(t, c.rid)
  {
    var t' := Hist(t.posted + [h], t.taken, t.served, t.acked);
    forall k: nat
      ensures Acked(t', k) <==> Acked(t, k)
    {
    }
    assert !Acked(t, c.rid) by {
      forall i | 0 <= i < t.acked
        ensures t.served[..t.acked][i] != c.rid
      {
        assert t.served[i] < t.taken;
      }
    }
    hide Acked;
    forall k: nat | k < |t'.posted| && !Acked(t', k)
      ensures t'.posted[k] in live[h := c] && live[h := c][t'.posted[k]].rid == k
    {
      if k < |t.posted| {
        assert !Acked(t, k) && t.posted[k] in live;
      }
    }
  }
}
