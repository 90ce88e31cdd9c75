/** Reference counts of user pages on x86: one for each page-table entry naming
    the frame, one if a shared-memory segment owns it, and one while the kernel
    has it in hand. */
module PageCounts {
  import opened Pages

  ghost function Refs(pte: map<Key, Pte>, f: Frame): (r: set<Key>)
    ensures forall k :: k in r <==> k in pte && pte[k].frame == f
  {
    set k | k in pte && pte[k].frame == f
  }

  function Without(pte: map<Key, Pte>, k: Key): (r: map<Key, Pte>)
    ensures forall j :: j in r <==> j in pte && j != k
    ensures forall j :: j in r ==> r[j] == pte[j]
  {
    map j | j in pte && j != k :: pte[j]
  }

  lemma WithoutSet(pte: map<Key, Pte>, k: Key, t: Pte)
    ensures Without(pte, k)[k := t] == pte[k := t]
  {
  }

  function One(b: bool): (n: nat) { if b then 1 else 0 }

  ghost predicate CountOk(n: nat, pte: map<Key, Pte>, own: set<Frame>, hand: set<Frame>, f: Frame) {
    n > 0 && n == |Refs(pte, f)| + One(f in own) + One(f in hand)
  }

  /** What is counted is allocated, what is used is counted, exactly. */
  ghost predicate Exact(pte: map<Key, Pte>, own: set<Frame>, hand: set<Frame>, rc: map<Frame, nat>) {
    && (forall k :: k in pte ==> pte[k].frame in rc)
    && own <= rc.Keys && hand <= rc.Keys
    && (forall f :: f in rc ==> CountOk(rc[f], pte, own, hand, f))
  }

  function Inc(rc: map<Frame, nat>, f: Frame): (r: map<Frame, nat>)
    requires f in rc
  {
    rc[f := rc[f] + 1]
  }

  /** put_page: at count zero the frame is free again. */
  function Dec(rc: map<Frame, nat>, f: Frame): (r: map<Frame, nat>)
    requires f in rc && rc[f] > 0
  {
    if rc[f] == 1 then rc - {f} else rc[f := rc[f] - 1]
  }

  lemma Taken(pte: map<Key, Pte>, own: set<Frame>, hand: set<Frame>, rc: map<Frame, nat>, f: Frame)
    requires Exact(pte, own, hand, rc) && f !in rc
    ensures Exact(pte, own, hand + {f}, rc[f := 1])
  {
    assert Refs(pte, f) == {};
    hide Refs;
  }

  lemma Gotten(pte: map<Key, Pte>, own: set<Frame>, hand: set<Frame>, rc: map<Frame, nat>, f: Frame)
    requires Exact(pte, own, hand, rc) && f in rc && f !in hand
    ensures Exact(pte, own, hand + {f}, Inc(rc, f))
  {
    hide Refs;
  }

  lemma PutBack(pte: map<Key, Pte>, own: set<Frame>, hand: set<Frame>, rc: map<Frame, nat>, f: Frame)
    requires Exact(pte, own, hand, rc) && f in hand
    ensures f in rc && rc[f] > 0 && Exact(pte, own, hand - {f}, Dec(rc, f))
  {
    assert CountOk(rc[f], pte, own, hand, f);
    if rc[f] == 1 {
      assert Refs(pte, f) == {};
    }
    hide Refs;
  }

  lemma RefsAdd(pte: map<Key, Pte>, k: Key, t: Pte, f: Frame)
    requires k !in pte
    ensures |Refs(pte[k := t], f)| == |Refs(pte, f)| + One(f == t.frame)
  {
    if f == t.frame {
      assert Refs(pte[k := t], f) == Refs(pte, f) + {k};
    } else {
      assert Refs(pte[k := t], f) == Refs(pte, f);
    }
  }

  lemma RefsDrop(pte: map<Key, Pte>, k: Key, f: Frame)
    requires k in pte
    ensures |Refs(Without(pte, k), f)| == |Refs(pte, f)| - One(f == pte[k].frame)
  {
    if f == pte[k].frame {
      assert Refs(pte, f) == Refs(Without(pte, k), f) + {k};
    } else {
      assert Refs(Without(pte, k), f) == Refs(pte, f);
    }
  }

  lemma Mapped(pte: map<Key, Pte>, own: set<Frame>, hand: set<Frame>, rc: map<Frame, nat>, k: Key, t: Pte)
    requires Exact(pte, own, hand, rc) && k !in pte && t.frame in hand
    ensures Exact(pte[k := t], own, hand - {t.frame}, rc)
  {
    hide Refs;
    forall f | f in rc
      ensures CountOk(rc[f], pte[k := t], own, hand - {t.frame}, f)
    {
      RefsAdd(pte, k, t, f);
    }
  }

  lemma Unmapped(pte: map<Key, Pte>, own: set<Frame>, hand: set<Frame>, rc: map<Frame, nat>, k: Key)
    requires Exact(pte, own, hand, rc) && k in pte
    ensures pte[k].frame in rc && rc[pte[k].frame] > 0 && Exact(Without(pte, k), own, hand, Dec(rc, pte[k].frame))
  {
    var f := pte[k].frame;
    assert CountOk(rc[f], pte, own, hand, f);
    RefsDrop(pte, k, f);
    if rc[f] == 1 {
      assert Refs(Without(pte, k), f) == {};
    }
    assert forall j :: j in Without(pte, k) && Without(pte, k)[j].frame == f ==> j in Refs(Without(pte, k), f);
    hide Refs;
    var rc' := Dec(rc, f);
    forall g | g in rc'
      ensures CountOk(rc'[g], Without(pte, k), own, hand, g)
    {
      assert CountOk(rc[g], pte, own, hand, g);
      RefsDrop(pte, k, g);
    }
  }

  lemma Reflagged(pte: map<Key, Pte>, own: set<Frame>, hand: set<Frame>, rc: map<Frame, nat>, k: Key, t: Pte)
    requires Exact(pte, own, hand, rc) && k in pte && t.frame == pte[k].frame
    ensures Exact(pte[k := t], own, hand, rc)
  {
    forall f
      ensures Refs(pte[k := t], f) == Refs(pte, f)
    {
    }
  }

  lemma Disowned(pte: map<Key, Pte>, own: set<Frame>, hand: set<Frame>, rc: map<Frame, nat>, f: Frame)
    requires Exact(pte, own, hand, rc) && f in own && f !in hand
    ensures Exact(pte, own - {f}, hand + {f}, rc)
  {
    hide Refs;
  }

  /** A frame that is mapped or owned is not free. */
  lemma InUse(pte: map<Key, Pte>, own: set<Frame>, hand: set<Frame>, rc: map<Frame, nat>, f: Frame)
    requires Exact(pte, own, hand, rc)
    ensures f in rc <==> f in own || f in hand || exists k :: k in pte && pte[k].frame == f
  {
    if f in rc && f !in own && f !in hand {
      assert |Refs(pte, f)| > 0;
      var k :| k in Refs(pte, f);
    }
  }

  /** A frame number not in use exists. */
  lemma Unused(m: set<nat>) returns (f: nat)
    ensures forall x :: x in m ==> x < f
    ensures f !in m
  {
    if m == {} {
      f := 0;
    } else {
      var x :| x in m;
      var g := Unused(m - {x});
      f := if g > x then g else x + 1;
      assert forall y :: y in m ==> y == x || y in m - {x};
    }
  }
}
