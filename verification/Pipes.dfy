/** Pipes of both kernels: a ring of 512 bytes with 32-bit counters that wrap.
    Each method is what one call does between taking the lock and giving it up
    or going to sleep; calls of readers and writers interleave in any order. */
module Pipes {

  const PIPESIZE: nat := 512
  const U32: nat := 0x1_0000_0000

  /** A byte and the write call it came from. */
  datatype Sent = Sent(call: nat, byte: int)

  /** The ring holds what was accepted and not yet delivered. */
  ghost predicate Holds(data: seq<int>, nread: nat, nwrite: nat, accepted: seq<Sent>, taken: nat) {
    && |data| == PIPESIZE && taken <= |accepted| <= taken + PIPESIZE
    && nread == taken % U32 && nwrite == |accepted| % U32
    && forall k :: taken <= k < |accepted| ==> data[k % PIPESIZE] == accepted[k].byte
  }

  ghost function Tagged(call: nat, s: seq<int>): (r: seq<Sent>)
    ensures |r| == |s| && forall i :: 0 <= i < |s| ==> r[i] == Sent(call, s[i])
  {
    seq(|s|, i requires 0 <= i < |s| => Sent(call, s[i]))
  }

  ghost function Bytes(t: seq<Sent>): (r: seq<int>)
    ensures |r| == |t| && forall i :: 0 <= i < |t| ==> r[i] == t[i].byte
  {
    seq(|t|, i requires 0 <= i < |t| => t[i].byte)
  }

  lemma BytesNone(t: seq<Sent>, a: nat)
    requires a <= |t|
    ensures Bytes(t[a..a]) == []
  {
  }

  lemma BytesNext(t: seq<Sent>, a: nat, b: nat)
    requires a <= b < |t|
    ensures Bytes(t[a..b + 1]) == Bytes(t[a..b]) + [t[b].byte]
    ensures t[..b + 1] == t[0..b + 1] && t[..b] == t[0..b]
  {
  }

  // ---- Wrapping counters ----

  lemma Wrap(n: nat)
    ensures (n % U32 + 1) % U32 == (n + 1) % U32 && n % U32 % PIPESIZE == n % PIPESIZE
  {
    var q, r := n / 0x1_0000_0000, n % 0x1_0000_0000;
    var a, b := r / 512, r % 512;
    ModPipe(n, 0x80_0000 * q + a, b);
    if r + 1 < 0x1_0000_0000 {
      ModU32(n + 1, q, r + 1);
    } else {
      ModU32(n + 1, q + 1, 0);
    }
  }

  lemma ModPipe(n: nat, q: nat, r: nat)
    requires r < 512 && n == 512 * q + r
    ensures n % PIPESIZE == r
  {
  }

  lemma ModU32(n: nat, q: nat, r: nat)
    requires r < 0x1_0000_0000 && n == 0x1_0000_0000 * q + r
    ensures n % U32 == r
  {
  }

  /** Within a ring's length, places are told apart modulo its size, and full
      and empty are told apart by the wrapped counters. */
  lemma Apart(a: nat, b: nat)
    requires a <= b < a + PIPESIZE
    ensures a % PIPESIZE == b % PIPESIZE <==> a == b
  {
    var q, r := a / 512, a % 512;
    var d := b - a;
    if r + d < 512 {
      ModPipe(b, q, r + d);
    } else {
      ModPipe(b, q + 1, r + d - 512);
    }
  }

  lemma FullOrEmpty(taken: nat, sent: nat)
    requires taken <= sent <= taken + PIPESIZE
    ensures sent % U32 == (taken % U32 + PIPESIZE) % U32 <==> sent == taken + PIPESIZE
    ensures taken % U32 == sent % U32 <==> taken == sent
  {
    Shift(taken, sent - taken);
    Shift(taken, PIPESIZE);
  }

  lemma Shift(n: nat, d: nat)
    requires d <= PIPESIZE
    ensures (n + d) % U32 == (n % U32 + d) % U32
    ensures (n + d) % U32 == if n % U32 + d < U32 then n % U32 + d else n % U32 + d - U32
  {
    var q, r := n / 0x1_0000_0000, n % 0x1_0000_0000;
    if r + d < 0x1_0000_0000 {
      ModU32(n + d, q, r + d);
      ModU32(r + d, 0, r + d);
    } else {
      ModU32(n + d, q + 1, r + d - 0x1_0000_0000);
      ModU32(r + d, 1, r + d - 0x1_0000_0000);
    }
  }

  class Pipe {
    var data: seq<int>
    var nread: nat
    var nwrite: nat
    ghost var accepted: seq<Sent>
    ghost var taken: nat
    /** What all reads so far returned, one after the other. */
    ghost var delivered: seq<int>

    /** The ring holds what it should, and over all turns the reads have returned a
        prefix of what was written. */
    ghost predicate Valid()
      reads this
    {
      Holds(data, nread, nwrite, accepted, taken) && delivered == Bytes(accepted[..taken])
    }

    constructor ()
      ensures Valid() && accepted == [] && taken == 0 && delivered == []
    {
      data, nread, nwrite, accepted, taken, delivered := seq(PIPESIZE, _ => 0), 0, 0, [], 0, [];
    }

    /** pi->data[pi->nwrite++ % PIPESIZE] = ch: with room for it, the byte joins
        the stream. */
    method Put(ch: int, ghost call: nat)
      requires |data| == PIPESIZE && nwrite == |accepted| % U32
      modifies this`data, this`nwrite, this`accepted
      ensures |data| == PIPESIZE && nwrite == |accepted| % U32 && accepted == old(accepted) + [Sent(call, ch)]
      ensures old(Valid()) && |old(accepted)| < taken + PIPESIZE ==> Valid()
    {
      Wrap(|accepted|);
      if Valid() && |accepted| < taken + PIPESIZE {
        forall k | taken <= k < |accepted|
          ensures k % PIPESIZE != |accepted| % PIPESIZE
        {
          Apart(k, |accepted|);
        }
      }
      data := data[nwrite % PIPESIZE := ch];
      nwrite := (nwrite + 1) % U32;
      accepted := accepted + [Sent(call, ch)];
      assert taken <= |old(accepted)| ==> accepted[..taken] == old(accepted)[..taken];
    }

    /** The rest src[i..] of a write, byte by byte, until the ring is full: both
        kernels' loop between two sleeps. */
    method WriteTurn(src: seq<int>, i: nat, ghost call: nat) returns (j: nat)
      requires Valid() && i <= |src|
      modifies this`data, this`nwrite, this`accepted
      ensures Valid() && i <= j <= |src| && (j < |src| ==> |accepted| == taken + PIPESIZE)
      ensures accepted == old(accepted) + Tagged(call, src[i..j])
      ensures Bytes(accepted) == old(Bytes(accepted)) + src[i..j]
    {
      j := i;
      while j < |src|
        invariant Valid() && i <= j <= |src| && accepted == old(accepted) + Tagged(call, src[i..j])
      {
        FullOrEmpty(taken, |accepted|);
        if nwrite == (nread + PIPESIZE) % U32 {
          return;
        }
        Put(src[j], call);
        assert Tagged(call, src[i..j]) + [Sent(call, src[j])] == Tagged(call, src[i..j + 1]);
        j := j + 1;
      }
    }

    /** A read once the ring is not empty: up to `n` bytes, the oldest first. */
    method ReadTurn(n: nat) returns (r: seq<int>)
      requires Valid()
      modifies this`nread, this`taken, this`delivered
      ensures delivered == old(delivered) + r
      ensures Valid() && |r| == (if n < |accepted| - old(taken) then n else |accepted| - old(taken))
      ensures taken == old(taken) + |r| && r == Bytes(accepted[old(taken)..taken])
    {
      hide Bytes;
      r := [];
      BytesNone(accepted, taken);
      while |r| < n
        invariant Valid() && |r| <= n && taken == old(taken) + |r| && r == Bytes(accepted[old(taken)..taken])
        invariant delivered == old(delivered) + r
        decreases n - |r|
      {
        FullOrEmpty(taken, |accepted|);
        if nread == nwrite {
          return;
        }
        Wrap(taken);
        BytesNext(accepted, 0, taken);
        BytesNext(accepted, old(taken), taken);
        var ch := data[nread % PIPESIZE];
        delivered := delivered + [ch];
        r := r + [ch];
        nread := (nread + 1) % U32;
        taken := taken + 1;
      }
    }

    /** x86: a write of at most PIPESIZE bytes waits for room for all of them and
        then goes in without a gap. The test compares sums that wrap, so it is
        right exactly while both are in the same round of the counters, and
        otherwise bytes not yet read may be overwritten. */
    method AtomicTurn(src: seq<int>, ghost call: nat) returns (done: bool)
      requires Valid() && 0 < |src| <= PIPESIZE
      modifies this`data, this`nwrite, this`accepted
      ensures (done <==> |old(accepted)| + |src| <= taken + PIPESIZE) <==> SameRound(taken, |old(accepted)|, |src|)
      ensures accepted == if done then old(accepted) + Tagged(call, src) else old(accepted)
      ensures Bytes(accepted) == old(Bytes(accepted)) + if done then src else []
      ensures Valid() <==> !done || |old(accepted)| + |src| <= taken + PIPESIZE
    {
      WaitTest(taken, |accepted|, |src|);
      if (nwrite + |src|) % U32 > (nread + PIPESIZE) % U32 {
        return false;
      }
      ghost var fits := |accepted| + |src| <= taken + PIPESIZE;
      var i := 0;
      while i < |src|
        invariant 0 <= i <= |src| && accepted == old(accepted) + Tagged(call, src[..i])
        invariant |data| == PIPESIZE && nwrite == |accepted| % U32 && (fits ==> Valid())
      {
        Put(src[i], call);
        assert Tagged(call, src[..i]) + [Sent(call, src[i])] == Tagged(call, src[..i + 1]);
        i := i + 1;
      }
      assert src[..i] == src;
      done := true;
    }
  }

  /** First in, first out over any turns: what the reads returned, together, is what
      was written, in order, as far as it goes. */
  lemma Fifo(p: Pipe)
    requires p.Valid()
    ensures p.delivered <= Bytes(p.accepted) && |p.delivered| == p.taken
  {
    assert Bytes(p.accepted)[..p.taken] == Bytes(p.accepted[..p.taken]);
  }

  /** Where the write would end and where the ring would be full lie in the same
      round of 2^32 bytes. */
  predicate SameRound(taken: nat, sent: nat, n: nat) {
    (sent + n) / U32 == (taken + PIPESIZE) / U32
  }

  /** The x86 test is right exactly in that case. */
  lemma WaitTest(taken: nat, sent: nat, n: nat)
    requires taken <= sent <= taken + PIPESIZE && n <= PIPESIZE
    ensures ((sent % U32 + n) % U32 > (taken % U32 + PIPESIZE) % U32 <==> sent + n > taken + PIPESIZE)
            <==> SameRound(taken, sent, n)
  {
    Shift(sent, n);
    Shift(taken, PIPESIZE);
    var a, b := sent + n, taken + PIPESIZE;
    assert a == U32 * (a / U32) + a % U32 && b == U32 * (b / U32) + b % U32;
  }

  /** A full ring near the wrap takes a write it has no room for. */
  lemma WaitTestFails()
    ensures var taken, sent, n := U32 - 600, U32 - 88, 100;
            && taken <= sent <= taken + PIPESIZE && sent + n > taken + PIPESIZE
            && !((sent % U32 + n) % U32 > (taken % U32 + PIPESIZE) % U32)
  {
    WaitTest(U32 - 600, U32 - 88, 100);
  }
}
