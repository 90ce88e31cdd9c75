/** Space reservation in the log: begin_op admits an operation only if every
    operation in progress could still log MAXOPBLOCKS new blocks. The operations
    themselves log at most `b` new blocks each, for some `b` up to MAXOPBLOCKS. */
module LogSpace {
  import opened LogProtocol

  /** `n` blocks are in the log header; `used[k]` of them were put there by the
      k-th operation in progress. */
  datatype Space = Space(n: nat, used: seq<nat>)

  /** What the operations may still log. */
  ghost function Remaining(used: seq<nat>, b: nat): (r: int) {
    if used == [] then 0 else (b - used[0]) + Remaining(used[1..], b)
  }

  lemma {:induction false} RemainingConcat(x: seq<nat>, y: seq<nat>, b: nat)
    ensures Remaining(x + y, b) == Remaining(x, b) + Remaining(y, b)
  {
    if x == [] {
      assert x + y == y;
    } else {
      assert (x + y)[1..] == x[1..] + y;
      RemainingConcat(x[1..], y, b);
    }
  }

  lemma RemainingSplit(used: seq<nat>, k: nat, b: nat)
    requires k < |used|
    ensures Remaining(used, b) == Remaining(used[..k], b) + (b - used[k]) + Remaining(used[k + 1..], b)
  {
    assert used == used[..k] + ([used[k]] + used[k + 1..]);
    RemainingConcat(used[..k], [used[k]] + used[k + 1..], b);
    RemainingConcat([used[k]], used[k + 1..], b);
    assert [used[k]][1..] == [];
  }

  ghost predicate UsedOk(used: seq<nat>, b: nat) {
    forall k :: 0 <= k < |used| ==> used[k] <= b
  }

  lemma {:induction false} RemainingBounds(used: seq<nat>, b: nat)
    requires UsedOk(used, b)
    ensures 0 <= Remaining(used, b)
    ensures (|used| <= 1 ==> Remaining(used, b) <= b) && (|used| <= 2 ==> Remaining(used, b) <= 2 * b)
    ensures Remaining(used, b) > 0 ==> exists k :: 0 <= k < |used| && used[k] < b
  {
    if used != [] {
      RemainingBounds(used[1..], b);
      if used[0] == b && Remaining(used, b) > 0 {
        var k :| 0 <= k < |used[1..]| && used[1..][k] < b;
        assert used[k + 1] < b;
      }
    }
  }

  /** How many blocks the log may come to hold: two operations run past an
      admission that counted their whole reservations, the rest does not. */
  ghost function Most(b: nat): (m: nat) {
    if b == 0 then 0 else MAXOPBLOCKS + 2 * b
  }

  /** Blocks in the log plus everything that may still come. */
  ghost predicate SpaceInv(s: Space, b: nat) {
    && UsedOk(s.used, b) && s.n + Remaining(s.used, b) <= Most(b)
    && (s.used == [] ==> s.n == 0)
  }

  /** `Begin` is admitted by begin_op's guard. `Add(k)` and `Absorb(k)` are calls
      of log_write, on a block that was not in the header and on one that was.
      `End(k)` ends an operation, the last one committing. */
  datatype SpaceEvent = Begin | Add(k: nat) | Absorb(k: nat) | End(k: nat)

  ghost predicate SpaceEnabled(s: Space, e: SpaceEvent, b: nat) {
    match e
    case Begin => s.n + (|s.used| + 1) * MAXOPBLOCKS <= LOGSIZE
    case Add(k) => k < |s.used| && s.used[k] < b
    case Absorb(k) => k < |s.used| && s.n > 0
    case End(k) => k < |s.used|
  }

  ghost function SpaceStep(s: Space, e: SpaceEvent, b: nat): (r: Space)
    requires SpaceEnabled(s, e, b)
  {
    match e
    case Begin => s.(used := s.used + [0])
    case Add(k) => Space(s.n + 1, s.used[k := s.used[k] + 1])
    case Absorb(_) => s
    case End(k) =>
      var rest := s.used[..k] + s.used[k + 1..];
      Space(if rest == [] then 0 else s.n, rest)
  }

  lemma SpaceStepInv(s: Space, e: SpaceEvent, b: nat)
    requires b <= MAXOPBLOCKS && SpaceInv(s, b) && SpaceEnabled(s, e, b)
    ensures SpaceInv(SpaceStep(s, e, b), b)
  {
    var r := SpaceStep(s, e, b);
    match e
    case Begin =>
      RemainingConcat(s.used, [0], b);
      assert [0][1..] == [];
      RemainingBounds(s.used, b);
    case Add(k) =>
      RemainingSplit(s.used, k, b);
      RemainingSplit(r.used, k, b);
      assert r.used[..k] == s.used[..k] && r.used[k + 1..] == s.used[k + 1..];
    case Absorb(_) =>
    case End(k) =>
      RemainingSplit(s.used, k, b);
      RemainingConcat(s.used[..k], s.used[k + 1..], b);
      RemainingBounds(r.used, b);
  }

  /** An operation with blocks left finds the log not full. */
  lemma RoomFor(s: Space, k: nat, b: nat)
    requires b <= MAXOPBLOCKS && SpaceInv(s, b) && SpaceEnabled(s, Add(k), b)
    ensures s.n < Most(b) <= LOGSIZE && SpaceInv(SpaceStep(s, Add(k), b), b)
  {
    SpaceStepInv(s, Add(k), b);
    RemainingBounds(SpaceStep(s, Add(k), b).used, b);
  }

  ghost predicate IsSpaceRun(s: Space, es: seq<SpaceEvent>, b: nat)
    decreases |es|
  {
    es != [] ==> SpaceEnabled(s, es[0], b) && IsSpaceRun(SpaceStep(s, es[0], b), es[1..], b)
  }

  ghost function SpaceRun(s: Space, es: seq<SpaceEvent>, b: nat): (r: Space)
    requires IsSpaceRun(s, es, b)
    decreases |es|
  {
    if es == [] then s else SpaceRun(SpaceStep(s, es[0], b), es[1..], b)
  }

  /** The log without an operation in progress. */
  ghost const Idle: Space := Space(0, [])

  /** Over every interleaving of operations the log never overflows. */
  lemma {:induction false} NeverOverflows(s: Space, es: seq<SpaceEvent>, b: nat)
    requires b <= MAXOPBLOCKS && SpaceInv(s, b) && IsSpaceRun(s, es, b)
    ensures SpaceInv(SpaceRun(s, es, b), b) && SpaceRun(s, es, b).n <= Most(b) <= LOGSIZE
    decreases |es|
  {
    if es == [] {
      RemainingBounds(s.used, b);
    } else {
      SpaceStepInv(s, es[0], b);
      NeverOverflows(SpaceStep(s, es[0], b), es[1..], b);
    }
  }

  // ---- How full it gets ----

  lemma {:induction false} RunConcat(s: Space, x: seq<SpaceEvent>, e: SpaceEvent, b: nat)
    requires IsSpaceRun(s, x, b) && SpaceEnabled(SpaceRun(s, x, b), e, b)
    ensures IsSpaceRun(s, x + [e], b) && SpaceRun(s, x + [e], b) == SpaceStep(SpaceRun(s, x, b), e, b)
    decreases |x|
  {
    if x == [] {
      assert x + [e] == [e] && [e][1..] == [];
    } else {
      assert (x + [e])[1..] == x[1..] + [e];
      RunConcat(SpaceStep(s, x[0], b), x[1..], e, b);
    }
  }

  /** A run from the idle log that gets to `s`. */
  ghost predicate Gets(es: seq<SpaceEvent>, b: nat, s: Space) {
    IsSpaceRun(Idle, es, b) && SpaceRun(Idle, es, b) == s
  }

  lemma GetsNext(es: seq<SpaceEvent>, b: nat, s: Space, e: SpaceEvent) returns (fs: seq<SpaceEvent>)
    requires Gets(es, b, s) && SpaceEnabled(s, e, b)
    ensures Gets(fs, b, SpaceStep(s, e, b))
  {
    RunConcat(Idle, es, e, b);
    fs := es + [e];
  }

  /** One operation waits while others log `m` blocks, one each. */
  lemma {:induction false} Filled(m: nat, b: nat) returns (es: seq<SpaceEvent>)
    requires 1 <= b && m <= MAXOPBLOCKS
    ensures Gets(es, b, Space(m, [0]))
  {
    if m == 0 {
      es := GetsNext([], b, Idle, Begin);
      assert Idle.used + [0] == [0];
    } else {
      es := Filled(m - 1, b);
      es := GetsNext(es, b, Space(m - 1, [0]), Begin);
      assert [0] + [0] == [0, 0];
      es := GetsNext(es, b, Space(m - 1, [0, 0]), Add(1));
      assert [0, 0][1 := 1] == [0, 1];
      es := GetsNext(es, b, Space(m, [0, 1]), End(1));
      assert [0, 1][..1] + [0, 1][2..] == [0];
    }
  }

  /** Then it and one more log up to `b` blocks each. */
  lemma {:induction false} FilledTwo(i: nat, j: nat, b: nat) returns (es: seq<SpaceEvent>)
    requires 1 <= b && i <= b && j <= b && (j > 0 ==> i == b)
    ensures Gets(es, b, Space(MAXOPBLOCKS + i + j, [i, j]))
    decreases i + j
  {
    if i == 0 {
      es := Filled(MAXOPBLOCKS, b);
      es := GetsNext(es, b, Space(MAXOPBLOCKS, [0]), Begin);
      assert [0] + [0] == [0, 0];
    } else if j == 0 {
      es := FilledTwo(i - 1, 0, b);
      es := GetsNext(es, b, Space(MAXOPBLOCKS + i - 1, [i - 1, 0]), Add(0));
      assert [i - 1, 0][0 := i] == [i, 0];
    } else {
      es := FilledTwo(i, j - 1, b);
      es := GetsNext(es, b, Space(MAXOPBLOCKS + i + j - 1, [i, j - 1]), Add(1));
      assert [i, j - 1][1 := j] == [i, j];
    }
  }

  /** The log comes to hold any number of blocks up to the most, and below the
      most some operation may still log one. */
  lemma Reach(m: nat, b: nat) returns (es: seq<SpaceEvent>, s: Space)
    requires 1 <= b && m <= Most(b)
    ensures Gets(es, b, s) && s.n == m && s.used != [] && UsedOk(s.used, b)
    ensures m < Most(b) ==> exists k :: SpaceEnabled(s, Add(k), b)
  {
    if m <= MAXOPBLOCKS {
      es := Filled(m, b);
      s := Space(m, [0]);
      assert SpaceEnabled(s, Add(0), b);
    } else if m <= MAXOPBLOCKS + b {
      es := FilledTwo(m - MAXOPBLOCKS, 0, b);
      s := Space(m, [m - MAXOPBLOCKS, 0]);
      assert SpaceEnabled(s, Add(1), b);
    } else {
      es := FilledTwo(b, m - MAXOPBLOCKS - b, b);
      s := Space(m, [b, m - MAXOPBLOCKS - b]);
      assert m < Most(b) ==> SpaceEnabled(s, Add(1), b);
    }
  }

  // ---- The panic of log_write ----

  /** log_write's "too big a transaction" panic on a log of `size` blocks. The
      test comes before the search for the block, so it also hits calls that
      would be absorbed. */
  ghost predicate TooBig(n: nat, size: nat) {
    n >= LOGSIZE || n >= size - 1
  }

  /** After `es` an operation may call log_write: `e` is that call. */
  ghost predicate Calls(es: seq<SpaceEvent>, e: SpaceEvent, b: nat) {
    (e.Add? || e.Absorb?) && IsSpaceRun(Idle, es, b) && SpaceEnabled(SpaceRun(Idle, es, b), e, b)
  }

  /** No call of log_write, absorbed or not, ever meets that panic. */
  ghost predicate PanicFree(size: nat, b: nat) {
    forall es, e :: Calls(es, e, b) ==> !TooBig(SpaceRun(Idle, es, b).n, size)
  }

  /** No call for a new block does. */
  ghost predicate NewPanicFree(size: nat, b: nat) {
    forall es, e :: Calls(es, e, b) && e.Add? ==> !TooBig(SpaceRun(Idle, es, b).n, size)
  }

  /** Operations of at most `b` new blocks each are safe from the panic exactly if
      there is at least one block of every reservation they never use, and the
      log holds two blocks more than they can fill: its header and one that is
      never written. */
  lemma PanicFreeIff(size: nat, b: nat)
    requires b <= MAXOPBLOCKS
    ensures PanicFree(size, b) <==> b == 0 || (b < MAXOPBLOCKS && size >= Most(b) + 2)
  {
    if b == 0 || (b < MAXOPBLOCKS && size >= Most(b) + 2) {
      forall es, e | Calls(es, e, b)
        ensures !TooBig(SpaceRun(Idle, es, b).n, size)
      {
        NeverOverflows(Idle, es, b);
      }
    } else {
      var es, s := Reach(Most(b), b);
      if TooBig(s.n, size) {
        assert Calls(es, Absorb(0), b);
      }
    }
  }

  /** Leaving absorbed calls aside, one block less will do, and reservations may
      be used up. */
  lemma NewPanicFreeIff(size: nat, b: nat)
    requires b <= MAXOPBLOCKS
    ensures NewPanicFree(size, b) <==> b == 0 || size >= Most(b) + 1
  {
    if b == 0 || size >= Most(b) + 1 {
      forall es, e | Calls(es, e, b) && e.Add?
        ensures !TooBig(SpaceRun(Idle, es, b).n, size)
      {
        NeverOverflows(Idle, es, b);
        RoomFor(SpaceRun(Idle, es, b), e.k, b);
      }
    } else {
      var es, s := Reach(if size == 0 then 0 else size - 1, b);
      var k :| SpaceEnabled(s, Add(k), b);
      assert Calls(es, Add(k), b) && TooBig(s.n, size);
    }
  }

  /** Operations that use all they reserve fill the log, and then even a call for
      a block already logged panics, whatever the size of the log. */
  lemma AbsorbedPanics() returns (es: seq<SpaceEvent>)
    ensures IsSpaceRun(Idle, es, MAXOPBLOCKS) && SpaceRun(Idle, es, MAXOPBLOCKS).n == LOGSIZE
    ensures Calls(es, Absorb(0), MAXOPBLOCKS) && forall size: nat :: TooBig(SpaceRun(Idle, es, MAXOPBLOCKS).n, size)
  {
    var s;
    es, s := Reach(LOGSIZE, MAXOPBLOCKS);
  }

  // ---- Room for a commit ----

  /** After `es` one operation is left, and its end will commit. */
  ghost predicate BeforeCommit(es: seq<SpaceEvent>, b: nat) {
    IsSpaceRun(Idle, es, b) && |SpaceRun(Idle, es, b).used| == 1
  }

  /** The most that can be logged can also be there when a commit starts. */
  lemma MostCommitted(b: nat) returns (es: seq<SpaceEvent>)
    requires b > 0
    ensures BeforeCommit(es, b) && SpaceRun(Idle, es, b).n == Most(b)
  {
    es := FilledTwo(b, b, b);
    es := GetsNext(es, b, Space(Most(b), [b, b]), End(1));
    assert [b, b][..1] + [b, b][2..] == [b];
  }
}
