/** The on-disk protocol of the redo log: which block writes a commit and a
    recovery issue, in which order, and what a crash between any two of them
    leaves behind. The disk is a sequence of blocks and one block write is
    atomic; nothing survives a crash except the disk. */
module LogProtocol {

  const BSIZE: nat := 1024
  const MAXOPBLOCKS: nat := 10
  const LOGSIZE: nat := MAXOPBLOCKS * 3
  /** 32-bit words in a block; the log header is laid out over them. */
  const WORDS: nat := BSIZE / 4

  datatype Block = Block(words: seq<int>)
  type Disk = seq<Block>

  /** One block write as the device sees it. */
  datatype Write = Write(block: nat, data: Block)

  /** Where the log lives: the header at `start`, then `size - 1` data blocks. */
  datatype Layout = Layout(start: nat, size: nat) {
    ghost predicate Fits(d: Disk) {
      2 <= size && start + size <= |d| && |d[start].words| == WORDS
    }
    ghost predicate InLog(b: nat) {
      start <= b < start + size
    }
  }

  // ---- Block writes ----

  /** One block write; a write outside the device has no effect. */
  ghost function Put(d: Disk, w: Write): (r: Disk)
    ensures |r| == |d|
  {
    if w.block < |d| then d[w.block := w.data] else d
  }

  ghost function Apply(d: Disk, ws: seq<Write>): (r: Disk)
    ensures |r| == |d|
    decreases |ws|
  {
    if ws == [] then d else Put(Apply(d, ws[..|ws| - 1]), ws[|ws| - 1])
  }

  lemma ApplyNone(d: Disk, ws: seq<Write>)
    ensures Apply(d, ws[..0]) == d
  {
    assert ws[..0] == [];
  }

  lemma ApplyOne(d: Disk, w: Write)
    ensures Apply(d, [w]) == Put(d, w)
  {
    assert [w][..0] == [];
  }

  lemma ApplyNext(d: Disk, ws: seq<Write>, j: nat)
    requires j < |ws|
    ensures Apply(d, ws[..j + 1]) == Put(Apply(d, ws[..j]), ws[j])
  {
    assert ws[..j + 1][..j] == ws[..j];
  }

  lemma {:induction false} ApplyConcat(d: Disk, a: seq<Write>, b: seq<Write>)
    ensures Apply(d, a + b) == Apply(Apply(d, a), b)
    decreases |b|
  {
    if b == [] {
      assert a + b == a;
    } else {
      var last := |b| - 1;
      assert (a + b)[..|a + b| - 1] == a + b[..last];
      ApplyConcat(d, a, b[..last]);
    }
  }

  ghost predicate Touches(ws: seq<Write>, b: nat) {
    exists i :: 0 <= i < |ws| && ws[i].block == b
  }

  /** A block no write names keeps its contents. */
  lemma {:induction false} ApplyUntouched(d: Disk, ws: seq<Write>, b: nat)
    requires b < |d| && !Touches(ws, b)
    ensures Apply(d, ws)[b] == d[b]
    decreases |ws|
  {
    if ws != [] {
      ApplyUntouched(d, ws[..|ws| - 1], b);
    }
  }

  /** A block some write names ends up with contents that do not depend on the
      starting disk. */
  lemma {:induction false} ApplyTouched(d: Disk, e: Disk, ws: seq<Write>, b: nat)
    requires |d| == |e| && b < |d| && Touches(ws, b)
    ensures Apply(d, ws)[b] == Apply(e, ws)[b]
    decreases |ws|
  {
    var last := |ws| - 1;
    if ws[last].block != b {
      var i :| 0 <= i < |ws| && ws[i].block == b;
      assert ws[..last][i] == ws[i];
      ApplyTouched(d, e, ws[..last], b);
    }
  }

  /** Installing again over any prefix of the same install changes nothing. */
  lemma Reinstall(d: Disk, ws: seq<Write>, j: nat)
    requires j <= |ws|
    ensures Apply(Apply(d, ws[..j]), ws) == Apply(d, ws)
  {
    var e := Apply(d, ws[..j]);
    forall b: nat | b < |d|
      ensures Apply(e, ws)[b] == Apply(d, ws)[b]
    {
      if Touches(ws, b) {
        ApplyTouched(e, d, ws, b);
      } else {
        ApplyUntouched(d, ws[..j], b);
        ApplyUntouched(e, ws, b);
        ApplyUntouched(d, ws, b);
      }
    }
  }

  // ---- The header block ----

  /** What write_head leaves in a block that held `was`: the count, the block
      numbers, and whatever words followed them before. */
  function HeaderBlock(was: Block, lh: seq<nat>): (r: Block)
    requires |lh| <= LOGSIZE && |was.words| == WORDS
    ensures |r.words| == WORDS
  {
    Block([|lh|] + lh + was.words[|lh| + 1..])
  }

  ghost predicate HeaderOk(b: Block) {
    && |b.words| == WORDS && 0 <= b.words[0] <= LOGSIZE
    && forall i :: 1 <= i <= b.words[0] ==> 0 <= b.words[i]
  }

  /** What read_head loads from a header block. */
  function ReadHeader(b: Block): (lh: seq<nat>)
    requires HeaderOk(b)
  {
    b.words[1..b.words[0] + 1]
  }

  lemma HeaderRoundTrip(was: Block, lh: seq<nat>)
    requires |lh| <= LOGSIZE && |was.words| == WORDS
    ensures HeaderOk(HeaderBlock(was, lh))
    ensures ReadHeader(HeaderBlock(was, lh)) == lh
  {
    var h := HeaderBlock(was, lh);
    assert forall i :: 1 <= i <= |lh| ==> h.words[i] == lh[i - 1];
  }

  // ---- Commit and recovery as write sequences ----

  /** A transaction: the home blocks it changes and their new contents. */
  datatype Txn = Txn(lh: seq<nat>, data: seq<Block>)

  ghost predicate TxnOk(t: Txn, lay: Layout, n: nat) {
    && |t.lh| == |t.data|
    && |t.lh| <= LOGSIZE
    && |t.lh| <= lay.size - 1
    && forall i :: 0 <= i < |t.lh| ==> t.lh[i] < n && !lay.InLog(t.lh[i])
  }

  ghost function LogWrites(lay: Layout, data: seq<Block>): (ws: seq<Write>)
    ensures |ws| == |data|
    ensures forall i :: 0 <= i < |ws| ==> ws[i] == Write(lay.start + 1 + i, data[i])
  {
    seq(|data|, i requires 0 <= i < |data| => Write(lay.start + 1 + i, data[i]))
  }

  ghost function InstallWrites(t: Txn): (ws: seq<Write>)
    requires |t.lh| == |t.data|
    ensures |ws| == |t.lh|
    ensures forall i :: 0 <= i < |ws| ==> ws[i] == Write(t.lh[i], t.data[i])
  {
    seq(|t.lh|, i requires 0 <= i < |t.lh| => Write(t.lh[i], t.data[i]))
  }

  /** commit(): log data, header, install, cleared header. An empty
      transaction writes nothing. */
  ghost function CommitWrites(d: Disk, lay: Layout, t: Txn): (ws: seq<Write>)
    requires lay.Fits(d) && TxnOk(t, lay, |d|)
  {
    if t.lh == [] then []
    else
      var h := HeaderBlock(d[lay.start], t.lh);
      LogWrites(lay, t.data) + [Write(lay.start, h)]
        + InstallWrites(t) + [Write(lay.start, HeaderBlock(h, []))]
  }

  /** The transaction the on-disk log holds; empty when the header is clear. */
  ghost function LoggedTxn(d: Disk, lay: Layout): (t: Txn)
    requires lay.Fits(d) && HeaderOk(d[lay.start]) && d[lay.start].words[0] <= lay.size - 1
  {
    var lh := ReadHeader(d[lay.start]);
    Txn(lh, seq(|lh|, i requires 0 <= i < |lh| => d[lay.start + 1 + i]))
  }

  /** The log region of `d` can be recovered from. */
  ghost predicate LogOk(d: Disk, lay: Layout) {
    && lay.Fits(d)
    && HeaderOk(d[lay.start])
    && d[lay.start].words[0] <= lay.size - 1
    && TxnOk(LoggedTxn(d, lay), lay, |d|)
  }

  /** recover_from_log(): install what the header names, then clear it. */
  ghost function RecoverWrites(d: Disk, lay: Layout): (ws: seq<Write>)
    requires LogOk(d, lay)
  {
    InstallWrites(LoggedTxn(d, lay)) + [Write(lay.start, HeaderBlock(d[lay.start], []))]
  }

  // ---- Home blocks ----

  /** The two disks agree on every block outside the log. */
  ghost predicate SameHome(d: Disk, e: Disk, lay: Layout) {
    |d| == |e| && forall b: nat :: b < |d| && !lay.InLog(b) ==> d[b] == e[b]
  }

  /** `d` recovered to the end: what a reader sees after a clean boot. */
  ghost function Recovered(d: Disk, lay: Layout): (r: Disk)
    requires LogOk(d, lay)
    ensures |r| == |d|
  {
    Apply(d, RecoverWrites(d, lay))
  }

  ghost function Installed(d: Disk, lay: Layout, t: Txn): (r: Disk)
    requires TxnOk(t, lay, |d|)
    ensures |r| == |d|
  {
    Apply(d, InstallWrites(t))
  }

  /** Installing respects agreement on home blocks. */
  lemma InstallHome(d: Disk, e: Disk, lay: Layout, t: Txn)
    requires SameHome(d, e, lay) && TxnOk(t, lay, |d|)
    ensures SameHome(Installed(d, lay, t), Installed(e, lay, t), lay)
  {
    var ws := InstallWrites(t);
    forall b: nat | b < |d| && !lay.InLog(b)
      ensures Apply(d, ws)[b] == Apply(e, ws)[b]
    {
      if Touches(ws, b) {
        ApplyTouched(d, e, ws, b);
      } else {
        ApplyUntouched(d, ws, b);
        ApplyUntouched(e, ws, b);
      }
    }
  }

  /** Recovery amounts to installing the logged transaction, on home blocks,
      and leaves a clear header. */
  lemma RecoverIsInstall(d: Disk, lay: Layout)
    requires LogOk(d, lay)
    ensures SameHome(Recovered(d, lay), Installed(d, lay, LoggedTxn(d, lay)), lay)
    ensures LogOk(Recovered(d, lay), lay) && LoggedTxn(Recovered(d, lay), lay) == Txn([], [])
  {
    var t := LoggedTxn(d, lay);
    var w := Write(lay.start, HeaderBlock(d[lay.start], []));
    ApplyConcat(d, InstallWrites(t), [w]);
    assert Apply(Installed(d, lay, t), [w]) == Put(Installed(d, lay, t), w) by {
      assert [w][..0] == [];
    }
    HeaderRoundTrip(d[lay.start], []);
  }

  // ---- One commit, stopped anywhere ----

  ghost function CommitPrefix(d: Disk, lay: Layout, t: Txn, k: nat): (r: Disk)
    requires lay.Fits(d) && TxnOk(t, lay, |d|) && k <= |CommitWrites(d, lay, t)|
    ensures |r| == |d|
  {
    Apply(d, CommitWrites(d, lay, t)[..k])
  }

  /** How many of the commit's writes precede the header write that commits. */
  ghost predicate ReachedHeader(t: Txn, k: nat) {
    k > |t.lh|
  }

  /** While only log data blocks have been written, nothing is committed. */
  lemma BeforeHeader(d: Disk, lay: Layout, t: Txn, k: nat)
    requires LogOk(d, lay) && LoggedTxn(d, lay) == Txn([], [])
    requires TxnOk(t, lay, |d|) && k <= |t.lh| && t.lh != []
    ensures var e := CommitPrefix(d, lay, t, k);
            LogOk(e, lay) && LoggedTxn(e, lay) == Txn([], []) && SameHome(e, d, lay)
  {
    var ws := CommitWrites(d, lay, t)[..k];
    assert ws == LogWrites(lay, t.data)[..k];
    var e := Apply(d, ws);
    forall b: nat | b < |d| && (b == lay.start || !lay.InLog(b))
      ensures e[b] == d[b]
    {
      ApplyUntouched(d, ws, b);
    }
    assert ReadHeader(e[lay.start]) == [];
  }

  /** Writing the data blocks puts them, in order, behind the header. */
  lemma {:induction false} LogWritten(d: Disk, lay: Layout, data: seq<Block>, m: nat)
    requires lay.Fits(d) && |data| <= lay.size - 1 && m <= |data|
    ensures forall i :: 0 <= i < m ==>
              Apply(d, LogWrites(lay, data)[..m])[lay.start + 1 + i] == data[i]
  {
    if m > 0 {
      LogWritten(d, lay, data, m - 1);
      assert LogWrites(lay, data)[..m][..m - 1] == LogWrites(lay, data)[..m - 1];
    }
  }

  /** The disk as the header write leaves it. */
  ghost function AtHeader(d: Disk, lay: Layout, t: Txn): (r: Disk)
    requires lay.Fits(d) && TxnOk(t, lay, |d|)
    ensures |r| == |d|
  {
    Apply(d, LogWrites(lay, t.data) + [Write(lay.start, HeaderBlock(d[lay.start], t.lh))])
  }

  lemma HeaderCommits(d: Disk, lay: Layout, t: Txn)
    requires lay.Fits(d) && TxnOk(t, lay, |d|)
    ensures var e := AtHeader(d, lay, t);
            LogOk(e, lay) && LoggedTxn(e, lay) == t && SameHome(e, d, lay)
  {
    var lw := LogWrites(lay, t.data);
    var w := Write(lay.start, HeaderBlock(d[lay.start], t.lh));
    var e := AtHeader(d, lay, t);
    assert (lw + [w])[..|lw|] == lw;
    assert e == Put(Apply(d, lw), w);
    assert lw[..|t.data|] == lw;
    LogWritten(d, lay, t.data, |t.data|);
    HeaderRoundTrip(d[lay.start], t.lh);
    forall b: nat | b < |d| && !lay.InLog(b)
      ensures e[b] == d[b]
    {
      ApplyUntouched(d, lw, b);
    }
    assert LoggedTxn(e, lay).data == t.data;
  }

  /** Installs touch home blocks only, so the log keeps the transaction. */
  lemma InstallKeepsLog(d: Disk, lay: Layout, t: Txn, j: nat)
    requires LogOk(d, lay) && LoggedTxn(d, lay) == t && j <= |t.lh|
    ensures var e := Apply(d, InstallWrites(t)[..j]);
            LogOk(e, lay) && LoggedTxn(e, lay) == t && e[lay.start] == d[lay.start]
  {
    var ws := InstallWrites(t)[..j];
    var e := Apply(d, ws);
    forall b: nat | b < |d| && lay.InLog(b)
      ensures e[b] == d[b]
    {
      ApplyUntouched(d, ws, b);
    }
    assert LoggedTxn(e, lay).data == t.data;
  }

  /** After the header write the commit is an install over that disk. */
  lemma PrefixAfterHeader(d: Disk, lay: Layout, t: Txn, j: nat)
    requires lay.Fits(d) && TxnOk(t, lay, |d|) && t.lh != [] && j <= |t.lh|
    ensures CommitPrefix(d, lay, t, |t.lh| + 1 + j) == Apply(AtHeader(d, lay, t), InstallWrites(t)[..j])
  {
    var head := LogWrites(lay, t.data) + [Write(lay.start, HeaderBlock(d[lay.start], t.lh))];
    assert CommitWrites(d, lay, t)[..|t.lh| + 1 + j] == head + InstallWrites(t)[..j];
    ApplyConcat(d, head, InstallWrites(t)[..j]);
  }

  /** A partial install of the logged transaction is completed by recovery. */
  lemma RecoverPartial(a: Disk, lay: Layout, t: Txn, j: nat)
    requires LogOk(a, lay) && LoggedTxn(a, lay) == t && j <= |t.lh|
    ensures var e := Apply(a, InstallWrites(t)[..j]);
            LogOk(e, lay) && SameHome(Recovered(e, lay), Installed(a, lay, t), lay)
  {
    InstallKeepsLog(a, lay, t, j);
    RecoverIsInstall(Apply(a, InstallWrites(t)[..j]), lay);
    Reinstall(a, InstallWrites(t), j);
  }

  /** Stopped during the install, recovery finishes the transaction. */
  lemma DuringInstall(d: Disk, lay: Layout, t: Txn, j: nat)
    requires lay.Fits(d) && TxnOk(t, lay, |d|) && t.lh != [] && j <= |t.lh|
    ensures var e := CommitPrefix(d, lay, t, |t.lh| + 1 + j);
            LogOk(e, lay) && SameHome(Recovered(e, lay), Installed(d, lay, t), lay)
  {
    PrefixAfterHeader(d, lay, t, j);
    HeaderCommits(d, lay, t);
    RecoverPartial(AtHeader(d, lay, t), lay, t, j);
    InstallHome(AtHeader(d, lay, t), d, lay, t);
  }

  /** Clearing the header empties the log and leaves the home blocks alone. */
  lemma ClearHeader(d: Disk, lay: Layout, was: Block)
    requires lay.Fits(d) && |was.words| == WORDS
    ensures var e := Apply(d, [Write(lay.start, HeaderBlock(was, []))]);
            LogOk(e, lay) && LoggedTxn(e, lay) == Txn([], []) && SameHome(e, d, lay)
  {
    var w := Write(lay.start, HeaderBlock(was, []));
    assert [w][..0] == [];
    HeaderRoundTrip(was, []);
  }

  /** Run to the end, a commit has installed its transaction and cleared the
      log. */
  lemma CommitCompletes(d: Disk, lay: Layout, t: Txn)
    requires LogOk(d, lay) && LoggedTxn(d, lay) == Txn([], []) && TxnOk(t, lay, |d|)
    ensures var e := Apply(d, CommitWrites(d, lay, t));
            LogOk(e, lay) && LoggedTxn(e, lay) == Txn([], []) && SameHome(e, Installed(d, lay, t), lay)
  {
    if t.lh != [] {
      var h := HeaderBlock(d[lay.start], t.lh);
      var ws := CommitWrites(d, lay, t);
      var n := |t.lh|;
      var w := Write(lay.start, HeaderBlock(h, []));
      assert ws == ws[..2 * n + 1] + [w];
      ApplyConcat(d, ws[..2 * n + 1], [w]);
      PrefixAfterHeader(d, lay, t, n);
      assert InstallWrites(t)[..n] == InstallWrites(t);
      HeaderCommits(d, lay, t);
      InstallKeepsLog(AtHeader(d, lay, t), lay, t, n);
      InstallHome(AtHeader(d, lay, t), d, lay, t);
      ClearHeader(Installed(AtHeader(d, lay, t), lay, t), lay, h);
    }
  }

  /** All or nothing: stopped after any number of its writes, a commit is
      recovered whole if its header write reached the disk and not at all if
      it did not. */
  lemma CommitAtomic(d: Disk, lay: Layout, t: Txn, k: nat)
    requires LogOk(d, lay) && LoggedTxn(d, lay) == Txn([], [])
    requires TxnOk(t, lay, |d|) && k <= |CommitWrites(d, lay, t)|
    ensures var e := CommitPrefix(d, lay, t, k);
            LogOk(e, lay)
            && SameHome(Recovered(e, lay), if ReachedHeader(t, k) then Installed(d, lay, t) else d, lay)
  {
    if t.lh == [] {
      assert CommitWrites(d, lay, t)[..k] == [];
      RecoverIsInstall(d, lay);
    } else if k <= |t.lh| {
      BeforeHeader(d, lay, t, k);
      RecoverIsInstall(CommitPrefix(d, lay, t, k), lay);
    } else if k < |CommitWrites(d, lay, t)| {
      DuringInstall(d, lay, t, k - |t.lh| - 1);
    } else {
      assert CommitWrites(d, lay, t)[..k] == CommitWrites(d, lay, t);
      CommitCompletes(d, lay, t);
      RecoverIsInstall(CommitPrefix(d, lay, t, k), lay);
    }
  }

  // ---- One recovery, stopped anywhere ----

  ghost function RecoverPrefix(d: Disk, lay: Layout, j: nat): (r: Disk)
    requires LogOk(d, lay) && j <= |RecoverWrites(d, lay)|
    ensures |r| == |d|
  {
    Apply(d, RecoverWrites(d, lay)[..j])
  }

  /** Recovery may be stopped and restarted: it still leads to the same home
      blocks. */
  lemma RecoverRestartable(d: Disk, lay: Layout, j: nat)
    requires LogOk(d, lay) && j <= |RecoverWrites(d, lay)|
    ensures var e := RecoverPrefix(d, lay, j);
            LogOk(e, lay) && SameHome(Recovered(e, lay), Recovered(d, lay), lay)
  {
    var t := LoggedTxn(d, lay);
    var ws := RecoverWrites(d, lay);
    RecoverIsInstall(d, lay);
    if j <= |t.lh| {
      assert ws[..j] == InstallWrites(t)[..j];
      InstallKeepsLog(d, lay, t, j);
      RecoverIsInstall(RecoverPrefix(d, lay, j), lay);
      Reinstall(d, InstallWrites(t), j);
    } else {
      assert ws[..j] == ws;
      RecoverIsInstall(Recovered(d, lay), lay);
    }
  }

  // ---- Whole runs ----

  /** What the machine does between two looks at the disk. `Commit` runs to the
      end; `CommitCrash` loses power after `k` of the commit's block writes;
      `RecoverCrash` loses power after `j` of a recovery's block writes. */
  datatype Event =
    | Commit(t: Txn)
    | CommitCrash(t: Txn, k: nat)
    | Recover
    | RecoverCrash(j: nat)

  /** `up` is false from a crash until a recovery has completed. */
  datatype Machine = Machine(disk: Disk, up: bool)

  ghost predicate Enabled(m: Machine, lay: Layout, e: Event)
    requires LogOk(m.disk, lay)
  {
    match e
    case Commit(t) => m.up && TxnOk(t, lay, |m.disk|)
    case CommitCrash(t, k) => m.up && TxnOk(t, lay, |m.disk|) && k <= |CommitWrites(m.disk, lay, t)|
    case Recover => !m.up
    case RecoverCrash(j) => !m.up && j <= |RecoverWrites(m.disk, lay)|
  }

  ghost function Step(m: Machine, lay: Layout, e: Event): (r: Machine)
    requires LogOk(m.disk, lay) && Enabled(m, lay, e)
    ensures |r.disk| == |m.disk|
  {
    match e
    case Commit(t) => Machine(Apply(m.disk, CommitWrites(m.disk, lay, t)), true)
    case CommitCrash(t, k) => Machine(CommitPrefix(m.disk, lay, t, k), false)
    case Recover => Machine(Recovered(m.disk, lay), true)
    case RecoverCrash(j) => Machine(RecoverPrefix(m.disk, lay, j), false)
  }

  /** A run is a sequence of events each enabled where it happens. */
  ghost predicate IsRun(m: Machine, lay: Layout, es: seq<Event>)
    decreases |es|
  {
    && LogOk(m.disk, lay)
    && (es != [] ==> Enabled(m, lay, es[0]) && IsRun(Step(m, lay, es[0]), lay, es[1..]))
  }

  ghost function Run(m: Machine, lay: Layout, es: seq<Event>): (r: Machine)
    requires IsRun(m, lay, es)
    ensures |r.disk| == |m.disk| && LogOk(r.disk, lay)
    decreases |es|
  {
    if es == [] then m else Run(Step(m, lay, es[0]), lay, es[1..])
  }

  /** The transaction an event makes durable, if any. */
  ghost function Made(e: Event): (ts: seq<Txn>) {
    match e
    case Commit(t) => [t]
    case CommitCrash(t, k) => if ReachedHeader(t, k) then [t] else []
    case Recover => []
    case RecoverCrash(_) => []
  }

  /** The transactions of a run whose header write reached the disk. */
  ghost function Durable(es: seq<Event>): (ts: seq<Txn>)
    decreases |es|
  {
    if es == [] then [] else Made(es[0]) + Durable(es[1..])
  }

  ghost function InstalledAll(d: Disk, lay: Layout, ts: seq<Txn>): (r: Disk)
    requires forall i :: 0 <= i < |ts| ==> TxnOk(ts[i], lay, |d|)
    ensures |r| == |d|
    decreases |ts|
  {
    if ts == [] then d else InstalledAll(Installed(d, lay, ts[0]), lay, ts[1..])
  }

  /** What the disk stands for: itself while up, its recovery while down. */
  ghost function Meaning(m: Machine, lay: Layout): (d: Disk)
    requires LogOk(m.disk, lay)
    ensures |d| == |m.disk|
  {
    if m.up then m.disk else Recovered(m.disk, lay)
  }

  /** Between events the log is recoverable, and empty while the machine is up. */
  ghost predicate Inv(m: Machine, lay: Layout) {
    LogOk(m.disk, lay) && (m.up ==> LoggedTxn(m.disk, lay) == Txn([], []))
  }

  /** Each event keeps the invariant and moves the meaning by exactly the
      transaction it made durable, if any. */
  lemma StepRefines(m: Machine, lay: Layout, e: Event)
    requires Inv(m, lay) && Enabled(m, lay, e)
    ensures Inv(Step(m, lay, e), lay)
    ensures forall i :: 0 <= i < |Made(e)| ==> TxnOk(Made(e)[i], lay, |m.disk|)
    ensures SameHome(Meaning(Step(m, lay, e), lay),
                     InstalledAll(Meaning(m, lay), lay, Made(e)), lay)
  {
    match e
    case Commit(t) =>
      CommitCompletes(m.disk, lay, t);
    case CommitCrash(t, k) =>
      CommitAtomic(m.disk, lay, t, k);
    case Recover =>
      RecoverIsInstall(m.disk, lay);
    case RecoverCrash(j) =>
      RecoverRestartable(m.disk, lay, j);
  }

  lemma {:induction false} InstalledAllHome(d: Disk, e: Disk, lay: Layout, ts: seq<Txn>)
    requires SameHome(d, e, lay)
    requires forall i :: 0 <= i < |ts| ==> TxnOk(ts[i], lay, |d|)
    ensures SameHome(InstalledAll(d, lay, ts), InstalledAll(e, lay, ts), lay)
    decreases |ts|
  {
    if ts != [] {
      InstallHome(d, e, lay, ts[0]);
      InstalledAllHome(Installed(d, lay, ts[0]), Installed(e, lay, ts[0]), lay, ts[1..]);
    }
  }

  lemma {:induction false} InstalledAllConcat(d: Disk, lay: Layout, a: seq<Txn>, b: seq<Txn>)
    requires forall i :: 0 <= i < |a| ==> TxnOk(a[i], lay, |d|)
    requires forall i :: 0 <= i < |b| ==> TxnOk(b[i], lay, |d|)
    ensures InstalledAll(d, lay, a + b) == InstalledAll(InstalledAll(d, lay, a), lay, b)
    decreases |a|
  {
    if a == [] {
      assert a + b == b;
    } else {
      assert (a + b)[1..] == a[1..] + b;
      InstalledAllConcat(Installed(d, lay, a[0]), lay, a[1..], b);
    }
  }

  /** Crash atomicity. For every run, with power lost between any two block
      writes of any commit and any recovery, however often, the home blocks
      stand for exactly the transactions whose header write reached the disk,
      applied whole and in order. */
  lemma {:induction false} CrashAtomicity(m: Machine, lay: Layout, es: seq<Event>)
    requires Inv(m, lay) && IsRun(m, lay, es)
    ensures Inv(Run(m, lay, es), lay)
    ensures forall i :: 0 <= i < |Durable(es)| ==> TxnOk(Durable(es)[i], lay, |m.disk|)
    ensures SameHome(Meaning(Run(m, lay, es), lay),
                     InstalledAll(Meaning(m, lay), lay, Durable(es)), lay)
    decreases |es|
  {
    if es != [] {
      var e := es[0];
      var m1 := Step(m, lay, e);
      StepRefines(m, lay, e);
      CrashAtomicity(m1, lay, es[1..]);
      var a, b := Made(e), Durable(es[1..]);
      var mid := InstalledAll(Meaning(m, lay), lay, a);
      InstalledAllHome(Meaning(m1, lay), mid, lay, b);
      InstalledAllConcat(Meaning(m, lay), lay, a, b);
    }
  }
}
