/** Several processes write to files, and the transactions of their chunks share commits, as in group commit:
    cut a commit anywhere and recover, and the volume is sound and every file holds its chunks up to the same
    commit. This joins fs.c, file.c and log.c for many writers.
 */
module GroupCrash {
  import opened Common
  import opened BlockOwners
  import opened DiskBlocks
  import opened InodeSlots
  import opened DiskState
  import opened FileBlocks
  import opened FileBytes
  import opened FileData
  import opened FileWrite
  import opened RedoLog
  import opened FileCrash

  /** One chunk of a write to a file, and the blocks that it logged. */
  datatype Tx = Tx(file: nat, off: nat, piece: seq<Byte>, log: set<nat>)

  /** The transaction turns volume `s` into `t`. */
  ghost predicate TxStep(g: Geometry, s: Shot, t: Shot, x: Tx) {
    && SoundShot(g, s) && SoundShot(g, t) && x.file < |s.inodes| == |t.inodes|
    && x.off <= |ShotContents(s, x.file)|
    && ShotContents(t, x.file) == Splice(ShotContents(s, x.file), x.off, x.piece)
    && OthersKept(s.inodes, s.slots, s.data, t.inodes, t.slots, t.data, x.file)
    && Covers(g, s, t, x.log) && |x.log| <= MAXOPBLOCKS
  }

  ghost predicate TxRun(g: Geometry, shots: seq<Shot>, txs: seq<Tx>) {
    && |shots| == |txs| + 1 && SoundShot(g, shots[0]) && Laid(g, |shots[0].bitmap|, |shots[0].inodes|)
    && forall j: nat | j < |txs| :: TxStep(g, shots[j], shots[j + 1], txs[j])
  }

  // ---------------------------------------------------------------- what files hold

  /** What file `i` holds after the first `k` transactions, if it held `c`. */
  ghost function Applied(c: seq<Byte>, txs: seq<Tx>, i: nat, k: nat): seq<Byte>
    requires k <= |txs|
  {
    if k == 0 then c
    else
      var p, x := Applied(c, txs, i, k - 1), txs[k - 1];
      if x.file == i && x.off <= |p| then Splice(p, x.off, x.piece) else p
  }

  lemma {:induction false} AppliedContents(g: Geometry, shots: seq<Shot>, txs: seq<Tx>, i: nat, k: nat)
    requires TxRun(g, shots, txs) && k <= |txs| && i < |shots[0].inodes|
    ensures SoundShot(g, shots[k]) && |shots[k].inodes| == |shots[0].inodes|
    ensures ShotContents(shots[k], i) == Applied(ShotContents(shots[0], i), txs, i, k)
  {
    hide SoundShot, Covers, OthersKept, Splice, Bytes, Laid;
    if k > 0 {
      AppliedContents(g, shots, txs, i, k - 1);
      assert TxStep(g, shots[k - 1], shots[k], txs[k - 1]);
      OtherKept(shots[k - 1], shots[k], txs[k - 1], i);
    }
  }

  lemma OtherKept(s: Shot, t: Shot, x: Tx, i: nat)
    requires OthersKept(s.inodes, s.slots, s.data, t.inodes, t.slots, t.data, x.file)
    requires i < |s.inodes| == |t.inodes|
    ensures i != x.file ==> ShotContents(t, i) == ShotContents(s, i)
  {
    hide Bytes;
  }

  // ---------------------------------------------------------------- transactions that share a commit

  /** The blocks that transactions `lo` to `hi` logged. */
  ghost function LogOf(txs: seq<Tx>, lo: nat, hi: nat): set<nat>
    requires lo <= hi <= |txs|
    decreases hi - lo
  {
    if lo == hi then {} else LogOf(txs, lo, hi - 1) + txs[hi - 1].log
  }

  lemma {:induction false} LogBound(g: Geometry, shots: seq<Shot>, txs: seq<Tx>, lo: nat, hi: nat)
    requires TxRun(g, shots, txs) && lo <= hi <= |txs|
    ensures |LogOf(txs, lo, hi)| <= MAXOPBLOCKS * (hi - lo)
    decreases hi - lo
  {
    hide TxRun;
    if lo < hi {
      LogBound(g, shots, txs, lo, hi - 1);
      OneStep(g, shots, txs, hi - 1);
      CardSum(LogOf(txs, lo, hi - 1), txs[hi - 1].log);
    }
  }

  lemma OneStep(g: Geometry, shots: seq<Shot>, txs: seq<Tx>, j: nat)
    requires TxRun(g, shots, txs) && j < |txs|
    ensures |shots| == |txs| + 1 && TxStep(g, shots[j], shots[j + 1], txs[j])
  {
  }

  /** What two transactions in a row change is logged by one of them. */
  lemma CoversJoin(g: Geometry, s: Shot, t: Shot, u: Shot, a: set<nat>, b: set<nat>)
    requires Covers(g, s, t, a) && Covers(g, t, u, b)
    ensures Covers(g, s, u, a + b)
  {
  }

  lemma {:induction false} GroupCovers(g: Geometry, shots: seq<Shot>, txs: seq<Tx>, lo: nat, hi: nat)
    requires TxRun(g, shots, txs) && lo <= hi <= |txs|
    ensures Covers(g, shots[lo], shots[hi], LogOf(txs, lo, hi))
    decreases hi - lo
  {
    hide Covers, SoundShot;
    if lo == hi {
      StillLaid(g, shots, txs, lo);
      CoveredStart(g, shots[lo]);
      assert Covers(g, shots[lo], shots[lo], {}) by {
        CoversNothing(g, shots[lo]);
      }
    } else {
      GroupCovers(g, shots, txs, lo, hi - 1);
      assert TxStep(g, shots[hi - 1], shots[hi], txs[hi - 1]);
      CoversJoin(g, shots[lo], shots[hi - 1], shots[hi], LogOf(txs, lo, hi - 1), txs[hi - 1].log);
    }
  }

  lemma CoversNothing(g: Geometry, s: Shot)
    requires Laid(g, |s.bitmap|, |s.inodes|)
    ensures Covers(g, s, s, {})
  {
  }

  lemma {:induction false} StillLaid(g: Geometry, shots: seq<Shot>, txs: seq<Tx>, k: nat)
    requires TxRun(g, shots, txs) && k <= |txs|
    ensures Laid(g, |shots[k].bitmap|, |shots[k].inodes|)
  {
    if k > 0 {
      StillLaid(g, shots, txs, k - 1);
      assert TxStep(g, shots[k - 1], shots[k], txs[k - 1]);
    }
  }

  // ---------------------------------------------------------------- commits and crashes

  /** Commit `m` takes the transactions from `ends[m]` to `ends[m + 1]`, of which there may be any number: while
      one operation is open others may begin and end. `lists` is what the headers of the commits list. */
  ghost predicate Grouped(txs: seq<Tx>, ends: seq<nat>, lists: seq<seq<nat>>, slots: nat) {
    && |ends| == |lists| + 1 && ends[0] == 0
    && forall m: nat | m < |lists| :: GroupAt(txs, ends[m], ends[m + 1], lists[m], slots)
  }

  /** The blocks of a group fit the header and the log, as they do in every state that the log reaches
      (GroupCommit.ReachableInv). */
  ghost predicate GroupAt(txs: seq<Tx>, lo: nat, hi: nat, list: seq<nat>, slots: nat) {
    lo <= hi <= |txs| && Lists(list, LogOf(txs, lo, hi)) && |list| <= LOGSIZE && |list| <= slots
  }

  /** As many transactions as may be open at once fit, whatever blocks they log. */
  lemma FewFit(g: Geometry, shots: seq<Shot>, txs: seq<Tx>, lo: nat, hi: nat, list: seq<nat>, slots: nat)
    requires TxRun(g, shots, txs) && lo <= hi <= |txs| && Lists(list, LogOf(txs, lo, hi))
    requires (hi - lo) * MAXOPBLOCKS <= LOGSIZE && (hi - lo) * MAXOPBLOCKS <= slots
    ensures GroupAt(txs, lo, hi, list, slots)
  {
    LogBound(g, shots, txs, lo, hi);
  }

  /** A group fits the log, and committing it brings the disk from the volume before it to the one after it. */
  lemma GroupReady(g: Geometry, shots: seq<Shot>, txs: seq<Tx>, lo: nat, hi: nat, list: seq<nat>, d: Disk<Content>)
    requires TxRun(g, shots, txs) && GroupAt(txs, lo, hi, list, |d.log|) && Ready(g, shots[lo], d)
    ensures Loggable(d, list, Image(g, shots[hi])) && Updated(d.home, list, Image(g, shots[hi])) == Image(g, shots[hi])
    ensures var trace := CommitTrace(d, list, Image(g, shots[hi])); var r := CutAt(d, trace, |trace|);
            Ready(g, shots[hi], r) && |r.log| == |d.log|
  {
    hide Covers, Image, CommitTrace, LogOf;
    GroupCovers(g, shots, txs, lo, hi);
    ShotSize(g, shots, txs, lo);
    CommitReady(g, shots[lo], shots[hi], LogOf(txs, lo, hi), list, d);
  }

  lemma ShotSize(g: Geometry, shots: seq<Shot>, txs: seq<Tx>, k: nat)
    requires TxRun(g, shots, txs) && k <= |txs|
    ensures |shots[k].data| == g.size && SoundShot(g, shots[k])
  {
    if k > 0 {
      assert TxStep(g, shots[k - 1], shots[k], txs[k - 1]);
    }
  }

  /** The disk after the first `m` commits. */
  ghost function AfterCommits(g: Geometry, shots: seq<Shot>, txs: seq<Tx>, ends: seq<nat>, lists: seq<seq<nat>>,
                              d: Disk<Content>, m: nat): (r: Disk<Content>)
    requires TxRun(g, shots, txs) && Grouped(txs, ends, lists, |d.log|) && Ready(g, shots[0], d) && m <= |lists|
    ensures ends[m] <= |txs| && Ready(g, shots[ends[m]], r) && |r.log| == |d.log|
  {
    if m == 0 then d
    else
      var p := AfterCommits(g, shots, txs, ends, lists, d, m - 1);
      assert GroupAt(txs, ends[m - 1], ends[m], lists[m - 1], |d.log|);
      GroupReady(g, shots, txs, ends[m - 1], ends[m], lists[m - 1], p);
      var trace := CommitTrace(p, lists[m - 1], Image(g, shots[ends[m]]));
      CutAt(p, trace, |trace|)
  }

  /** Stop any commit after any number of its block writes, and stop recovery any number of times: the disk ends
      as that of the volume before or after the whole group, which is sound, and in which every file holds
      what the transactions up to there have written. */
  lemma ManyWritersCrash(g: Geometry, shots: seq<Shot>, txs: seq<Tx>, ends: seq<nat>, lists: seq<seq<nat>>,
                         d: Disk<Content>, m: nat, cut: nat, cuts: seq<nat>)
    requires TxRun(g, shots, txs) && Grouped(txs, ends, lists, |d.log|) && Ready(g, shots[0], d) && m < |lists|
    requires cut <= if lists[m] == [] then 0 else 2 * |lists[m]| + 2
    ensures var p := AfterCommits(g, shots, txs, ends, lists, d, m);
            && ends[m + 1] <= |txs| && Loggable(p, lists[m], Image(g, shots[ends[m + 1]]))
            && var q := CutAt(p, CommitTrace(p, lists[m], Image(g, shots[ends[m + 1]])), cut);
               var k := if cut <= |lists[m]| then ends[m] else ends[m + 1];
               && k <= |txs| && DiskOk(q)
               && DiskOk(Boot(q, cuts)) && Boot(q, cuts).head.n == 0 && Boot(q, cuts).home == Image(g, shots[k])
               && SoundShot(g, shots[k]) && |shots[k].inodes| == |shots[0].inodes|
               && forall i: nat | i < |shots[0].inodes| ::
                    ShotContents(shots[k], i) == Applied(ShotContents(shots[0], i), txs, i, k)
  {
    hide Image, CommitTrace, Covers, Applied, SoundShot, TxStep;
    var p := AfterCommits(g, shots, txs, ends, lists, d, m);
    var hi := ends[m + 1];
    assert GroupAt(txs, ends[m], hi, lists[m], |d.log|);
    GroupReady(g, shots, txs, ends[m], hi, lists[m], p);
    var k := if cut <= |lists[m]| then ends[m] else hi;
    CrashAtomicity(p, lists[m], Image(g, shots[hi]), cut, cuts);
    ShotSize(g, shots, txs, k);
    AllContents(g, shots, txs, k);
  }

  lemma AllContents(g: Geometry, shots: seq<Shot>, txs: seq<Tx>, k: nat)
    requires TxRun(g, shots, txs) && k <= |txs|
    ensures |shots[k].inodes| == |shots[0].inodes|
    ensures forall i: nat | i < |shots[0].inodes| ::
              ShotContents(shots[k], i) == Applied(ShotContents(shots[0], i), txs, i, k)
  {
    SameCount(g, shots, txs, k);
    forall i: nat | i < |shots[0].inodes|
      ensures ShotContents(shots[k], i) == Applied(ShotContents(shots[0], i), txs, i, k)
    {
      AppliedContents(g, shots, txs, i, k);
    }
  }

  lemma {:induction false} SameCount(g: Geometry, shots: seq<Shot>, txs: seq<Tx>, k: nat)
    requires TxRun(g, shots, txs) && k <= |txs|
    ensures |shots[k].inodes| == |shots[0].inodes|
  {
    if k > 0 {
      SameCount(g, shots, txs, k - 1);
      assert TxStep(g, shots[k - 1], shots[k], txs[k - 1]);
    }
  }

  // ---------------------------------------------------------------- the transactions of many writers

  /** A chunk that some process writes. */
  datatype Request = Request(file: nat, off: nat, piece: seq<Byte>)

  lemma TxMore(g: Geometry, shots: seq<Shot>, txs: seq<Tx>, t: Shot, x: Tx)
    requires TxRun(g, shots, txs) && TxStep(g, shots[|txs|], t, x)
    ensures TxRun(g, shots + [t], txs + [x]) && (shots + [t])[0] == shots[0]
  {
    hide TxStep;
    var shots', txs' := shots + [t], txs + [x];
    forall j: nat | j < |txs'| ensures TxStep(g, shots'[j], shots'[j + 1], txs'[j]) {
      assert j < |txs| ==> shots'[j] == shots[j] && shots'[j + 1] == shots[j + 1];
    }
  }

  /** The size of a file after a chunk that is not refused. */
  function Grown(sizes: seq<nat>, q: Request): seq<nat>
    requires q.file < |sizes|
  {
    sizes[q.file := Max(sizes[q.file], q.off + |q.piece|)]
  }

  /** A chunk is refused behind the end of its file, and beyond the largest size of a file. */
  predicate Accepts(sizes: seq<nat>, q: Request)
    requires q.file < |sizes|
  {
    q.off <= sizes[q.file] && q.off + |q.piece| <= MAXFILE * BSIZE
  }

  /** The requests are for the first `n` files. */
  predicate ForFiles(reqs: seq<Request>, n: nat) {
    forall j | 0 <= j < |reqs| :: reqs[j].file < n
  }

  /** The requests that are not refused, in order, when files have these sizes. */
  function Accepted(sizes: seq<nat>, reqs: seq<Request>): seq<Request>
    requires ForFiles(reqs, |sizes|)
    decreases |reqs|
  {
    if reqs == [] then []
    else if Accepts(sizes, reqs[0]) then [reqs[0]] + Accepted(Grown(sizes, reqs[0]), reqs[1..])
    else Accepted(sizes, reqs[1..])
  }

  /** The requests that transactions carry out. */
  function Requests(txs: seq<Tx>): (r: seq<Request>)
    ensures |r| == |txs|
  {
    seq(|txs|, j requires 0 <= j < |txs| => Request(txs[j].file, txs[j].off, txs[j].piece))
  }

  ghost function Sizes(s: Shot): (r: seq<nat>)
    ensures |r| == |s.inodes|
  {
    seq(|s.inodes|, i requires 0 <= i < |s.inodes| => s.inodes[i].size)
  }

  /** Chunks of any writes to any files, one after the other: they are such transactions, one for each chunk
      that is not refused, until one of them finds the disk full. Chunks that are refused change nothing. */
  method RunChunks(v: Volume, reqs: seq<Request>) returns (ok: bool, ghost shots: seq<Shot>, ghost txs: seq<Tx>)
    requires Sound(v) && ForFiles(reqs, |v.inodes|)
    requires forall q | q in reqs :: q.off < UINT && |q.piece| <= CHUNK
    modifies v
    ensures TxRun(v.g, shots, txs) && shots[0] == old(v.Now()) && |txs| <= |reqs|
    ensures ok ==> Sound(v) && |v.inodes| == |old(v.inodes)| && shots[|txs|] == v.Now()
    ensures var all := Accepted(Sizes(old(v.Now())), reqs);
            if ok then Requests(txs) == all else |txs| < |all| && Requests(txs) == all[..|txs|]
  {
    hide TxStep, Owns, Reflects, OthersKept, Covered, FileOk, Accepted, Sizes, Requests, Accepts, Grown;
    shots, txs, ok := [v.Now()], [], true;
    NoTx(v);
    RequestsNone();
    assert reqs[0..] == reqs;
    ghost var sizes, all := Sizes(v.Now()), Accepted(Sizes(v.Now()), reqs);
    for n := 0 to |reqs|
      invariant Sound(v) && |v.inodes| == |old(v.inodes)| && |txs| <= n && ok
      invariant sizes == Sizes(v.Now()) && |sizes| == |v.inodes| && ForFiles(reqs[n..], |sizes|)
      invariant all == Requests(txs) + Accepted(sizes, reqs[n..])
      invariant TxRun(v.g, shots, txs) && shots[0] == old(v.Now()) && shots[|txs|] == v.Now()
    {
      var r;
      ghost var x;
      AcceptedNext(sizes, reqs, n);
      r, x := OneChunk(v, reqs[n]);
      if r == -2 {
        ok := false;
        return;
      }
      if r >= 0 {
        RequestsMore(txs, x);
        sizes := Sizes(v.Now());
        TxMore(v.g, shots, txs, v.Now(), x);
        shots, txs := shots + [v.Now()], txs + [x];
      }
    }
    AcceptedNone(sizes, reqs[|reqs|..]);
  }

  lemma RequestsNone()
    ensures Requests([]) == []
  {
  }

  lemma AcceptedNone(sizes: seq<nat>, reqs: seq<Request>)
    requires reqs == []
    ensures Accepted(sizes, reqs) == []
  {
  }

  lemma AcceptedNext(sizes: seq<nat>, reqs: seq<Request>, n: nat)
    requires n < |reqs| && ForFiles(reqs, |sizes|)
    ensures ForFiles(reqs[n..], |sizes|) && ForFiles(reqs[n + 1..], |sizes|)
    ensures Accepted(sizes, reqs[n..])
         == if Accepts(sizes, reqs[n]) then [reqs[n]] + Accepted(Grown(sizes, reqs[n]), reqs[n + 1..])
            else Accepted(sizes, reqs[n + 1..])
  {
    assert reqs[n..][1..] == reqs[n + 1..];
  }

  lemma RequestsMore(txs: seq<Tx>, x: Tx)
    ensures Requests(txs + [x]) == Requests(txs) + [Request(x.file, x.off, x.piece)]
  {
  }

  lemma SizesGrow(s: Shot, t: Shot, q: Request)
    requires q.file < |s.inodes| == |t.inodes| && q.off <= |ShotContents(s, q.file)|
    requires ShotContents(t, q.file) == Splice(ShotContents(s, q.file), q.off, q.piece)
    requires OthersKept(s.inodes, s.slots, s.data, t.inodes, t.slots, t.data, q.file)
    ensures Sizes(t) == Grown(Sizes(s), q)
  {
    hide Splice, Bytes;
  }

  lemma NoTx(v: Volume)
    requires Sound(v)
    ensures TxRun(v.g, [v.Now()], [])
  {
  }

  method OneChunk(v: Volume, q: Request) returns (r: int, ghost x: Tx)
    requires Sound(v) && q.file < |v.inodes| && q.off < UINT && |q.piece| <= CHUNK
    modifies v
    ensures r != -2 ==> r >= -1 && Sound(v) && |v.inodes| == |old(v.inodes)|
    ensures r == -1 ==> v.Now() == old(v.Now())
    ensures |Sizes(old(v.Now()))| == |old(v.inodes)| && (r == -1 <==> !Accepts(Sizes(old(v.Now())), q))
    ensures r == -2 <==> r != -1 && old(v.Free()) < SpaceCost(q.off, |q.piece|, old(v.inodes)[q.file].size)
    ensures r >= 0 ==> Sizes(v.Now()) == Grown(Sizes(old(v.Now())), q)
    ensures r >= 0 ==> x == Tx(q.file, q.off, q.piece, v.logged) && TxStep(v.g, old(v.Now()), v.Now(), x)
  {
    hide Owns, Reflects, OthersKept, Covered, FileOk, Bytes, Splice;
    ghost var before := v.Now();
    r := WriteChunk(v, q.file, q.piece, q.off);
    if r >= 0 {
      SizesGrow(before, v.Now(), q);
    }
    x := Tx(q.file, q.off, q.piece, v.logged);
  }
}
