/** Whole runs of operations and a commit on the buffer cache (log.c, bio.c): blocks are read, changed, logged
    and released, and the last operation to end commits them.
 */
module CommitRuns {
  import opened Common
  import opened DiskBlocks
  import opened RedoLog
  import opened Buffers
  import opened BufferCache
  import opened LogRegion
  import opened CachedLog

  /** What a call of bread gives when nobody else has a buffer and not all are dirty. */
  lemma FreeOne(log: Log, a: Addr)
    requires log.Valid() && log.mode.Open? && Quiet(log.Bufs()) && |log.logged| < NBUF
    ensures HasBuffer(log.Bufs(), a)
  {
    hide LogOk, Cache.Valid;
    log.BuffersNow();
    var bufs := log.Bufs();
    var i :| 0 <= i < |bufs| && !bufs[i].dirty;
    assert !InUse(bufs[i]);
  }

  /** Block `b` contains `w`. */
  ghost predicate Holds(bufs: seq<Buf>, disk: Store, b: nat, w: Block) {
    At(b) in disk && Contents(bufs, disk, At(b)) == w
  }

  /** An operation reads block `b`, makes it `w`, logs it and releases it. */
  method LogOne(log: Log, b: nat, me: nat, w: Block)
    requires log.Valid() && Quiet(log.Bufs()) && log.mode.Open? && me in log.mode.ops && me != 0
    requires IsHome(log.g, log.cache.disk, b) && b !in log.logged
    requires |log.logged| < LOGSIZE && |log.logged| < NBUF && |log.logged| < log.g.slots
    modifies log`logged, log.cache.buf, log.cache.next, log.cache.prev, log.cache`ring
    ensures log.Valid() && Quiet(log.Bufs()) && log.logged == old(log.logged) + [b]
    ensures Holds(log.Bufs(), log.cache.disk, b, w)
    ensures forall c: nat, x: Block | c != b && Holds(old(log.Bufs()), log.cache.disk, c, x) ::
              Holds(log.Bufs(), log.cache.disk, c, x)
  {
    hide LogOk, Contents, Cache.Valid, HasBuffer;
    FreeOne(log, At(b));
    var r := log.Bread(At(b), me);
    var i := r.buf;
    log.Modify(i, me, w);
    var ok := log.LogWrite(i, me);
    ok := log.Release(i, me);
    log.Unref(i);
  }

  /** A disk with an empty log of `slots` blocks and 30 home blocks behind it. */
  function FreshStore(slots: nat): Store {
    var all := Blocks(slots + 1 + NBUF);
    map a | a in all :: Zero()
  }

  function Blocks(n: nat): set<Addr> {
    set k: nat | k < n :: At(k)
  }

  lemma FreshAt(slots: nat, k: nat)
    ensures At(k) in FreshStore(slots) <==> k < slots + 1 + NBUF
    ensures At(k) in FreshStore(slots) ==> FreshStore(slots)[At(k)] == Zero()
  {
  }

  lemma FreshOk(slots: nat)
    requires slots + 1 + NBUF <= UINT
    ensures var g, d := Region(0, slots), FreshStore(slots);
            && StoreOk(g, d) && DiskOk(DiskOf(g, d)) && DiskOf(g, d).head.n == 0
            && forall b: nat | slots < b <= slots + NBUF :: IsHome(g, d, b)
  {
    var g, d := Region(0, slots), FreshStore(slots);
    forall b: nat | InLog(g, b) ensures At(b) in d {
      FreshAt(slots, b);
    }
    forall b: nat | slots < b <= slots + NBUF ensures IsHome(g, d, b) {
      FreshAt(slots, b);
    }
    FreshHead(slots);
  }

  lemma ZeroHead()
    ensures HeadOf(Zero()).n == 0 && |HeadOf(Zero()).block| == LOGSIZE
  {
    assert Word(Zero(), 0) == 0;
  }

  lemma FreshHead(slots: nat)
    requires StoreOk(Region(0, slots), FreshStore(slots))
    ensures var d := DiskOf(Region(0, slots), FreshStore(slots)); DiskOk(d) && d.head.n == 0
  {
    hide FreshStore, HomeOf, LogOf, HeadOf, Zero;
    FreshAt(slots, 0);
    ZeroHead();
  }

  /** The log of a fresh disk with three open operations. */
  method OpenThree(slots: nat) returns (log: Log)
    requires slots + 1 + NBUF <= UINT
    ensures fresh(log) && fresh(log.cache) && fresh(log.cache.buf) && fresh(log.cache.next) && fresh(log.cache.prev)
    ensures log.Valid() && Quiet(log.Bufs()) && log.g == Region(0, slots) && log.cache.disk == FreshStore(slots)
    ensures log.mode == Open({1, 2, 3}) && log.logged == []
  {
    hide LogOk, Contents, FreshStore, DiskOf, Quiet;
    FreshOk(slots);
    log := new Log(FreshStore(slots), Region(0, slots));
    var a := log.BeginOp(1);
    a := log.BeginOp(2);
    a := log.BeginOp(3);
    assert {} + {1} + {2} + {3} == {1, 2, 3};
  }

  /** The first `n` blocks behind the log are logged, in order. */
  predicate UpTo(logged: seq<nat>, slots: nat, n: nat) {
    |logged| == n && forall i | 0 <= i < n :: logged[i] == slots + 1 + i
  }

  lemma UpToMembers(logged: seq<nat>, slots: nat, n: nat, b: nat)
    requires UpTo(logged, slots, n)
    ensures b in logged <==> slots < b <= slots + n
  {
    if slots < b <= slots + n {
      assert logged[b - slots - 1] == b;
    }
  }

  /** Three operations on a fresh disk log `n` blocks, at most ten each, and end; nobody else has a buffer. The
      commit panics exactly if `n` is NBUF, which needs a log of that many slots, and then it has written
      nothing. Otherwise every block is on the disk. */
  method CommitBlocks(slots: nat, n: nat, w: Block) returns (log: Log, ok: bool)
    requires n <= NBUF && n <= slots && slots + 1 + NBUF <= UINT
    ensures fresh(log) && log.Valid() && (ok <==> n < NBUF)
    ensures ok ==> forall b: nat | slots < b <= slots + n :: At(b) in log.cache.disk && log.cache.disk[At(b)] == w
    ensures !ok ==> log.cache.disk == FreshStore(slots)
  {
    hide LogOk, Contents, Cache.Valid, FreshStore, DiskOf, Quiet, CommitTrace, Clear;
    FreshOk(slots);
    log := OpenThree(slots);
    for k := 0 to n
      invariant log.Valid() && Quiet(log.Bufs()) && log.mode == Open({1, 2, 3}) && log.cache.disk == FreshStore(slots)
      invariant UpTo(log.logged, slots, k)
      invariant forall b: nat | slots < b <= slots + k :: Holds(log.Bufs(), log.cache.disk, b, w)
    {
      LogNext(log, slots, k, 1 + k / MAXOPBLOCKS, w);
    }
    EndThree(log);
    QuietClear(log.g, log.Bufs(), log.logged, 3);
    ghost var bufs, logged := log.Bufs(), log.logged;
    ghost var trace;
    ok, trace := log.Commit(3);
    forall b: nat | ok && slots < b <= slots + n ensures At(b) in log.cache.disk && log.cache.disk[At(b)] == w {
      UpToMembers(logged, slots, n, b);
      assert IsHome(Region(0, slots), FreshStore(slots), b) && Holds(bufs, FreshStore(slots), b, w);
    }
  }

  method LogNext(log: Log, slots: nat, k: nat, me: nat, w: Block)
    requires log.Valid() && Quiet(log.Bufs()) && log.mode == Open({1, 2, 3}) && 1 <= me <= 3 && log.g.slots == slots
    requires slots > k && k < NBUF && UpTo(log.logged, slots, k)
    requires forall b: nat | slots < b <= slots + NBUF :: IsHome(log.g, log.cache.disk, b)
    requires forall b: nat | slots < b <= slots + k :: Holds(log.Bufs(), log.cache.disk, b, w)
    modifies log`logged, log.cache.buf, log.cache.next, log.cache.prev, log.cache`ring
    ensures log.Valid() && Quiet(log.Bufs()) && UpTo(log.logged, slots, k + 1)
    ensures forall b: nat | slots < b <= slots + k + 1 :: Holds(log.Bufs(), log.cache.disk, b, w)
  {
    hide LogOk, Holds, Cache.Valid, Quiet;
    UpToMembers(log.logged, slots, k, slots + 1 + k);
    LogOne(log, slots + 1 + k, me, w);
  }

  /** The three operations end, and the last begins the commit. */
  method EndThree(log: Log)
    requires log.Valid() && Quiet(log.Bufs()) && log.mode == Open({1, 2, 3})
    modifies log`outstanding, log`committing, log`mode
    ensures log.Valid() && log.mode.Committing? && log.mode.owner == 3 && log.mode.trace == []
  {
    hide LogOk, Contents;
    NoHolders(log);
    var last := log.EndOp(1);
    last := log.EndOp(2);
    last := log.EndOp(3);
    assert {1, 2, 3} - {1} - {2} == {3};
  }

  lemma NoHolders(log: Log)
    requires log.Valid() && Quiet(log.Bufs())
    ensures forall i | 0 <= i < NBUF :: log.cache.buf[i].holder == 0
  {
    forall i | 0 <= i < NBUF ensures log.cache.buf[i].holder == 0 {
      assert log.Bufs()[i].holder == 0;
    }
  }
}
