/** What log_write, the beginning and the end of operations, and each block write of a commit keep, with the
    buffers and the disk as they are (log.c).
 */
module CommitSteps {
  import opened Common
  import opened DiskBlocks
  import opened RedoLog
  import opened Buffers
  import opened LogRegion

  // ---------------------------------------------------------------- operations

  /** log_write: a buffer that an operation has changed becomes dirty, and its block is listed. */
  lemma LogStep(g: Region, bufs: seq<Buf>, disk: Store, logged: seq<nat>, m: Mode, i: nat, logged': seq<nat>)
    requires LogOk(g, bufs, disk, logged, m) && m.Open? && i < |bufs| && bufs[i].addr.dev == ROOTDEV
    requires bufs[i].valid && IsHome(g, disk, bufs[i].addr.block)
    requires |logged| < LOGSIZE && |logged| < g.slots
    requires logged' == if bufs[i].addr.block in logged then logged else logged + [bufs[i].addr.block]
    ensures LogOk(g, bufs[i := bufs[i].(dirty := true)], disk, logged', m)
  {
    var b := bufs[i].(dirty := true);
    var bufs' := bufs[i := b];
    forall c | c in logged' ensures HasDirty(bufs', c) {
      if c == b.addr.block {
        assert bufs'[i].dirty && bufs'[i].addr == At(c);
      } else {
        DirtyStays(bufs, i, b, c);
      }
    }
    forall j | 0 <= j < |bufs'| ensures BufferOk(bufs'[j], disk, Writers(m), logged') {
      assert BufferOk(bufs[j], disk, Writers(m), logged);
    }
  }

  /** The set of writers may shrink by a process whose buffers are settled. */
  lemma WritersStep(bufs: seq<Buf>, disk: Store, pending: seq<nat>, ws: set<nat>, ws': set<nat>)
    requires forall i | 0 <= i < |bufs| :: BufferOk(bufs[i], disk, ws, pending)
    requires forall i | 0 <= i < |bufs| && bufs[i].holder !in ws' :: bufs[i].holder in ws ==> Settled(bufs[i], disk)
    ensures forall i | 0 <= i < |bufs| :: BufferOk(bufs[i], disk, ws', pending)
  {
    forall i | 0 <= i < |bufs| ensures BufferOk(bufs[i], disk, ws', pending) {
      assert BufferOk(bufs[i], disk, ws, pending);
    }
  }

  lemma OpsStep(g: Region, bufs: seq<Buf>, disk: Store, logged: seq<nat>, ops: set<nat>, ops': set<nat>)
    requires LogOk(g, bufs, disk, logged, Open(ops)) && 0 !in ops'
    requires forall i | 0 <= i < |bufs| && bufs[i].holder in ops - ops' :: Settled(bufs[i], disk)
    ensures LogOk(g, bufs, disk, logged, Open(ops'))
  {
    WritersStep(bufs, disk, logged, ops, ops');
  }

  /** The contents of the logged blocks. */
  ghost function News(bufs: seq<Buf>, disk: Store, logged: seq<nat>): Home<Block>
    requires forall b | b in logged :: At(b) in disk
  {
    map b | b in logged :: Contents(bufs, disk, At(b))
  }

  /** The last operation ends with its buffers settled: its process commits. */
  lemma CommitBegins(g: Region, bufs: seq<Buf>, disk: Store, logged: seq<nat>, me: nat)
    requires LogOk(g, bufs, disk, logged, Open({me}))
    requires forall i | 0 <= i < |bufs| && bufs[i].holder == me :: Settled(bufs[i], disk)
    ensures LogOk(g, bufs, disk, logged, Committing(me, DiskOf(g, disk), News(bufs, disk, logged), []))
  {
    var d, news := DiskOf(g, disk), News(bufs, disk, logged);
    var m := Committing(me, d, news, []);
    assert logged[0..] == logged;
    forall b | b in logged ensures b in d.home && b in news {
      HomeAt(g, disk, b);
    }
  }

  /** The end of a commit: nothing is dirty, and operations may begin again. */
  lemma CommitEnds(g: Region, bufs: seq<Buf>, disk: Store, logged: seq<nat>, m: Mode)
    requires LogOk(g, bufs, disk, logged, m) && m.Committing?
    requires |m.trace| == |CommitTrace(m.base, logged, m.news)|
    requires forall i | 0 <= i < |bufs| :: bufs[i].holder != m.owner
    ensures LogOk(g, bufs, disk, [], Open({}))
  {
    hide CommitTrace, DiskOk, DiskOf, Updated, NewsOk, HasDirty;
    CommitLeaves(m.base, logged, m.news);
    assert Pending(m, logged) == [];
    forall i | 0 <= i < |bufs| ensures BufferOk(bufs[i], disk, {}, []) {
      assert BufferOk(bufs[i], disk, {m.owner}, []);
    }
  }

  // ---------------------------------------------------------------- one write of a commit

  /** The next disk of a commit. */
  ghost function Next(logged: seq<nat>, m: Mode): Disk<Block>
    requires m.Committing? && Loggable(m.base, logged, m.news)
    requires |m.trace| < |CommitTrace(m.base, logged, m.news)|
  {
    CommitTrace(m.base, logged, m.news)[|m.trace|]
  }

  lemma TraceStep(d: Disk<Block>, logged: seq<nat>, m: Mode)
    requires m.Committing? && CommitOk(d, logged, m) && |m.trace| < |CommitTrace(m.base, logged, m.news)|
    ensures var d' := Next(logged, m); DiskOk(d') && CommitOk(d', logged, m.(trace := m.trace + [d']))
  {
    hide CommitTrace, DiskOk, Loggable;
    var t := CommitTrace(m.base, logged, m.news);
    assert t[..|m.trace| + 1] == t[..|m.trace|] + [t[|m.trace|]];
    CommitCut(m.base, logged, m.news, |m.trace| + 1);
  }

  /** The write of a buffer that brings the disk to the next one of the commit. */
  lemma WriteStep(g: Region, bufs: seq<Buf>, disk: Store, logged: seq<nat>, m: Mode, i: nat, bufs': seq<Buf>,
                  disk': Store)
    requires LogOk(g, bufs, disk, logged, m) && m.Committing? && Unique(bufs)
    requires |m.trace| < |CommitTrace(m.base, logged, m.news)|
    requires i < |bufs| && bufs[i].valid && bufs[i].addr.dev == ROOTDEV && bufs[i].addr in disk
    requires bufs' == bufs[i := bufs[i].(dirty := false)] && disk' == disk[bufs[i].addr := bufs[i].data]
    requires StoreOk(g, disk') && DiskOf(g, disk') == Next(logged, m)
    requires forall c | c in logged && At(c) in disk :: Contents(bufs', disk', At(c)) == Contents(bufs, disk, At(c))
    requires var m' := m.(trace := m.trace + [DiskOf(g, disk')]);
             if bufs[i].dirty
             then Pending(m, logged) != [] && bufs[i].addr.block == Pending(m, logged)[0]
                  && Pending(m', logged) == Pending(m, logged)[1..]
             else Pending(m', logged) == Pending(m, logged)
    ensures LogOk(g, bufs', disk', logged, m.(trace := m.trace + [DiskOf(g, disk')]))
  {
    var m' := m.(trace := m.trace + [DiskOf(g, disk')]);
    TraceStep(DiskOf(g, disk), logged, m);
    hide CommitTrace, CommitOk, DiskOf, Next, DiskOk, Loggable;
    var p, p' := Pending(m, logged), Pending(m', logged);
    forall j | 0 <= j < |bufs'| ensures BufferOk(bufs'[j], disk', Writers(m'), p') {
      WrittenBuffer(bufs, disk, Writers(m), p, i, p', j);
    }
    forall c | c in p' ensures HasDirty(bufs', c) {
      PendingStays(bufs, i, p, p', c, logged, m);
    }
    forall c | c in logged ensures NewsOk(bufs', disk', m.news, c) {
      assert NewsOk(bufs, disk, m.news, c);
    }
  }

  lemma WrittenBuffer(bufs: seq<Buf>, disk: Store, ws: set<nat>, p: seq<nat>, i: nat, p': seq<nat>, j: nat)
    requires Unique(bufs) && i < |bufs| && j < |bufs| && bufs[i].addr.dev == ROOTDEV
    requires BufferOk(bufs[i], disk, ws, p) && BufferOk(bufs[j], disk, ws, p)
    requires if bufs[i].dirty then p != [] && bufs[i].addr.block == p[0] && p' == p[1..] else p' == p
    ensures BufferOk(bufs[i := bufs[i].(dirty := false)][j], disk[bufs[i].addr := bufs[i].data], ws, p')
  {
    if j != i {
      assert bufs[if i < j then i else j].addr.dev != 0 ==> bufs[i].addr != bufs[j].addr;
      if bufs[j].dirty && bufs[i].dirty {
        var k :| 0 <= k < |p| && p[k] == bufs[j].addr.block;
        assert bufs[j].addr == Addr(ROOTDEV, bufs[j].addr.block);
        assert p[k] != p[0];
        assert p'[k - 1] == p[k];
      }
    }
  }

  lemma PendingStays(bufs: seq<Buf>, i: nat, p: seq<nat>, p': seq<nat>, c: nat, logged: seq<nat>, m: Mode)
    requires i < |bufs| && Distinct(logged) && p == Pending(m, logged) && c in p'
    requires forall b | b in p :: HasDirty(bufs, b)
    requires if bufs[i].dirty then p != [] && bufs[i].addr.block == p[0] && p' == p[1..] else p' == p
    ensures HasDirty(bufs[i := bufs[i].(dirty := false)], c)
  {
    assert HasDirty(bufs, c);
    if bufs[i].dirty {
      var k :| 0 <= k < |p'| && p'[k] == c;
      assert p[k + 1] == c && p[0] != p[k + 1];
    }
    DirtyStays(bufs, i, bufs[i].(dirty := false), c);
  }

  // ---------------------------------------------------------------- which write is the next

  lemma NextLogged(logged: seq<nat>, m: Mode, d: Disk<Block>)
    requires m.Committing? && CommitOk(d, logged, m) && |m.trace| < |logged|
    ensures var t := |m.trace|; |d.log| == |m.base.log| && Next(logged, m) == d.(log := d.log[t := m.news[logged[t]]])
  {
    var t := |m.trace|;
    CommitTraceAt(m.base, logged, m.news, t);
    CommitTraceAt(m.base, logged, m.news, t + 1);
    LoggedNext(m.base, logged, m.news, t);
  }

  lemma NextHead(logged: seq<nat>, m: Mode, d: Disk<Block>)
    requires m.Committing? && CommitOk(d, logged, m) && |m.trace| == |logged| > 0
    ensures |d.head.block| == LOGSIZE && Next(logged, m) == d.(head := WithHead(d.head, logged))
  {
    CommitTraceAt(m.base, logged, m.news, |logged|);
  }

  lemma NextInstall(logged: seq<nat>, m: Mode, d: Disk<Block>)
    requires m.Committing? && CommitOk(d, logged, m) && |logged| < |m.trace| <= 2 * |logged|
    ensures var k := |m.trace| - |logged| - 1;
            && k < |d.log| && d.log[k] == m.news[logged[k]]
            && Next(logged, m) == d.(home := d.home[logged[k] := m.news[logged[k]]])
  {
    var k, s := |m.trace| - |logged| - 1, Sealed(m.base, logged, m.news);
    CommitTraceAt(m.base, logged, m.news, |m.trace|);
    CommitTraceAt(m.base, logged, m.news, |m.trace| + 1);
    assert d == Installed(s, k);
    assert s.head.block[..k + 1][..k] == s.head.block[..k];
    assert s.head.block[k] == logged[k];
  }

  lemma NextErase(logged: seq<nat>, m: Mode, d: Disk<Block>)
    requires m.Committing? && CommitOk(d, logged, m) && |m.trace| == 2 * |logged| + 1 && logged != []
    ensures |d.head.block| == LOGSIZE && Next(logged, m) == d.(head := WithHead(d.head, []))
  {
    CommitTraceAt(m.base, logged, m.news, |m.trace|);
    CommitTraceAt(m.base, logged, m.news, |m.trace| + 1);
  }
}
