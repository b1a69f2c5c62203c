/** Recovery through the buffer cache (log.c, bio.c): when the machine boots, one process reads the header, copies
    the listed blocks from the log to their homes and erases the log, all by reads and writes of buffers.
 */
module CachedRecovery {
  import opened Common
  import opened DiskBlocks
  import opened RedoLog
  import opened Buffers
  import opened BufferCache
  import opened LogRegion
  import opened CachedLog

  const INIT: nat := 1   // the process

  /** `bufs` with the buffers in `held` locked. */
  ghost predicate Using(bufs: seq<Buf>, disk: Store, held: set<nat>) {
    |bufs| == NBUF && forall i: nat | i < NBUF :: UsingAt(bufs[i], disk, i in held)
  }

  ghost predicate UsingAt(b: Buf, disk: Store, held: bool) {
    if held then b.refcnt == 1 && b.holder == INIT && b.valid && !b.dirty else Resting(b, disk)
  }

  lemma IdleUsing(c: Cache)
    requires c.Valid()
    ensures Idle(c) <==> Using(c.buf[..], c.disk, {})
  {
    if Idle(c) {
      forall i: nat | i < NBUF ensures UsingAt(c.buf[..][i], c.disk, false) {
        assert Resting(c.buf[..][i], c.disk);
      }
    }
    if Using(c.buf[..], c.disk, {}) {
      forall i | 0 <= i < NBUF ensures Resting(c.buf[..][i], c.disk) {
        assert UsingAt(c.buf[..][i], c.disk, false);
      }
    }
  }

  /** With fewer than two buffers locked, bread of another block succeeds. */
  method Fetch(c: Cache, a: Addr, ghost held: set<nat>) returns (i: nat)
    requires c.Valid() && Using(c.buf[..], c.disk, held) && |held| <= 1 && a in c.disk && a.dev != 0
    requires forall j: nat | j < NBUF && j in held :: c.buf[..][j].addr != a
    modifies c.buf
    ensures c.Valid() && i < NBUF && i !in held && Using(c.buf[..], c.disk, held + {i})
    ensures c.buf[i].addr == a && c.buf[i].data == c.disk[a]
    ensures forall j: nat | j < NBUF && j in held :: c.buf[..][j] == old(c.buf[..])[j]
  {
    hide Contents, Unique;
    ghost var bufs := c.buf[..];
    SomeLeft(bufs, c.disk, held);
    var r := c.Bread(a, INIT);
    i := r.buf;
    assert UsingAt(bufs[i], c.disk, i in held);
    forall j: nat | j < NBUF ensures UsingAt(c.buf[..][j], c.disk, j in held + {i}) {
      assert UsingAt(bufs[j], c.disk, j in held);
    }
  }

  lemma SomeLeft(bufs: seq<Buf>, disk: Store, held: set<nat>)
    requires Using(bufs, disk, held) && |held| <= 1
    ensures exists j :: 0 <= j < |bufs| && !InUse(bufs[j])
  {
    var j: nat := if 0 in held then 1 else 0;
    if 0 in held && 1 in held {
      assert {0, 1} <= held;
      TwoIn(held);
    }
    assert UsingAt(bufs[j], disk, false);
  }

  lemma TwoIn(held: set<nat>)
    requires {0, 1} <= held
    ensures |held| >= 2
  {
    assert held == held - {0, 1} + {0, 1};
  }

  /** brelse of a buffer that is as on the disk. */
  method PutBack(c: Cache, i: nat, ghost held: set<nat>)
    requires c.Valid() && Using(c.buf[..], c.disk, held) && i in held && i < NBUF && Settled(c.buf[i], c.disk)
    modifies c.buf, c.next, c.prev, c`ring
    ensures c.Valid() && Using(c.buf[..], c.disk, held - {i})
    ensures forall j: nat | j < NBUF && j != i :: c.buf[..][j] == old(c.buf[..])[j]
  {
    hide Contents, Unique;
    ghost var bufs := c.buf[..];
    assert UsingAt(bufs[i], c.disk, true);
    var ok := c.Brelse(i, INIT);
    forall j: nat | j < NBUF ensures UsingAt(c.buf[..][j], c.disk, j in held - {i}) {
      assert UsingAt(bufs[j], c.disk, j in held);
    }
  }

  /** The copy into a buffer and bwrite. */
  method Put(c: Cache, i: nat, data: Block, ghost held: set<nat>)
    requires c.Valid() && Using(c.buf[..], c.disk, held) && i in held && i < NBUF && c.buf[i].addr in c.disk
    requires forall j: nat | j < NBUF && j in held :: Settled(c.buf[..][j], c.disk)
    modifies c.buf, c`disk
    ensures c.Valid() && Using(c.buf[..], c.disk, held) && c.disk == old(c.disk)[old(c.buf[i]).addr := data]
    ensures forall j: nat | j < NBUF && j in held :: Settled(c.buf[..][j], c.disk)
  {
    hide Contents;
    ghost var bufs, disk := c.buf[..], c.disk;
    assert UsingAt(bufs[i], disk, true);
    c.Modify(i, INIT, data);
    var ok := c.Bwrite(i, INIT);
    forall j: nat | j < NBUF
      ensures UsingAt(c.buf[..][j], c.disk, j in held) && (j in held ==> Settled(c.buf[..][j], c.disk))
    {
      assert UsingAt(bufs[j], disk, j in held);
      assert j == i || bufs[j].addr.dev == 0 || bufs[j].addr != bufs[i].addr;
    }
  }

  /** One turn of install_trans: block `from` is copied to block `to`. */
  method CopyBlock(c: Cache, from: Addr, to: Addr)
    requires Idle(c) && from in c.disk && to in c.disk && from.dev != 0 && to.dev != 0 && from != to
    modifies c, c.buf, c.next, c.prev
    ensures Idle(c) && c.disk == old(c.disk)[to := old(c.disk)[from]]
  {
    hide Idle, Cache.Valid, Using;
    IdleValid(c);
    IdleUsing(c);
    var i := Fetch(c, from, {});
    assert {} + {i} == {i};
    var j := Fetch(c, to, {i});
    assert {i} + {j} == {i, j};
    Put(c, j, c.buf[i].data, {i, j});
    PutBack(c, i, {i, j});
    assert {i, j} - {i} == {j} && {j} - {j} == {};
    PutBack(c, j, {j});
    IdleUsing(c);
  }

  lemma IdleValid(c: Cache)
    requires Idle(c)
    ensures c.Valid()
  {
  }

  /** read_head. */
  method ReadHead(c: Cache, g: Region) returns (head: Head)
    requires Idle(c) && At(g.start) in c.disk
    modifies c, c.buf, c.next, c.prev
    ensures Idle(c) && c.disk == old(c.disk) && head == HeadOf(c.disk[At(g.start)])
  {
    hide Idle, Cache.Valid, Using, HeadOf;
    IdleValid(c);
    IdleUsing(c);
    var i := Fetch(c, At(g.start), {});
    assert {} + {i} == {i} && {i} - {i} == {};
    head := HeadOf(c.buf[i].data);
    PutBack(c, i, {i});
    IdleUsing(c);
  }

  /** write_head with nothing listed. */
  method EraseHead(c: Cache, g: Region)
    requires Idle(c) && At(g.start) in c.disk
    modifies c, c.buf, c.next, c.prev
    ensures Idle(c)
    ensures exists w ::
              && HeadOf(w) == WithHead(HeadOf(old(c.disk)[At(g.start)]), [])
              && c.disk == old(c.disk)[At(g.start) := w]
  {
    hide Idle, Cache.Valid, Using, HeadOf, WithHead;
    IdleValid(c);
    IdleUsing(c);
    var i := Fetch(c, At(g.start), {});
    assert {} + {i} == {i} && {i} - {i} == {};
    var w := PutHead(c.buf[i].data, []);
    Put(c, i, w, {i});
    PutBack(c, i, {i});
    IdleUsing(c);
  }

  lemma InstalledNext(d: Disk<Block>, t: nat)
    requires DiskOk(d) && t < d.head.n
    ensures var r := Installed(d, t); r.(home := r.home[d.head.block[t] := d.log[t]]) == Installed(d, t + 1)
    ensures InstallTrace(d, t + 1) == InstallTrace(d, t) + [Installed(d, t + 1)]
  {
    assert d.head.block[..t + 1][..t] == d.head.block[..t];
  }

  /** Where the next block comes from and goes to. */
  lemma NextBlock(g: Region, disk: Store, disk0: Store, t: nat)
    requires StoreOk(g, disk0) && StoreOk(g, disk) && disk.Keys == disk0.Keys && DiskOk(DiskOf(g, disk0))
    requires t < DiskOf(g, disk0).head.n && DiskOf(g, disk) == Installed(DiskOf(g, disk0), t)
    ensures var d, from, to := DiskOf(g, disk0), At(g.start + 1 + t), At(DiskOf(g, disk0).head.block[t]);
            && from in disk && to in disk && from != to && IsHome(g, disk, to.block) && disk[from] == d.log[t]
  {
    var d := DiskOf(g, disk0);
    var b := d.head.block[t];
    assert Listed(d.head)[t] == b;
    HomeAt(g, disk0, b);
    assert DiskOf(g, disk).log == d.log;
  }

  /** install_trans: one block write for each listed block. */
  method InstallTrans(c: Cache, g: Region, head: Head) returns (ghost trace: seq<Disk<Block>>)
    requires Idle(c) && StoreOk(g, c.disk) && DiskOk(DiskOf(g, c.disk)) && head == DiskOf(g, c.disk).head
    modifies c, c.buf, c.next, c.prev
    ensures Idle(c) && StoreOk(g, c.disk) && c.disk.Keys == old(c.disk).Keys
    ensures DiskOf(g, c.disk) == Installed(old(DiskOf(g, c.disk)), head.n)
    ensures trace == InstallTrace(old(DiskOf(g, c.disk)), head.n)
  {
    hide Idle, DiskOf, Installed, InstallTrace, StoreOk;
    ghost var disk0 := c.disk;
    ghost var d := DiskOf(g, disk0);
    trace := [];
    NoneInstalled(d);
    for t := 0 to head.n
      invariant Idle(c) && StoreOk(g, c.disk) && c.disk.Keys == disk0.Keys
      invariant DiskOf(g, c.disk) == Installed(d, t) && trace == InstallTrace(d, t)
    {
      NextBlock(g, c.disk, disk0, t);
      InstalledNext(d, t);
      HomeWritten(g, c.disk, head.block[t], d.log[t]);
      CopyBlock(c, At(g.start + 1 + t), At(head.block[t]));
      trace := trace + [DiskOf(g, c.disk)];
    }
  }

  lemma NoneInstalled(d: Disk<Block>)
    requires DiskOk(d)
    ensures Installed(d, 0) == d && InstallTrace(d, 0) == []
  {
  }

  /** recover_from_log: the disk passes through exactly the states of RecoverTrace, and ends with every home block
      recovered and an empty log. */
  method RecoverFromLog(c: Cache, g: Region) returns (ghost trace: seq<Disk<Block>>)
    requires Idle(c) && StoreOk(g, c.disk) && DiskOk(DiskOf(g, c.disk))
    modifies c, c.buf, c.next, c.prev
    ensures Idle(c) && StoreOk(g, c.disk) && trace == RecoverTrace(old(DiskOf(g, c.disk)))
    ensures var d := DiskOf(g, c.disk);
            DiskOk(d) && d.head.n == 0 && d.home == Recovered(old(DiskOf(g, c.disk)))
  {
    hide Idle, DiskOf, Installed, InstallTrace, HeadOf, StoreOk;
    ghost var disk0 := c.disk;
    ghost var d := DiskOf(g, disk0);
    HeadIs(g, c.disk);
    var head := ReadHead(c, g);
    trace := InstallTrans(c, g, head);
    ghost var disk1 := c.disk;
    HeadIs(g, disk1);
    EraseHead(c, g);
    ghost var w :| HeadOf(w) == WithHead(HeadOf(disk1[At(g.start)]), []) && c.disk == disk1[At(g.start) := w];
    HeadWritten(g, disk1, w);
    ErasedIs(d, DiskOf(g, disk1), DiskOf(g, c.disk));
    trace := trace + [DiskOf(g, c.disk)];
  }

  lemma HeadIs(g: Region, disk: Store)
    requires StoreOk(g, disk)
    ensures At(g.start) in disk && DiskOf(g, disk).head == HeadOf(disk[At(g.start)])
  {
    assert InLog(g, g.start);
  }

  lemma ErasedIs(d: Disk<Block>, d1: Disk<Block>, d2: Disk<Block>)
    requires DiskOk(d) && d1 == Installed(d, d.head.n) && d2 == d1.(head := WithHead(d1.head, []))
    ensures d2 == Erased(Installed(d, d.head.n)) && RecoverTrace(d) == InstallTrace(d, d.head.n) + [d2]
    ensures DiskOk(d2) && d2.head.n == 0 && d2.home == Recovered(d)
  {
    RecoveryCut(d, d.head.n + 1);
  }

  /** initlog when the machine boots: the log starts on the recovered disk, with the cache that recovery used. */
  method InitLog(disk: Store, g: Region) returns (log: Log, ghost trace: seq<Disk<Block>>)
    requires StoreOk(g, disk) && DiskOk(DiskOf(g, disk))
    ensures fresh(log) && fresh(log.cache) && log.Valid() && log.g == g && log.mode == Open({}) && log.logged == []
    ensures trace == RecoverTrace(DiskOf(g, disk)) && StoreOk(g, log.cache.disk)
    ensures HomeOf(g, log.cache.disk) == Recovered(DiskOf(g, disk)) && DiskOf(g, log.cache.disk).head.n == 0
  {
    hide DiskOf, LogOk, Recovered, RecoverTrace;
    var c := new Cache(disk);
    StartIdle(c);
    trace := RecoverFromLog(c, g);
    log := new Log.After(c, g);
    HomeIs(g, c.disk);
  }

  lemma HomeIs(g: Region, disk: Store)
    requires StoreOk(g, disk)
    ensures DiskOf(g, disk).home == HomeOf(g, disk)
  {
  }

  lemma StartIdle(c: Cache)
    requires c.Valid() && forall i | 0 <= i < NBUF :: c.buf[i] == NoBuf()
    ensures Idle(c)
  {
    forall i | 0 <= i < NBUF ensures Resting(c.buf[..][i], c.disk) {
      assert c.buf[..][i] == c.buf[i];
    }
  }
}
