/** log.c on top of the buffer cache: operations read, change and log buffers, and the last one to end commits
    them by reads, copies and writes of buffers. Bread, Acquire, Modify, LogWrite, CopyIn, WriteOut, Release and
    Unref are the steps of all this: each is one critical section, or one action of a process on a buffer that
    it holds, and each leaves the buffers that others hold (KeepsHeld). What every step keeps therefore holds in
    every interleaving of operations, readers and commits. The turns of the loops of a commit, and the whole
    commit, are those steps in a row, when nobody has locked the blocks that they need; HeldPair and HeldHead
    are what a commit knows between its steps if others do something there. `me` is the process.
 */
module CachedLog {
  import opened Common
  import opened DiskBlocks
  import opened RedoLog
  import opened Buffers
  import opened BufferCache
  import opened LogRegion
  import opened CommitSteps

  /** The block has a buffer, or there is one for it. */
  predicate HasBuffer(bufs: seq<Buf>, a: Addr) {
    exists i :: 0 <= i < |bufs| && (bufs[i].addr == a || !InUse(bufs[i]))
  }

  predicate Unlocked(bufs: seq<Buf>, a: Addr) {
    forall i | 0 <= i < |bufs| && bufs[i].addr == a :: bufs[i].holder == 0
  }

  /** Compared to `b0`, `me` has locked the buffer if `held`. */
  predicate UseAt(b0: Buf, b: Buf, held: bool, me: nat) {
    && b.refcnt == b0.refcnt + (if held then 1 else 0)
    && b.holder == (if held then me else b0.holder) && (held ==> b0.holder == 0)
    && (b.dirty ==> b0.dirty) && (b0.refcnt > 0 ==> b.addr == b0.addr)
  }

  /** Compared to `s0`, `me` has locked the buffers in `held`, and no buffer has become dirty. */
  ghost predicate Use(s0: seq<Buf>, s: seq<Buf>, held: set<nat>, me: nat) {
    |s| == |s0| && forall i: nat | i < |s| :: UseAt(s0[i], s[i], i in held, me)
  }

  /** Buffer `i` has block `a` as it is on the disk. */
  ghost predicate OnDisk(bufs: seq<Buf>, disk: Store, a: Addr, i: nat) {
    && i < |bufs| && a in disk
    && bufs[i].addr == a && bufs[i].valid && !bufs[i].dirty && bufs[i].data == disk[a]
  }

  /** And buffer `j` has the new contents of block `b`. */
  ghost predicate Paired(bufs: seq<Buf>, disk: Store, news: Home<Block>, a: Addr, b: nat, i: nat, j: nat) {
    && OnDisk(bufs, disk, a, i) && j < |bufs| && i != j && b in news
    && bufs[j].addr == At(b) && bufs[j].valid && bufs[j].dirty && bufs[j].data == news[b]
  }

  /** bread of block `a` by `me` makes `b` of the buffer `b0`: with the lock, which was free, or waiting for it.
      `c` is what the block contains. */
  ghost predicate ReadStep(b0: Buf, b: Buf, a: Addr, me: nat, disk: Store, c: Block, locked: bool) {
    if !locked then b0.addr == a && b0.holder != 0 && b == b0.(refcnt := b0.refcnt + 1)
    else
      && b.addr == a && b.holder == me && b.valid && b.data == c && Settled(b, disk)
      && if b0.addr == a then b0.holder == 0 && b.refcnt == b0.refcnt + 1 && b.dirty == b0.dirty
         else !InUse(b0) && b.refcnt == 1 && !b.dirty
  }

  predicate HeldSame(b: Buf, b': Buf, me: nat) {
    b.holder != 0 && b.holder != me ==> b' == b.(refcnt := b'.refcnt)
  }

  /** Whatever `me` did, the buffers that other processes hold are as they were, but for their references. */
  ghost predicate KeepsHeld(s: seq<Buf>, t: seq<Buf>, me: nat) {
    |t| == |s| && forall i: nat | i < |s| :: HeldSame(s[i], t[i], me)
  }

  ghost predicate Resting(b: Buf, disk: Store) {
    b.refcnt == 0 && b.holder == 0 && !b.dirty && Settled(b, disk)
  }

  /** Nobody has a buffer, and all are as on the disk. */
  ghost predicate Idle(c: Cache)
    reads c, c.buf, c.next, c.prev
  {
    c.Valid() && forall i | 0 <= i < NBUF :: Resting(c.buf[..][i], c.disk)
  }

  // ---------------------------------------------------------------- the header block

  lemma HeadWord(b: Block, j: nat, v: nat)
    requires j < LOGSIZE && v < UINT
    ensures HeadOf(WithWord(b, j + 1, v)) == HeadOf(b).(block := HeadOf(b).block[j := v])
    ensures HeadOf(WithWord(b, 0, v)) == HeadOf(b).(n := v)
  {
    var c, d := WithWord(b, j + 1, v), WithWord(b, 0, v);
    forall k: nat | k <= LOGSIZE
      ensures Word(c, k) == (if k == j + 1 then v else Word(b, k)) && Word(d, k) == if k == 0 then v else Word(b, k)
    {
      WordsApart(b, j + 1, v, k);
      WordsApart(b, 0, v, k);
    }
    assert HeadOf(c).block == HeadOf(b).block[j := v];
    assert HeadOf(d).block == HeadOf(b).block;
  }

  /** The copy loop of write_head. */
  method PutHead(b: Block, list: seq<nat>) returns (w: Block)
    requires |list| <= LOGSIZE && forall x | x in list :: x < UINT
    ensures HeadOf(w) == WithHead(HeadOf(b), list)
  {
    assert |HeadOf(b).block| == LOGSIZE;
    hide HeadOf;
    HeadWord(b, 0, |list|);
    w := WithWord(b, 0, |list|);
    for i := 0 to |list|
      invariant HeadOf(w).n == |list| && |HeadOf(b).block| == LOGSIZE
      invariant HeadOf(w).block == list[..i] + HeadOf(b).block[i..]
    {
      assert list[i] in list;
      HeadWord(w, i, list[i]);
      w := WithWord(w, i + 1, list[i]);
    }
  }

  class Log {
    const cache: Cache
    const g: Region
    var outstanding: nat
    var committing: bool
    var logged: seq<nat>        // the first lh.n entries of lh.block
    ghost var mode: Mode

    ghost function Bufs(): seq<Buf>
      reads cache, cache.buf
    {
      cache.buf[..]
    }

    ghost predicate Valid()
      reads this, cache, cache.buf, cache.next, cache.prev
    {
      && cache.Valid() && LogOk(g, Bufs(), cache.disk, logged, mode)
      && committing == mode.Committing? && outstanding == if mode.Open? then |mode.ops| else 0
    }

    /** The disk after recovery, and a cold cache. */
    constructor (d: Store, g: Region)
      requires StoreOk(g, d) && DiskOk(DiskOf(g, d)) && DiskOf(g, d).head.n == 0
      ensures Valid() && fresh(cache) && fresh(cache.buf) && fresh(cache.next) && fresh(cache.prev)
      ensures cache.disk == d && this.g == g && mode == Open({}) && logged == [] && Quiet(Bufs())
    {
      cache := new Cache(d);
      this.g := g;
      outstanding, committing, logged, mode := 0, false, [], Open({});
    }

    /** The log after recovery, with the cache that recovery has used. */
    constructor After(c: Cache, g: Region)
      requires Idle(c) && StoreOk(g, c.disk) && DiskOk(DiskOf(g, c.disk)) && DiskOf(g, c.disk).head.n == 0
      ensures Valid() && cache == c && this.g == g && mode == Open({}) && logged == [] && Quiet(Bufs())
    {
      cache := c;
      this.g := g;
      outstanding, committing, logged, mode := 0, false, [], Open({});
      new;
      forall i | 0 <= i < |Bufs()| ensures BufferOk(Bufs()[i], cache.disk, {}, []) {
        assert Resting(c.buf[..][i], c.disk);
      }
    }

    // -------------------------------------------------------------- any process

    /** bread, by an operation, by a reader outside operations, or by the commit. */
    method Bread(a: Addr, me: nat) returns (r: ReadResult)
      requires Valid() && a.dev != 0 && a in cache.disk && me != 0
      modifies cache.buf
      ensures Valid() && cache.SameContents(old(Bufs()), cache.disk) && KeepsHeld(old(Bufs()), Bufs(), me)
      ensures r == NoBuffers <==> !HasBuffer(old(Bufs()), a)
      ensures r == NoBuffers ==> Bufs() == old(Bufs())
      ensures r != NoBuffers ==> r.buf < NBUF == |old(Bufs())| && Bufs() == old(Bufs())[r.buf := cache.buf[r.buf]]
      ensures r != NoBuffers ==>
                ReadStep(old(Bufs())[r.buf], cache.buf[r.buf], a, me, cache.disk, Contents(old(Bufs()), cache.disk, a),
                         r.Locked?)
    {
      hide LogOk, Contents, Unique;
      ghost var bufs := Bufs();
      r := cache.Bread(a, me);
      NoBufferWhen(bufs, a);
      if r != NoBuffers {
        BufferOf(g, bufs, cache.disk, logged, mode, r.buf);
        Same(bufs, r.buf);
      }
    }

    /** A process that slept on the lock of a buffer gets it. */
    method Acquire(i: nat, me: nat)
      requires Valid() && i < NBUF && me != 0 && cache.buf[i].refcnt > 0 && cache.buf[i].holder == 0
      requires cache.buf[i].addr.dev != 0 && cache.buf[i].addr in cache.disk
      modifies cache.buf
      ensures Valid() && cache.SameContents(old(Bufs()), cache.disk) && KeepsHeld(old(Bufs()), Bufs(), me)
      ensures Bufs() == old(Bufs())[i := cache.buf[i]] && Settled(cache.buf[i], cache.disk)
      ensures cache.buf[i] == old(cache.buf[i]).(holder := me, valid := true, data := cache.buf[i].data)
      ensures cache.buf[i].data == Contents(old(Bufs()), cache.disk, cache.buf[i].addr)
    {
      hide LogOk, Contents, Unique;
      ghost var bufs := Bufs();
      BufferOf(g, bufs, cache.disk, logged, mode, i);
      cache.Lock(i, me);
      ghost var bufs1 := Bufs();
      Same(bufs, i);
      cache.Fill(i, me);
      Same(bufs1, i);
    }

    /** releasesleep of a buffer that is dirty or as it is on the disk. */
    method Release(i: nat, me: nat) returns (ok: bool)
      requires Valid() && i < NBUF && me != 0 && (cache.buf[i].holder == me ==> Settled(cache.buf[i], cache.disk))
      modifies cache.buf
      ensures Valid() && cache.SameContents(old(Bufs()), cache.disk) && KeepsHeld(old(Bufs()), Bufs(), me)
      ensures ok <==> old(cache.buf[i]).holder == me
      ensures Bufs() == if ok then old(Bufs())[i := old(cache.buf[i]).(holder := 0)] else old(Bufs())
    {
      ghost var bufs := Bufs();
      ok := cache.Release(i, me);
      if ok {
        Same(bufs, i);
      }
    }

    method Unref(i: nat)
      requires Valid() && i < NBUF && cache.buf[i].refcnt > (if cache.buf[i].holder != 0 then 1 else 0)
      modifies cache.buf, cache.next, cache.prev, cache`ring
      ensures Valid() && cache.SameContents(old(Bufs()), cache.disk) && KeepsHeld(old(Bufs()), Bufs(), 0)
      ensures Bufs() == old(Bufs())[i := old(cache.buf[i]).(refcnt := old(cache.buf[i]).refcnt - 1)]
    {
      hide LogOk, Unique, Contents;
      ghost var bufs := Bufs();
      BufferOf(g, bufs, cache.disk, logged, mode, i);
      cache.Unref(i);
      Same(bufs, i);
    }

    // -------------------------------------------------------------- operations

    /** One pass of begin_op; the caller sleeps and tries again when it is not admitted. */
    method BeginOp(me: nat) returns (admitted: bool)
      requires Valid() && me != 0 && (mode.Open? ==> me !in mode.ops)
      modifies `outstanding, `mode
      ensures Valid()
      ensures admitted <==> !committing && |logged| + (old(outstanding) + 1) * MAXOPBLOCKS <= LOGSIZE
      ensures admitted ==> mode == Open(old(mode).ops + {me})
      ensures !admitted ==> mode == old(mode)
    {
      if committing || |logged| + (outstanding + 1) * MAXOPBLOCKS > LOGSIZE {
        return false;
      }
      OpsStep(g, Bufs(), cache.disk, logged, mode.ops, mode.ops + {me});
      outstanding := outstanding + 1;
      mode := Open(mode.ops + {me});
      admitted := true;
    }

    /** An operation changes a buffer that it has locked. */
    method Modify(i: nat, me: nat, data: Block)
      requires Valid() && mode.Open? && me in mode.ops && i < NBUF && cache.buf[i].holder == me != 0
        && cache.buf[i].valid
      modifies cache.buf
      ensures Valid() && Bufs() == old(Bufs())[i := old(cache.buf[i]).(data := data)]
      ensures KeepsHeld(old(Bufs()), Bufs(), me) && Contents(Bufs(), cache.disk, cache.buf[i].addr) == data
      ensures forall c | c in cache.disk && c.dev != 0 && c != cache.buf[i].addr ::
                Contents(Bufs(), cache.disk, c) == Contents(old(Bufs()), cache.disk, c)
    {
      ghost var bufs := Bufs();
      cache.Modify(i, me, data);
      OpenStep(g, bufs, cache.disk, logged, mode, i, cache.buf[i]);
    }

    /** log_write. It panics exactly if there is no room in the header or in the log, or if no operation is
        open, as is so during a commit. */
    method LogWrite(i: nat, me: nat) returns (ok: bool)
      requires Valid() && i < NBUF && cache.buf[i].holder == me != 0 && cache.buf[i].valid
      requires cache.buf[i].addr.dev == ROOTDEV && IsHome(g, cache.disk, cache.buf[i].addr.block)
      modifies cache.buf, `logged
      ensures Valid() && cache.SameContents(old(Bufs()), cache.disk) && KeepsHeld(old(Bufs()), Bufs(), me)
      ensures ok <==> |old(logged)| < LOGSIZE && |old(logged)| < g.slots && mode.Open? && mode.ops != {}
      ensures ok ==> Bufs() == old(Bufs())[i := old(cache.buf[i]).(dirty := true)]
      ensures ok ==> logged == if cache.buf[i].addr.block in old(logged) then old(logged)
                               else old(logged) + [cache.buf[i].addr.block]
      ensures !ok ==> Bufs() == old(Bufs()) && logged == old(logged)
    {
      hide LogOk, Contents;
      if |logged| >= LOGSIZE || |logged| >= g.slots || outstanding < 1 {
        return false;
      }
      var b := cache.buf[i].addr.block;
      var found := IsLogged(b);
      ghost var bufs, logged0 := Bufs(), logged;
      if !found {
        logged := logged + [b];
      }
      cache.Pin(i, me);
      LogStep(g, bufs, cache.disk, logged0, mode, i, logged);
      ok := true;
    }

    /** The search of log_write for a block that is logged already. */
    method IsLogged(b: nat) returns (found: bool)
      ensures found <==> b in logged
    {
      var k := 0;
      while k < |logged| && logged[k] != b
        invariant k <= |logged| && b !in logged[..k]
      {
        k := k + 1;
      }
      found := k < |logged|;
    }

    /** end_op by a process that has logged what it changed. It never finds a commit running, so its panic is
        not reached; the last operation to end begins the commit. */
    method EndOp(me: nat) returns (commit: bool)
      requires Valid() && me != 0 && mode.Open? && me in mode.ops
      requires forall i | 0 <= i < NBUF && cache.buf[i].holder == me :: Settled(cache.buf[i], cache.disk)
      modifies `outstanding, `committing, `mode
      ensures Valid() && !old(committing) && (commit <==> old(mode).ops == {me})
      ensures !commit ==> mode == Open(old(mode).ops - {me})
      ensures commit ==> mode == Committing(me, DiskOf(g, cache.disk), News(Bufs(), cache.disk, logged), [])
    {
      outstanding := outstanding - 1;
      if outstanding == 0 {
        LastOne(mode.ops, me);
        CommitBegins(g, Bufs(), cache.disk, logged, me);
        committing := true;
        mode := Committing(me, DiskOf(g, cache.disk), News(Bufs(), cache.disk, logged), []);
        return true;
      }
      OpsStep(g, Bufs(), cache.disk, logged, mode.ops, mode.ops - {me});
      mode := Open(mode.ops - {me});
      commit := false;
    }

    // -------------------------------------------------------------- the buffers of a commit

    /** bread by the process that commits, of a block that nobody else has locked. */
    method Fetch(a: Addr, me: nat, ghost s0: seq<Buf>, ghost held: set<nat>) returns (ok: bool, i: nat)
      requires Valid() && me != 0 && a.dev != 0 && a in cache.disk && Unlocked(Bufs(), a)
      requires Use(s0, Bufs(), held, me)
      modifies cache.buf
      ensures Valid() && cache.SameContents(old(Bufs()), cache.disk)
      ensures |Bufs()| == NBUF && (ok <==> HasBuffer(old(Bufs()), a))
      ensures !ok ==> Bufs() == old(Bufs())
      ensures ok ==>
                && i < NBUF && i !in held && Bufs() == old(Bufs())[i := cache.buf[i]]
                && Use(s0, Bufs(), held + {i}, me)
                && cache.buf[i].addr == a && cache.buf[i].valid && cache.buf[i].holder == me
                && cache.buf[i].data == Contents(old(Bufs()), cache.disk, a)
                && (cache.buf[i].dirty <==> HasDirty(old(Bufs()), a.block) && a.dev == ROOTDEV)
                && Settled(cache.buf[i], cache.disk)
    {
      hide LogOk, Contents;
      ghost var bufs := Bufs();
      var r := cache.Bread(a, me);
      NoBufferWhen(bufs, a);
      if r == NoBuffers {
        return false, 0;
      }
      assert r.Locked?;
      i := r.buf;
      BufferOf(g, bufs, cache.disk, logged, mode, i);
      Same(bufs, i);
      UseMore(s0, bufs, held, me, i, cache.buf[i]);
      DirtyWhen(bufs, Bufs(), i, a);
      ok := true;
    }

    /** brelse by the process that commits. */
    method PutBack(i: nat, me: nat, ghost s0: seq<Buf>, ghost held: set<nat>)
      requires Valid() && me != 0 && i < NBUF && i in held && Use(s0, Bufs(), held, me)
      requires Settled(cache.buf[i], cache.disk)
      modifies cache.buf, cache.next, cache.prev, cache`ring
      ensures Valid() && cache.SameContents(old(Bufs()), cache.disk)
      ensures Bufs() == old(Bufs())[i := cache.buf[i]] && Use(s0, Bufs(), held - {i}, me)
      ensures cache.buf[i] == old(cache.buf[i]).(holder := 0, refcnt := cache.buf[i].refcnt)
    {
      hide LogOk, Contents, Unique;
      ghost var bufs := Bufs();
      assert UseAt(s0[i], bufs[i], true, me);
      var ok := cache.Brelse(i, me);
      Same(bufs, i);
      UseLess(s0, bufs, held, me, i, cache.buf[i]);
    }

    /** memmove into a buffer, which is that of a log block or of the header, or holds the same already. */
    method CopyIn(i: nat, me: nat, data: Block)
      requires Valid() && mode.Committing? && mode.owner == me != 0 && i < NBUF
      requires cache.buf[i].holder == me && cache.buf[i].valid && cache.buf[i].addr.dev == ROOTDEV
      requires InLog(g, cache.buf[i].addr.block) || data == cache.buf[i].data
      modifies cache.buf
      ensures Valid() && Bufs() == old(Bufs())[i := old(cache.buf[i]).(data := data)]
    {
      ghost var bufs := Bufs();
      BufferOf(g, bufs, cache.disk, logged, mode, i);
      if data == cache.buf[i].data {
        cache.Modify(i, me, data);
        assert Bufs() == bufs;
        return;
      }
      forall c | c in logged ensures At(c) != bufs[i].addr && At(c) in cache.disk && At(c).dev != 0 {
        assert IsHome(g, cache.disk, c);
      }
      hide LogOk, Contents, Unique;
      cache.Modify(i, me, data);
      BufferStep(g, bufs, cache.disk, logged, mode, i, cache.buf[i]);
    }

    /** bwrite of the block that the commit writes next. */
    method WriteOut(i: nat, me: nat)
      requires Valid() && mode.Committing? && mode.owner == me != 0 && i < NBUF
      requires cache.buf[i].holder == me && cache.buf[i].valid && cache.buf[i].addr.dev == ROOTDEV
      requires Following(cache.buf[i])
      modifies cache.buf, cache`disk, `mode
      ensures Valid() && Bufs() == old(Bufs())[i := old(cache.buf[i]).(dirty := false)]
      ensures cache.disk == old(cache.disk)[cache.buf[i].addr := cache.buf[i].data]
      ensures mode == old(mode).(trace := old(mode).trace + [old(CommitSteps.Next(logged, mode))])
      ensures Settled(cache.buf[i], cache.disk)
      ensures forall j | 0 <= j < NBUF && j != i && Settled(old(Bufs())[j], old(cache.disk)) ::
                Settled(cache.buf[j], cache.disk)
    {
      hide LogOk, Contents, CommitTrace, DiskOf, CommitSteps.Next, Pending, Loggable;
      LoggableOf(g, Bufs(), cache.disk, logged, mode);
      ghost var next := CommitSteps.Next(logged, mode);
      ghost var bufs, disk, m := Bufs(), cache.disk, mode;
      BufferOf(g, bufs, disk, logged, m, i);
      PendingNext(logged, m, next);
      var ok := cache.Bwrite(i, me);
      OthersSettled(bufs, disk, i);
      WrittenContents(g, bufs, disk, logged, m, Bufs(), cache.disk);
      WriteStep(g, bufs, disk, logged, m, i, Bufs(), cache.disk);
      mode := m.(trace := m.trace + [DiskOf(g, cache.disk)]);
    }

    /** Writing this buffer is the next step of the commit. */
    ghost predicate Following(b: Buf)
      requires Valid()
      reads this, cache, cache.buf, cache.next, cache.prev
    {
      && mode.Committing? && |mode.trace| < |CommitTrace(mode.base, logged, mode.news)|
      && var disk := cache.disk[b.addr := b.data];
         && StoreOk(g, disk) && DiskOf(g, disk) == CommitSteps.Next(logged, mode)
         && var n, t, k := |logged|, |mode.trace|, |mode.trace| - |logged| - 1;
            if b.dirty then n < t <= 2 * n && b.addr.block == logged[k] else t <= n || t == 2 * n + 1
    }

    // -------------------------------------------------------------- the turns of a commit

    function LogAddr(tail: nat): Addr {
      At(g.start + 1 + tail)
    }

    /** The two reads in a turn of write_log and of install_trans: log block `tail`, and home block `tail`. The
        home block has a dirty buffer, so only the log block may find no buffer. */
    method FetchPair(me: nat, tail: nat, ghost s0: seq<Buf>) returns (ok: bool, i: nat, j: nat)
      requires Valid() && mode.Committing? && mode.owner == me != 0 && tail < |logged|
        && logged[tail] in Pending(mode, logged)
      requires Unlocked(Bufs(), LogAddr(tail)) && Unlocked(Bufs(), At(logged[tail])) && Use(s0, Bufs(), {}, me)
      modifies cache.buf
      ensures Valid() && (ok <==> HasBuffer(old(Bufs()), LogAddr(tail)))
      ensures !ok ==> Use(s0, Bufs(), {}, me)
      ensures ok ==> Use(s0, Bufs(), {i, j}, me)
      ensures ok ==> Paired(Bufs(), cache.disk, mode.news, LogAddr(tail), logged[tail], i, j)
    {
      hide LogOk, Use, Unlocked, HasBuffer, Pending, Paired, Cache.Valid;
      ok, i := FetchLog(me, tail, s0);
      j := 0;
      if ok {
        j := FetchHome(me, tail, s0, i);
      }
    }

    method FetchLog(me: nat, tail: nat, ghost s0: seq<Buf>) returns (ok: bool, i: nat)
      requires Valid() && mode.Committing? && mode.owner == me != 0 && tail < |logged|
        && logged[tail] in Pending(mode, logged)
      requires Unlocked(Bufs(), LogAddr(tail)) && Unlocked(Bufs(), At(logged[tail])) && Use(s0, Bufs(), {}, me)
      modifies cache.buf
      ensures Valid() && (ok <==> HasBuffer(old(Bufs()), LogAddr(tail)))
      ensures !ok ==> Use(s0, Bufs(), {}, me)
      ensures ok ==> Use(s0, Bufs(), {i}, me) && Unlocked(Bufs(), At(logged[tail]))
      ensures ok ==> OnDisk(Bufs(), cache.disk, LogAddr(tail), i)
    {
      hide LogOk, Contents, Unique, Use, Unlocked, HasBuffer, HasDirty, Pending, Cache.Valid;
      ghost var bufs := Bufs();
      PairFacts(g, bufs, cache.disk, logged, mode, tail);
      ok, i := Fetch(LogAddr(tail), me, s0, {});
      if ok {
        assert {} + {i} == {i};
        UnlockedStill(bufs, Bufs(), i, At(logged[tail]));
      }
    }

    method FetchHome(me: nat, tail: nat, ghost s0: seq<Buf>, ghost i: nat) returns (j: nat)
      requires Valid() && mode.Committing? && mode.owner == me != 0 && tail < |logged|
        && logged[tail] in Pending(mode, logged)
      requires Unlocked(Bufs(), At(logged[tail])) && Use(s0, Bufs(), {i}, me)
        && OnDisk(Bufs(), cache.disk, LogAddr(tail), i)
      modifies cache.buf
      ensures Valid() && Use(s0, Bufs(), {i, j}, me)
      ensures Paired(Bufs(), cache.disk, mode.news, LogAddr(tail), logged[tail], i, j)
    {
      hide LogOk, Contents, Unique, Use, Unlocked, HasBuffer, HasDirty, Pending, Cache.Valid;
      PairFacts(g, Bufs(), cache.disk, logged, mode, tail);
      var ok;
      ok, j := Fetch(At(logged[tail]), me, s0, {i});
      assert {i} + {j} == {i, j};
    }

    /** One turn of write_log. It panics exactly if the log block has no buffer and there is none for it. */
    method WriteLogTurn(me: nat, tail: nat, ghost s0: seq<Buf>) returns (ok: bool)
      requires Valid() && mode.Committing? && mode.owner == me != 0 && |mode.trace| == tail < |logged|
      requires Unlocked(Bufs(), LogAddr(tail)) && Unlocked(Bufs(), At(logged[tail])) && Use(s0, Bufs(), {}, me)
      modifies `mode, cache, cache.buf, cache.next, cache.prev
      ensures Valid() && Use(s0, Bufs(), {}, me) && (ok <==> HasBuffer(old(Bufs()), LogAddr(tail)))
      ensures Advanced(old(mode), mode, ok) && (!ok ==> cache.disk == old(cache.disk))
    {
      hide LogOk, Contents, Unique, Use, Unlocked, HasBuffer, HasDirty, Pending, Cache.Valid, Following,
        CommitSteps.Next, DiskOf, CommitTrace;
      PendingAt(logged, mode, tail);
      var i, j;
      ok, i, j := FetchPair(me, tail, s0);
      if ok {
        CopyLog(me, tail, s0, i, j);
      }
    }

    /** The rest of the turn: memmove, bwrite and two brelse. */
    method CopyLog(me: nat, ghost tail: nat, ghost s0: seq<Buf>, i: nat, j: nat)
      requires Valid() && mode.Committing? && mode.owner == me != 0 && |mode.trace| == tail < |logged|
      requires Use(s0, Bufs(), {i, j}, me) && Paired(Bufs(), cache.disk, mode.news, LogAddr(tail), logged[tail], i, j)
      modifies `mode, cache, cache.buf, cache.next, cache.prev
      ensures Valid() && Use(s0, Bufs(), {}, me) && Advanced(old(mode), mode, true)
    {
      hide LogOk, Contents, Unique, Use, Unlocked, HasBuffer, HasDirty, Pending, Cache.Valid, Following,
        CommitSteps.Next, DiskOf, CommitTrace;
      BufferCount();
      HeldBy(s0, Bufs(), {i, j}, me, i);
      HeldBy(s0, Bufs(), {i, j}, me, j);
      SlotIn(g, Bufs(), cache.disk, logged, mode, tail);
      ghost var bufs := Bufs();
      CopyIn(i, me, cache.buf[j].data);
      UseSame(s0, bufs, {i, j}, me, i, cache.buf[i]);
      LogFollows(cache.buf[i], tail);
      bufs := Bufs();
      WriteOut(i, me);
      UseSame(s0, bufs, {i, j}, me, i, cache.buf[i]);
      PutBack(j, me, s0, {i, j});
      assert {i, j} - {j} == {i} && {i} - {i} == {};
      PutBack(i, me, s0, {i});
    }

    /** One turn of install_trans. */
    method InstallTurn(me: nat, tail: nat, ghost s0: seq<Buf>) returns (ok: bool)
      requires Valid() && mode.Committing? && mode.owner == me != 0 && tail < |logged|
      requires |mode.trace| == |logged| + 1 + tail
      requires Unlocked(Bufs(), LogAddr(tail)) && Unlocked(Bufs(), At(logged[tail])) && Use(s0, Bufs(), {}, me)
      modifies `mode, cache, cache.buf, cache.next, cache.prev
      ensures Valid() && Use(s0, Bufs(), {}, me) && (ok <==> HasBuffer(old(Bufs()), LogAddr(tail)))
      ensures Advanced(old(mode), mode, ok)
    {
      hide LogOk, Contents, Unique, Use, Unlocked, HasBuffer, HasDirty, Pending, Cache.Valid, Following,
        CommitSteps.Next, DiskOf, CommitTrace;
      PendingAt(logged, mode, tail);
      var i, j;
      ok, i, j := FetchPair(me, tail, s0);
      if ok {
        CopyHome(me, tail, s0, i, j);
      }
    }

    /** The rest of the turn. The home block's buffer still has what is in the log, so the copy changes nothing. */
    method CopyHome(me: nat, ghost tail: nat, ghost s0: seq<Buf>, i: nat, j: nat)
      requires Valid() && mode.Committing? && mode.owner == me != 0 && tail < |logged|
      requires |mode.trace| == |logged| + 1 + tail
      requires Use(s0, Bufs(), {i, j}, me) && Paired(Bufs(), cache.disk, mode.news, LogAddr(tail), logged[tail], i, j)
      modifies `mode, cache, cache.buf, cache.next, cache.prev
      ensures Valid() && Use(s0, Bufs(), {}, me) && Advanced(old(mode), mode, true)
    {
      hide LogOk, Contents, Unique, Use, Unlocked, HasBuffer, HasDirty, Pending, Cache.Valid, Following,
        CommitSteps.Next, DiskOf, CommitTrace;
      BufferCount();
      HeldBy(s0, Bufs(), {i, j}, me, i);
      HeldBy(s0, Bufs(), {i, j}, me, j);
      HomeFollows(cache.buf[j], tail);
      ghost var bufs := Bufs();
      CopyIn(j, me, cache.buf[i].data);
      assert Bufs() == bufs;
      HomeFollows(cache.buf[j], tail);
      WriteOut(j, me);
      UseSame(s0, bufs, {i, j}, me, j, cache.buf[j]);
      PutBack(i, me, s0, {i, j});
      assert {i, j} - {i} == {j} && {j} - {j} == {};
      PutBack(j, me, s0, {j});
    }

    /** write_head, with the logged blocks to commit and with none to erase the log. */
    method WriteHead(me: nat, list: seq<nat>, ghost s0: seq<Buf>) returns (ok: bool)
      requires Valid() && mode.Committing? && mode.owner == me != 0 && logged != []
      requires (|mode.trace| == |logged| && list == logged) || (|mode.trace| == 2 * |logged| + 1 && list == [])
      requires Unlocked(Bufs(), At(g.start)) && Use(s0, Bufs(), {}, me)
      modifies `mode, cache, cache.buf, cache.next, cache.prev
      ensures Valid() && Use(s0, Bufs(), {}, me) && (ok <==> HasBuffer(old(Bufs()), At(g.start)))
      ensures Advanced(old(mode), mode, ok)
    {
      hide LogOk, Contents, Unique, Use, Unlocked, HasBuffer, HasDirty, Pending, Cache.Valid, Following,
        CommitSteps.Next, DiskOf, CommitTrace;
      HeadFacts(g, Bufs(), cache.disk, logged, mode);
      var i;
      ok, i := Fetch(At(g.start), me, s0, {});
      if ok {
        assert {} + {i} == {i};
        CopyHead(me, list, s0, i);
      }
    }

    method CopyHead(me: nat, list: seq<nat>, ghost s0: seq<Buf>, i: nat)
      requires Valid() && mode.Committing? && mode.owner == me != 0 && logged != []
      requires (|mode.trace| == |logged| && list == logged) || (|mode.trace| == 2 * |logged| + 1 && list == [])
      requires Use(s0, Bufs(), {i}, me) && OnDisk(Bufs(), cache.disk, At(g.start), i)
      modifies `mode, cache, cache.buf, cache.next, cache.prev
      ensures Valid() && Use(s0, Bufs(), {}, me) && Advanced(old(mode), mode, true)
    {
      hide LogOk, Contents, Unique, Use, Unlocked, HasBuffer, HasDirty, Pending, Cache.Valid, Following,
        CommitSteps.Next, DiskOf, CommitTrace;
      BufferCount();
      HeldBy(s0, Bufs(), {i}, me, i);
      HeadFacts(g, Bufs(), cache.disk, logged, mode);
      ghost var bufs := Bufs();
      var w := PutHead(cache.buf[i].data, list);
      CopyIn(i, me, w);
      UseSame(s0, bufs, {i}, me, i, cache.buf[i]);
      HeadFollows(cache.buf[i], list);
      bufs := Bufs();
      WriteOut(i, me);
      UseSame(s0, bufs, {i}, me, i, cache.buf[i]);
      assert {i} - {i} == {};
      PutBack(i, me, s0, {i});
    }

    // -------------------------------------------------------------- the whole commit

    /** write_log. It does not panic if some buffer is clean and nobody has a reference to it; when nobody else
        has a buffer it panics exactly if all buffers are dirty. */
    method WriteLog(me: nat, ghost s0: seq<Buf>) returns (ok: bool)
      requires Valid() && mode.Committing? && mode.owner == me != 0 && mode.trace == [] && logged != []
      requires s0 == Bufs() && Clear(g, s0, logged, me)
      modifies `mode, cache, cache.buf, cache.next, cache.prev
      ensures Valid() && Use(s0, Bufs(), {}, me) && OnCourse(old(mode), mode)
      ensures (SomeFree(s0) ==> ok) && (Quiet(s0) ==> (ok <==> |logged| < NBUF))
      ensures if ok then |mode.trace| == |logged| else |mode.trace| < |logged|
      ensures !ok && Quiet(s0) ==> cache.disk == old(cache.disk)
    {
      hide LogOk, Contents, Unique, Use, Unlocked, HasBuffer, HasDirty, Pending, Cache.Valid, DiskOf, CommitTrace,
        Quiet, SomeClean, SomeFree, Clear;
      UseNone(s0, me);
      BuffersNow();
      QuietClean(s0);
      for tail := 0 to |logged|
        invariant Valid() && Use(s0, Bufs(), {}, me) && OnCourse(old(mode), mode) && |mode.trace| == tail
        invariant if tail > 0 then Quiet(s0) ==> |logged| < NBUF else Bufs() == s0 && cache.disk == old(cache.disk)
      {
        SlotIn(g, Bufs(), cache.disk, logged, mode, tail);
        ClearUse(g, s0, Bufs(), logged, me, LogAddr(tail));
        ClearUse(g, s0, Bufs(), logged, me, At(logged[tail]));
        AllTaken(g, Bufs(), cache.disk, logged, mode, tail);
        ok := WriteLogTurn(me, tail, s0);
        if !ok {
          return;
        }
      }
      ok := true;
    }

    /** install_trans. */
    method InstallTrans(me: nat, ghost s0: seq<Buf>) returns (ok: bool)
      requires Valid() && mode.Committing? && mode.owner == me != 0 && |mode.trace| == |logged| + 1
      requires Clear(g, s0, logged, me) && Use(s0, Bufs(), {}, me)
      modifies `mode, cache, cache.buf, cache.next, cache.prev
      ensures Valid() && Use(s0, Bufs(), {}, me) && OnCourse(old(mode), mode) && (SomeFree(s0) ==> ok)
      ensures ok ==> |mode.trace| == 2 * |logged| + 1
    {
      hide LogOk, Contents, Unique, Use, Unlocked, HasBuffer, HasDirty, Pending, Cache.Valid, DiskOf, CommitTrace,
        Quiet, SomeClean, SomeFree, Clear;
      for tail := 0 to |logged|
        invariant Valid() && Use(s0, Bufs(), {}, me) && OnCourse(old(mode), mode) && |mode.trace| == |logged| + 1 + tail
      {
        SlotIn(g, Bufs(), cache.disk, logged, mode, tail);
        ClearUse(g, s0, Bufs(), logged, me, LogAddr(tail));
        ClearUse(g, s0, Bufs(), logged, me, At(logged[tail]));
        ok := InstallTurn(me, tail, s0);
        if !ok {
          return;
        }
      }
      ok := true;
    }

    /** commit, when nobody has locked a block that it needs: its block writes are those of CommitTrace. On the
        disk each logged block ends with what it contained when the commit began, and no other home block
        changes. It does not panic if some buffer is clean and nobody has a reference to it. When nobody else
        has a buffer it panics exactly if all NBUF buffers are logged blocks, and then before any write; that
        needs a log of at least NBUF slots. */
    method Commit(me: nat) returns (ok: bool, ghost trace: seq<Disk<Block>>)
      requires Valid() && mode.Committing? && mode.owner == me != 0 && mode.trace == [] && Clear(g, Bufs(), logged, me)
      modifies this, cache, cache.buf, cache.next, cache.prev
      ensures Valid() && (SomeFree(old(Bufs())) ==> ok)
      ensures Quiet(old(Bufs())) ==> (ok <==> |old(logged)| < NBUF) && (g.slots < NBUF ==> ok)
      ensures !ok ==> OnCourse(old(mode), mode) && (Quiet(old(Bufs())) ==> cache.disk == old(cache.disk))
      ensures ok ==> mode == Open({}) && logged == []
      ensures ok ==>
                trace == CommitTrace(old(DiskOf(g, cache.disk)), old(logged), old(News(Bufs(), cache.disk, logged)))
      ensures ok ==> forall b | IsHome(g, old(cache.disk), b) ::
                At(b) in cache.disk && cache.disk[At(b)]
                  == if b in old(logged) then old(Contents(Bufs(), cache.disk, At(b))) else old(cache.disk)[At(b)]
    {
      hide LogOk, Contents, Unique, Use, Unlocked, HasBuffer, HasDirty, Pending, Cache.Valid, DiskOf, CommitTrace,
        Quiet, SomeClean, SomeFree, Clear;
      ghost var s0, disk0 := Bufs(), cache.disk;
      CommitStarts(g, s0, disk0, logged, mode);
      HeadFacts(g, s0, disk0, logged, mode);
      BuffersNow();
      QuietClean(s0);
      UseNone(s0, me);
      trace := [];
      ok := true;
      if |logged| > 0 {
        ok := WriteLog(me, s0);
        if !ok {
          return;
        }
        ClearUse(g, s0, Bufs(), logged, me, At(g.start));
        ok := WriteHead(me, logged, s0);
        if !ok {
          return;
        }
        ok := InstallTrans(me, s0);
        if !ok {
          return;
        }
        ClearUse(g, s0, Bufs(), logged, me, At(g.start));
        ok := WriteHead(me, [], s0);
        if !ok {
          return;
        }
      }
      ClearUse(g, s0, Bufs(), logged, me, At(g.start));
      trace := mode.trace;
      CommitFinished(g, s0, disk0, Bufs(), cache.disk, logged, mode);
      EndCommit(me);
    }

    /** The end of end_op. */
    method EndCommit(me: nat)
      requires Valid() && mode.Committing? && mode.owner == me && Finished(g, logged, mode)
      requires forall i | 0 <= i < |Bufs()| :: Bufs()[i].holder != me
      modifies `mode, `logged, `committing
      ensures Valid() && mode == Open({}) && logged == []
    {
      hide LogOk;
      CommitEnds(g, Bufs(), cache.disk, logged, mode);
      logged, committing, mode := [], false, Open({});
    }

    /** Outside a commit the dirty buffers are those of the logged blocks. */
    lemma DirtyBlocksAreLogged()
      requires Valid() && mode.Open?
      ensures DirtyBlocks(Bufs()) == Members(logged)
    {
      DirtyArePending(g, Bufs(), cache.disk, logged, mode);
    }

    /** At every point of a commit, whoever else reads or waits: a home block on the disk is as the commit
        found it unless it is logged and the header is written, and then it is that or its new contents. */
    lemma HomeDuringCommit(b: nat)
      requires Valid() && mode.Committing? && IsHome(g, cache.disk, b)
      ensures b in mode.base.home
      ensures b !in logged || |mode.trace| <= |logged| + 1 ==> cache.disk[At(b)] == mode.base.home[b]
      ensures b in logged ==>
          b in mode.news
          && (cache.disk[At(b)] == mode.base.home[b] || cache.disk[At(b)] == mode.news[b])
    {
      HomeAt(g, cache.disk, b);
      LoggableOf(g, Bufs(), cache.disk, logged, mode);
      CommitKeys(mode.base, logged, mode.news, |mode.trace|);
      CommitHome(mode.base, logged, mode.news, |mode.trace|, b);
    }

    /** The machine stops at any point of any interleaving on the cache, and boots are cut any number of times: in
        the end the log is empty, and the home blocks are those on the disk if nobody commits, and otherwise
        those that the commit found or, once it has written the header, those with everything that is logged. */
    lemma CrashAnytime(cuts: seq<nat>)
      requires Valid()
      ensures DiskOk(DiskOf(g, cache.disk))
      ensures var r := Boot(DiskOf(g, cache.disk), cuts);
              && DiskOk(r) && r.head.n == 0 && (mode.Open? ==> r.home == DiskOf(g, cache.disk).home)
              && (mode.Committing? ==>
                    && AllIn(logged, mode.news)
                    && r.home == if |mode.trace| <= |logged| then mode.base.home
                                 else Updated(mode.base.home, logged, mode.news))
      ensures mode.Committing? ==>
          forall b | b in logged :: At(b) in cache.disk && b in mode.news
            && mode.news[b] == Contents(Bufs(), cache.disk, At(b))
    {
      CrashOf(g, Bufs(), cache.disk, logged, mode, cuts);
    }

    /** Whoever else does what in between: once a commit holds the buffers of a log block and of a logged block
        that is not installed, they have what the rest of its turn needs. */
    lemma HeldPair(me: nat, tail: nat, i: nat, j: nat)
      requires Valid() && mode.Committing? && tail < |logged| && logged[tail] in Pending(mode, logged)
      requires i < NBUF && j < NBUF && cache.buf[i].holder == cache.buf[j].holder == me != 0
      requires cache.buf[i].addr == LogAddr(tail) && cache.buf[i].valid && Settled(cache.buf[i], cache.disk)
      requires cache.buf[j].addr == At(logged[tail]) && cache.buf[j].valid
      ensures Paired(Bufs(), cache.disk, mode.news, LogAddr(tail), logged[tail], i, j)
    {
      hide LogOk, Contents, HasBuffer, Pending;
      PairFacts(g, Bufs(), cache.disk, logged, mode, tail);
      ContentsOf(Bufs(), cache.disk, j);
      OnlyDirty(Bufs(), j, logged[tail]);
    }

    /** The same for the header. */
    lemma HeldHead(me: nat, i: nat)
      requires Valid() && i < NBUF && cache.buf[i].holder == me != 0
      requires cache.buf[i].addr == At(g.start) && cache.buf[i].valid && Settled(cache.buf[i], cache.disk)
      ensures OnDisk(Bufs(), cache.disk, At(g.start), i)
    {
      hide LogOk, Contents;
      HeadFacts(g, Bufs(), cache.disk, logged, mode);
    }

    lemma BuffersNow()
      requires Valid() && (mode.Open? || mode.trace == [])
      ensures |logged| <= NBUF && (|logged| < NBUF <==> SomeClean(Bufs()))
    {
      hide LogOk;
      BuffersLeft(g, Bufs(), cache.disk, logged, mode);
    }

    lemma BufferCount()
      requires cache.Valid()
      ensures cache.buf.Length == NBUF
    {
    }

    lemma LogFollows(b: Buf, tail: nat)
      requires Valid() && mode.Committing? && |mode.trace| == tail < |logged| && b.addr == LogAddr(tail) && !b.dirty
      requires logged[tail] in mode.news && b.data == mode.news[logged[tail]]
      ensures Following(b)
    {
      hide Contents, Unique, HasDirty, CommitTrace, CommitSteps.Next, Cache.Valid;
      NextLogged(logged, mode, DiskOf(g, cache.disk));
      LogWritten(g, cache.disk, tail, b.data);
    }

    lemma HomeFollows(b: Buf, tail: nat)
      requires Valid() && mode.Committing? && tail < |logged| && |mode.trace| == |logged| + 1 + tail
      requires b.addr == At(logged[tail]) && b.dirty && logged[tail] in mode.news && b.data == mode.news[logged[tail]]
      ensures Following(b) && LogAddr(tail) in cache.disk && cache.disk[LogAddr(tail)] == b.data
    {
      hide Contents, Unique, HasDirty, CommitTrace, CommitSteps.Next, Cache.Valid;
      NextInstall(logged, mode, DiskOf(g, cache.disk));
      assert logged[tail] in logged && IsHome(g, cache.disk, logged[tail]);
      HomeWritten(g, cache.disk, logged[tail], b.data);
    }

    lemma HeadFollows(b: Buf, list: seq<nat>)
      requires Valid() && mode.Committing? && logged != [] && b.addr == At(g.start) && !b.dirty
        && At(g.start) in cache.disk
      requires (|mode.trace| == |logged| && list == logged) || (|mode.trace| == 2 * |logged| + 1 && list == [])
      requires |list| <= LOGSIZE && HeadOf(b.data) == WithHead(HeadOf(cache.disk[At(g.start)]), list)
      ensures Following(b)
    {
      hide Contents, Unique, HasDirty, CommitTrace, CommitSteps.Next, Cache.Valid;
      if list == [] {
        NextErase(logged, mode, DiskOf(g, cache.disk));
      } else {
        NextHead(logged, mode, DiskOf(g, cache.disk));
      }
      HeadWritten(g, cache.disk, b.data);
    }

    /** A buffer has changed in a way that keeps what blocks contain. */
    lemma Same(bufs: seq<Buf>, i: nat)
      requires LogOk(g, bufs, cache.disk, logged, mode) && |bufs| == NBUF == cache.buf.Length && i < NBUF
      requires Bufs() == bufs[i := cache.buf[i]] && cache.SameContents(bufs, cache.disk)
      requires cache.buf[i].dirty == bufs[i].dirty && (bufs[i].dirty ==> cache.buf[i].addr == bufs[i].addr)
      requires Settled(cache.buf[i], cache.disk) || cache.buf[i].holder in Writers(mode)
      ensures LogOk(g, Bufs(), cache.disk, logged, mode)
    {
      BufferStep(g, bufs, cache.disk, logged, mode, i, cache.buf[i]);
    }
  }

  lemma UseMore(s0: seq<Buf>, s: seq<Buf>, held: set<nat>, me: nat, i: nat, b: Buf)
    requires Use(s0, s, held, me) && i < |s| && s[i].holder == 0 && me != 0
    requires b.refcnt == s[i].refcnt + 1 && b.holder == me && (b.dirty ==> s[i].dirty)
    requires s[i].refcnt > 0 ==> b.addr == s[i].addr
    ensures i !in held && Use(s0, s[i := b], held + {i}, me)
  {
    assert UseAt(s0[i], s[i], i in held, me);
  }

  lemma UseLess(s0: seq<Buf>, s: seq<Buf>, held: set<nat>, me: nat, i: nat, b: Buf)
    requires Use(s0, s, held, me) && i < |s| && i in held
    requires b.refcnt == s[i].refcnt - 1 && b.holder == 0 && (b.dirty ==> s[i].dirty) && b.addr == s[i].addr
    ensures Use(s0, s[i := b], held - {i}, me)
  {
    assert UseAt(s0[i], s[i], i in held, me);
  }

  /** The only buffer of a block is dirty if the block has a dirty buffer. */
  lemma DirtyWhen(bufs: seq<Buf>, bufs': seq<Buf>, i: nat, a: Addr)
    requires i < |bufs| == |bufs'| && bufs' == bufs[i := bufs'[i]] && Unique(bufs') && bufs'[i].addr == a && a.dev != 0
    requires bufs'[i].dirty == bufs[i].dirty && (bufs[i].dirty ==> bufs[i].addr == a)
    ensures bufs'[i].dirty ==> a.dev != ROOTDEV || HasDirty(bufs, a.block)
    ensures a.dev == ROOTDEV && HasDirty(bufs, a.block) ==> bufs'[i].dirty
  {
    if a.dev == ROOTDEV {
      assert a == At(a.block);
      if HasDirty(bufs, a.block) {
        var j :| 0 <= j < |bufs| && bufs[j].dirty && bufs[j].addr == At(a.block);
        assert j == i || bufs'[j].addr != bufs'[i].addr;
      }
    }
  }

  lemma OnlyDirty(bufs: seq<Buf>, j: nat, b: nat)
    requires Unique(bufs) && j < |bufs| && bufs[j].addr == At(b) && HasDirty(bufs, b)
    ensures bufs[j].dirty
  {
    var i :| 0 <= i < |bufs| && bufs[i].dirty && bufs[i].addr == At(b);
    assert i == j;
  }

  /** A buffer that `me` holds is as it was, whatever another process did. */
  lemma StillHeld(s: seq<Buf>, t: seq<Buf>, other: nat, me: nat, i: nat)
    requires KeepsHeld(s, t, other) && i < |s| && s[i].holder == me != 0 && me != other
    ensures t[i] == s[i].(refcnt := t[i].refcnt)
  {
    assert HeldSame(s[i], t[i], other);
  }

  lemma UseSame(s0: seq<Buf>, s: seq<Buf>, held: set<nat>, me: nat, i: nat, b: Buf)
    requires Use(s0, s, held, me) && i < |s| && b.refcnt == s[i].refcnt && b.holder == s[i].holder
    requires (b.dirty ==> s[i].dirty) && b.addr == s[i].addr
    ensures Use(s0, s[i := b], held, me)
  {
    assert UseAt(s0[i], s[i], i in held, me);
  }

  /** Writing one block leaves the other buffers as they are on the disk. */
  lemma OthersSettled(bufs: seq<Buf>, disk: Store, i: nat)
    requires Unique(bufs) && i < |bufs| && bufs[i].addr.dev != 0
    ensures forall j | 0 <= j < |bufs| && j != i
      && Settled(bufs[j], disk) :: Settled(bufs[j], disk[bufs[i].addr := bufs[i].data])
  {
    forall j | 0 <= j < |bufs| && j != i && Settled(bufs[j], disk)
      ensures Settled(bufs[j], disk[bufs[i].addr := bufs[i].data])
    {
      assert bufs[j].addr != bufs[i].addr;
    }
  }

  lemma WrittenContents(g: Region, bufs: seq<Buf>, disk: Store, logged: seq<nat>, m: Mode, bufs': seq<Buf>,
                        disk': Store)
    requires LogOk(g, bufs, disk, logged, m) && disk.Keys <= disk'.Keys
    requires forall c | c in disk' && c in disk && c.dev != 0 :: Contents(bufs', disk', c) == Contents(bufs, disk, c)
    ensures forall c | c in logged && At(c) in disk :: Contents(bufs', disk', At(c)) == Contents(bufs, disk, At(c))
  {
  }

  /** A logged block that is not installed has a dirty buffer, and log blocks have none. */
  lemma PairFacts(g: Region, bufs: seq<Buf>, disk: Store, logged: seq<nat>, m: Mode, tail: nat)
    requires LogOk(g, bufs, disk, logged, m) && m.Committing? && tail < |logged| && logged[tail] in Pending(m, logged)
    ensures var a, b := At(g.start + 1 + tail), At(logged[tail]);
            && a in disk && b in disk && a != b && HasBuffer(bufs, b) && HasDirty(bufs, logged[tail])
            && !HasDirty(bufs, g.start + 1 + tail) && logged[tail] in m.news
            && Contents(bufs, disk, b) == m.news[logged[tail]]
  {
    var b := logged[tail];
    assert b in logged && IsHome(g, disk, b) && InLog(g, g.start + 1 + tail) && NewsOk(bufs, disk, m.news, b);
    assert HasDirty(bufs, b);
    NoDirty(g, bufs, disk, logged, m, g.start + 1 + tail);
  }

  lemma NoDirty(g: Region, bufs: seq<Buf>, disk: Store, logged: seq<nat>, m: Mode, b: nat)
    requires LogOk(g, bufs, disk, logged, m) && InLog(g, b)
    ensures !HasDirty(bufs, b)
  {
    forall i | 0 <= i < |bufs| ensures !(bufs[i].dirty && bufs[i].addr == At(b)) {
      assert BufferOk(bufs[i], disk, Writers(m), Pending(m, logged));
      assert b !in logged;
    }
  }

  lemma UnlockedStill(bufs: seq<Buf>, bufs': seq<Buf>, i: nat, a: Addr)
    requires Unlocked(bufs, a) && i < |bufs| == |bufs'| && bufs' == bufs[i := bufs'[i]]
    requires bufs'[i].addr != a || bufs'[i].holder == 0
    ensures Unlocked(bufs', a)
  {
  }

  /** A write of install_trans takes one block off the pending ones; other writes do not. */
  lemma PendingNext(logged: seq<nat>, m: Mode, d: Disk<Block>)
    requires m.Committing?
    ensures var n, t, m' := |logged|, |m.trace|, m.(trace := m.trace + [d]);
            && (t <= n || t == 2 * n + 1 ==> Pending(m', logged) == Pending(m, logged))
            && (n < t <= 2 * n ==>
                  && Pending(m, logged) != [] && Pending(m, logged)[0] == logged[t - n - 1]
                  && Pending(m', logged) == Pending(m, logged)[1..])
  {
  }

  lemma CrashOf(g: Region, bufs: seq<Buf>, disk: Store, logged: seq<nat>, m: Mode, cuts: seq<nat>)
    requires LogOk(g, bufs, disk, logged, m)
    ensures DiskOk(DiskOf(g, disk))
    ensures var r := Boot(DiskOf(g, disk), cuts);
            && DiskOk(r) && r.head.n == 0 && (m.Open? ==> r.home == DiskOf(g, disk).home)
            && (m.Committing? ==>
                  && AllIn(logged, m.news)
                  && r.home == if |m.trace| <= |logged| then m.base.home else Updated(m.base.home, logged, m.news))
    ensures m.Committing? ==> forall b | b in logged :: NewsOk(bufs, disk, m.news, b)
  {
    hide DiskOf, CommitTrace, CutAt, Boot, Updated, BufferOk, HasDirty, NewsOk;
    if m.Open? {
      BootReaches(DiskOf(g, disk), cuts);
    } else {
      CrashAtomicity(m.base, logged, m.news, |m.trace|, cuts);
    }
  }

  lemma LoggableOf(g: Region, bufs: seq<Buf>, disk: Store, logged: seq<nat>, m: Mode)
    requires LogOk(g, bufs, disk, logged, m) && m.Committing?
    ensures Loggable(m.base, logged, m.news)
  {
  }

  lemma HeldBy(s0: seq<Buf>, s: seq<Buf>, held: set<nat>, me: nat, i: nat)
    requires Use(s0, s, held, me) && i in held && i < |s|
    ensures s[i].holder == me
  {
    assert UseAt(s0[i], s[i], i in held, me);
  }

  /** The commit has made one more write, if `ok`. */
  ghost predicate Advanced(m: Mode, m': Mode, ok: bool) {
    if ok then m.Committing? && m'.Committing? && m' == m.(trace := m'.trace) && |m'.trace| == |m.trace| + 1
    else m' == m
  }

  lemma PendingAt(logged: seq<nat>, m: Mode, tail: nat)
    requires m.Committing? && tail < |logged| && (|m.trace| == tail || |m.trace| == |logged| + 1 + tail)
    ensures logged[tail] in Pending(m, logged)
  {
    var k := Done(|logged|, |m.trace|);
    assert Pending(m, logged)[tail - k] == logged[tail];
  }

  lemma SlotIn(g: Region, bufs: seq<Buf>, disk: Store, logged: seq<nat>, m: Mode, tail: nat)
    requires LogOk(g, bufs, disk, logged, m) && tail < |logged|
    ensures InLog(g, g.start + 1 + tail)
  {
  }

  lemma HeadFacts(g: Region, bufs: seq<Buf>, disk: Store, logged: seq<nat>, m: Mode)
    requires LogOk(g, bufs, disk, logged, m)
    ensures At(g.start) in disk && !HasDirty(bufs, g.start) && InLog(g, g.start)
    ensures |logged| <= LOGSIZE && |logged| <= g.slots
    ensures forall x | x in logged :: x < UINT
  {
    NoDirty(g, bufs, disk, logged, m, g.start);
    forall x | x in logged ensures x < UINT {
      assert IsHome(g, disk, x);
      assert At(x).block == x;
    }
  }

  // ---------------------------------------------------------------- enough buffers

  /** Nobody has a reference to a buffer. */
  ghost predicate Quiet(bufs: seq<Buf>) {
    forall i | 0 <= i < |bufs| :: bufs[i].refcnt == 0 && bufs[i].holder == 0
  }

  ghost predicate SomeClean(bufs: seq<Buf>) {
    exists i :: 0 <= i < |bufs| && !bufs[i].dirty
  }

  /** The commit is the same one. */
  ghost predicate OnCourse(m: Mode, m': Mode) {
    m.Committing? && m'.Committing? && m' == m.(trace := m'.trace)
  }

  ghost predicate Finished(g: Region, logged: seq<nat>, m: Mode) {
    m.Committing? && Loggable(m.base, logged, m.news) && |m.trace| == |CommitTrace(m.base, logged, m.news)|
  }

  lemma UseNone(s0: seq<Buf>, me: nat)
    ensures Use(s0, s0, {}, me)
  {
  }

  /** A buffer that bget may give to another block. */
  ghost predicate SomeFree(bufs: seq<Buf>) {
    exists i :: 0 <= i < |bufs| && !InUse(bufs[i])
  }

  /** The blocks that a commit reads and writes. */
  predicate Needed(g: Region, logged: seq<nat>, a: Addr) {
    a.dev == ROOTDEV && (InLog(g, a.block) || a.block in logged)
  }

  ghost predicate ClearAt(g: Region, b: Buf, logged: seq<nat>, me: nat) {
    b.holder != me && (b.holder != 0 ==> b.refcnt > 0 && !Needed(g, logged, b.addr))
  }

  /** Nobody has locked a block that the commit needs. */
  ghost predicate Clear(g: Region, bufs: seq<Buf>, logged: seq<nat>, me: nat) {
    forall i: nat | i < |bufs| :: ClearAt(g, bufs[i], logged, me)
  }

  lemma QuietClear(g: Region, bufs: seq<Buf>, logged: seq<nat>, me: nat)
    requires Quiet(bufs) && me != 0
    ensures Clear(g, bufs, logged, me)
  {
  }

  lemma QuietClean(bufs: seq<Buf>)
    ensures Quiet(bufs) ==> (SomeFree(bufs) <==> SomeClean(bufs))
  {
    if Quiet(bufs) {
      assert SomeClean(bufs) ==> exists i :: 0 <= i < |bufs| && !bufs[i].dirty && !InUse(bufs[i]);
    }
  }

  lemma ClearUse(g: Region, s0: seq<Buf>, s: seq<Buf>, logged: seq<nat>, me: nat, a: Addr)
    requires Clear(g, s0, logged, me) && Use(s0, s, {}, me) && me != 0
    ensures Needed(g, logged, a) ==> Unlocked(s, a)
    ensures (SomeFree(s0) ==> HasBuffer(s, a)) && forall i | 0 <= i < |s| :: s[i].holder != me
  {
    forall i: nat | i < |s|
      ensures s[i].holder != me && (InUse(s[i]) ==> InUse(s0[i]))
      ensures Needed(g, logged, a) && s[i].addr == a ==> s[i].holder == 0
    {
      assert UseAt(s0[i], s[i], false, me) && ClearAt(g, s0[i], logged, me);
    }
    if i :| 0 <= i < |s0| && !InUse(s0[i]) {
      assert !InUse(s[i]);
    }
  }

  /** The blocks of the dirty buffers. */
  ghost function DirtyBlocks(bufs: seq<Buf>): set<nat> {
    set i | 0 <= i < |bufs| && bufs[i].dirty :: bufs[i].addr.block
  }

  lemma {:induction false} CountDirty(bufs: seq<Buf>)
    requires Unique(bufs) && forall i | 0 <= i < |bufs| && bufs[i].dirty :: bufs[i].addr.dev == ROOTDEV
    ensures |DirtyBlocks(bufs)| <= |bufs| && (|DirtyBlocks(bufs)| < |bufs| <==> SomeClean(bufs))
  {
    if bufs != [] {
      hide DirtyBlocks, Unique, SomeClean;
      var n := |bufs| - 1;
      UniqueRest(bufs, n);
      CountDirty(bufs[..n]);
      DirtyLast(bufs);
      CleanLast(bufs);
    } else {
      assert DirtyBlocks(bufs) == {};
    }
  }

  lemma UniqueRest(bufs: seq<Buf>, n: nat)
    requires Unique(bufs) && n <= |bufs|
    ensures Unique(bufs[..n])
  {
  }

  lemma CleanLast(bufs: seq<Buf>)
    requires bufs != []
    ensures SomeClean(bufs) <==> SomeClean(bufs[..|bufs| - 1]) || !bufs[|bufs| - 1].dirty
  {
    var rest := bufs[..|bufs| - 1];
    if SomeClean(rest) {
      var i :| 0 <= i < |rest| && !rest[i].dirty;
      assert !bufs[i].dirty;
    }
    if i :| 0 <= i < |bufs| && !bufs[i].dirty {
      assert i < |rest| ==> !rest[i].dirty;
    }
  }

  lemma DirtyLast(bufs: seq<Buf>)
    requires bufs != [] && Unique(bufs) && forall i | 0 <= i < |bufs| && bufs[i].dirty :: bufs[i].addr.dev == ROOTDEV
    ensures var n := |bufs| - 1; var rest, b := bufs[..n], bufs[n].addr.block;
            DirtyBlocks(bufs) == (if bufs[n].dirty then DirtyBlocks(rest) + {b} else DirtyBlocks(rest))
            && (bufs[n].dirty ==> b !in DirtyBlocks(rest))
  {
    var n := |bufs| - 1;
    var rest, b := bufs[..n], bufs[n].addr.block;
    forall x ensures x in DirtyBlocks(bufs) <==> x in DirtyBlocks(rest) || (bufs[n].dirty && x == b) {
      if x in DirtyBlocks(rest) {
        var i :| 0 <= i < n && rest[i].dirty && rest[i].addr.block == x;
        assert bufs[i].dirty;
      }
      if x in DirtyBlocks(bufs) {
        var i :| 0 <= i < |bufs| && bufs[i].dirty && bufs[i].addr.block == x;
        assert i < n ==> rest[i].dirty;
      }
    }
    forall i | 0 <= i < n && bufs[n].dirty && rest[i].dirty ensures rest[i].addr.block != b {
      assert bufs[i].addr != bufs[n].addr;
    }
  }

  ghost function Members(s: seq<nat>): set<nat> {
    set b | b in s
  }

  lemma {:induction false} CountDistinct(s: seq<nat>)
    requires Distinct(s)
    ensures |Members(s)| == |s|
  {
    if s != [] {
      var n := |s| - 1;
      var t := s[..n];
      CountDistinct(t);
      assert s == t + [s[n]];
      assert s[n] !in Members(t);
      assert Members(s) == Members(t) + {s[n]};
    }
  }

  lemma DirtyArePending(g: Region, bufs: seq<Buf>, disk: Store, logged: seq<nat>, m: Mode)
    requires LogOk(g, bufs, disk, logged, m)
    ensures DirtyBlocks(bufs) == Members(Pending(m, logged))
    ensures forall i | 0 <= i < |bufs| && bufs[i].dirty :: bufs[i].addr.dev == ROOTDEV
  {
    var p := Pending(m, logged);
    forall i | 0 <= i < |bufs| && bufs[i].dirty ensures bufs[i].addr.dev == ROOTDEV && bufs[i].addr.block in p {
      assert BufferOk(bufs[i], disk, Writers(m), p);
    }
    forall b | b in p ensures b in DirtyBlocks(bufs) {
      assert HasDirty(bufs, b);
      var i :| 0 <= i < |bufs| && bufs[i].dirty && bufs[i].addr == At(b);
      assert bufs[i].addr.block == b;
    }
  }

  /** Up to the first write of a commit there are as many dirty buffers as logged blocks. */
  lemma BuffersLeft(g: Region, bufs: seq<Buf>, disk: Store, logged: seq<nat>, m: Mode)
    requires LogOk(g, bufs, disk, logged, m) && Unique(bufs) && (m.Open? || m.trace == [])
    ensures |logged| <= |bufs| && (|logged| < |bufs| <==> SomeClean(bufs))
  {
    assert Pending(m, logged) == logged;
    DirtyArePending(g, bufs, disk, logged, m);
    CountDirty(bufs);
    CountDistinct(logged);
  }

  /** If all buffers are dirty, there is none for a log block. */
  lemma AllTaken(g: Region, bufs: seq<Buf>, disk: Store, logged: seq<nat>, m: Mode, tail: nat)
    requires LogOk(g, bufs, disk, logged, m) && tail < |logged|
    ensures !SomeClean(bufs) ==> !HasBuffer(bufs, At(g.start + 1 + tail))
  {
    if !SomeClean(bufs) {
      SlotIn(g, bufs, disk, logged, m, tail);
      NoDirty(g, bufs, disk, logged, m, g.start + 1 + tail);
    }
  }

  // ---------------------------------------------------------------- the beginning and the end of a commit

  lemma CommitStarts(g: Region, bufs: seq<Buf>, disk: Store, logged: seq<nat>, m: Mode)
    requires LogOk(g, bufs, disk, logged, m) && m.Committing? && m.trace == []
    ensures StoreOk(g, disk) && (forall b | b in logged :: At(b) in disk)
    ensures m.base == DiskOf(g, disk) && Loggable(m.base, logged, m.news)
    ensures m.news == News(bufs, disk, logged)
  {
    forall b | b in logged ensures b in m.news && At(b) in disk && m.news[b] == Contents(bufs, disk, At(b)) {
      assert NewsOk(bufs, disk, m.news, b);
    }
  }

  lemma CommitFinished(g: Region, s0: seq<Buf>, disk0: Store, bufs: seq<Buf>, disk: Store, logged: seq<nat>, m: Mode)
    requires LogOk(g, bufs, disk, logged, m) && m.Committing? && StoreOk(g, disk0)
    requires forall b | b in logged :: At(b) in disk0
    requires m.base == DiskOf(g, disk0) && m.news == News(s0, disk0, logged)
    requires |m.trace| == if logged == [] then 0 else 2 * |logged| + 2
    ensures Finished(g, logged, m) && m.trace == CommitTrace(DiskOf(g, disk0), logged, News(s0, disk0, logged))
    ensures forall b | IsHome(g, disk0, b) ::
              At(b) in disk && disk[At(b)] == if b in logged then Contents(s0, disk0, At(b)) else disk0[At(b)]
  {
    var t := CommitTrace(m.base, logged, m.news);
    assert t[..|t|] == t;
    var d := DiskOf(g, disk);
    assert d == CutAt(m.base, t, |t|);
    hide LogOk, CommitTrace, CutAt, DiskOf, Contents, Loggable, DiskOk, StoreOk;
    forall b | IsHome(g, disk0, b)
      ensures At(b) in disk && disk[At(b)] == if b in logged then Contents(s0, disk0, At(b)) else disk0[At(b)]
    {
      FinishedHome(g, s0, disk0, disk, logged, b);
    }
  }

  lemma FinishedHome(g: Region, s0: seq<Buf>, disk0: Store, disk: Store, logged: seq<nat>, b: nat)
    requires StoreOk(g, disk0) && StoreOk(g, disk) && (forall c | c in logged :: At(c) in disk0)
    requires Loggable(DiskOf(g, disk0), logged, News(s0, disk0, logged)) && DiskOf(g, disk0).head.n == 0
    requires var t := CommitTrace(DiskOf(g, disk0), logged, News(s0, disk0, logged));
             DiskOf(g, disk) == CutAt(DiskOf(g, disk0), t, |t|)
    requires IsHome(g, disk0, b)
    ensures At(b) in disk && disk[At(b)] == if b in logged then Contents(s0, disk0, At(b)) else disk0[At(b)]
  {
    hide CommitTrace, CutAt, Contents, Loggable;
    var news := News(s0, disk0, logged);
    HomeAt(g, disk0, b);
    HomeAt(g, disk, b);
    CommitHome(DiskOf(g, disk0), logged, news, |CommitTrace(DiskOf(g, disk0), logged, news)|, b);
  }

  lemma LastOne(ops: set<nat>, me: nat)
    requires me in ops && |ops| == 1
    ensures ops == {me}
  {
    assert |ops - {me}| == 0;
    assert ops == ops - {me} + {me};
  }

  /** While operations are open, the contents of a buffer that one of them holds may change. */
  lemma OpenStep(g: Region, bufs: seq<Buf>, disk: Store, logged: seq<nat>, m: Mode, i: nat, b: Buf)
    requires LogOk(g, bufs, disk, logged, m) && m.Open? && i < |bufs| && b == bufs[i].(data := b.data)
    requires b.holder in m.ops
    ensures LogOk(g, bufs[i := b], disk, logged, m)
  {
    var bufs' := bufs[i := b];
    assert BufferOk(bufs[i], disk, Writers(m), Pending(m, logged));
    forall c | c in Pending(m, logged) ensures HasDirty(bufs', c) {
      DirtyStays(bufs, i, b, c);
    }
  }

  lemma BufferOf(g: Region, bufs: seq<Buf>, disk: Store, logged: seq<nat>, m: Mode, i: nat)
    requires LogOk(g, bufs, disk, logged, m) && i < |bufs|
    ensures BufferOk(bufs[i], disk, Writers(m), Pending(m, logged))
  {
  }

  lemma NoBufferWhen(bufs: seq<Buf>, a: Addr)
    ensures HasBuffer(bufs, a) <==> !forall i | 0 <= i < |bufs| :: bufs[i].addr != a && InUse(bufs[i])
  {
  }
}
