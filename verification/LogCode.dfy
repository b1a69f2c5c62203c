/** The operations of log.c on the in-memory log structure and the disk. Every block write goes
    through one of three methods that record the disk in `trace`, so that a contract about
    `trace` is a contract about every point where the machine may stop.
 */
module LogCode {
  import opened Common
  import opened DiskBlocks
  import opened RedoLog
  import opened GroupCommit

  lemma CommitAssembled(d: Disk<Block>, bs: seq<nat>, c: Home<Block>, t: seq<Disk<Block>>)
    requires Loggable(d, bs, c) && bs != []
    ensures var s := Sealed(d, bs, c);
            && t + LoggedTrace(d, bs, c, |bs|) + [s] + InstallTrace(s, s.head.n) + [Erased(Installed(s, s.head.n))]
               == t + CommitTrace(d, bs, c)
            && CutAt(d, CommitTrace(d, bs, c), |CommitTrace(d, bs, c)|) == Erased(Installed(s, s.head.n))
  {
  }

  /** The same for recovery, which writes the header last. */
  lemma RecoverAssembled(d: Disk<Block>, t: seq<Disk<Block>>)
    requires DiskOk(d)
    ensures var r := Erased(Installed(d, d.head.n));
            && t + InstallTrace(d, d.head.n) + [r] == t + RecoverTrace(d)
            && DiskOk(r) && r.head.n == 0 && r.home == Recovered(d)
            && r == Installed(d, d.head.n).(head := WithHead(d.head, []))
  {
    RecoveryCut(d, d.head.n + 1);
  }

  lemma InstalledHead(d: Disk<Block>, k: nat)
    requires DiskOk(d) && k <= d.head.n
    ensures DiskOk(Installed(d, k)) && Installed(d, k).head == d.head
  {
    RecoveryCut(d, k);
    assert CutAt(d, RecoverTrace(d), k) == Installed(d, k);
  }

  datatype EndResult = Panicked | Waiters | MustCommit

  class Log {
    var outstanding: int
    var committing: bool
    var n: nat
    var block: array<nat>
    var disk: Disk<Block>
    var cache: Home<Block>           // contents of the dirty buffers
    ghost var trace: seq<Disk<Block>>  // the disk after each block write

    ghost predicate Valid()
      reads this, block
    {
      block.Length == LOGSIZE && n <= LOGSIZE && DiskOk(disk)
    }

    ghost function Mem(): LogState
      requires Valid()
      reads this, block
    {
      LogState(outstanding, committing, block[..n])
    }

    constructor (d: Disk<Block>)
      requires DiskOk(d)
      ensures Valid() && fresh(block) && Mem() == LogState(0, false, [])
      ensures disk == d && cache == map[] && trace == []
    {
      outstanding, committing, n := 0, false, 0;
      block := new nat[LOGSIZE](i => 0);
      disk, cache, trace := d, map[], [];
    }

    method WriteLogBlock(i: nat, w: Block)
      requires i < |disk.log|
      modifies `disk, `trace
      ensures disk == old(disk).(log := old(disk).log[i := w]) && trace == old(trace) + [disk]
    {
      disk := disk.(log := disk.log[i := w]);
      trace := trace + [disk];
    }

    method WriteHomeBlock(b: nat, w: Block)
      modifies `disk, `trace, `cache
      ensures disk == old(disk).(home := old(disk).home[b := w]) && trace == old(trace) + [disk]
      ensures cache == old(cache) - {b}
    {
      disk := disk.(home := disk.home[b := w]);
      cache := cache - {b};
      trace := trace + [disk];
    }

    method WriteHeadBlock(h: Head)
      modifies `disk, `trace
      ensures disk == old(disk).(head := h) && trace == old(trace) + [disk]
    {
      disk := disk.(head := h);
      trace := trace + [disk];
    }

    /** write_log: one log block for each logged home block, in order. */
    method WriteLog()
      requires Valid() && Loggable(disk, block[..n], cache)
      modifies `disk, `trace
      ensures disk == Logged(old(disk), block[..n], cache, n)
      ensures trace == old(trace) + LoggedTrace(old(disk), block[..n], cache, n)
    {
      hide LoggedTrace, Logged;
      ghost var d0, bs := disk, block[..n];
      LoggedNone(d0, bs, cache);
      for tail := 0 to n
        invariant disk == Logged(d0, bs, cache, tail)
        invariant trace == old(trace) + LoggedTrace(d0, bs, cache, tail)
      {
        assert block[tail] == bs[tail];
        LoggedNext(d0, bs, cache, tail);
        WriteLogBlock(tail, cache[block[tail]]);
      }
    }

    /** write_head: the count and the listed entries, in one block. */
    method WriteHead()
      requires Valid()
      modifies `disk, `trace
      ensures disk == old(disk).(head := WithHead(old(disk).head, block[..n])) && trace == old(trace) + [disk]
    {
      var b := disk.head.block;
      for i := 0 to n
        invariant b == block[..i] + disk.head.block[i..]
      {
        b := b[i := block[i]];
      }
      WriteHeadBlock(Head(n, b));
    }

    method ReadHead()
      requires Valid()
      modifies `n, block
      ensures Valid() && block[..n] == Listed(disk.head)
    {
      n := disk.head.n;
      for i := 0 to n
        invariant n == disk.head.n
        invariant block[..i] == disk.head.block[..i]
      {
        block[i] := disk.head.block[i];
        assert block[..i + 1] == block[..i] + [block[i]];
      }
    }

    /** install_trans: each log block to its home, in order; the home buffers become clean. */
    method InstallTrans()
      requires Valid() && block[..n] == Listed(disk.head)
      modifies `disk, `trace, `cache
      ensures disk == Installed(old(disk), n)
      ensures cache == old(cache) - (set b | b in block[..n])
      ensures trace == old(trace) + InstallTrace(old(disk), n)
    {
      ghost var d0, bs := disk, block[..n];
      assert n == d0.head.n;
      assert d0.head.block[..0] == [];
      for tail := 0 to n
        invariant disk == Installed(d0, tail)
        invariant cache == old(cache) - (set b | b in block[..tail])
        invariant trace == old(trace) + InstallTrace(d0, tail)
      {
        assert block[tail] == bs[tail] == d0.head.block[tail];
        assert block[..tail + 1] == block[..tail] + [block[tail]];
        WriteHomeBlock(block[tail], disk.log[tail]);
        assert d0.head.block[..tail + 1][..tail] == d0.head.block[..tail];
      }
    }

    /** commit: the disk passes through exactly the states of CommitTrace, which recover to all or
        nothing of the transaction wherever they are cut. */
    method Commit()
      requires Valid() && Loggable(disk, block[..n], cache) && disk.head.n == 0
      modifies `n, `disk, `trace, `cache
      ensures n == 0 && Valid()
      ensures var t := CommitTrace(old(disk), old(block[..n]), old(cache));
              trace == old(trace) + t && disk == CutAt(old(disk), t, |t|)
      ensures disk.head.n == 0 && disk.home == Updated(old(disk).home, old(block[..n]), old(cache))
      ensures cache == old(cache) - (set b | b in old(block[..n]))
    {
      ghost var d0, bs, c0 := disk, block[..n], cache;
      CommitLeaves(d0, bs, c0);
      if n > 0 {
        WriteLog();
        WriteHead();
        ghost var s := Sealed(d0, bs, c0);
        assert disk == s;
        InstallTrans();
        assert disk == Installed(s, s.head.n);
        n := 0;
        WriteHead();
        assert block[..0] == [];
        assert disk == Erased(Installed(s, s.head.n));
        CommitAssembled(d0, bs, c0, old(trace));
      }
    }

    /** recover_from_log: the disk passes through exactly the states of RecoverTrace. */
    method RecoverFromLog()
      requires Valid() && cache == map[]
      modifies `n, `disk, `trace, `cache, block
      ensures Valid() && n == 0 && cache == map[]
      ensures trace == old(trace) + RecoverTrace(old(disk))
      ensures disk.head.n == 0 && disk.home == Recovered(old(disk))
    {
      hide Installed, InstallTrace, RecoverTrace, Erased, Recovered, WithHead;
      ghost var d := disk;
      ReadHead();
      InstalledHead(d, n);
      InstallTrans();
      n := 0;
      WriteHead();
      assert block[..0] == [];
      RecoverAssembled(d, old(trace));
    }

    /** One pass of the loop in begin_op; the caller sleeps and tries again when not admitted. */
    method BeginOp() returns (admitted: bool)
      requires Valid()
      modifies `outstanding
      ensures admitted <==> Admits(old(Mem()))
      ensures Mem() == if admitted then old(Mem()).(outstanding := old(outstanding) + 1) else old(Mem())
    {
      if committing {
        admitted := false;
      } else if n + (outstanding + 1) * MAXOPBLOCKS > LOGSIZE {
        admitted := false;
      } else {
        outstanding := outstanding + 1;
        admitted := true;
      }
    }

    /** The first critical section of end_op. */
    method EndOp() returns (r: EndResult)
      requires Valid()
      modifies `outstanding, `committing
      ensures r == Panicked <==> old(committing)
      ensures r == MustCommit <==> !old(committing) && old(outstanding) == 1
      ensures r != Panicked ==> Mem() == AfterEnd(old(Mem()))
    {
      outstanding := outstanding - 1;
      if committing {
        return Panicked;
      }
      if outstanding == 0 {
        committing := true;
        r := MustCommit;
      } else {
        r := Waiters;
      }
    }

    /** log_write of a buffer whose new contents are `w`. */
    method LogWrite(b: nat, w: Block) returns (ok: bool)
      requires Valid()
      modifies `n, `cache, block
      ensures Valid()
      ensures ok <==> !WritePanics(old(Mem()), |disk.log|)
      ensures ok ==> Mem() == old(Mem()).(blocks := Append(old(Mem()).blocks, b)) && cache == old(cache)[b := w]
      ensures !ok ==> Mem() == old(Mem()) && cache == old(cache)
    {
      if n >= LOGSIZE || n >= |disk.log| {
        return false;
      }
      if outstanding < 1 {
        return false;
      }
      var i := 0;
      while i < n && block[i] != b
        invariant i <= n
        invariant b !in block[..i]
      {
        i := i + 1;
      }
      ghost var bs := block[..n];
      block[i] := b;
      if i == n {
        n := n + 1;
        assert block[..n] == bs + [b];
      } else {
        assert bs[i] == b;
        assert block[..n] == bs;
      }
      cache := cache[b := w];
      ok := true;
    }
  }

  /** initlog: the log of a machine that boots is empty, and every home block is as recovery leaves it. */
  method InitLog(d: Disk<Block>) returns (log: Log)
    requires DiskOk(d)
    ensures fresh(log) && fresh(log.block) && log.Valid() && log.Mem() == LogState(0, false, []) && log.cache == map[]
    ensures log.trace == RecoverTrace(d) && log.disk.head.n == 0 && log.disk.home == Recovered(d)
  {
    log := new Log(d);
    log.RecoverFromLog();
  }
}
