/** Files on the log of log.c in any interleaving: processes open operations, write chunks of files in them and
    close them, the last one out commits, and the machine may stop anywhere and as often as it likes. Here
    begin_op decides what shares a commit. Chunks follow one another; operations overlap.
 */
module GroupFiles {
  import opened Common
  import opened BlockOwners
  import opened DiskState
  import opened FileData
  import opened RedoLog
  import opened FileCrash
  import opened GroupCrash
  import GroupCommit

  type LogMachine = GroupCommit.State<Content>

  /** The machine, with what led to it: the volumes that the chunks `txs` went through since the beginning,
      but for those that crashes have undone. The first `kept` chunks are durable. */
  datatype System = System(log: LogMachine, shots: seq<Shot>, txs: seq<Tx>, kept: nat)

  /** Chunk(p, x, t, writes): the open operation of process `p` does the chunk `x`, which leads to the volume
      `t`, and calls log_write for the blocks in `writes`, some perhaps more than once. */
  datatype Move =
    | Begin(p: nat)
    | Chunk(p: nat, x: Tx, t: Shot, writes: seq<nat>)
    | End(p: nat)
    | Commit
    | Crash(cut: nat, cuts: seq<nat>)

  // ---------------------------------------------------------------- the writes of a chunk

  /** Each log_write in turn is one that the log allows. */
  ghost predicate Writable(s: LogMachine, p: nat, writes: seq<nat>, news: Home<Content>)
    requires GroupCommit.Inv(s)
    decreases |writes|
  {
    writes == []
    || (&& writes[0] in news && GroupCommit.Enabled(s, GroupCommit.Write(p, writes[0], news[writes[0]]))
        && Writable(Logs(s, p, writes[0], news), p, writes[1..], news))
  }

  /** One log_write. */
  ghost function Logs(s: LogMachine, p: nat, b: nat, news: Home<Content>): (r: LogMachine)
    requires GroupCommit.Inv(s) && b in news && GroupCommit.Enabled(s, GroupCommit.Write(p, b, news[b]))
    ensures GroupCommit.Inv(r) && r.disk == s.disk
    ensures r.disk.home + r.cache == (s.disk.home + s.cache)[b := news[b]]
  {
    GroupCommit.WriteStep(s, p, b, news[b]);
    GroupCommit.Next(s, GroupCommit.Write(p, b, news[b]))
  }

  ghost function Written(s: LogMachine, p: nat, writes: seq<nat>, news: Home<Content>): (r: LogMachine)
    requires GroupCommit.Inv(s) && Writable(s, p, writes, news)
    decreases |writes|
  {
    if writes == [] then s else Written(Logs(s, p, writes[0], news), p, writes[1..], news)
  }

  lemma {:induction false} WrittenVisible(s: LogMachine, p: nat, writes: seq<nat>, news: Home<Content>)
    requires GroupCommit.Inv(s) && Writable(s, p, writes, news)
    ensures AllIn(writes, news)
    ensures var r := Written(s, p, writes, news);
            && GroupCommit.Inv(r) && r.disk == s.disk
            && r.disk.home + r.cache == Updated(s.disk.home + s.cache, writes, news)
    decreases |writes|
  {
    hide GroupCommit.Inv, GroupCommit.Enabled;
    if writes == [] {
      assert Updated(s.disk.home + s.cache, writes, news) == s.disk.home + s.cache;
    } else {
      var b, rest := writes[0], writes[1..];
      WrittenVisible(Logs(s, p, b, news), p, rest, news);
      UpdatedMore(s.disk.home + s.cache, b, rest, news);
      assert writes == [b] + rest;
    }
  }

  /** log_write opens and ends no operation. */
  lemma {:induction false} WrittenOpen(s: LogMachine, p: nat, writes: seq<nat>, news: Home<Content>)
    requires GroupCommit.Inv(s) && Writable(s, p, writes, news) && p < |s.left| && s.left[p] >= 0
    ensures var r := Written(s, p, writes, news);
            && |r.left| == |s.left| && r.left[p] >= 0 && r.log.outstanding == s.log.outstanding
            && r.log.committing == s.log.committing
    decreases |writes|
  {
    hide GroupCommit.Inv;
    if writes != [] {
      WrittenOpen(Logs(s, p, writes[0], news), p, writes[1..], news);
    }
  }

  lemma UpdatedMore(h: Home<Content>, b: nat, rest: seq<nat>, news: Home<Content>)
    requires b in news && AllIn(rest, news)
    ensures AllIn([b] + rest, news) && Updated(h, [b] + rest, news) == Updated(h[b := news[b]], rest, news)
  {
  }

  /** An operation that may still add as many blocks as a chunk has can do the chunk: on a log of LOGSIZE slots,
      or where slots are left for it, no log_write of it panics, whatever the others have logged. */
  lemma {:induction false} ChunkAdmitted(s: LogMachine, p: nat, writes: seq<nat>, news: Home<Content>)
    requires GroupCommit.Inv(s) && p < |s.left| && s.left[p] >= |writes|
    requires |s.disk.log| >= LOGSIZE || |s.log.blocks| + |writes| <= |s.disk.log|
    requires AllIn(writes, news) && AllIn(writes, s.disk.home)
    ensures Writable(s, p, writes, news)
    decreases |writes|
  {
    if writes != [] {
      var b := writes[0];
      GroupCommit.SetLeft(s.left, p, -1);
      GroupCommit.NoneOpen(s.left);
      assert b in writes;
      assert forall c | c in writes[1..] :: c in writes;
      ChunkAdmitted(Logs(s, p, b, news), p, writes[1..], news);
    }
  }

  // ---------------------------------------------------------------- moves

  /** The disk holds the volume after the chunks that are kept, and what operations see is the volume after all
      of them. */
  ghost predicate Ok(g: Geometry, f: System) {
    && GroupCommit.Inv(f.log) && TxRun(g, f.shots, f.txs) && f.kept <= |f.txs|
    && f.log.disk.home == Image(g, f.shots[f.kept])
    && f.log.disk.home + f.log.cache == Image(g, f.shots[|f.txs|])
  }

  ghost predicate Can(g: Geometry, f: System, m: Move)
    requires Ok(g, f)
  {
    match m
    case Begin(p) => GroupCommit.Enabled(f.log, GroupCommit.Begin(p))
    case Chunk(p, x, t, writes) =>
      && p < |f.log.left| && f.log.left[p] >= 0 && TxStep(g, f.shots[|f.txs|], t, x)
      && (forall b: nat :: b in writes <==> b in x.log) && Writable(f.log, p, writes, Image(g, t))
    case End(p) => GroupCommit.Enabled(f.log, GroupCommit.End(p))
    case Commit => GroupCommit.Enabled(f.log, GroupCommit.Commit)
    case Crash(cut, cuts) => GroupCommit.Enabled(f.log, GroupCommit.Crash(cut, cuts))
  }

  /** A crash keeps all chunks if the header of a commit was written, and otherwise those that were durable. */
  ghost function Do(g: Geometry, f: System, m: Move): System
    requires Ok(g, f) && Can(g, f, m)
  {
    match m
    case Begin(p) => f.(log := GroupCommit.Next(f.log, GroupCommit.Begin(p)))
    case Chunk(p, x, t, writes) =>
      System(Written(f.log, p, writes, Image(g, t)), f.shots + [t], f.txs + [x], f.kept)
    case End(p) => f.(log := GroupCommit.Next(f.log, GroupCommit.End(p)))
    case Commit => f.(log := GroupCommit.Next(f.log, GroupCommit.Commit), kept := |f.txs|)
    case Crash(cut, cuts) =>
      var k := if cut <= |f.log.log.blocks| then f.kept else |f.txs|;
      System(GroupCommit.Next(f.log, GroupCommit.Crash(cut, cuts)), f.shots[..k + 1], f.txs[..k], k)
  }

  lemma ChunkOk(g: Geometry, f: System, p: nat, x: Tx, t: Shot, writes: seq<nat>)
    requires Ok(g, f) && Can(g, f, Chunk(p, x, t, writes))
    ensures Ok(g, Do(g, f, Chunk(p, x, t, writes)))
  {
    hide GroupCommit.Inv, Image, Updated, Covers, SoundShot, Written, Writable;
    var s := f.shots[|f.txs|];
    TxMore(g, f.shots, f.txs, t, x);
    WrittenVisible(f.log, p, writes, Image(g, t));
    ShotSize(g, f.shots, f.txs, |f.txs|);
    UpdatedImage(g, s, t, x.log, writes);
  }

  /** A chunk of an open operation is possible when its reservation allows it, and a slot of the log is left for
      each of its blocks. */
  lemma ChunkCan(g: Geometry, f: System, p: nat, x: Tx, t: Shot, writes: seq<nat>)
    requires Ok(g, f) && p < |f.log.left| && f.log.left[p] >= |writes| && TxStep(g, f.shots[|f.txs|], t, x)
    requires |f.log.disk.log| >= LOGSIZE || |f.log.log.blocks| + |writes| <= |f.log.disk.log|
    requires forall b: nat :: b in writes <==> b in x.log
    ensures Can(g, f, Chunk(p, x, t, writes))
  {
    hide GroupCommit.Inv, Updated, Covers, SoundShot, Writable, ContentAt;
    ShotSize(g, f.shots, f.txs, |f.txs|);
    ShotSize(g, f.shots, f.txs, f.kept);
    UpdatedImage(g, f.shots[|f.txs|], t, x.log, writes);
    ChunkAdmitted(f.log, p, writes, Image(g, t));
  }

  /** When nobody has an operation open, a process can write a chunk and make it durable. */
  lemma ChunkGetsDurable(g: Geometry, f: System, p: nat, x: Tx, t: Shot, writes: seq<nat>) returns (f': System)
    requires Ok(g, f) && p < |f.log.left| && TxStep(g, f.shots[|f.txs|], t, x) && |f.log.disk.log| >= LOGSIZE
    requires f.log.log == GroupCommit.LogState(0, false, []) && |writes| <= MAXOPBLOCKS
    requires forall b: nat :: b in writes <==> b in x.log
    ensures Can(g, f, Begin(p)) && Ok(g, Do(g, f, Begin(p)))
    ensures var f1 := Do(g, f, Begin(p));
            && Can(g, f1, Chunk(p, x, t, writes)) && Ok(g, Do(g, f1, Chunk(p, x, t, writes)))
            && var f2 := Do(g, f1, Chunk(p, x, t, writes));
               && Can(g, f2, End(p)) && Ok(g, Do(g, f2, End(p)))
               && var f3 := Do(g, f2, End(p));
                  Can(g, f3, Commit) && f' == Do(g, f3, Commit)
    ensures Ok(g, f') && f'.txs == f.txs + [x] && f'.kept == |f'.txs| && f'.log.disk.home == Image(g, t)
  {
    hide Image, TxStep, Written, Writable;
    GroupCommit.NoneOpen(f.log.left);
    MoveOk(g, f, Begin(p));
    var f1 := Do(g, f, Begin(p));
    ChunkCan(g, f1, p, x, t, writes);
    MoveOk(g, f1, Chunk(p, x, t, writes));
    var f2 := Do(g, f1, Chunk(p, x, t, writes));
    WrittenOpen(f1.log, p, writes, Image(g, t));
    MoveOk(g, f2, End(p));
    var f3 := Do(g, f2, End(p));
    MoveOk(g, f3, Commit);
    f' := Do(g, f3, Commit);
  }

  lemma TxPrefix(g: Geometry, shots: seq<Shot>, txs: seq<Tx>, k: nat)
    requires TxRun(g, shots, txs) && k <= |txs|
    ensures TxRun(g, shots[..k + 1], txs[..k])
  {
    hide TxStep;
  }

  lemma CrashOk(g: Geometry, f: System, cut: nat, cuts: seq<nat>)
    requires Ok(g, f) && Can(g, f, Crash(cut, cuts))
    ensures Ok(g, Do(g, f, Crash(cut, cuts)))
  {
    hide TxStep, Image, GroupCommit.Inv;
    GroupCommit.CrashStep(f.log, cut, cuts);
    GroupCommit.CrashLeaves(f.log, cut, cuts);
    TxPrefix(g, f.shots, f.txs, f.kept);
    TxPrefix(g, f.shots, f.txs, |f.txs|);
    var f' := Do(g, f, Crash(cut, cuts));
    assert f'.log.disk.home + f'.log.cache == f'.log.disk.home;
  }

  lemma CommitOk(g: Geometry, f: System)
    requires Ok(g, f) && Can(g, f, Commit)
    ensures Ok(g, Do(g, f, Commit))
  {
    hide TxRun, Image, GroupCommit.Inv;
    GroupCommit.CommitStep(f.log);
  }

  lemma MoveOk(g: Geometry, f: System, m: Move)
    requires Ok(g, f) && Can(g, f, m)
    ensures Ok(g, Do(g, f, m))
  {
    hide TxRun, Image, GroupCommit.Inv;
    match m
    case Begin(p) => GroupCommit.BeginStep(f.log, p);
    case Chunk(p, x, t, writes) => ChunkOk(g, f, p, x, t, writes);
    case End(p) => GroupCommit.EndStep(f.log, p);
    case Commit => CommitOk(g, f);
    case Crash(cut, cuts) => CrashOk(g, f, cut, cuts);
  }

  // ---------------------------------------------------------------- whole runs

  ghost predicate Initial(g: Geometry, f: System) {
    && GroupCommit.Initial(f.log) && |f.shots| == 1 && f.txs == [] && f.kept == 0
    && SoundShot(g, f.shots[0]) && Laid(g, |f.shots[0].bitmap|, |f.shots[0].inodes|)
    && f.log.disk.home == Image(g, f.shots[0])
  }

  /** From a state outside the invariant anything may follow. */
  ghost predicate Step(g: Geometry, f: System, m: Move, f': System) {
    Ok(g, f) ==> Can(g, f, m) && f' == Do(g, f, m)
  }

  ghost predicate IsRun(g: Geometry, fs: seq<System>, ms: seq<Move>) {
    && |fs| == |ms| + 1 && Initial(g, fs[0])
    && forall j: nat | j < |ms| :: Step(g, fs[j], ms[j], fs[j + 1])
  }

  /** `s` is a sound volume in which every file holds what the first `k` chunks have written to it since `s0`. */
  ghost predicate HoldsChunks(g: Geometry, s0: Shot, txs: seq<Tx>, k: nat, s: Shot) {
    && SoundShot(g, s) && |s.inodes| == |s0.inodes| && k <= |txs|
    && forall i: nat | i < |s.inodes| :: ShotContents(s, i) == Applied(ShotContents(s0, i), txs, i, k)
  }

  lemma VolumeHolds(g: Geometry, shots: seq<Shot>, txs: seq<Tx>, k: nat)
    requires TxRun(g, shots, txs) && k <= |txs|
    ensures HoldsChunks(g, shots[0], txs, k, shots[k])
  {
    hide SoundShot, Applied, TxStep;
    ShotSize(g, shots, txs, k);
    AllContents(g, shots, txs, k);
  }

  lemma InitialOk(g: Geometry, f: System)
    requires Initial(g, f)
    ensures Ok(g, f)
  {
    hide SoundShot, Image;
    GroupCommit.InitialInv(f.log);
    assert f.log.disk.home + f.log.cache == f.log.disk.home;
  }

  lemma {:induction false} RunOk(g: Geometry, fs: seq<System>, ms: seq<Move>, n: nat)
    requires IsRun(g, fs, ms) && n <= |ms|
    ensures Ok(g, fs[n]) && fs[n].shots[0] == fs[0].shots[0]
  {
    hide Ok, Can, Do;
    if n == 0 {
      InitialOk(g, fs[0]);
    } else {
      RunOk(g, fs, ms, n - 1);
      assert Step(g, fs[n - 1], ms[n - 1], fs[n]);
      MoveOk(g, fs[n - 1], ms[n - 1]);
      SameStart(g, fs[n - 1], ms[n - 1]);
    }
  }

  lemma SameStart(g: Geometry, f: System, m: Move)
    requires Ok(g, f) && Can(g, f, m)
    ensures |f.shots| > 0 && |Do(g, f, m).shots| > 0 && Do(g, f, m).shots[0] == f.shots[0]
    ensures f.kept <= Do(g, f, m).kept <= |Do(g, f, m).txs| && f.kept <= |f.txs|
    ensures Do(g, f, m).txs[..f.kept] == f.txs[..f.kept]
  {
    MoveOk(g, f, m);
  }

  /** At every point of every run, after any number of crashes: the disk holds a sound volume in which every file
      has the durable chunks, the operations see one in which every file has all chunks, and what is logged
      fits the header and the log. */
  lemma FilesSurvive(g: Geometry, fs: seq<System>, ms: seq<Move>, n: nat)
    requires IsRun(g, fs, ms) && n <= |ms|
    ensures var f, s0 := fs[n], fs[0].shots[0];
            && f.kept <= |f.txs| < |f.shots|
            && f.log.disk.home == Image(g, f.shots[f.kept])
            && HoldsChunks(g, s0, f.txs, f.kept, f.shots[f.kept])
            && f.log.disk.home + f.log.cache == Image(g, f.shots[|f.txs|])
            && HoldsChunks(g, s0, f.txs, |f.txs|, f.shots[|f.txs|])
            && |f.log.log.blocks| <= LOGSIZE && |f.log.log.blocks| <= |f.log.disk.log|
  {
    hide HoldsChunks, Image, TxStep;
    RunOk(g, fs, ms, n);
    VolumeHolds(g, fs[n].shots, fs[n].txs, fs[n].kept);
    VolumeHolds(g, fs[n].shots, fs[n].txs, |fs[n].txs|);
  }

  /** Once a chunk is durable, no later crash takes it away. */
  lemma {:induction false} DurableStays(g: Geometry, fs: seq<System>, ms: seq<Move>, i: nat, n: nat)
    requires IsRun(g, fs, ms) && i <= n <= |ms|
    ensures fs[i].kept <= |fs[i].txs| && fs[i].kept <= fs[n].kept <= |fs[n].txs|
    ensures fs[n].txs[..fs[i].kept] == fs[i].txs[..fs[i].kept]
  {
    hide Can, Do;
    RunOk(g, fs, ms, i);
    if i < n {
      DurableStays(g, fs, ms, i, n - 1);
      RunOk(g, fs, ms, n - 1);
      var f := fs[n - 1];
      assert Step(g, f, ms[n - 1], fs[n]);
      SameStart(g, f, ms[n - 1]);
      assert fs[n].txs[..fs[i].kept] == fs[n].txs[..f.kept][..fs[i].kept];
      assert f.txs[..fs[i].kept] == f.txs[..f.kept][..fs[i].kept];
    }
  }
}
