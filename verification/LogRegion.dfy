/** Where log.c keeps its log on the disk, and what holds between the log, the buffers and the disk at every
    point: the header block, the log blocks behind it, and the home blocks.
 */
module LogRegion {
  import opened Common
  import opened DiskBlocks
  import opened RedoLog
  import opened Buffers

  const ROOTDEV: nat := 1

  /** The header is block `start`, and the log blocks are the `slots` blocks behind it. */
  datatype Region = Region(start: nat, slots: nat)

  function At(b: nat): Addr {
    Addr(ROOTDEV, b)
  }

  predicate InLog(g: Region, b: nat) {
    g.start <= b <= g.start + g.slots
  }

  predicate IsHome(g: Region, disk: Store, b: nat) {
    At(b) in disk && !InLog(g, b)
  }

  ghost predicate StoreOk(g: Region, disk: Store) {
    && (forall b: nat | InLog(g, b) :: At(b) in disk)
    && (forall a | a in disk :: a.block < UINT)
  }

  // ---------------------------------------------------------------- the disk as the log sees it

  /** struct logheader: the count, and the block numbers. */
  function HeadOf(b: Block): Head {
    Head(Word(b, 0), seq(LOGSIZE, i requires 0 <= i < LOGSIZE => Word(b, i + 1)))
  }

  ghost function HomeOf(g: Region, disk: Store): Home<Block> {
    map a | a in disk && a.dev == ROOTDEV && !InLog(g, a.block) :: a.block := disk[a]
  }

  ghost function LogOf(g: Region, disk: Store): seq<Block>
    requires StoreOk(g, disk)
  {
    seq(g.slots, i requires 0 <= i < g.slots => disk[At(g.start + 1 + i)])
  }

  ghost function DiskOf(g: Region, disk: Store): Disk<Block>
    requires StoreOk(g, disk)
  {
    Disk(HeadOf(disk[At(g.start)]), LogOf(g, disk), HomeOf(g, disk))
  }

  lemma HomeAt(g: Region, disk: Store, b: nat)
    ensures b in HomeOf(g, disk) <==> IsHome(g, disk, b)
    ensures b in HomeOf(g, disk) ==> HomeOf(g, disk)[b] == disk[At(b)]
  {
    if IsHome(g, disk, b) {
      assert At(b).block == b;
    }
  }

  /** Writing a log block, the header or a home block changes that part of the disk. */
  lemma LogWritten(g: Region, disk: Store, i: nat, w: Block)
    requires StoreOk(g, disk) && i < g.slots
    ensures StoreOk(g, disk[At(g.start + 1 + i) := w])
    ensures DiskOf(g, disk[At(g.start + 1 + i) := w]) == DiskOf(g, disk).(log := DiskOf(g, disk).log[i := w])
  {
    var d := disk[At(g.start + 1 + i) := w];
    assert LogOf(g, d) == LogOf(g, disk)[i := w];
    SameHome(g, disk, g.start + 1 + i, w);
  }

  lemma HeadWritten(g: Region, disk: Store, w: Block)
    requires StoreOk(g, disk)
    ensures StoreOk(g, disk[At(g.start) := w])
    ensures DiskOf(g, disk[At(g.start) := w]) == DiskOf(g, disk).(head := HeadOf(w))
  {
    var d := disk[At(g.start) := w];
    assert LogOf(g, d) == LogOf(g, disk);
    SameHome(g, disk, g.start, w);
  }

  lemma SameHome(g: Region, disk: Store, b: nat, w: Block)
    requires InLog(g, b)
    ensures HomeOf(g, disk[At(b) := w]) == HomeOf(g, disk)
  {
    var h, h' := HomeOf(g, disk), HomeOf(g, disk[At(b) := w]);
    forall c: nat ensures (c in h <==> c in h') && (c in h ==> h'[c] == h[c]) {
      HomeAt(g, disk, c);
      HomeAt(g, disk[At(b) := w], c);
    }
  }

  lemma HomeWritten(g: Region, disk: Store, b: nat, w: Block)
    requires StoreOk(g, disk) && IsHome(g, disk, b)
    ensures StoreOk(g, disk[At(b) := w])
    ensures DiskOf(g, disk[At(b) := w]) == DiskOf(g, disk).(home := DiskOf(g, disk).home[b := w])
  {
    var d := disk[At(b) := w];
    assert LogOf(g, d) == LogOf(g, disk);
    var h, h' := HomeOf(g, disk)[b := w], HomeOf(g, d);
    forall c: nat ensures (c in h <==> c in h') && (c in h ==> h'[c] == h[c]) {
      HomeAt(g, disk, c);
      HomeAt(g, d, c);
    }
    assert h == h';
  }

  // ---------------------------------------------------------------- the protocol

  /** Either operations may be open, or the process `owner` commits: `base` is the disk that the commit found,
      `news` the contents of the logged blocks, and `trace` the disks that it has passed through. */
  datatype Mode =
    | Open(ops: set<nat>)
    | Committing(owner: nat, base: Disk<Block>, news: Home<Block>, trace: seq<Disk<Block>>)

  /** The processes that may change buffers. */
  ghost function Writers(m: Mode): set<nat> {
    if m.Open? then m.ops else {m.owner}
  }

  /** How many of `n` logged blocks are installed after `t` writes of the commit. */
  function Done(n: nat, t: nat): nat {
    if t <= n + 1 then 0 else if t >= 2 * n + 1 then n else t - n - 1
  }

  /** The logged blocks that are not yet installed. */
  ghost function Pending(m: Mode, logged: seq<nat>): seq<nat> {
    if m.Open? then logged else logged[Done(|logged|, |m.trace|)..]
  }

  ghost predicate BufferOk(b: Buf, disk: Store, writers: set<nat>, pending: seq<nat>) {
    && (Settled(b, disk) || b.holder in writers)
    && (b.dirty ==> b.addr.dev == ROOTDEV && b.addr.block in pending)
  }

  ghost predicate HasDirty(bufs: seq<Buf>, b: nat) {
    exists i :: 0 <= i < |bufs| && bufs[i].dirty && bufs[i].addr == At(b)
  }

  /** The new contents of a logged block stay visible. */
  ghost predicate NewsOk(bufs: seq<Buf>, disk: Store, news: Home<Block>, b: nat) {
    At(b) in disk && b in news && Contents(bufs, disk, At(b)) == news[b]
  }

  /** The disk is where the commit has brought it. */
  ghost predicate CommitOk(d: Disk<Block>, logged: seq<nat>, m: Mode)
    requires m.Committing?
  {
    && Loggable(m.base, logged, m.news) && m.base.head.n == 0 && m.news.Keys == (set b | b in logged)
    && var t := CommitTrace(m.base, logged, m.news);
       && |m.trace| <= |t| && m.trace == t[..|m.trace|] && d == CutAt(m.base, t, |m.trace|)
  }

  /** Unlogged changes are in the hands of those that may make them, the dirty buffers are those of the logged
      blocks that are not installed, and the home blocks on the disk change by the steps of a commit only. */
  ghost predicate LogOk(g: Region, bufs: seq<Buf>, disk: Store, logged: seq<nat>, m: Mode) {
    && StoreOk(g, disk) && 0 !in Writers(m)
    && |logged| <= LOGSIZE && |logged| <= g.slots && Distinct(logged)
    && (forall b | b in logged :: IsHome(g, disk, b))
    && (forall i | 0 <= i < |bufs| :: BufferOk(bufs[i], disk, Writers(m), Pending(m, logged)))
    && (forall b | b in Pending(m, logged) :: HasDirty(bufs, b))
    && DiskOk(DiskOf(g, disk))
    && if m.Open? then DiskOf(g, disk).head.n == 0
       else CommitOk(DiskOf(g, disk), logged, m) && forall b | b in logged :: NewsOk(bufs, disk, m.news, b)
  }

  /** A change of one buffer that keeps what blocks contain, and its dirty flag, keeps all this. */
  lemma BufferStep(g: Region, bufs: seq<Buf>, disk: Store, logged: seq<nat>, m: Mode, i: nat, b: Buf)
    requires LogOk(g, bufs, disk, logged, m) && i < |bufs|
    requires b.dirty == bufs[i].dirty && (b.dirty ==> b.addr == bufs[i].addr)
    requires Settled(b, disk) || b.holder in Writers(m)
    requires forall c | c in logged
      && At(c) in disk :: Contents(bufs[i := b], disk, At(c)) == Contents(bufs, disk, At(c))
    ensures LogOk(g, bufs[i := b], disk, logged, m)
  {
    var bufs' := bufs[i := b];
    assert BufferOk(bufs[i], disk, Writers(m), Pending(m, logged));
    forall c | c in Pending(m, logged) ensures HasDirty(bufs', c) {
      DirtyStays(bufs, i, b, c);
    }
    if m.Committing? {
      forall c | c in logged ensures NewsOk(bufs', disk, m.news, c) {
        assert NewsOk(bufs, disk, m.news, c);
      }
    }
  }

  lemma DirtyStays(bufs: seq<Buf>, i: nat, b: Buf, c: nat)
    requires i < |bufs| && HasDirty(bufs, c)
    requires bufs[i].dirty && bufs[i].addr == At(c) ==> b.dirty && b.addr == bufs[i].addr
    ensures HasDirty(bufs[i := b], c)
  {
    var j :| 0 <= j < |bufs| && bufs[j].dirty && bufs[j].addr == At(c);
    assert bufs[i := b][j].dirty && bufs[i := b][j].addr == At(c);
  }
}
