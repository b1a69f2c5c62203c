/** The buffers of bio.c as values: what a block contains, given the buffers and the disk, and which changes
    of a buffer leave that as it is.
 */
module Buffers {
  import opened DiskBlocks

  /** A device number and a block number. */
  datatype Addr = Addr(dev: nat, block: nat)

  /** `holder` is the process that holds the sleep lock, or 0. */
  datatype Buf = Buf(addr: Addr, refcnt: nat, holder: nat, valid: bool, dirty: bool, data: Block)

  type Store = map<Addr, Block>

  ghost predicate Unique(bufs: seq<Buf>) {
    forall i, j | 0 <= i < j < |bufs| && bufs[i].addr.dev != 0 :: bufs[i].addr != bufs[j].addr
  }

  ghost predicate BufOk(b: Buf, disk: Store) {
    && (b.holder != 0 ==> b.refcnt > 0)
    && (b.valid || b.dirty ==> b.addr.dev != 0 && b.addr in disk)
    && (b.dirty ==> b.valid)
    && (b.holder == 0 && b.valid && !b.dirty ==> b.data == disk[b.addr])
  }

  /** A buffer that bget may not give to another block. */
  predicate InUse(b: Buf) {
    b.refcnt != 0 || b.dirty
  }

  ghost predicate Caches(bufs: seq<Buf>, i: int, a: Addr) {
    0 <= i < |bufs| && bufs[i].addr == a && bufs[i].valid
  }

  /** What a process that locks block `a` finds there: its buffer if it has a valid one, else the disk. */
  ghost function Contents(bufs: seq<Buf>, disk: Store, a: Addr): Block
    requires a in disk
  {
    if exists i :: Caches(bufs, i, a) then
      var i :| Caches(bufs, i, a);
      bufs[i].data
    else disk[a]
  }

  lemma ContentsOf(bufs: seq<Buf>, disk: Store, i: nat)
    requires Unique(bufs) && i < |bufs| && bufs[i].valid && bufs[i].addr.dev != 0 && bufs[i].addr in disk
    ensures Contents(bufs, disk, bufs[i].addr) == bufs[i].data
  {
    assert Caches(bufs, i, bufs[i].addr);
  }

  /** Giving a clean, unlocked buffer to another block changes what no block contains. */
  lemma RecycleKeepsContents(bufs: seq<Buf>, disk: Store, i: nat, b: Buf, a: Addr)
    requires Unique(bufs) && i < |bufs| && BufOk(bufs[i], disk) && !InUse(bufs[i])
    requires !b.valid && b.addr.dev != 0 && forall j | 0 <= j < |bufs| :: bufs[j].addr != b.addr
    requires a in disk && a.dev != 0
    ensures Contents(bufs[i := b], disk, a) == Contents(bufs, disk, a)
  {
    var bufs' := bufs[i := b];
    if j :| Caches(bufs', j, a) {
      assert Caches(bufs, j, a);
      ContentsOf(bufs, disk, j);
      assert Unique(bufs');
      ContentsOf(bufs', disk, j);
    } else if j :| Caches(bufs, j, a) {
      assert j != i ==> Caches(bufs', j, a);
      ContentsOf(bufs, disk, i);
    }
  }

  /** Reading a block from the disk into its buffer changes what no block contains. */
  lemma FillKeepsContents(bufs: seq<Buf>, disk: Store, i: nat, a: Addr)
    requires Unique(bufs) && i < |bufs| && !bufs[i].valid && bufs[i].addr in disk && bufs[i].addr.dev != 0
    requires a in disk && a.dev != 0
    ensures Contents(bufs[i := bufs[i].(valid := true, data := disk[bufs[i].addr])], disk, a)
         == Contents(bufs, disk, a)
  {
    var bufs' := bufs[i := bufs[i].(valid := true, data := disk[bufs[i].addr])];
    assert Unique(bufs');
    if a == bufs[i].addr {
      ContentsOf(bufs', disk, i);
      assert forall j :: !Caches(bufs, j, a);
    } else if j :| Caches(bufs, j, a) {
      assert Caches(bufs', j, a);
      ContentsOf(bufs, disk, j);
      ContentsOf(bufs', disk, j);
    } else {
      assert forall j :: Caches(bufs', j, a) ==> Caches(bufs, j, a);
    }
  }

  /** A buffer that differs from the disk is dirty. */
  ghost predicate Settled(b: Buf, disk: Store) {
    b.valid && !b.dirty ==> b.addr in disk && b.data == disk[b.addr]
  }

  /** A block without a dirty buffer, and whose buffer is settled, contains what is on the disk. */
  lemma SettledContents(bufs: seq<Buf>, disk: Store, a: Addr)
    requires Unique(bufs) && a in disk && a.dev != 0
    requires forall i | 0 <= i < |bufs| && bufs[i].addr == a :: !bufs[i].dirty && Settled(bufs[i], disk)
    ensures Contents(bufs, disk, a) == disk[a]
  {
    if i :| Caches(bufs, i, a) {
      ContentsOf(bufs, disk, i);
    }
  }

  /** Counting references and locking change what no block contains. */
  lemma SameKeepsContents(bufs: seq<Buf>, disk: Store, i: nat, b: Buf, a: Addr)
    requires Unique(bufs) && i < |bufs| && a in disk && a.dev != 0
    requires b.addr == bufs[i].addr && b.valid == bufs[i].valid && b.data == bufs[i].data
    ensures Contents(bufs[i := b], disk, a) == Contents(bufs, disk, a)
  {
    var bufs' := bufs[i := b];
    assert Unique(bufs');
    if j :| Caches(bufs, j, a) {
      assert Caches(bufs', j, a);
      ContentsOf(bufs, disk, j);
      ContentsOf(bufs', disk, j);
    } else {
      assert forall j :: Caches(bufs', j, a) ==> Caches(bufs, j, a);
    }
  }

  /** Changing one block's buffer and disk copy leaves the contents of the others. */
  lemma OthersKeepContents(bufs: seq<Buf>, disk: Store, disk': Store, i: nat, b: Buf, a: Addr)
    requires Unique(bufs) && i < |bufs| && a in disk && a in disk' && disk[a] == disk'[a] && a.dev != 0
    requires b.addr == bufs[i].addr && a != b.addr
    ensures Contents(bufs[i := b], disk', a) == Contents(bufs, disk, a)
  {
    var bufs' := bufs[i := b];
    assert Unique(bufs');
    if j :| Caches(bufs, j, a) {
      assert Caches(bufs', j, a);
      ContentsOf(bufs, disk, j);
      ContentsOf(bufs', disk', j);
    } else {
      assert forall j :: Caches(bufs', j, a) ==> Caches(bufs, j, a);
    }
  }
}
