/** What the disk blocks of a volume hold, and which of them a transaction has logged: every block that
    differs from what it was when the transaction began. */
module DiskState {
  import opened Bitmap
  import opened BlockOwners
  import opened DiskBlocks
  import opened InodeSlots

  const BPB: nat := 4096   // bitmap bits per block
  const IPB: nat := 8      // inodes per block

  /** A volume on the disk: its bitmap, its inodes, its other blocks, and the places they amount to. */
  datatype Shot = Shot(bitmap: seq<bv8>, data: seq<Block>, inodes: seq<Inode>, slots: map<Place, nat>)

  /** The block that holds bit `b` of the bitmap. */
  function BitBlock(g: Geometry, b: nat): nat {
    b / BPB + g.bmapstart
  }

  /** The block that holds inode `i`. */
  function InodeBlock(g: Geometry, i: nat): nat {
    i / IPB + g.inodestart
  }

  /** The order of the regions: inode blocks, bitmap blocks, data blocks. */
  predicate Laid(g: Geometry, bytes: nat, inodes: nat) {
    && g.inodestart + (inodes + IPB - 1) / IPB <= g.bmapstart
    && g.bmapstart + (bytes + BSIZE - 1) / BSIZE <= g.first <= g.size <= 8 * bytes
  }

  /** Every block that holds something else than in `s` is logged, and only blocks behind the log are. */
  ghost predicate Covered(g: Geometry, s: Shot, bm: seq<bv8>, data: seq<Block>, inodes: seq<Inode>, logged: set<nat>) {
    && |bm| == |s.bitmap| && |data| == |s.data| && |inodes| == |s.inodes|
    && Laid(g, |bm|, |inodes|)
    && (forall x: nat | x < |bm| && bm[x] != s.bitmap[x] :: BitBlock(g, 8 * x) in logged)
    && (forall b: nat | b < |data| && data[b] != s.data[b] :: b in logged)
    && (forall i: nat | i < |inodes| && inodes[i] != s.inodes[i] :: InodeBlock(g, i) in logged)
    && (forall b: nat | b in logged :: g.inodestart <= b < g.size)
  }

  /** A transaction that logged `logged` may turn `s` into `t`. */
  ghost predicate Covers(g: Geometry, s: Shot, t: Shot, logged: set<nat>) {
    Covered(g, s, t.bitmap, t.data, t.inodes, logged)
  }

  lemma CoveredStart(g: Geometry, s: Shot)
    requires Laid(g, |s.bitmap|, |s.inodes|)
    ensures Covered(g, s, s.bitmap, s.data, s.inodes, {})
  {
  }

  lemma BitBlockIn(g: Geometry, bytes: nat, inodes: nat, b: nat)
    requires Laid(g, bytes, inodes) && b < g.size
    ensures g.inodestart <= BitBlock(g, b) < g.size && BitBlock(g, 8 * (b / 8)) == BitBlock(g, b)
  {
    assert b / BPB < (bytes + BSIZE - 1) / BSIZE;
  }

  lemma InodeBlockIn(g: Geometry, bytes: nat, inodes: nat, i: nat)
    requires Laid(g, bytes, inodes) && i < inodes
    ensures g.inodestart <= InodeBlock(g, i) < g.bmapstart <= g.size
  {
  }

  /** A bit may change once its bitmap block is logged. */
  lemma CoveredBit(g: Geometry, s: Shot, bm: seq<bv8>, bm': seq<bv8>, data: seq<Block>, inodes: seq<Inode>,
                   logged: set<nat>, b: nat)
    requires Covered(g, s, bm, data, inodes, logged) && b < g.size && |bm'| == |bm|
    requires forall x | 0 <= x < |bm| && x != b / 8 :: bm'[x] == bm[x]
    ensures Covered(g, s, bm', data, inodes, logged + {BitBlock(g, b)})
  {
    BitBlockIn(g, |bm|, |inodes|, b);
  }

  /** A data block may change once it is logged. */
  lemma CoveredBlock(g: Geometry, s: Shot, bm: seq<bv8>, data: seq<Block>, inodes: seq<Inode>, logged: set<nat>,
                     b: nat, w: Block)
    requires Covered(g, s, bm, data, inodes, logged) && g.first <= b < g.size == |data|
    ensures Covered(g, s, bm, data[b := w], inodes, logged + {b})
  {
  }

  /** An inode may change once its block is logged. */
  lemma CoveredInode(g: Geometry, s: Shot, bm: seq<bv8>, data: seq<Block>, inodes: seq<Inode>, logged: set<nat>,
                     i: nat, n: Inode)
    requires Covered(g, s, bm, data, inodes, logged) && i < |inodes|
    ensures Covered(g, s, bm, data, inodes[i := n], logged + {InodeBlock(g, i)})
  {
    InodeBlockIn(g, |bm|, |inodes|, i);
  }

  /** A block is marked and zeroed. */
  lemma CoveredAlloc(g: Geometry, s: Shot, bm: seq<bv8>, data: seq<Block>, inodes: seq<Inode>, logged: set<nat>, b: nat)
    requires Covered(g, s, bm, data, inodes, logged) && g.first <= b < g.size == |data| && b / 8 < |bm|
    ensures Covered(g, s, Marked(bm, b), data[b := Zero()], inodes, logged + {BitBlock(g, b), b})
  {
    CoveredBit(g, s, bm, Marked(bm, b), data, inodes, logged, b);
    CoveredBlock(g, s, Marked(bm, b), data, inodes, logged + {BitBlock(g, b)}, b, Zero());
    assert logged + {BitBlock(g, b)} + {b} == logged + {BitBlock(g, b), b};
  }

  /** A block is unmarked. */
  lemma CoveredFree(g: Geometry, s: Shot, bm: seq<bv8>, data: seq<Block>, inodes: seq<Inode>, logged: set<nat>, b: nat)
    requires Covered(g, s, bm, data, inodes, logged) && b < g.size && b / 8 < |bm|
    ensures Covered(g, s, Unmarked(bm, b), data, inodes, logged + {BitBlock(g, b)})
  {
    CoveredBit(g, s, bm, Unmarked(bm, b), data, inodes, logged, b);
  }
}
