/** What a file contains: its bytes, read through the slots of its inode (fs.c). */
module FileBytes {
  import opened BlockOwners
  import opened DiskBlocks
  import opened InodeSlots
  import opened FileBlocks

  /** Byte `x` of file `i`. */
  ghost function ByteAt(slots: map<Place, nat>, data: seq<Block>, i: nat, x: nat): Byte {
    var p := Place(i, x / BSIZE);
    if p.k < MAXFILE && p in slots && 0 < slots[p] < |data| then data[slots[p]][x % BSIZE] else 0
  }

  /** The first `n` bytes of file `i`. */
  ghost function Bytes(slots: map<Place, nat>, data: seq<Block>, i: nat, n: nat): (s: seq<Byte>)
    ensures |s| == n && forall x: nat | x < n :: s[x] == ByteAt(slots, data, i, x)
  {
    seq(n, x requires 0 <= x < n => ByteAt(slots, data, i, x))
  }

  /** The number of blocks for `n` bytes. */
  function Blocks(n: nat): nat {
    (n + BSIZE - 1) / BSIZE
  }

  function Max(a: nat, b: nat): nat {
    if a < b then b else a
  }

  /** File `i` has exactly the blocks 0 to m - 1, and an indirect block exactly if it needs one. */
  ghost predicate MappedTo(slots: map<Place, nat>, i: nat, m: nat) {
    && m <= MAXFILE && Place(i, MAXFILE) in slots
    && (forall k: nat | k < MAXFILE :: SlotUsed(slots, i, k, m))
    && (slots[Place(i, MAXFILE)] != 0 <==> m > NDIRECT)
  }

  ghost predicate SlotUsed(slots: map<Place, nat>, i: nat, k: nat, m: nat) {
    Place(i, k) in slots && (slots[Place(i, k)] != 0 <==> k < m)
  }

  /** Files other than `i` keep their slots and the contents of their blocks. */
  ghost predicate OthersSame(slots: map<Place, nat>, data: seq<Block>, slots': map<Place, nat>, data': seq<Block>,
                             i: nat) {
    forall j: nat, x: nat | j != i :: OtherSame(slots, data, slots', data', j, x)
  }

  ghost predicate OtherSame(slots: map<Place, nat>, data: seq<Block>, slots': map<Place, nat>, data': seq<Block>,
                            j: nat, x: nat) {
    && (Place(j, x) in slots ==> Place(j, x) in slots' && slots'[Place(j, x)] == slots[Place(j, x)])
    && ByteAt(slots', data', j, x) == ByteAt(slots, data, j, x)
  }

  function Patched(w: Block, o: nat, piece: seq<Byte>): Block
    requires o + |piece| <= BSIZE
  {
    w[..o] + piece + w[o + |piece|..]
  }

  /** Writing into a block of file `i` changes the bytes written and no slot. */
  lemma PatchSlots(inodes: seq<Inode>, data: seq<Block>, slots: map<Place, nat>, i: nat, bn: nat, w: Block)
    requires Reflects(inodes, data, slots) && Place(i, bn) in slots && bn < MAXFILE
    requires forall p: Place, q: Place :: Unshared(slots, p, q)
    requires 0 < slots[Place(i, bn)] < |data|
    ensures Reflects(inodes, data[slots[Place(i, bn)] := w], slots)
  {
    var addr := slots[Place(i, bn)];
    forall p: Place | p in slots ensures slots[p] == SlotAt(inodes, data[addr := w], p) {
      assert Unshared(slots, Place(i, bn), Place(p.inum, MAXFILE));
      assert slots[Place(p.inum, MAXFILE)] == inodes[p.inum].addrs[NDIRECT];
    }
  }

  lemma PatchByte(data: seq<Block>, slots: map<Place, nat>, i: nat, bn: nat, o: nat, piece: seq<Byte>, j: nat, x: nat)
    requires Place(i, bn) in slots && bn < MAXFILE && o + |piece| <= BSIZE
    requires forall p: Place, q: Place :: Unshared(slots, p, q)
    requires 0 < slots[Place(i, bn)] < |data|
    ensures var addr := slots[Place(i, bn)];
            ByteAt(slots, data[addr := Patched(data[addr], o, piece)], j, x)
            == if j == i && x / BSIZE == bn && o <= x % BSIZE < o + |piece| then piece[x % BSIZE - o]
               else ByteAt(slots, data, j, x)
  {
    assert Unshared(slots, Place(i, bn), Place(j, x / BSIZE));
  }

  /** Mapping one more block of file `i` leaves the bytes of all mapped blocks. */
  lemma MapByte(slots: map<Place, nat>, data: seq<Block>, slots': map<Place, nat>, data': seq<Block>, j: nat, x: nat)
    requires KeepsFiles(slots, data, slots', data')
    requires x / BSIZE < MAXFILE && Place(j, x / BSIZE) in slots && slots[Place(j, x / BSIZE)] != 0
    ensures ByteAt(slots', data', j, x) == ByteAt(slots, data, j, x)
  {
    assert KeepsFile(slots, data, slots', data', Place(j, x / BSIZE));
  }

  lemma MapNext(slots: map<Place, nat>, slots': map<Place, nat>, i: nat, bn: nat, addr: nat, m: nat)
    requires MappedTo(slots, i, m) && bn <= m && bn < MAXFILE && addr != 0 && Mapping(slots, slots', i, bn, addr)
    ensures MappedTo(slots', i, Max(m, bn + 1))
  {
    var m' := Max(m, bn + 1);
    forall k: nat | k < MAXFILE ensures SlotUsed(slots', i, k, m') {
      assert SlotUsed(slots, i, k, m);
    }
    assert SlotUsed(slots, i, bn, m);
  }
}
