/** Block allocation in fs.c: balloc, bfree, bmap and itrunc, and what they keep: the bitmap marks
    exactly the metadata blocks and the blocks that belong to exactly one place of one inode.
 */
module FileBlocks {
  import opened Common
  import opened Bitmap
  import opened BlockOwners
  import opened DiskBlocks
  import opened InodeSlots
  import opened DiskState

  /** Contents of file blocks stay where and what they are. */
  ghost predicate KeepsFiles(slots: map<Place, nat>, data: seq<Block>, slots': map<Place, nat>, data': seq<Block>) {
    && |data'| == |data|
    && (forall p: Place | p in slots && slots[p] != 0 && p.k < MAXFILE :: KeepsFile(slots, data, slots', data', p))
  }

  ghost predicate KeepsFile(slots: map<Place, nat>, data: seq<Block>, slots': map<Place, nat>, data': seq<Block>,
                            p: Place)
    requires |data'| == |data| && p in slots
  {
    p in slots' && slots'[p] == slots[p] && (slots[p] < |data| ==> data'[slots[p]] == data[slots[p]])
  }

  /** How many free blocks bmap takes to map file block `bn`. */
  ghost function Needed(slots: map<Place, nat>, i: nat, bn: nat): nat
    requires Place(i, bn) in slots && Place(i, MAXFILE) in slots
  {
    (if slots[Place(i, bn)] == 0 then 1 else 0) + if bn >= NDIRECT && slots[Place(i, MAXFILE)] == 0 then 1 else 0
  }

  /** On a volume without files only the metadata blocks are in use. */
  lemma NoOwners(g: Geometry, bm: seq<bv8>, slots: map<Place, nat>)
    requires 0 < g.first <= g.size <= 8 * |bm| && (forall b: nat | b < 8 * |bm| :: Bit(bm, b) <==> b < g.first)
    requires forall p: Place | p in slots :: slots[p] == 0
    ensures Owns(g, bm, slots)
  {
    forall b: nat | b < g.size ensures BitOk(g, bm, slots, b) {
      assert b >= g.first ==> forall p: Place :: !Refers(slots, p, b);
    }
  }

  class Volume {
    const g: Geometry
    var bitmap: seq<bv8>
    var data: seq<Block>
    var inodes: seq<Inode>     // the in-memory inodes
    var dinodes: seq<Inode>    // the inodes on the disk
    ghost var slots: map<Place, nat>
    ghost var logged: set<nat> // blocks passed to log_write
    ghost var base: Shot       // the volume when the transaction began

    ghost predicate Valid()
      reads this
    {
      && Owns(g, bitmap, slots)
      && |data| == g.size < UINT
      && Reflects(inodes, data, slots)
      && Covered(g, base, bitmap, data, dinodes, logged)
    }

    /** A volume without files: only the metadata blocks are marked, and no inode has a block. */
    constructor (g: Geometry, bytes: nat, n: nat)
      requires 0 < g.first && g.size < UINT && Laid(g, bytes, n)
      ensures this.g == g && Valid() && |inodes| == n && dinodes == inodes && logged == {}
      ensures forall i: nat | i < n :: inodes[i].size == 0
      ensures forall p: Place | p in slots :: slots[p] == 0
    {
      var bm := MarkFirst(bytes, g.first);
      var d: seq<Block> := seq(g.size, b => Zero());
      var nodes := seq(n, i => Inode(seq(NDIRECT + 1, k => 0), 0));
      ghost var places := map i: nat, k: nat | i < n && k <= MAXFILE :: Place(i, k) := 0;
      this.g, bitmap, data, inodes, dinodes := g, bm, d, nodes, nodes;
      slots, logged, base := places, {}, Shot(bm, d, nodes, places);
      new;
      NoOwners(g, bitmap, slots);
    }

    function BBlock(b: nat): nat {
      BitBlock(g, b)
    }

    function IBlock(i: nat): nat {
      InodeBlock(g, i)
    }

    ghost function Now(): Shot
      reads this
    {
      Shot(bitmap, data, dinodes, slots)
    }

    /** How many blocks are free. */
    ghost function Free(): nat
      reads `bitmap
    {
      |FreeBlocks(bitmap, g.size)|
    }

    /** What bmap logs besides the new block and its bitmap block: the indirect block and, if that is new
        too, its bitmap block. */
    ghost function IndirectLogged(before: map<Place, nat>, after: map<Place, nat>, i: nat, bn: nat): set<nat>
      requires Place(i, MAXFILE) in before && Place(i, MAXFILE) in after
    {
      var ind := after[Place(i, MAXFILE)];
      if bn < NDIRECT then {} else if before[Place(i, MAXFILE)] == 0 then {ind, BBlock(ind)} else {ind}
    }

    /** The loops of balloc: the lowest block with a clear bit, if there is one. */
    method FindFree() returns (r: nat)
      requires Valid()
      ensures r == g.size || (r < g.size && !Bit(bitmap, r))
      ensures forall b: nat | b < r :: Bit(bitmap, b)
    {
      hide Covered, Reflects, BitOk;
      var b := 0;
      while b < g.size
        invariant forall c: nat | c < b && c < g.size :: Bit(bitmap, c)
      {
        var bi := 0;
        while bi < BPB && b + bi < g.size
          invariant 0 <= bi <= BPB && b + bi <= g.size
          invariant forall c: nat | c < b + bi :: Bit(bitmap, c)
        {
          if !Bit(bitmap, b + bi) {
            return b + bi;
          }
          bi := bi + 1;
        }
        b := b + BPB;
      }
      r := g.size;
    }

    /** balloc: the lowest free block, zeroed and marked; 0 if the disk is full. */
    method Balloc() returns (r: nat)
      requires Valid()
      modifies `bitmap, `data, `logged
      ensures r == 0 <==> old(Free()) == 0
      ensures r != 0 ==>
                && r < g.size && !Bit(old(bitmap), r) && (forall b: nat | b < r :: Bit(old(bitmap), b))
                && bitmap == Marked(old(bitmap), r) && data == old(data)[r := Zero()]
                && logged == old(logged) + {BBlock(r), r} && Free() == old(Free()) - 1
      ensures r == 0 ==> unchanged(this)
    {
      hide Covered, Reflects;
      assert BitOk(g, bitmap, slots, 0);
      r := FindFree();
      if r == g.size {
        assert FreeBlocks(bitmap, g.size) == {};
        return 0;
      }
      assert r in FreeBlocks(bitmap, g.size);
      MarkedFree(bitmap, g.size, r);
      bitmap := Marked(bitmap, r);
      logged := logged + {BBlock(r)};
      data := data[r := Zero()];
      logged := logged + {r};
    }

    /** bfree: panics on a block that is free already. */
    method Bfree(b: nat) returns (ok: bool)
      requires b / 8 < |bitmap|
      modifies `bitmap, `logged
      ensures ok <==> Bit(old(bitmap), b)
      ensures ok ==> bitmap == Unmarked(old(bitmap), b) && logged == old(logged) + {BBlock(b)}
      ensures !ok ==> unchanged(this)
    {
      if !Bit(bitmap, b) {
        return false;
      }
      bitmap := Unmarked(bitmap, b);
      logged := logged + {BBlock(b)};
      ok := true;
    }

    /** bmap gives a free block to a direct slot. */
    method GiveDirect(i: nat, k: nat) returns (b: nat)
      requires Valid() && i < |inodes| && k < NDIRECT && inodes[i].addrs[k] == 0
      modifies `bitmap, `data, `inodes, `slots, `logged
      ensures b == 0 <==> old(Free()) == 0
      ensures b == 0 ==> Free() == 0
      ensures b != 0 ==> Free() == old(Free()) - 1
      ensures b != 0 ==>
                && Valid() && slots == old(slots)[Place(i, k) := b] && inodes == WithAddr(old(inodes), i, k, b)
                && KeepsFiles(old(slots), old(data), slots, data) && b < |data| && data[b] == Zero()
                && logged == old(logged) + {BBlock(b), b}
    {
      hide Covered;
      ghost var bm, d, log := bitmap, data, logged;
      b := Balloc();
      if b != 0 {
        GiveOk(g, bm, slots, Place(i, k), b);
        CoveredAlloc(g, base, bm, d, dinodes, log, b);
        UnownedBlock(inodes, d, slots, b, Zero());
        DirectSlot(inodes, data, slots, i, k, b);
        GiveKeeps(slots, d, Place(i, k), b, data);
        inodes := WithAddr(inodes, i, k, b);
        slots := slots[Place(i, k) := b];
      }
    }

    /** bmap gives a free block to an inode as its indirect block. */
    method GiveIndirect(i: nat) returns (b: nat)
      requires Valid() && i < |inodes| && inodes[i].addrs[NDIRECT] == 0
      modifies `bitmap, `data, `inodes, `slots, `logged
      ensures b == 0 <==> old(Free()) == 0
      ensures b == 0 ==> Free() == 0
      ensures b != 0 ==> Free() == old(Free()) - 1
      ensures b != 0 ==>
                && Valid() && slots == old(slots)[Place(i, MAXFILE) := b]
                  && inodes == WithAddr(old(inodes), i, NDIRECT, b)
                && KeepsFiles(old(slots), old(data), slots, data)
                && logged == old(logged) + {BBlock(b), b}
    {
      hide Covered;
      ghost var bm, d, log := bitmap, data, logged;
      b := Balloc();
      if b != 0 {
        GiveOk(g, bm, slots, Place(i, MAXFILE), b);
        CoveredAlloc(g, base, bm, d, dinodes, log, b);
        UnownedBlock(inodes, d, slots, b, Zero());
        ZeroLists();
        FreshIndirect(inodes, data, slots, i, b);
        GiveKeeps(slots, d, Place(i, MAXFILE), b, data);
        inodes := WithAddr(inodes, i, NDIRECT, b);
        slots := slots[Place(i, MAXFILE) := b];
      }
    }

    /** bmap gives a free block to a slot of an indirect block. */
    method GiveEntry(i: nat, k: nat) returns (b: nat)
      requires Valid() && i < |inodes| && NDIRECT <= k < MAXFILE
      requires inodes[i].addrs[NDIRECT] != 0 && slots[Place(i, k)] == 0
      modifies `bitmap, `data, `slots, `logged
      ensures b == 0 <==> old(Free()) == 0
      ensures b == 0 ==> Free() == 0
      ensures b != 0 ==> Free() == old(Free()) - 1
      ensures b != 0 ==>
                && Valid() && slots == old(slots)[Place(i, k) := b]
                && KeepsFiles(old(slots), old(data), slots, data) && b < |data| && data[b] == Zero()
                && logged == old(logged) + {BBlock(b), b, inodes[i].addrs[NDIRECT]}
    {
      hide Covered;
      ghost var bm, d, ss, log := bitmap, data, slots, logged;
      var ind := inodes[i].addrs[NDIRECT];
      assert slots[Place(i, MAXFILE)] == ind;
      b := Balloc();
      if b != 0 {
        GiveOk(g, bm, slots, Place(i, k), b);
        CoveredAlloc(g, base, bm, d, dinodes, log, b);
        UnownedBlock(inodes, d, slots, b, Zero());
        IndirectSlot(inodes, data, slots, i, k, b);
        assert !Refers(slots, Place(i, MAXFILE), b);
        GiveKeeps(slots, d, Place(i, k), b, data);
        EntryKeeps(ss, slots[Place(i, k) := b], d, data, i, WithWord(data[ind], k - NDIRECT, b));
        CoveredBlock(g, base, bitmap, data, dinodes, logged, ind, WithWord(data[ind], k - NDIRECT, b));
        data := data[ind := WithWord(data[ind], k - NDIRECT, b)];
        logged := logged + {ind};
        slots := slots[Place(i, k) := b];
      }
    }

    method BmapDirect(i: nat, bn: nat) returns (addr: nat)
      requires Valid() && i < |inodes| && bn < NDIRECT
      modifies `bitmap, `data, `inodes, `slots, `logged
      ensures addr == 0 <==> old(Free()) < Needed(old(slots), i, bn)
      ensures Free() == if addr == 0 then 0 else old(Free()) - Needed(old(slots), i, bn)
      ensures addr != 0 ==> Valid() && Mapping(old(slots), slots, i, bn, addr)
      ensures addr != 0 ==> OnlyAddrs(old(inodes), inodes, i) && KeepsFiles(old(slots), old(data), slots, data)
      ensures old(slots)[Place(i, bn)] != 0 ==> addr == old(slots)[Place(i, bn)] && unchanged(this)
      ensures addr != 0 && old(slots)[Place(i, bn)] == 0 ==>
                && addr < |data| && data[addr] == Zero()
                && logged == old(logged) + {addr, BBlock(addr)} + IndirectLogged(old(slots), slots, i, bn)
    {
      assert slots[Place(i, bn)] == inodes[i].addrs[bn];
      addr := inodes[i].addrs[bn];
      if addr == 0 {
        addr := GiveDirect(i, bn);
      }
    }

    /** The indirect half of bmap once the inode has an indirect block. */
    method BmapEntry(i: nat, bn: nat) returns (addr: nat)
      requires Valid() && i < |inodes| && NDIRECT <= bn < MAXFILE && inodes[i].addrs[NDIRECT] != 0
      modifies `bitmap, `data, `slots, `logged
      ensures addr == 0 <==> old(Free()) < Needed(old(slots), i, bn)
      ensures Free() == if addr == 0 then 0 else old(Free()) - Needed(old(slots), i, bn)
      ensures addr != 0 ==> Valid() && Mapping(old(slots), slots, i, bn, addr)
      ensures addr != 0 ==> OnlyAddrs(old(inodes), inodes, i) && KeepsFiles(old(slots), old(data), slots, data)
      ensures old(slots)[Place(i, bn)] != 0 ==> addr == old(slots)[Place(i, bn)] && unchanged(this)
      ensures addr != 0 && old(slots)[Place(i, bn)] == 0 ==>
                && addr < |data| && data[addr] == Zero()
                && logged == old(logged) + {addr, BBlock(addr)} + IndirectLogged(old(slots), slots, i, bn)
    {
      var ind := inodes[i].addrs[NDIRECT];
      assert slots[Place(i, MAXFILE)] == ind;
      assert slots[Place(i, bn)] == SlotAt(inodes, data, Place(i, bn));
      addr := Word(data[ind], bn - NDIRECT);
      if addr == 0 {
        addr := GiveEntry(i, bn);
      }
    }

    /** The indirect half of bmap for an inode without an indirect block. */
    method BmapNew(i: nat, bn: nat) returns (addr: nat)
      requires Valid() && i < |inodes| && NDIRECT <= bn < MAXFILE && inodes[i].addrs[NDIRECT] == 0
      modifies `bitmap, `data, `inodes, `slots, `logged
      ensures addr == 0 <==> old(Free()) < 2
      ensures Free() == if addr == 0 then 0 else old(Free()) - 2
      ensures addr != 0 ==> Valid() && Mapping(old(slots), slots, i, bn, addr)
      ensures addr != 0 ==> OnlyAddrs(old(inodes), inodes, i) && KeepsFiles(old(slots), old(data), slots, data)
      ensures old(slots)[Place(i, bn)] == 0
      ensures addr != 0 ==>
                && addr < |data| && data[addr] == Zero()
                && logged == old(logged) + {addr, BBlock(addr)}
                             + {slots[Place(i, MAXFILE)], BBlock(slots[Place(i, MAXFILE)])}
    {
      hide Covered, Owns, Reflects, FreeBlocks, KeepsFiles, Mapping;
      ghost var s0, d0 := slots, data;
      PlaceFacts(inodes, data, slots, i);
      PlaceThere(inodes, data, slots, i, bn);
      addr := GiveIndirect(i);
      if addr != 0 {
        ghost var s1, d1 := slots, data;
        addr := BmapEntry(i, bn);
        if addr != 0 {
          KeepsTwice(s0, d0, s1, d1, slots, data);
          MappingTwice(s0, s1, slots, i, bn, addr);
        }
      }
    }

    method BmapIndirect(i: nat, bn: nat) returns (addr: nat)
      requires Valid() && i < |inodes| && NDIRECT <= bn < MAXFILE
      modifies `bitmap, `data, `inodes, `slots, `logged
      ensures addr == 0 <==> old(Free()) < Needed(old(slots), i, bn)
      ensures Free() == if addr == 0 then 0 else old(Free()) - Needed(old(slots), i, bn)
      ensures addr != 0 ==> Valid() && Mapping(old(slots), slots, i, bn, addr)
      ensures addr != 0 ==> OnlyAddrs(old(inodes), inodes, i) && KeepsFiles(old(slots), old(data), slots, data)
      ensures old(slots)[Place(i, bn)] != 0 ==> addr == old(slots)[Place(i, bn)] && unchanged(this)
      ensures addr != 0 && old(slots)[Place(i, bn)] == 0 ==>
                && addr < |data| && data[addr] == Zero()
                && logged == old(logged) + {addr, BBlock(addr)} + IndirectLogged(old(slots), slots, i, bn)
    {
      hide Covered, Owns, FreeBlocks, KeepsFiles;
      assert slots[Place(i, MAXFILE)] == inodes[i].addrs[NDIRECT];
      if inodes[i].addrs[NDIRECT] != 0 {
        addr := BmapEntry(i, bn);
      } else {
        addr := BmapNew(i, bn);
      }
    }

    /** bmap: the block of file block `bn`, which is allocated if there is none; 0 is a panic. A block
        that is mapped already is found without any change. */
    method Bmap(i: nat, bn: nat) returns (addr: nat)
      requires Valid() && i < |inodes|
      modifies `bitmap, `data, `inodes, `slots, `logged
      ensures addr == 0 <==> bn >= MAXFILE || old(Free()) < Needed(old(slots), i, bn)
      ensures bn < MAXFILE ==> Free() == if addr == 0 then 0 else old(Free()) - Needed(old(slots), i, bn)
      ensures addr != 0 ==> Valid() && Mapping(old(slots), slots, i, bn, addr)
      ensures addr != 0 ==> OnlyAddrs(old(inodes), inodes, i) && KeepsFiles(old(slots), old(data), slots, data)
      ensures bn < MAXFILE && old(slots)[Place(i, bn)] != 0 ==> addr == old(slots)[Place(i, bn)] && unchanged(this)
      ensures addr != 0 && old(slots)[Place(i, bn)] == 0 ==>
                && addr < |data| && data[addr] == Zero()
                && logged == old(logged) + {addr, BBlock(addr)} + IndirectLogged(old(slots), slots, i, bn)
    {
      if bn < NDIRECT {
        addr := BmapDirect(i, bn);
      } else if bn < MAXFILE {
        addr := BmapIndirect(i, bn);
      } else {
        addr := 0;
      }
    }

    /** The first loop of itrunc, over the direct slots. */
    method TruncDirect(i: nat) returns (ok: bool)
      requires Valid() && i < |inodes|
      modifies `bitmap, `inodes, `slots, `logged
      ensures ok && Valid() && slots == Zeroed(old(slots), i, 0, NDIRECT)
      ensures OnlyAddrs(old(inodes), inodes, i)
      ensures inodes[i].addrs[NDIRECT] == old(inodes)[i].addrs[NDIRECT]
    {
      hide Covered, Owns, Zeroed;
      ghost var s0 := slots;
      ZeroedNone(s0, i, 0);
      for k := 0 to NDIRECT
        invariant Valid() && i < |inodes| && slots == Zeroed(s0, i, 0, k)
        invariant OnlyAddrs(old(inodes), inodes, i)
        invariant inodes[i].addrs[NDIRECT] == old(inodes)[i].addrs[NDIRECT]
      {
        ok := TruncOne(i, k, s0);
        if !ok {
          return;
        }
      }
      ok := true;
    }

    method TruncOne(i: nat, k: nat, ghost s0: map<Place, nat>) returns (ok: bool)
      requires Valid() && i < |inodes| && k < NDIRECT && slots == Zeroed(s0, i, 0, k)
      modifies `bitmap, `inodes, `slots, `logged
      ensures ok && Valid() && slots == Zeroed(s0, i, 0, k + 1)
      ensures OnlyAddrs(old(inodes), inodes, i) && inodes[i].addrs[NDIRECT] == old(inodes)[i].addrs[NDIRECT]
    {
      assert slots[Place(i, k)] == inodes[i].addrs[k];
      ZeroedOne(s0, i, 0, k);
      ok := true;
      if inodes[i].addrs[k] != 0 {
        ok := FreeDirect(i, k);
      }
    }

    method FreeDirect(i: nat, k: nat) returns (ok: bool)
      requires Valid() && i < |inodes| && k < NDIRECT && inodes[i].addrs[k] != 0
      modifies `bitmap, `inodes, `slots, `logged
      ensures ok && Valid() && slots == old(slots)[Place(i, k) := 0] && inodes == WithAddr(old(inodes), i, k, 0)
    {
      assert slots[Place(i, k)] == inodes[i].addrs[k];
      BlockOwners.TakeOk(g, bitmap, slots, Place(i, k));
      DirectSlot(inodes, data, slots, i, k, 0);
      CoveredFree(g, base, bitmap, data, dinodes, logged, inodes[i].addrs[k]);
      ok := Bfree(inodes[i].addrs[k]);
      inodes := WithAddr(inodes, i, k, 0);
      slots := slots[Place(i, k) := 0];
    }

    /** The second loop of itrunc. The words of the indirect block stay as they are, so it is the ghost
        result `left` that says which places still own a block. */
    method FreeEntries(i: nat) returns (ok: bool, ghost left: map<Place, nat>)
      requires Valid() && i < |inodes| && inodes[i].addrs[NDIRECT] != 0
      modifies `bitmap, `logged
      ensures ok && left == Zeroed(slots, i, NDIRECT, MAXFILE) && Owns(g, bitmap, left)
      ensures Covered(g, base, bitmap, data, dinodes, logged)
    {
      hide Covered;
      var ind := inodes[i].addrs[NDIRECT];
      assert slots[Place(i, MAXFILE)] == ind;
      left := slots;
      ZeroedNone(slots, i, NDIRECT);
      for j := 0 to NINDIRECT
        invariant left == Zeroed(slots, i, NDIRECT, NDIRECT + j) && Owns(g, bitmap, left)
        invariant Covered(g, base, bitmap, data, dinodes, logged)
      {
        ghost var p := Place(i, NDIRECT + j);
        ZeroedOne(slots, i, NDIRECT, NDIRECT + j);
        assert slots[p] == SlotAt(inodes, data, p);
        var a := Word(data[ind], j);
        if a != 0 {
          BlockOwners.TakeOk(g, bitmap, left, p);
          CoveredFree(g, base, bitmap, data, dinodes, logged, a);
          ok := Bfree(a);
          if !ok {
            return;
          }
          left := left[p := 0];
        }
      }
      ok := true;
    }

    method TruncIndirect(i: nat) returns (ok: bool)
      requires Valid() && i < |inodes|
      modifies `bitmap, `inodes, `slots, `logged
      ensures ok && Valid() && slots == Zeroed(old(slots), i, NDIRECT, MAXFILE + 1)
      ensures OnlyAddrs(old(inodes), inodes, i)
    {
      hide Covered, Owns, Reflects;
      PlaceFacts(inodes, data, slots, i);
      var ind := inodes[i].addrs[NDIRECT];
      if ind != 0 {
        ghost var left;
        ok, left := FreeEntries(i);
        if !ok {
          return;
        }
        BlockOwners.TakeOk(g, bitmap, left, Place(i, MAXFILE));
        CoveredFree(g, base, bitmap, data, dinodes, logged, ind);
        ok := Bfree(ind);
        if !ok {
          return;
        }
        ZeroedOne(slots, i, NDIRECT, MAXFILE);
        DropIndirect(inodes, data, slots, left[Place(i, MAXFILE) := 0], i);
        inodes := WithAddr(inodes, i, NDIRECT, 0);
        slots := left[Place(i, MAXFILE) := 0];
      } else {
        ZeroedAlready(slots, i, NDIRECT, MAXFILE + 1);
        ok := true;
      }
    }

    /** The size of a file is set and iupdate writes the inode, with all its block numbers, to the disk. */
    method SetSize(i: nat, n: nat)
      requires Valid() && i < |inodes| == |dinodes|
      modifies `inodes, `dinodes, `logged
      ensures Valid() && inodes == old(inodes)[i := old(inodes)[i].(size := n)]
      ensures dinodes == old(dinodes)[i := inodes[i]] && logged == old(logged) + {IBlock(i)}
    {
      SizeSlots(inodes, data, slots, i, n);
      CoveredInode(g, base, bitmap, data, dinodes, logged, i, inodes[i].(size := n));
      inodes := inodes[i := inodes[i].(size := n)];
      dinodes := dinodes[i := inodes[i]];
      logged := logged + {IBlock(i)};
    }

    /** itrunc: every block of the inode is freed once, no other inode is touched, and the panic in
        bfree is not reached. */
    method Itrunc(i: nat) returns (ok: bool)
      requires Valid() && i < |inodes| == |dinodes|
      modifies `bitmap, `inodes, `dinodes, `slots, `logged
      ensures ok && Valid() && slots == Zeroed(old(slots), i, 0, MAXFILE + 1)
      ensures |inodes| == |old(inodes)| && inodes[i].size == 0
      ensures forall j | 0 <= j < |inodes| && j != i :: inodes[j] == old(inodes)[j]
      ensures dinodes == old(dinodes)[i := inodes[i]]
    {
      ok := TruncDirect(i);
      if !ok {
        return;
      }
      ok := TruncIndirect(i);
      if !ok {
        return;
      }
      ZeroedBoth(old(slots), i, 0, NDIRECT, MAXFILE + 1);
      SetSize(i, 0);
    }
  }

  /** The places of inode `i` from `lo` to `hi` no longer refer to any block. */
  ghost function Zeroed(slots: map<Place, nat>, i: nat, lo: nat, hi: nat): map<Place, nat> {
    map p: Place | p in slots :: if p.inum == i && lo <= p.k < hi then 0 else slots[p]
  }

  lemma ZeroedNone(slots: map<Place, nat>, i: nat, lo: nat)
    ensures Zeroed(slots, i, lo, lo) == slots
  {
  }

  lemma ZeroedOne(slots: map<Place, nat>, i: nat, lo: nat, hi: nat)
    requires lo <= hi && Place(i, hi) in slots
    ensures Place(i, hi) in Zeroed(slots, i, lo, hi) && Zeroed(slots, i, lo, hi)[Place(i, hi)] == slots[Place(i, hi)]
    ensures Zeroed(slots, i, lo, hi + 1) == Zeroed(slots, i, lo, hi)[Place(i, hi) := 0]
    ensures slots[Place(i, hi)] == 0 ==> Zeroed(slots, i, lo, hi + 1) == Zeroed(slots, i, lo, hi)
  {
  }

  lemma ZeroedBoth(slots: map<Place, nat>, i: nat, lo: nat, mid: nat, hi: nat)
    requires lo <= mid <= hi
    ensures Zeroed(Zeroed(slots, i, lo, mid), i, mid, hi) == Zeroed(slots, i, lo, hi)
  {
  }

  lemma ZeroedAlready(slots: map<Place, nat>, i: nat, lo: nat, hi: nat)
    requires forall p: Place | p in slots && p.inum == i && lo <= p.k < hi :: slots[p] == 0
    ensures Zeroed(slots, i, lo, hi) == slots
  {
  }

  /** The places of an inode that say where its indirect block is, and what is in it. */
  lemma PlaceFacts(inodes: seq<Inode>, data: seq<Block>, slots: map<Place, nat>, i: nat)
    requires Reflects(inodes, data, slots) && i < |inodes|
    ensures |inodes[i].addrs| == NDIRECT + 1
    ensures Place(i, MAXFILE) in slots && slots[Place(i, MAXFILE)] == inodes[i].addrs[NDIRECT]
    ensures inodes[i].addrs[NDIRECT] == 0 ==>
              forall p: Place | p in slots && p.inum == i && NDIRECT <= p.k < MAXFILE + 1 :: slots[p] == 0
    ensures forall p: Place | p in slots :: p.k <= MAXFILE
  {
  }

  /** Only the block numbers of inode `i` changed. */
  ghost predicate OnlyAddrs(inodes: seq<Inode>, inodes': seq<Inode>, i: nat) {
    && |inodes'| == |inodes| && i < |inodes|
    && |inodes'[i].addrs| == |inodes[i].addrs| && inodes'[i].size == inodes[i].size
    && (forall j | 0 <= j < |inodes| && j != i :: inodes'[j] == inodes[j])
  }

  /** Place (i, bn) refers to `addr`; no other place changed, except that the inode may have been given
      an indirect block that it needs. */
  ghost predicate Mapping(slots: map<Place, nat>, slots': map<Place, nat>, i: nat, bn: nat, addr: nat) {
    && slots'.Keys == slots.Keys && Place(i, bn) in slots && Place(i, MAXFILE) in slots
    && slots'[Place(i, bn)] == addr
    && (slots[Place(i, bn)] != 0 ==> slots' == slots)
    && (forall p: Place | p in slots && p != Place(i, bn) && p != Place(i, MAXFILE) :: slots'[p] == slots[p])
    && (slots[Place(i, MAXFILE)] != 0 || bn < NDIRECT ==> slots'[Place(i, MAXFILE)] == slots[Place(i, MAXFILE)])
    && (bn >= NDIRECT ==> slots'[Place(i, MAXFILE)] != 0)
  }

  lemma PlaceThere(inodes: seq<Inode>, data: seq<Block>, slots: map<Place, nat>, i: nat, k: nat)
    requires Reflects(inodes, data, slots) && i < |inodes| && k <= MAXFILE
    ensures Place(i, k) in slots
  {
  }

  /** A new indirect block first, and then an entry in it. */
  lemma MappingTwice(s0: map<Place, nat>, s1: map<Place, nat>, s2: map<Place, nat>, i: nat, bn: nat, addr: nat)
    requires Place(i, MAXFILE) in s0 && s0[Place(i, MAXFILE)] == 0 && NDIRECT <= bn < MAXFILE
    requires Place(i, bn) in s0 && s0[Place(i, bn)] == 0 && s1.Keys == s0.Keys
    requires (forall p: Place | p in s0 && p != Place(i, MAXFILE) :: s1[p] == s0[p]) && s1[Place(i, MAXFILE)] != 0
    requires Mapping(s1, s2, i, bn, addr)
    ensures Mapping(s0, s2, i, bn, addr) && s2[Place(i, MAXFILE)] == s1[Place(i, MAXFILE)]
  {
  }

  lemma EntryKeeps(slots: map<Place, nat>, slots': map<Place, nat>, d: seq<Block>, data: seq<Block>, i: nat, w: Block)
    requires KeepsFiles(slots, d, slots', data) && Place(i, MAXFILE) in slots
    requires forall p: Place, q: Place :: Unshared(slots, p, q)
    requires 0 < slots[Place(i, MAXFILE)] < |d|
    ensures KeepsFiles(slots, d, slots', data[slots[Place(i, MAXFILE)] := w])
  {
    var ind := slots[Place(i, MAXFILE)];
    forall q: Place | q in slots && slots[q] != 0 && q.k < MAXFILE
      ensures KeepsFile(slots, d, slots', data[ind := w], q)
    {
      assert KeepsFile(slots, d, slots', data, q);
      assert Unshared(slots, q, Place(i, MAXFILE));
    }
  }

  lemma KeepsTwice(s0: map<Place, nat>, d0: seq<Block>, s1: map<Place, nat>, d1: seq<Block>, s2: map<Place, nat>,
                   d2: seq<Block>)
    requires KeepsFiles(s0, d0, s1, d1) && KeepsFiles(s1, d1, s2, d2)
    ensures KeepsFiles(s0, d0, s2, d2)
  {
    forall q: Place | q in s0 && s0[q] != 0 && q.k < MAXFILE ensures KeepsFile(s0, d0, s2, d2, q) {
      assert KeepsFile(s0, d0, s1, d1, q);
      assert KeepsFile(s1, d1, s2, d2, q);
    }
  }

  lemma GiveKeeps(slots: map<Place, nat>, d: seq<Block>, p: Place, b: nat, data: seq<Block>)
    requires p in slots && slots[p] == 0 && b < |d| && !Owned(slots, b) && data == d[b := Zero()]
    ensures KeepsFiles(slots, d, slots[p := b], data)
  {
    forall q: Place | q in slots && slots[q] != 0 && q.k < MAXFILE ensures KeepsFile(slots, d, slots[p := b], data, q) {
      assert !Refers(slots, q, b);
    }
  }
}
