/** Inodes and indirect blocks of fs.c: where the block number of each file block is stored. */
module InodeSlots {
  import opened Common
  import opened DiskBlocks
  import opened BlockOwners

  const NDIRECT: nat := 12
  const NINDIRECT: nat := 128
  const MAXFILE: nat := 140

  /** `addrs` has NDIRECT direct slots and one for the indirect block. */
  datatype Inode = Inode(addrs: seq<nat>, size: nat)

  // ---------------------------------------------------------------- slots

  lemma ZeroLists()
    ensures ListsNothing(Zero())
  {
  }

  /** The block number for a place: file blocks 0 to MAXFILE - 1, and MAXFILE for the indirect block. */
  function SlotAt(inodes: seq<Inode>, data: seq<Block>, p: Place): nat
    requires p.inum < |inodes| && |inodes[p.inum].addrs| == NDIRECT + 1 && p.k <= MAXFILE
  {
    var a := inodes[p.inum].addrs;
    if p.k < NDIRECT then a[p.k]
    else if p.k == MAXFILE then a[NDIRECT]
    else if a[NDIRECT] == 0 || a[NDIRECT] >= |data| then 0
    else Word(data[a[NDIRECT]], p.k - NDIRECT)
  }

  ghost predicate ShapeOk(inodes: seq<Inode>) {
    forall i | 0 <= i < |inodes| :: |inodes[i].addrs| == NDIRECT + 1
  }

  /** `slots` is what the inodes and their indirect blocks say. */
  ghost predicate Reflects(inodes: seq<Inode>, data: seq<Block>, slots: map<Place, nat>) {
    && ShapeOk(inodes)
    && (forall p: Place :: p in slots <==> p.inum < |inodes| && p.k <= MAXFILE)
    && (forall p: Place | p in slots :: slots[p] == SlotAt(inodes, data, p))
  }

  /** Where the block numbers of an inode are: twelve direct ones in the inode, and 128 in the block that its
      thirteenth address names, four bytes each with the least significant first. */
  lemma SlotLayout(inodes: seq<Inode>, data: seq<Block>, slots: map<Place, nat>, i: nat, k: nat)
    requires Reflects(inodes, data, slots) && i < |inodes| && k <= 140
    ensures |inodes[i].addrs| == 13 && Place(i, k) in slots
    ensures k < 12 ==> slots[Place(i, k)] == inodes[i].addrs[k]
    ensures k == 140 ==> slots[Place(i, k)] == inodes[i].addrs[12]
    ensures 12 <= k < 140 && inodes[i].addrs[12] == 0 ==> slots[Place(i, k)] == 0
    ensures 12 <= k < 140 && 0 < inodes[i].addrs[12] < |data| ==>
              var b, j := data[inodes[i].addrs[12]], 4 * (k - 12);
              slots[Place(i, k)] == b[j] as int + 256 * (b[j + 1] as int) + 65536 * (b[j + 2] as int)
                                    + 16777216 * (b[j + 3] as int)
  {
  }

  function WithAddr(inodes: seq<Inode>, i: nat, k: nat, b: nat): seq<Inode>
    requires i < |inodes| && k < |inodes[i].addrs|
  {
    inodes[i := inodes[i].(addrs := inodes[i].addrs[k := b])]
  }

  /** The size of a file is no slot. */
  lemma SizeSlots(inodes: seq<Inode>, data: seq<Block>, slots: map<Place, nat>, i: nat, n: nat)
    requires Reflects(inodes, data, slots) && i < |inodes|
    ensures Reflects(inodes[i := inodes[i].(size := n)], data, slots)
  {
  }

  /** Changing a block that nobody refers to changes no slot. */
  lemma UnownedBlock(inodes: seq<Inode>, data: seq<Block>, slots: map<Place, nat>, b: nat, w: Block)
    requires Reflects(inodes, data, slots) && b < |data| && !Owned(slots, b)
    ensures Reflects(inodes, data[b := w], slots)
  {
    forall p: Place | p in slots ensures slots[p] == SlotAt(inodes, data[b := w], p) {
      assert !Refers(slots, Place(p.inum, MAXFILE), b);
      assert slots[Place(p.inum, MAXFILE)] == inodes[p.inum].addrs[NDIRECT];
    }
  }

  /** A direct slot is a word of the inode. */
  lemma DirectSlot(inodes: seq<Inode>, data: seq<Block>, slots: map<Place, nat>, i: nat, k: nat, b: nat)
    requires Reflects(inodes, data, slots) && i < |inodes| && k < NDIRECT
    ensures Reflects(WithAddr(inodes, i, k, b), data, slots[Place(i, k) := b])
  {
  }

  lemma FreshSlot(inodes: seq<Inode>, data: seq<Block>, i: nat, b: nat, p: Place)
    requires ShapeOk(inodes) && i < |inodes| && inodes[i].addrs[NDIRECT] == 0
    requires 0 < b < |data| && ListsNothing(data[b])
    requires p.inum < |inodes| && p.k <= MAXFILE
    ensures SlotAt(WithAddr(inodes, i, NDIRECT, b), data, p)
         == if p == Place(i, MAXFILE) then b else SlotAt(inodes, data, p)
  {
    if p.inum == i && NDIRECT <= p.k < MAXFILE {
      assert Word(data[b], p.k - NDIRECT) == 0;
    }
  }

  ghost predicate ListsNothing(s: Block) {
    forall j: nat | j < NINDIRECT :: Word(s, j) == 0
  }

  /** A fresh indirect block lists nothing. */
  lemma FreshIndirect(inodes: seq<Inode>, data: seq<Block>, slots: map<Place, nat>, i: nat, b: nat)
    requires Reflects(inodes, data, slots) && i < |inodes| && inodes[i].addrs[NDIRECT] == 0
    requires 0 < b < |data| && ListsNothing(data[b])
    ensures Reflects(WithAddr(inodes, i, NDIRECT, b), data, slots[Place(i, MAXFILE) := b])
  {
    var inodes', slots' := WithAddr(inodes, i, NDIRECT, b), slots[Place(i, MAXFILE) := b];
    forall p: Place | p in slots' ensures slots'[p] == SlotAt(inodes', data, p) {
      FreshSlot(inodes, data, i, b, p);
    }
  }

  /** A slot of an indirect block is a word of that block, which belongs to no other inode. */
  lemma IndirectSlot(inodes: seq<Inode>, data: seq<Block>, slots: map<Place, nat>, i: nat, k: nat, b: nat)
    requires Reflects(inodes, data, slots) && i < |inodes| && NDIRECT <= k < MAXFILE && b < UINT
    requires 0 < inodes[i].addrs[NDIRECT] < |data|
    requires forall p: Place, q: Place :: Unshared(slots, p, q)
    ensures var ind := inodes[i].addrs[NDIRECT];
            Reflects(inodes, data[ind := WithWord(data[ind], k - NDIRECT, b)], slots[Place(i, k) := b])
  {
    var ind := inodes[i].addrs[NDIRECT];
    var data', slots' := data[ind := WithWord(data[ind], k - NDIRECT, b)], slots[Place(i, k) := b];
    assert slots[Place(i, MAXFILE)] == ind;
    forall p: Place | p in slots' ensures slots'[p] == SlotAt(inodes, data', p) {
      assert Unshared(slots, Place(p.inum, MAXFILE), Place(i, MAXFILE));
      assert slots[Place(p.inum, MAXFILE)] == inodes[p.inum].addrs[NDIRECT];
      if p.inum == i && NDIRECT <= p.k < MAXFILE {
        WordsApart(data[ind], k - NDIRECT, b, p.k - NDIRECT);
      }
    }
  }

  /** Without its indirect block an inode has no indirect slots. */
  lemma DropIndirect(inodes: seq<Inode>, data: seq<Block>, slots: map<Place, nat>, slots': map<Place, nat>, i: nat)
    requires Reflects(inodes, data, slots) && i < |inodes|
    requires slots'.Keys == slots.Keys
    requires forall p: Place | p in slots :: slots'[p] == if p.inum == i && p.k >= NDIRECT then 0 else slots[p]
    ensures Reflects(WithAddr(inodes, i, NDIRECT, 0), data, slots')
  {
  }
}
