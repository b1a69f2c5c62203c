/** Who owns which disk block (fs.c). A place is a direct slot of an inode, a slot of its indirect
    block, or the slot for the indirect block itself; `slots` maps places to block numbers, 0 meaning
    none. The bitmap must mark exactly the metadata blocks and the blocks that some place refers to.
 */
module BlockOwners {
  import opened Bitmap

  datatype Place = Place(inum: nat, k: nat)

  /** Blocks `first` to `size - 1` hold file contents and indirect blocks. */
  datatype Geometry = Geometry(size: nat, first: nat, inodestart: nat, bmapstart: nat)

  ghost predicate Refers(slots: map<Place, nat>, p: Place, b: nat) {
    p in slots && slots[p] == b
  }

  ghost predicate Owned(slots: map<Place, nat>, b: nat) {
    exists p :: Refers(slots, p, b)
  }

  /** Two places that refer to the same block are one place. */
  ghost predicate Unshared(slots: map<Place, nat>, p: Place, q: Place) {
    p in slots && q in slots && slots[p] != 0 && slots[p] == slots[q] ==> p == q
  }

  ghost predicate BitOk(g: Geometry, bm: seq<bv8>, slots: map<Place, nat>, b: nat)
    requires b / 8 < |bm|
  {
    Bit(bm, b) <==> b < g.first || Owned(slots, b)
  }

  ghost predicate Owns(g: Geometry, bm: seq<bv8>, slots: map<Place, nat>) {
    && 0 < g.first <= g.size <= 8 * |bm|
    && (forall p | p in slots :: slots[p] == 0 || g.first <= slots[p] < g.size)
    && (forall p: Place, q: Place :: Unshared(slots, p, q))
    && (forall b: nat | b < g.size :: BitOk(g, bm, slots, b))
  }

  /** A free block is referred to by no place; it may be given to one. */
  lemma GiveOk(g: Geometry, bm: seq<bv8>, slots: map<Place, nat>, p: Place, b: nat)
    requires Owns(g, bm, slots) && b < g.size && !Bit(bm, b) && p in slots && slots[p] == 0
    ensures b >= g.first && !Owned(slots, b)
    ensures Owns(g, Marked(bm, b), slots[p := b])
  {
    assert BitOk(g, bm, slots, b);
    var bm', slots' := Marked(bm, b), slots[p := b];
    forall q: Place, r: Place ensures Unshared(slots', q, r) {
      assert Unshared(slots, q, r);
      assert !Refers(slots, q, b) && !Refers(slots, r, b);
    }
    forall c: nat | c < g.size ensures BitOk(g, bm', slots', c) {
      assert BitOk(g, bm, slots, c);
      OneBit(bm, b, c);
      if c != 0 {
        GiveOwned(slots, p, b, c);
      }
    }
  }

  lemma GiveOwned(slots: map<Place, nat>, p: Place, b: nat, c: nat)
    requires p in slots && slots[p] == 0 && c != 0
    ensures Owned(slots[p := b], c) <==> c == b || Owned(slots, c)
  {
    var slots' := slots[p := b];
    assert Refers(slots', p, b);
    if q :| Refers(slots, q, c) {
      assert Refers(slots', q, c);
    }
    if q :| Refers(slots', q, c) {
      assert q != p ==> Refers(slots, q, c);
    }
  }

  /** A block that a place refers to is marked, so bfree of it does not panic, and it may be taken
      back. */
  lemma TakeOk(g: Geometry, bm: seq<bv8>, slots: map<Place, nat>, p: Place)
    requires Owns(g, bm, slots) && p in slots && slots[p] != 0
    ensures slots[p] < g.size && slots[p] / 8 < |bm| && Bit(bm, slots[p])
    ensures Owns(g, Unmarked(bm, slots[p]), slots[p := 0])
  {
    var b := slots[p];
    assert Refers(slots, p, b);
    assert BitOk(g, bm, slots, b);
    var bm', slots' := Unmarked(bm, b), slots[p := 0];
    forall q: Place, r: Place ensures Unshared(slots', q, r) {
      assert Unshared(slots, q, r);
    }
    forall c: nat | c < g.size ensures BitOk(g, bm', slots', c) {
      assert BitOk(g, bm, slots, c);
      OneBit(bm, b, c);
      if c != 0 {
        TakeOwned(slots, p, c);
      }
    }
  }

  lemma TakeOwned(slots: map<Place, nat>, p: Place, c: nat)
    requires p in slots && slots[p] != 0 && c != 0 && forall q :: Unshared(slots, p, q)
    ensures Owned(slots[p := 0], c) <==> c != slots[p] && Owned(slots, c)
  {
    var slots' := slots[p := 0];
    if q :| Refers(slots, q, c) {
      assert Unshared(slots, p, q);
      assert c != slots[p] ==> Refers(slots', q, c);
    }
    if q :| Refers(slots', q, c) {
      assert Refers(slots, q, c);
      assert Unshared(slots, p, q);
    }
  }
}
