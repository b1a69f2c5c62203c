/** The free-block bitmap of fs.c: one bit for each disk block, eight to a byte. */
module Bitmap {

  /** 1 << k. */
  function Mask(k: nat): bv8 {
    if k == 0 then 1 else Mask(k - 1) << 1
  }

  predicate Has(x: bv8, k: nat) {
    x & Mask(k) != 0
  }

  function With(x: bv8, k: nat): bv8 {
    x | Mask(k)
  }

  function Less(x: bv8, k: nat): bv8 {
    x & !Mask(k)
  }

  lemma MaskValues()
    ensures Mask(0) == 1 && Mask(1) == 2 && Mask(2) == 4 && Mask(3) == 8
    ensures Mask(4) == 16 && Mask(5) == 32 && Mask(6) == 64 && Mask(7) == 128
  {
  }

  lemma HasWith(x: bv8, j: nat, k: nat)
    requires j < 8 && k < 8
    ensures Has(With(x, j), k) <==> j == k || Has(x, k)
  {
    MaskValues();
  }

  lemma HasLess(x: bv8, j: nat, k: nat)
    requires j < 8 && k < 8
    ensures Has(Less(x, j), k) <==> j != k && Has(x, k)
  {
    MaskValues();
  }

  /** Whether block `b` is marked as in use. */
  predicate Bit(bm: seq<bv8>, b: nat)
    requires b / 8 < |bm|
  {
    Has(bm[b / 8], b % 8)
  }

  function Marked(bm: seq<bv8>, b: nat): (r: seq<bv8>)
    requires b / 8 < |bm|
    ensures |r| == |bm|
  {
    bm[b / 8 := With(bm[b / 8], b % 8)]
  }

  function Unmarked(bm: seq<bv8>, b: nat): (r: seq<bv8>)
    requires b / 8 < |bm|
    ensures |r| == |bm|
  {
    bm[b / 8 := Less(bm[b / 8], b % 8)]
  }

  lemma SameByte(bm: seq<bv8>, b: nat, c: nat)
    requires b / 8 == c / 8 < |bm|
    ensures Bit(Marked(bm, b), c) <==> c == b || Bit(bm, c)
    ensures Bit(Unmarked(bm, b), c) <==> c != b && Bit(bm, c)
  {
    HasWith(bm[c / 8], b % 8, c % 8);
    HasLess(bm[c / 8], b % 8, c % 8);
  }

  lemma OtherByte(bm: seq<bv8>, b: nat, c: nat)
    requires b / 8 < |bm| && c / 8 < |bm| && b / 8 != c / 8
    ensures Bit(Marked(bm, b), c) == Bit(Unmarked(bm, b), c) == Bit(bm, c)
  {
    assert Marked(bm, b)[c / 8] == Unmarked(bm, b)[c / 8] == bm[c / 8];
  }

  /** Marking and unmarking a block change its bit and no other. */
  lemma OneBit(bm: seq<bv8>, b: nat, c: nat)
    requires b / 8 < |bm| && c / 8 < |bm|
    ensures Bit(Marked(bm, b), c) <==> c == b || Bit(bm, c)
    ensures Bit(Unmarked(bm, b), c) <==> c != b && Bit(bm, c)
  {
    if b / 8 == c / 8 {
      SameByte(bm, b, c);
    } else {
      OtherByte(bm, b, c);
    }
  }

  /** The free blocks among the first `size`. */
  ghost function FreeBlocks(bm: seq<bv8>, size: nat): set<nat> {
    set b: nat | b < size && b / 8 < |bm| && !Bit(bm, b)
  }

  /** Marking a free block leaves one free block less. */
  lemma MarkedFree(bm: seq<bv8>, size: nat, b: nat)
    requires b / 8 < |bm| && b < size && !Bit(bm, b)
    ensures |FreeBlocks(Marked(bm, b), size)| == |FreeBlocks(bm, size)| - 1
  {
    forall c: nat | c / 8 < |bm| ensures Bit(Marked(bm, b), c) <==> c == b || Bit(bm, c) {
      OneBit(bm, b, c);
    }
    assert FreeBlocks(Marked(bm, b), size) == FreeBlocks(bm, size) - {b};
  }

  /** balloc of mkfs: a bitmap of `n` bytes that marks the first `used` blocks. */
  method MarkFirst(n: nat, used: nat) returns (bm: seq<bv8>)
    requires used <= 8 * n
    ensures |bm| == n && forall b: nat | b < 8 * n :: Bit(bm, b) <==> b < used
  {
    bm := seq(n, x => 0);
    for i := 0 to used
      invariant |bm| == n && forall b: nat | b < 8 * n :: Bit(bm, b) <==> b < i
    {
      forall b: nat | b < 8 * n ensures Bit(Marked(bm, i), b) <==> b < i + 1 {
        OneBit(bm, i, b);
      }
      bm := Marked(bm, i);
    }
  }
}
