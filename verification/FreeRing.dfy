/** The free list of umalloc.c: headers by address, in units of one header. `ring` lists the free
    blocks in address order behind the empty block BASE, and `ptr` links them in a circle. `blocks`
    are all blocks, free or in use, with their sizes.
 */
module FreeRing {
  import opened Common

  const BASE: nat := 1

  function Succ(ring: seq<nat>, i: nat): nat
    requires i < |ring|
  {
    if i + 1 < |ring| then ring[i + 1] else ring[0]
  }

  ghost predicate Increasing(s: seq<nat>) {
    forall i, j | 0 <= i < j < |s| :: s[i] < s[j]
  }

  ghost predicate LinkedAt(ptr: map<nat, nat>, ring: seq<nat>, i: nat)
    requires i < |ring|
  {
    ring[i] in ptr && ptr[ring[i]] == Succ(ring, i)
  }

  ghost predicate RingOk(ptr: map<nat, nat>, ring: seq<nat>) {
    && ring != [] && ring[0] == BASE && Increasing(ring)
    && (forall i: nat | i < |ring| :: LinkedAt(ptr, ring, i))
  }

  /** Everything is linked except perhaps position `i`. */
  ghost predicate RingExcept(ptr: map<nat, nat>, ring: seq<nat>, i: nat) {
    && i < |ring| && ring[0] == BASE && Increasing(ring)
    && (forall k: nat | k < |ring| && k != i :: LinkedAt(ptr, ring, k))
  }

  function Insert(ring: seq<nat>, i: nat, b: nat): seq<nat>
    requires i <= |ring|
  {
    ring[..i] + [b] + ring[i..]
  }

  /** The address `b` belongs between positions `i` and `i + 1`. */
  ghost predicate Between(ring: seq<nat>, i: nat, b: nat) {
    && i < |ring|
    && (forall k | 0 <= k <= i :: ring[k] < b)
    && (forall k | i < k < |ring| :: b < ring[k])
  }

  lemma DropNext(ptr: map<nat, nat>, ring: seq<nat>, i: nat)
    requires RingOk(ptr, ring) && i + 1 < |ring|
    ensures RingExcept(ptr, Without(ring, i + 1), i)
    ensures ring[i + 1] in ptr && ptr[ring[i + 1]] == Succ(Without(ring, i + 1), i)
  {
    var ring' := Without(ring, i + 1);
    assert LinkedAt(ptr, ring, i + 1);
    forall k: nat | k < |ring'| && k != i ensures LinkedAt(ptr, ring', k) {
      assert LinkedAt(ptr, ring, if k < i then k else k + 1);
    }
  }

  lemma LinkIn(ptr: map<nat, nat>, ring: seq<nat>, i: nat, b: nat)
    requires RingExcept(ptr, ring, i) && Between(ring, i, b) && b in ptr && ptr[b] == Succ(ring, i)
    ensures RingOk(ptr[ring[i] := b], Insert(ring, i + 1, b))
  {
    var ring', ptr' := Insert(ring, i + 1, b), ptr[ring[i] := b];
    forall k: nat | k < |ring'| ensures LinkedAt(ptr', ring', k) {
      if k < i {
        assert LinkedAt(ptr, ring, k);
      } else if k > i + 1 {
        assert LinkedAt(ptr, ring, k - 1);
      }
    }
  }

  lemma LinkPast(ptr: map<nat, nat>, ring: seq<nat>, i: nat)
    requires RingExcept(ptr, ring, i)
    ensures RingOk(ptr[ring[i] := Succ(ring, i)], ring)
  {
    var ptr' := ptr[ring[i] := Succ(ring, i)];
    forall k: nat | k < |ring| ensures LinkedAt(ptr', ring, k) {
      if k != i {
        assert LinkedAt(ptr, ring, k);
      }
    }
  }

  lemma Irrelevant(ptr: map<nat, nat>, ring: seq<nat>, i: nat, b: nat, v: nat)
    requires RingExcept(ptr, ring, i) && b !in ring
    ensures RingExcept(ptr[b := v], ring, i)
  {
    var ptr' := ptr[b := v];
    forall k: nat | k < |ring| && k != i ensures LinkedAt(ptr', ring, k) {
      assert LinkedAt(ptr, ring, k);
    }
  }

  // ---------------------------------------------------------------- blocks

  /** Blocks do not overlap and are not empty. */
  ghost predicate Apart(blocks: map<nat, nat>) {
    && (forall b | b in blocks :: b > BASE && blocks[b] > 0)
    && (forall a: nat, b: nat :: Below(blocks, a, b))
  }

  ghost predicate Below(blocks: map<nat, nat>, a: nat, b: nat) {
    a in blocks && b in blocks && a < b ==> a + blocks[a] <= b
  }

  ghost predicate Holds(blocks: map<nat, nat>, b: nat, x: nat) {
    b in blocks && b <= x < b + blocks[b]
  }

  /** Some block covers the unit `x`. */
  ghost predicate Covers(blocks: map<nat, nat>, x: nat) {
    exists b: nat :: Holds(blocks, b, x)
  }

  ghost predicate SameCover(m: map<nat, nat>, n: map<nat, nat>) {
    forall x: nat :: Covers(m, x) <==> Covers(n, x)
  }

  /** Two neighbours become one block. */
  function Merge(blocks: map<nat, nat>, a: nat, b: nat): map<nat, nat>
    requires a in blocks && b in blocks
  {
    (blocks - {b})[a := blocks[a] + blocks[b]]
  }

  lemma MergeOk(blocks: map<nat, nat>, a: nat, b: nat)
    requires Apart(blocks) && a in blocks && b in blocks && a + blocks[a] == b
    ensures Apart(Merge(blocks, a, b)) && SameCover(Merge(blocks, a, b), blocks)
  {
    var m := Merge(blocks, a, b);
    assert blocks[a] > 0 && blocks[b] > 0;
    forall c: nat, d: nat ensures Below(m, c, d) {
      assert Below(blocks, c, d) && Below(blocks, b, d) && Below(blocks, a, d);
    }
    forall x: nat
      ensures Covers(m, x) <==> Covers(blocks, x)
    {
      if c: nat :| Holds(blocks, c, x) {
        assert Holds(m, if c == b then a else c, x);
      }
      if c: nat :| Holds(m, c, x) {
        assert Holds(blocks, if c == a && x >= b then b else c, x);
      }
    }
  }

  /** The last `n` units of a block become a block of their own. */
  function Split(blocks: map<nat, nat>, a: nat, n: nat): map<nat, nat>
    requires a in blocks && n < blocks[a]
  {
    blocks[a := blocks[a] - n][a + blocks[a] - n := n]
  }

  lemma SplitOk(blocks: map<nat, nat>, a: nat, n: nat)
    requires Apart(blocks) && a in blocks && 0 < n < blocks[a]
    ensures Apart(Split(blocks, a, n)) && SameCover(Split(blocks, a, n), blocks)
    ensures a + blocks[a] - n !in blocks
  {
    var m, p := Split(blocks, a, n), a + blocks[a] - n;
    assert Below(blocks, a, p);
    forall c: nat, d: nat ensures Below(m, c, d) {
      assert Below(blocks, c, d) && Below(blocks, a, d) && Below(blocks, c, a) && Below(blocks, a, c);
    }
    forall x: nat
      ensures Covers(m, x) <==> Covers(blocks, x)
    {
      if c: nat :| Holds(blocks, c, x) {
        assert Holds(m, if c == a && x >= p then p else c, x);
      }
      if c: nat :| Holds(m, c, x) {
        assert Holds(blocks, if c == p then a else c, x);
      }
    }
  }

  /** Free blocks are blocks, and no two of them are neighbours. */
  ghost predicate FreeOk(ring: seq<nat>, blocks: map<nat, nat>) {
    && (forall i | 1 <= i < |ring| :: ring[i] in blocks)
    && (forall i: nat | 1 <= i < |ring| :: FreeAt(ring, blocks, i))
  }

  ghost predicate FreeAt(ring: seq<nat>, blocks: map<nat, nat>, i: nat)
    requires i < |ring|
  {
    ring[i] in blocks && (i + 1 < |ring| ==> ring[i] + blocks[ring[i]] != ring[i + 1])
  }

  /** The blocks in use. */
  ghost function Live(ring: seq<nat>, blocks: map<nat, nat>): map<nat, nat> {
    map b | b in blocks && b !in ring :: blocks[b]
  }

  /** A block in use that belongs behind position `i` of the free ring. */
  ghost predicate Freeing(ring: seq<nat>, blocks: map<nat, nat>, i: nat, b: nat) {
    && ring != [] && ring[0] == BASE && Increasing(ring)
    && Apart(blocks) && FreeOk(ring, blocks)
    && b in blocks && Between(ring, i, b)
  }

  /** The ring without the upper neighbour of `b`, if that is free, and the blocks after joining them. */
  ghost function AfterUpper(ring: seq<nat>, blocks: map<nat, nat>, i: nat, b: nat): (seq<nat>, map<nat, nat>)
    requires Freeing(ring, blocks, i, b)
  {
    if i + 1 < |ring| && b + blocks[b] == ring[i + 1]
    then assert FreeAt(ring, blocks, i + 1);
      (Without(ring, i + 1), Merge(blocks, b, ring[i + 1])) else (ring, blocks)
  }

  lemma WithoutAt(ring: seq<nat>, i: nat)
    requires i < |ring| && Increasing(ring)
    ensures Increasing(Without(ring, i))
    ensures forall x: nat :: x in Without(ring, i) <==> x in ring && x != ring[i]
  {
    var r := Without(ring, i);
    forall x: nat | x in ring && x != ring[i] ensures x in r {
      var k :| 0 <= k < |ring| && ring[k] == x;
      assert r[if k < i then k else k - 1] == x;
    }
  }

  lemma UpperFree(ring: seq<nat>, blocks: map<nat, nat>, i: nat, b: nat)
    requires Freeing(ring, blocks, i, b) && i + 1 < |ring| && b + blocks[b] == ring[i + 1]
    ensures var ring', blocks' := Without(ring, i + 1), Merge(blocks, b, ring[i + 1]);
            && Between(ring', i, b) && FreeOk(ring', blocks')
            && (i + 1 < |ring'| ==> b + blocks'[b] != ring'[i + 1])
  {
    var ring', blocks' := Without(ring, i + 1), Merge(blocks, b, ring[i + 1]);
    assert FreeAt(ring, blocks, i + 1) && Below(blocks, ring[i], b);
    forall k: nat | 1 <= k < |ring'| ensures FreeAt(ring', blocks', k) {
      assert FreeAt(ring, blocks, if k <= i then k else k + 1);
    }
  }

  lemma UpperLive(ring: seq<nat>, blocks: map<nat, nat>, i: nat, b: nat)
    requires Freeing(ring, blocks, i, b) && i + 1 < |ring| && b + blocks[b] == ring[i + 1]
    ensures Live(Without(ring, i + 1), Merge(blocks, b, ring[i + 1])) - {b} == Live(ring, blocks) - {b}
  {
    assert FreeAt(ring, blocks, i + 1);
    WithoutAt(ring, i + 1);
  }

  lemma UpperOk(ring: seq<nat>, blocks: map<nat, nat>, i: nat, b: nat)
    requires Freeing(ring, blocks, i, b)
    ensures var (ring', blocks') := AfterUpper(ring, blocks, i, b);
            && Freeing(ring', blocks', i, b) && ring'[i] == ring[i]
            && (i + 1 < |ring'| ==> b + blocks'[b] != ring'[i + 1])
            && blocks'[b] >= blocks[b]
            && (i > 0 ==> ring[i] in blocks' && blocks'[ring[i]] == blocks[ring[i]])
            && SameCover(blocks', blocks)
            && Live(ring', blocks') - {b} == Live(ring, blocks) - {b}
  {
    if i + 1 < |ring| && b + blocks[b] == ring[i + 1] {
      MergeOk(blocks, b, ring[i + 1]);
      WithoutAt(ring, i + 1);
      UpperFree(ring, blocks, i, b);
      UpperLive(ring, blocks, i, b);
    }
  }

  /** The lower neighbour takes `b` in, or `b` becomes a free block of its own. */
  ghost function AfterLower(ring: seq<nat>, blocks: map<nat, nat>, i: nat, b: nat): (seq<nat>, map<nat, nat>)
    requires Freeing(ring, blocks, i, b)
  {
    assert i > 0 ==> FreeAt(ring, blocks, i);
    if i > 0 && ring[i] + blocks[ring[i]] == b
    then (ring, Merge(blocks, ring[i], b)) else (Insert(ring, i + 1, b), blocks)
  }

  lemma InsertAt(ring: seq<nat>, i: nat, b: nat)
    requires i <= |ring|
    ensures forall x: nat :: x in Insert(ring, i, b) <==> x in ring || x == b
  {
    var r := Insert(ring, i, b);
    assert r[i] == b;
    forall x: nat | x in ring ensures x in r {
      var k :| 0 <= k < |ring| && ring[k] == x;
      assert r[if k < i then k else k + 1] == x;
    }
  }

  lemma InsertFree(ring: seq<nat>, blocks: map<nat, nat>, i: nat, b: nat)
    requires FreeOk(ring, blocks) && i < |ring| && b in blocks
    requires i + 1 < |ring| ==> b + blocks[b] != ring[i + 1]
    requires i > 0 ==> ring[i] + blocks[ring[i]] != b
    ensures FreeOk(Insert(ring, i + 1, b), blocks)
  {
    var r := Insert(ring, i + 1, b);
    forall k: nat | 1 <= k < |r| ensures FreeAt(r, blocks, k) {
      if k < i {
        assert FreeAt(ring, blocks, k);
      } else if k > i + 1 {
        assert FreeAt(ring, blocks, k - 1);
      }
    }
  }

  lemma LowerFree(ring: seq<nat>, blocks: map<nat, nat>, i: nat, b: nat)
    requires Freeing(ring, blocks, i, b) && (i + 1 < |ring| ==> b + blocks[b] != ring[i + 1])
    requires i > 0 && ring[i] + blocks[ring[i]] == b
    ensures FreeOk(ring, Merge(blocks, ring[i], b))
    ensures Live(ring, Merge(blocks, ring[i], b)) == Live(ring, blocks) - {b}
  {
    var blocks' := Merge(blocks, ring[i], b);
    assert FreeAt(ring, blocks, i);
    forall k: nat | 1 <= k < |ring| ensures FreeAt(ring, blocks', k) {
      assert FreeAt(ring, blocks, k);
    }
  }

  lemma LowerOk(ring: seq<nat>, blocks: map<nat, nat>, i: nat, b: nat)
    requires Freeing(ring, blocks, i, b) && (i + 1 < |ring| ==> b + blocks[b] != ring[i + 1])
    ensures var (ring', blocks') := AfterLower(ring, blocks, i, b);
            && Apart(blocks') && FreeOk(ring', blocks') && SameCover(blocks', blocks)
            && Live(ring', blocks') == Live(ring, blocks) - {b}
  {
    if i > 0 && ring[i] + blocks[ring[i]] == b {
      MergeOk(blocks, ring[i], b);
      LowerFree(ring, blocks, i, b);
    } else {
      InsertFree(ring, blocks, i, b);
      InsertAt(ring, i + 1, b);
    }
  }

  // ---------------------------------------------------------------- taking a block off the ring

  lemma TakeOk(ptr: map<nat, nat>, ring: seq<nat>, i: nat)
    requires RingOk(ptr, ring) && 1 <= i < |ring|
    ensures ring[i] in ptr && RingOk(ptr[ring[i - 1] := ptr[ring[i]]], Without(ring, i))
  {
    DropNext(ptr, ring, i - 1);
    LinkPast(ptr, Without(ring, i), i - 1);
  }

  lemma TakeFree(ring: seq<nat>, blocks: map<nat, nat>, i: nat)
    requires Increasing(ring) && Apart(blocks) && FreeOk(ring, blocks) && 1 <= i < |ring|
    ensures FreeOk(Without(ring, i), blocks)
  {
    var r := Without(ring, i);
    assert Below(blocks, ring[i - 1], ring[i]);
    forall k: nat | 1 <= k < |r| ensures FreeAt(r, blocks, k) {
      assert FreeAt(ring, blocks, if k < i then k else k + 1);
    }
  }

  /** Taking a free block off the ring puts it in use. */
  lemma TakeLive(ring: seq<nat>, blocks: map<nat, nat>, i: nat)
    requires Increasing(ring) && FreeOk(ring, blocks) && 1 <= i < |ring|
    ensures Live(Without(ring, i), blocks) == Live(ring, blocks)[ring[i] := blocks[ring[i]]]
  {
    WithoutAt(ring, i);
  }

  lemma SplitFree(ring: seq<nat>, blocks: map<nat, nat>, i: nat, n: nat)
    requires Increasing(ring) && Apart(blocks) && FreeOk(ring, blocks) && 1 <= i < |ring| && 0 < n < blocks[ring[i]]
    ensures FreeOk(ring, Split(blocks, ring[i], n))
  {
    var blocks' := Split(blocks, ring[i], n);
    assert i + 1 < |ring| ==> Below(blocks, ring[i], ring[i + 1]);
    forall k: nat | 1 <= k < |ring| ensures FreeAt(ring, blocks', k) {
      assert FreeAt(ring, blocks, k);
    }
  }

  /** The tail of a free block that was split off is in use. */
  lemma SplitLive(ring: seq<nat>, blocks: map<nat, nat>, i: nat, n: nat)
    requires Increasing(ring) && Apart(blocks) && FreeOk(ring, blocks) && 1 <= i < |ring| && 0 < n < blocks[ring[i]]
    requires BASE < ring[i] && ring[0] == BASE
    ensures Live(ring, Split(blocks, ring[i], n)) == Live(ring, blocks)[ring[i] + blocks[ring[i]] - n := n]
  {
    SplitOk(blocks, ring[i], n);
    assert ring[i] + blocks[ring[i]] - n !in ring;
  }
}
