/** The circular list of bio.c: `next` and `prev` are the link fields of the buffers, indexed by
    buffer number, and index `h` is the list head. `ring` is the order of the buffers, most
    recently used first.
 */
module BufferRing {
  import opened Common

  /** Position 0 and position |ring| + 1 are both the list head. */
  function At(h: nat, ring: seq<nat>, k: int): nat {
    if 1 <= k <= |ring| then ring[k - 1] else h
  }

  ghost predicate Linked(h: nat, next: seq<nat>, prev: seq<nat>, ring: seq<nat>, k: int)
    requires |next| == |prev| == h + 1 && InRange(h, ring)
  {
    next[At(h, ring, k)] == At(h, ring, k + 1) && prev[At(h, ring, k + 1)] == At(h, ring, k)
  }

  ghost predicate RingOk(h: nat, next: seq<nat>, prev: seq<nat>, ring: seq<nat>) {
    && |next| == |prev| == h + 1
    && InRange(h, ring)
    && Distinct(ring)
    && (forall k | 0 <= k <= |ring| :: Linked(h, next, prev, ring, k))
  }

  /** Unlinking position `i` leaves the ring of the others. */
  lemma Unlink(h: nat, next: seq<nat>, prev: seq<nat>, ring: seq<nat>, i: nat)
    requires RingOk(h, next, prev, ring) && i < |ring|
    ensures ring[i] < h && next[ring[i]] <= h && prev[ring[i]] <= h
    ensures var b := ring[i];
            RingOk(h, next[prev[b] := next[b]], prev[next[b] := prev[b]], Without(ring, i))
  {
    var b := ring[i];
    assert Linked(h, next, prev, ring, i) && Linked(h, next, prev, ring, i + 1);
    assert At(h, ring, i + 1) == b;
    assert next[b] == At(h, ring, i + 2) && prev[b] == At(h, ring, i);
    var next', prev', ring' := next[prev[b] := next[b]], prev[next[b] := prev[b]], Without(ring, i);
    forall k | 0 <= k <= |ring'| ensures Linked(h, next', prev', ring', k) {
      UnlinkAt(h, next, prev, ring, i, k);
    }
  }

  lemma UnlinkAt(h: nat, next: seq<nat>, prev: seq<nat>, ring: seq<nat>, i: nat, k: nat)
    requires RingOk(h, next, prev, ring) && i < |ring| && k < |ring|
    ensures InRange(h, Without(ring, i))
    ensures Linked(h, next[At(h, ring, i) := At(h, ring, i + 2)], prev[At(h, ring, i + 2) := At(h, ring, i)],
                   Without(ring, i), k)
  {
    assert Linked(h, next, prev, ring, k);
    assert Linked(h, next, prev, ring, k + 1);
    AtWithout(h, ring, i, k);
    AtWithout(h, ring, i, k + 1);
    var k' := if k <= i then k else k + 1;
    AtInjective(h, ring, i, k');
    AtInjective(h, ring, i + 2, if k + 1 <= i then k + 1 else k + 2);
  }

  lemma AtWithout(h: nat, ring: seq<nat>, i: nat, k: int)
    requires i < |ring| && 0 <= k <= |ring|
    ensures At(h, Without(ring, i), k) == At(h, ring, if k <= i then k else k + 1)
  {
  }

  lemma AtInjective(h: nat, ring: seq<nat>, j: nat, k: nat)
    requires Distinct(ring) && InRange(h, ring)
    requires j <= |ring| + 1 && k <= |ring| + 1
    ensures At(h, ring, j) == At(h, ring, k) <==> j == k || (IsHead(ring, j) && IsHead(ring, k))
  {
    if !IsHead(ring, j) && !IsHead(ring, k) && j != k {
      assert ring[j - 1] != ring[k - 1];
    }
  }

  predicate IsHead(ring: seq<nat>, k: nat) {
    k == 0 || k == |ring| + 1
  }

  /** Linking a buffer in behind the list head makes it the most recently used one. */
  lemma PushFront(h: nat, next: seq<nat>, prev: seq<nat>, ring: seq<nat>, b: nat)
    requires RingOk(h, next, prev, ring) && b < h && b !in ring
    ensures next[h] <= h
    ensures RingOk(h, next[b := next[h]][h := b], prev[b := h][next[h] := b], [b] + ring)
  {
    assert Linked(h, next, prev, ring, 0);
    var next', prev', ring' := next[b := next[h]][h := b], prev[b := h][next[h] := b], [b] + ring;
    assert next[h] == At(h, ring, 1);
    forall k | 0 <= k <= |ring'| ensures Linked(h, next', prev', ring', k) {
      if k > 0 {
        assert Linked(h, next, prev, ring, k - 1);
        assert k > 1 ==> At(h, ring', k) == At(h, ring, k - 1);
        assert At(h, ring', k + 1) == At(h, ring, k);
        AtInjective(h, ring, k, 1);
        AtInjective(h, ring, k - 1, 0);
      }
    }
  }

  lemma WithoutKeeps(ring: seq<nat>, k: nat)
    requires k < |ring| && Distinct(ring)
    ensures ring[k] !in Without(ring, k)
    ensures forall b | b in ring && b != ring[k] :: b in Without(ring, k)
  {
    forall b | b in ring && b != ring[k] ensures b in Without(ring, k) {
      var j :| 0 <= j < |ring| && ring[j] == b;
      assert Without(ring, k)[if j < k then j else j - 1] == b;
    }
  }
}
