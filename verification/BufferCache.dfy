/** The buffer cache of bio.c. Each method is one critical section, or one action of a process on a buffer
    whose sleep lock it holds, so what every method keeps holds in every interleaving of processes; `me` is
    the process, whose number is not 0.
 */
module BufferCache {
  import opened Common
  import opened DiskBlocks
  import opened BufferRing
  import opened Buffers

  /** What bread comes to: no buffer is left, which is a panic; the buffer is locked; or the caller has a
      reference to the buffer and sleeps until its lock is free. */
  datatype ReadResult = NoBuffers | Locked(buf: nat) | Waiting(buf: nat)

  function NoBuf(): Buf {
    Buf(Addr(0, 0), 0, 0, false, false, Zero())
  }

  class Cache {
    const buf: array<Buf>
    const next: array<nat>
    const prev: array<nat>
    var disk: Store
    ghost var ring: seq<nat>    // the buffers, most recently used first

    ghost predicate Valid()
      reads this, buf, next, prev
    {
      && buf.Length == NBUF && next.Length == prev.Length == NBUF + 1 && next != prev
      && RingOk(NBUF, next[..], prev[..], ring)
      && |ring| == NBUF && (forall b: nat | b < NBUF :: b in ring)
      && Unique(buf[..])
      && (forall i | 0 <= i < NBUF :: BufOk(buf[i], disk))
    }

    /** No block contains anything else than it did with the buffers `bufs` and the disk `d`. */
    ghost predicate SameContents(bufs: seq<Buf>, d: Store)
      reads this, buf
    {
      forall c | c in disk && c in d && c.dev != 0 :: Contents(buf[..], disk, c) == Contents(bufs, d, c)
    }

    /** Position of a buffer in the ring. */
    ghost function Position(b: nat): (k: nat)
      requires b in ring
      reads this
      ensures k < |ring| && ring[k] == b
    {
      var k :| 0 <= k < |ring| && ring[k] == b; k
    }

    /** binit: all buffers empty and in the ring, the last one initialised in front. */
    constructor (d: Store)
      ensures Valid() && fresh(buf) && fresh(next) && fresh(prev)
      ensures disk == d
      ensures forall i | 0 <= i < NBUF :: buf[i] == NoBuf()
    {
      buf := new Buf[NBUF](i => NoBuf());
      next := new nat[NBUF + 1](i => NBUF);
      prev := new nat[NBUF + 1](i => NBUF);
      disk, ring := d, [];
      new;
      for b := 0 to NBUF
        invariant next.Length == prev.Length == NBUF + 1 && next != prev && fresh(next) && fresh(prev)
        invariant RingOk(NBUF, next[..], prev[..], ring)
        invariant |ring| == b && (forall i | 0 <= i < b :: ring[i] < b) && (forall i: nat | i < b :: i in ring)
        invariant disk == d
        invariant buf.Length == NBUF && fresh(buf)
        invariant forall i | 0 <= i < NBUF :: buf[i] == NoBuf()
      {
        PushFront(NBUF, next[..], prev[..], ring, b);
        ghost var n0: seq<nat>, p0: seq<nat> := next[..], prev[..];
        next[b] := next[NBUF];
        prev[b] := NBUF;
        prev[next[NBUF]] := b;
        next[NBUF] := b;
        ring := [b] + ring;
        assert next[..] == n0[b := n0[NBUF]][NBUF := b];
        assert prev[..] == p0[b := NBUF][n0[NBUF] := b];
      }
    }

    /** The first loop of bget: follows `next` from the list head. */
    method FindCached(a: Addr) returns (b: nat)
      requires Valid()
      ensures b == NBUF ==> forall i | 0 <= i < NBUF :: buf[i].addr != a
      ensures b != NBUF ==> b < NBUF && buf[b].addr == a
    {
      ghost var k := 1;
      assert Linked(NBUF, next[..], prev[..], ring, 0);
      b := next[NBUF];
      while b != NBUF
        invariant 1 <= k <= NBUF + 1 && b == At(NBUF, ring, k)
        invariant forall j | 0 <= j < k - 1 :: buf[ring[j]].addr != a
        decreases NBUF + 1 - k
      {
        if buf[b].addr == a {
          return;
        }
        assert Linked(NBUF, next[..], prev[..], ring, k);
        b := next[b];
        k := k + 1;
      }
      forall i: nat | i < NBUF ensures buf[i].addr != a {
        var j := Position(i);
      }
    }

    /** The second loop of bget: follows `prev` from the list head. */
    method FindUnused() returns (b: nat)
      requires Valid()
      ensures b == NBUF ==> forall i | 0 <= i < NBUF :: InUse(buf[i])
      ensures b != NBUF ==> b < NBUF && !InUse(buf[b]) && forall k | Position(b) < k < |ring| :: InUse(buf[ring[k]])
    {
      ghost var k := NBUF;
      assert Linked(NBUF, next[..], prev[..], ring, NBUF);
      b := prev[NBUF];
      while b != NBUF
        invariant 0 <= k <= NBUF && b == At(NBUF, ring, k)
        invariant forall j | k <= j < NBUF :: InUse(buf[ring[j]])
        decreases k
      {
        if buf[b].refcnt == 0 && !buf[b].dirty {
          assert Position(b) == k - 1;
          return;
        }
        assert Linked(NBUF, next[..], prev[..], ring, k - 1);
        b := prev[b];
        k := k - 1;
      }
      forall i: nat | i < NBUF ensures InUse(buf[i]) {
        var j := Position(i);
      }
    }

    /** bget, up to the release of the cache lock: finds the block's buffer or recycles the least
        recently used buffer that is neither referenced nor dirty. */
    method Bget(a: Addr) returns (r: Option<nat>)
      requires Valid() && a.dev != 0
      modifies buf
      ensures Valid() && SameContents(old(buf[..]), disk)
      ensures r == None <==> forall i | 0 <= i < NBUF :: old(buf[i]).addr != a && InUse(old(buf[i]))
      ensures r == None ==> buf[..] == old(buf[..])
      ensures r.Some? ==> r.value < NBUF && buf[..] == old(buf[..])[r.value := buf[r.value]]
      ensures r.Some? && old(buf[..])[r.value].addr == a ==>
                buf[r.value] == old(buf[..])[r.value].(refcnt := old(buf[..])[r.value].refcnt + 1)
      ensures r.Some? && old(buf[..])[r.value].addr != a ==>
                var b := old(buf[..])[r.value];
                && !InUse(b) && buf[r.value] == b.(addr := a, refcnt := 1, valid := false)
                && (forall i | 0 <= i < NBUF :: old(buf[i]).addr != a)
                && (forall k | Position(r.value) < k < |ring| :: InUse(old(buf[..])[ring[k]]))
    {
      ghost var bufs := buf[..];
      var b := FindCached(a);
      if b != NBUF {
        buf[b] := buf[b].(refcnt := buf[b].refcnt + 1);
        assert buf[..] == bufs[b := buf[b]];
        forall c | c in disk && c.dev != 0 ensures Contents(buf[..], disk, c) == Contents(bufs, disk, c) {
          SameKeepsContents(bufs, disk, b, buf[b], c);
        }
        return Some(b);
      }
      b := FindUnused();
      if b == NBUF {
        return None;
      }
      buf[b] := Buf(a, 1, buf[b].holder, false, false, buf[b].data);
      assert buf[..] == bufs[b := buf[b]];
      forall c | c in disk && c.dev != 0 ensures Contents(buf[..], disk, c) == Contents(bufs, disk, c) {
        RecycleKeepsContents(bufs, disk, b, buf[b], c);
      }
      return Some(b);
    }

    /** A buffer changes, but not what it says about its block. */
    method Touch(i: nat, b: Buf)
      requires Valid() && i < NBUF && BufOk(b, disk)
      requires b.addr == buf[i].addr && b.valid == buf[i].valid && b.data == buf[i].data
      modifies buf
      ensures Valid() && buf[..] == old(buf[..])[i := b] && SameContents(old(buf[..]), disk)
    {
      ghost var bufs := buf[..];
      buf[i] := b;
      assert buf[..] == bufs[i := b];
      forall c | c in disk && c.dev != 0 ensures Contents(buf[..], disk, c) == Contents(bufs, disk, c) {
        SameKeepsContents(bufs, disk, i, b, c);
      }
    }

    /** acquiresleep on a buffer this process has a reference to, when the lock is free. */
    method Lock(i: nat, me: nat)
      requires Valid() && i < NBUF && buf[i].refcnt > 0 && buf[i].holder == 0 && me != 0
      modifies buf
      ensures Valid() && buf[..] == old(buf[..])[i := old(buf[i]).(holder := me)] && SameContents(old(buf[..]), disk)
    {
      Touch(i, buf[i].(holder := me));
    }

    /** The disk read of bread, for a buffer that was recycled. */
    method Fill(i: nat, me: nat)
      requires Valid() && i < NBUF && buf[i].holder == me != 0 && buf[i].addr.dev != 0 && buf[i].addr in disk
      modifies buf
      ensures Valid() && SameContents(old(buf[..]), disk)
      ensures buf[..] == old(buf[..])[i := if old(buf[i]).valid then old(buf[i])
                                          else old(buf[i]).(valid := true, data := disk[old(buf[i]).addr])]
      ensures buf[i].data == Contents(old(buf[..]), disk, buf[i].addr)
    {
      ghost var bufs := buf[..];
      if !buf[i].valid {
        buf[i] := buf[i].(valid := true, data := disk[buf[i].addr]);
        assert buf[..] == bufs[i := buf[i]];
        forall c | c in disk && c.dev != 0 ensures Contents(buf[..], disk, c) == Contents(bufs, disk, c) {
          FillKeepsContents(bufs, disk, i, c);
        }
      }
      ContentsOf(buf[..], disk, i);
    }

    /** bread. A locked buffer has the block's contents, whether it came from the cache or from the disk; no
        block's contents change. A caller that has to wait has its reference, and goes on with Lock and Fill. */
    method Bread(a: Addr, me: nat) returns (r: ReadResult)
      requires Valid() && a.dev != 0 && a in disk && me != 0
      modifies buf
      ensures Valid() && SameContents(old(buf[..]), disk)
      ensures r == NoBuffers <==> forall i | 0 <= i < NBUF :: old(buf[i]).addr != a && InUse(old(buf[i]))
      ensures r == NoBuffers ==> buf[..] == old(buf[..])
      ensures r != NoBuffers ==> r.buf < NBUF && buf[r.buf].addr == a && buf[..] == old(buf[..])[r.buf := buf[r.buf]]
      ensures r.Waiting? ==>
                && old(buf[..])[r.buf].addr == a && old(buf[..])[r.buf].holder != 0
                && buf[r.buf] == old(buf[..])[r.buf].(refcnt := old(buf[..])[r.buf].refcnt + 1)
      ensures r.Locked? ==>
                && (old(buf[..])[r.buf].addr == a ==> old(buf[..])[r.buf].holder == 0)
                && buf[r.buf].holder == me && buf[r.buf].valid && buf[r.buf].data == Contents(old(buf[..]), disk, a)
                && (old(buf[..])[r.buf].addr == a ==>
                      && buf[r.buf].refcnt == old(buf[..])[r.buf].refcnt + 1
                      && buf[r.buf].dirty == old(buf[..])[r.buf].dirty
                      && (old(buf[..])[r.buf].valid ==> buf[r.buf].data == old(buf[..])[r.buf].data))
                && (old(buf[..])[r.buf].addr != a ==>
                      !InUse(old(buf[..])[r.buf]) && buf[r.buf].refcnt == 1 && !buf[r.buf].dirty)
                && (!buf[r.buf].dirty ==> buf[r.buf].data == disk[a])
    {
      var b := Bget(a);
      if b == None {
        return NoBuffers;
      }
      if buf[b.value].holder != 0 {
        return Waiting(b.value);
      }
      Lock(b.value, me);
      Fill(b.value, me);
      r := Locked(b.value);
    }

    /** The holder of the lock changes the buffer's data: only its block's contents change. */
    method Modify(i: nat, me: nat, data: Block)
      requires Valid() && i < NBUF && buf[i].holder == me != 0 && buf[i].valid
      modifies buf
      ensures Valid() && buf[..] == old(buf[..])[i := old(buf[i]).(data := data)]
      ensures Contents(buf[..], disk, buf[i].addr) == data
      ensures forall c | c in disk && c.dev != 0 && c != buf[i].addr ::
                Contents(buf[..], disk, c) == Contents(old(buf[..]), disk, c)
    {
      ghost var bufs := buf[..];
      buf[i] := buf[i].(data := data);
      assert buf[..] == bufs[i := buf[i]];
      ContentsOf(buf[..], disk, i);
      forall c | c in disk && c.dev != 0 && c != buf[i].addr
        ensures Contents(buf[..], disk, c) == Contents(bufs, disk, c)
      {
        OthersKeepContents(bufs, disk, disk, i, buf[i], c);
      }
    }

    /** What log_write does to the buffer: it is not recycled until it has been written. */
    method Pin(i: nat, me: nat)
      requires Valid() && i < NBUF && buf[i].holder == me != 0 && buf[i].valid
      modifies buf
      ensures Valid() && buf[..] == old(buf[..])[i := old(buf[i]).(dirty := true)] && SameContents(old(buf[..]), disk)
    {
      Touch(i, buf[i].(dirty := true));
    }

    /** bwrite: the only method that changes the disk. What blocks contain does not change. It panics exactly
        if the caller does not hold the lock. */
    method Bwrite(i: nat, me: nat) returns (ok: bool)
      requires Valid() && i < NBUF && buf[i].valid && me != 0
      modifies buf, `disk
      ensures Valid() && SameContents(old(buf[..]), old(disk))
      ensures ok <==> old(buf[i]).holder == me
      ensures ok ==> disk == old(disk)[buf[i].addr := buf[i].data]
      ensures ok ==> buf[..] == old(buf[..])[i := old(buf[i]).(dirty := false)]
      ensures !ok ==> disk == old(disk) && buf[..] == old(buf[..])
    {
      if buf[i].holder != me {
        return false;
      }
      ghost var bufs := buf[..];
      disk := disk[buf[i].addr := buf[i].data];
      buf[i] := buf[i].(dirty := false);
      assert buf[..] == bufs[i := buf[i]];
      forall c | c in disk && c.dev != 0 ensures Contents(buf[..], disk, c) == Contents(bufs, old(disk), c) {
        if c == buf[i].addr {
          ContentsOf(buf[..], disk, i);
          ContentsOf(bufs, old(disk), i);
        } else {
          OthersKeepContents(bufs, old(disk), disk, i, buf[i], c);
        }
      }
      ok := true;
    }

    /** The first half of brelse: releasesleep, by a process that has logged or written what it changed. It
        panics exactly if the caller does not hold the lock. */
    method Release(i: nat, me: nat) returns (ok: bool)
      requires Valid() && i < NBUF && me != 0 && (buf[i].holder == me ==> Settled(buf[i], disk))
      modifies buf
      ensures Valid() && SameContents(old(buf[..]), disk)
      ensures ok <==> old(buf[i]).holder == me
      ensures buf[..] == if ok then old(buf[..])[i := old(buf[i]).(holder := 0)] else old(buf[..])
    {
      if buf[i].holder != me {
        return false;
      }
      Touch(i, buf[i].(holder := 0));
      ok := true;
    }

    /** The second half, under the cache lock: the last reference moves the buffer to the front of the ring.
        The caller's reference is not that of the process that holds the lock. */
    method Unref(i: nat)
      requires Valid() && i < NBUF && buf[i].refcnt > (if buf[i].holder != 0 then 1 else 0)
      modifies buf, next, prev, `ring
      ensures Valid() && SameContents(old(buf[..]), disk)
      ensures buf[..] == old(buf[..])[i := old(buf[i]).(refcnt := old(buf[i]).refcnt - 1)]
      ensures ring == if buf[i].refcnt == 0 then [i] + Without(old(ring), old(Position(i))) else old(ring)
    {
      Touch(i, buf[i].(refcnt := buf[i].refcnt - 1));
      if buf[i].refcnt == 0 {
        MoveToFront(i);
      }
    }

    /** brelse with nothing between its halves. */
    method Brelse(i: nat, me: nat) returns (ok: bool)
      requires Valid() && i < NBUF && me != 0 && (buf[i].holder == me ==> Settled(buf[i], disk))
      modifies buf, next, prev, `ring
      ensures Valid() && SameContents(old(buf[..]), disk)
      ensures ok <==> old(buf[i]).holder == me
      ensures ok ==> buf[..] == old(buf[..])[i := old(buf[i]).(holder := 0, refcnt := old(buf[i]).refcnt - 1)]
      ensures ring == if ok && buf[i].refcnt == 0 then [i] + Without(old(ring), old(Position(i))) else old(ring)
      ensures !ok ==> buf[..] == old(buf[..])
    {
      ghost var bufs := buf[..];
      ok := Release(i, me);
      if ok {
        Unref(i);
        assert buf[..] == bufs[i := bufs[i].(holder := 0, refcnt := bufs[i].refcnt - 1)];
      }
    }

    method MoveToFront(b: nat)
      requires Valid() && b < NBUF
      modifies next, prev, `ring
      ensures Valid() && ring == [b] + Without(old(ring), old(Position(b)))
    {
      ghost var n0: seq<nat>, p0: seq<nat>, k := next[..], prev[..], Position(b);
      ghost var rest := Without(ring, k);
      Unlink(NBUF, n0, p0, ring, k);
      prev[next[b]] := prev[b];
      next[prev[b]] := next[b];
      ghost var n1: seq<nat>, p1: seq<nat> := next[..], prev[..];
      WithoutKeeps(ring, k);
      PushFront(NBUF, n1, p1, rest, b);
      next[b] := next[NBUF];
      prev[b] := NBUF;
      prev[next[NBUF]] := b;
      next[NBUF] := b;
      assert next[..] == n1[b := n1[NBUF]][NBUF := b];
      assert prev[..] == p1[b := NBUF][n1[NBUF] := b];
      ring := [b] + rest;
    }
  }
}
