/** malloc and free of umalloc.c, over sbrk as sysproc.c and growproc of proc.c make it. Addresses and sizes
    are in units of one header.
 */
module Heap {
  import opened Common
  import opened FreeRing

  const HEADER: nat := 8
  const PAGE: nat := 512   // units in a page

  /** What a call comes to: the process is killed, it returns 0, or it returns an address. */
  datatype Reply = Killed | Null | Block(addr: nat)

  class Allocator {
    var ptr: map<nat, nat>     // s.ptr of each header
    var size: map<nat, nat>    // s.size of each header
    var freep: nat             // 0 until the first call of malloc
    var brk: nat               // the end of the memory that the process has for its heap
    ghost var ring: seq<nat>
    ghost var blocks: map<nat, nat>

    /** The blocks are apart, no two free ones are neighbours, and the ring links the free ones by address. */
    ghost predicate Shape()
      reads this
    {
      && Apart(blocks) && FreeOk(ring, blocks) && Sizes(size, blocks)
      && if freep == 0 then ring == [] && blocks == map[] else RingOk(ptr, ring) && freep in ring
    }

    /** And all blocks are in memory that the process has. */
    ghost predicate Valid()
      reads this
    {
      Shape() && Within(blocks, brk)
    }

    lemma InRing(i: nat)
      requires Shape() && i < |ring|
      ensures ring[i] in ptr && ring[i] in size && ptr[ring[i]] == Succ(ring, i) && Succ(ring, i) in size
      ensures size[ring[i]] > 0 <==> i > 0
    {
      assert LinkedAt(ptr, ring, i);
    }

    /** The position whose successor is behind `b` in address order. */
    ghost function Place(b: nat): (i: nat)
      requires Shape() && ring != [] && b > BASE && b !in ring
      reads this
      ensures Between(ring, i, b)
    {
      PlaceExists(ring, b, |ring|);
      var i: nat :| Between(ring, i, b);
      i
    }

    /** The loop of free: walks the ring from freep to the place for `b`. */
    method FindPlace(b: nat) returns (p: nat, ghost i: nat)
      requires Shape() && ring != [] && b > BASE && b !in ring
      ensures Between(ring, i, b) && p == ring[i]
    {
      p := freep;
      i :| 0 <= i < |ring| && ring[i] == freep;
      ghost var goal := Place(b);
      assert LinkedAt(ptr, ring, i);
      while !(b > p && b < ptr[p])
        invariant i < |ring| && p == ring[i] && LinkedAt(ptr, ring, i)
        decreases if i <= goal then goal - i else goal + |ring| - i
      {
        if p >= ptr[p] && (b > p || b < ptr[p]) {
          break;
        }
        i := if i + 1 < |ring| then i + 1 else 0;
        p := ptr[p];
        assert LinkedAt(ptr, ring, i);
      }
    }

    /** The first half of free: a free upper neighbour is joined to the block. */
    method JoinUpper(b: nat, p: nat, ghost i: nat)
      requires Shape() && b in Live(ring, blocks) && ring != [] && Between(ring, i, b) && p == ring[i]
      modifies `ptr, `size, `ring, `blocks
      ensures Joining(ptr, size, ring, blocks, i, b) && p == ring[i] && blocks[b] >= old(blocks)[b]
      ensures SameCover(blocks, old(blocks)) && Live(ring, blocks) - {b} == old(Live(ring, blocks)) - {b}
    {
      UpperOk(ring, blocks, i, b);
      ghost var (ring1, blocks1) := AfterUpper(ring, blocks, i, b);
      assert LinkedAt(ptr, ring, i);
      if b + size[b] == ptr[p] {
        var up := ptr[p];
        assert i + 1 < |ring| && up == ring[i + 1];
        DropNext(ptr, ring, i);
        Irrelevant(ptr, ring1, i, b, ptr[up]);
        size := size[b := size[b] + size[up]];
        ptr := ptr[b := ptr[up]];
      } else {
        Irrelevant(ptr, ring1, i, b, ptr[p]);
        ptr := ptr[b := ptr[p]];
      }
      ring, blocks := ring1, blocks1;
    }

    /** The second half of free: the block is joined to a free lower neighbour, or linked in behind it. */
    method JoinLower(b: nat, p: nat, ghost i: nat)
      requires Joining(ptr, size, ring, blocks, i, b) && p == ring[i]
      modifies `ptr, `size, `ring, `blocks, `freep
      ensures Shape() && freep == p && p in size && p in ptr
      ensures size[p] >= old(blocks)[b] || (ptr[p] == b && b in size && size[b] >= old(blocks)[b])
      ensures SameCover(blocks, old(blocks)) && Live(ring, blocks) == old(Live(ring, blocks)) - {b}
    {
      LowerOk(ring, blocks, i, b);
      ghost var (ring2, blocks2) := AfterLower(ring, blocks, i, b);
      assert i > 0 ==> ring[i] > BASE;
      if p + size[p] == b {
        LinkPast(ptr, ring, i);
        size := size[p := size[p] + size[b]];
        ptr := ptr[p := ptr[b]];
      } else {
        LinkIn(ptr, ring, i, b);
        ptr := ptr[p := b];
        assert ring2[i] == p;
      }
      freep := p;
      ring, blocks := ring2, blocks2;
    }

    /** free: the block's units become free, the neighbours are joined, and nothing else changes hands. */
    method Free(b: nat)
      requires Shape() && b in Live(ring, blocks) && ring != []
      modifies `ptr, `size, `ring, `blocks, `freep
      ensures Shape() && (Valid() <==> old(Valid()))
      ensures Live(ring, blocks) == old(Live(ring, blocks)) - {b}
      ensures SameCover(blocks, old(blocks))
      ensures freep != 0 && freep in size && freep in ptr && Precedes(old(ring), freep, b)
      ensures size[freep] >= old(blocks)[b] || (ptr[freep] == b && b in size && size[b] >= old(blocks)[b])
    {
      var p;
      ghost var i;
      p, i := FindPlace(b);
      PlacePrecedes(ring, i, b);
      JoinUpper(b, p, i);
      JoinLower(b, p, i);
      SameWithin(blocks, old(blocks), brk);
    }

    constructor (brk: nat)
      requires brk > BASE
      ensures Valid() && ring == [] && blocks == map[] && this.brk == brk
    {
      ptr, size, freep, this.brk := map[], map[BASE := 0], 0, brk;
      ring, blocks := [], map[];
    }

    /** Memory from sbrk becomes one block in use; `end` is where the memory of the process ends now. Storing
        the header needs its page; without it Morecore ends before. */
    method AddBlock(a: nat, n: nat, end: nat)
      requires Valid() && ring != [] && a >= brk && n > 0 && HasPage(a, end)
      modifies `size, `brk, `blocks
      ensures Shape() && brk == end && blocks == old(blocks)[a := n]
      ensures a !in old(Live(ring, blocks)) && Live(ring, blocks) == old(Live(ring, blocks))[a := n]
      ensures Extended(blocks, old(blocks), a, n)
    {
      GrowOk(ring, blocks, a, n, brk);
      size := size[a := n];
      blocks := blocks[a := n];
      brk := end;
    }

    /** morecore. `top` is the size of the process, and `refused` says that growing it would fail. The process
        is killed exactly if the argument of sbrk is not positive as an int and the page for the new header is
        not there. Otherwise the heap is sound afterwards exactly if the argument is positive. */
    method Morecore(nunits: nat, top: nat, refused: bool) returns (r: Reply)
      requires Valid() && ring != [] && 0 < nunits <= UINT / HEADER && top >= brk
      modifies this
      ensures r.Killed? <==> Kills(top, SbrkArg(Growth(nunits)))
      ensures r.Null? <==> SbrkArg(Growth(nunits)) > 0 && refused
      ensures r.Killed? ==> unchanged(this)
      ensures !r.Killed? ==> Shape() && (Valid() <==> SbrkArg(Growth(nunits)) > 0)
      ensures Live(ring, blocks) == old(Live(ring, blocks)) && ring != []
      ensures r.Null? ==> unchanged(this)
      ensures r.Block? ==>
                && r.addr == freep && freep in size && freep in ptr && ptr[freep] in size
                && (size[freep] >= nunits || size[ptr[freep]] >= nunits)
                && Precedes(old(ring), freep, top)
                && var n := if nunits <= 4096 then 4096 else nunits;
                   Extended(blocks, old(blocks), top, n) && (Valid() ==> brk == top + n)
    {
      hide Precedes, Extended, SameCover, Kills, Apart, FreeOk, Sizes, RingOk, Covers, SbrkArg, HasPage;
      var nu := nunits;
      if nu < 4096 {
        nu := 4096;
      }
      ArgRange(nu);
      var call := Sbrk(top, SbrkArg(nu), refused);
      HeaderPage(top, SbrkArg(nu), refused);
      if call.addr == -1 && call.top > 0 {
        return Null;
      }
      if !HasPage(top, call.top) {
        return Killed;
      }
      ghost var before := blocks;
      AddBlock(call.addr, nu, call.top);
      Free(call.addr);
      ExtendedThen(before, top, nu, blocks);
      ExtendedWithin(before, old(brk), top, nu, blocks, brk);
      ghost var i :| 0 <= i < |ring| && ring[i] == freep;
      InRing(i);
      r := Block(freep);
    }

    /** malloc takes a free block whole. */
    method TakeWhole(p: nat, prevp: nat, ghost i: nat)
      requires Shape() && 1 <= i < |ring| && p == ring[i] && prevp == ring[i - 1]
      modifies `ptr, `freep, `ring
      ensures Shape() && p !in old(Live(ring, blocks)) && freep == prevp
      ensures Live(ring, blocks) == old(Live(ring, blocks))[p := blocks[p]]
    {
      TakeOk(ptr, ring, i);
      TakeFree(ring, blocks, i);
      TakeLive(ring, blocks, i);
      ptr := ptr[prevp := ptr[p]];
      ring := Without(ring, i);
      assert ring[i - 1] == prevp;
      freep := prevp;
    }

    /** malloc takes the tail of a free block. */
    method TakeTail(p: nat, prevp: nat, nunits: nat, ghost i: nat) returns (q: nat)
      requires Shape() && 1 <= i < |ring| && p == ring[i] && prevp == ring[i - 1]
      requires 0 < nunits < blocks[p]
      modifies `size, `freep, `blocks
      ensures Shape() && SameCover(blocks, old(blocks)) && q !in old(Live(ring, blocks))
      ensures Live(ring, blocks) == old(Live(ring, blocks))[q := nunits]
      ensures q == p + old(blocks)[p] - nunits && freep == prevp
    {
      SplitOk(blocks, p, nunits);
      SplitFree(ring, blocks, i, nunits);
      SplitLive(ring, blocks, i, nunits);
      blocks := Split(blocks, p, nunits);
      size := size[p := size[p] - nunits];
      q := p + size[p];
      size := size[q := nunits];
      freep := prevp;
    }

    /** The first call of malloc makes the ring of the empty block BASE alone. */
    method EnsureBase()
      requires Shape()
      modifies `ptr, `freep, `ring
      ensures Shape() && ring != [] && freep != 0
      ensures ring == Based(old(ring)) && freep == if old(ring) == [] then BASE else old(freep)
      ensures Live(ring, blocks) == old(Live(ring, blocks))
    {
      if freep == 0 {
        ptr, freep := ptr[BASE := BASE], BASE;
        ring := [BASE];
        assert LinkedAt(ptr, ring, 0);
      }
    }

    /** malloc's walk along the ring from freep until it finds the first block that is large enough,
        or comes back to freep. */
    method FirstFit(nunits: nat) returns (found: bool, p: nat, prevp: nat, ghost i: nat, ghost f: nat)
      requires Shape() && ring != [] && nunits > 0
      ensures found <==> HasRoom(ring, blocks, nunits)
      ensures found ==> 1 <= i < |ring| && p == ring[i] && prevp == ring[i - 1] && blocks[p] >= nunits
      ensures f < |ring| && ring[f] == freep && (found ==> FirstFrom(ring, blocks, nunits, f, i))
    {
      hide Unvisited;
      f :| 0 <= f < |ring| && ring[f] == freep;
      prevp := freep;
      ghost var j := f;   // the position of prevp
      InRing(j);
      p, i := ptr[prevp], Following(|ring|, j);
      NoneVisited(ring, blocks, nunits, f);
      InRing(i);
      while size[p] < nunits
        invariant 0 <= j < |ring| && prevp == ring[j] && p == Succ(ring, j) && p in ptr && p in size
        invariant i == Following(|ring|, j) && p == ring[i]
        invariant Unvisited(ring, blocks, nunits, i, f)
        decreases Distance(|ring|, i, f)
      {
        InRing(i);
        if p == freep {
          assert i == f;
          NoneLeft(ring, blocks, nunits, f);
          found := false;
          return;
        }
        Visited(ring, blocks, nunits, i, f);
        prevp, p, j := p, ptr[p], i;
        i := Following(|ring|, j);
        InRing(i);
      }
      InRing(i);
      UnvisitedFirst(ring, blocks, nunits, i, f);
      found := true;
    }

    /** The end of malloc for a block that is large enough. */
    method Take(p: nat, prevp: nat, nunits: nat, ghost i: nat) returns (q: nat)
      requires Shape() && 1 <= i < |ring| && p == ring[i] && prevp == ring[i - 1]
      requires 0 < nunits <= blocks[p]
      modifies `ptr, `size, `freep, `ring, `blocks
      ensures Shape() && SameCover(blocks, old(blocks)) && q !in old(Live(ring, blocks))
      ensures Live(ring, blocks) == old(Live(ring, blocks))[q := nunits]
      ensures q == p + old(blocks)[p] - nunits && freep == prevp
    {
      if size[p] == nunits {
        TakeWhole(p, prevp, i);
        q := p;
      } else {
        q := TakeTail(p, prevp, nunits, i);
      }
    }

    /** malloc. sbrk is called at most once, and exactly if no free block is large enough. The process is
        killed, the result is 0, or it is the address behind the header of a block that was not in use; all
        other blocks in use stay as they are. A heap that is left is sound exactly if sbrk was not called or
        had a positive argument. The block is the whole or the tail of the first one with room from freep on, in
        the heap `found`: the one before the call, or the one that morecore leaves. */
    method Malloc(nbytes: nat, top: nat, refused: bool) returns (r: Reply, ghost found: FreeList)
      requires Valid() && nbytes < UINT && top >= brk
      modifies this
      ensures r.Killed? <==> !HasRoom(old(ring), old(blocks), Units(nbytes)) && Kills(top, ArgFor(nbytes))
      ensures r.Null? <==> !HasRoom(old(ring), old(blocks), Units(nbytes)) && SbrkPositive(nbytes) && refused
      ensures !r.Killed? ==>
                Shape() && (Valid() <==> HasRoom(old(ring), old(blocks), Units(nbytes)) || SbrkPositive(nbytes))
      ensures !r.Block? ==> Live(ring, blocks) == old(Live(ring, blocks))
      ensures r.Block? ==>
                && r.addr > 0 && r.addr - 1 !in old(Live(ring, blocks))
                && Live(ring, blocks) == old(Live(ring, blocks))[r.addr - 1 := Units(nbytes)]
      ensures if !r.Block? || HasRoom(old(ring), old(blocks), Units(nbytes))
              then SameCover(blocks, old(blocks)) && brk == old(brk)
              else var n := if Units(nbytes) <= 4096 then 4096 else Units(nbytes);
                   Extended(blocks, old(blocks), top, n) && (Valid() ==> brk == top + n)
      ensures r.Block? ==> TakenFrom(found, Units(nbytes), r.addr - 1, freep)
      ensures r.Block? && HasRoom(old(ring), old(blocks), Units(nbytes)) ==>
                found == FreeList(Based(old(ring)), old(blocks), if old(ring) == [] then BASE else old(freep))
      ensures r.Block? && !HasRoom(old(ring), old(blocks), Units(nbytes)) ==>
                && Live(found.ring, found.blocks) == old(Live(ring, blocks)) && FreeOk(found.ring, found.blocks)
                && Precedes(Based(old(ring)), found.freep, top)
                && Extended(found.blocks, old(blocks), top, if Units(nbytes) <= 4096 then 4096 else Units(nbytes))
    {
      hide Precedes, TakenFrom, FirstFrom, Extended, SameCover, Live, HasRoom, Kills, Apart, FreeOk, Sizes, RingOk,
        Within, SbrkArg, Growth;
      var nunits := Units(nbytes);
      EnsureBase();
      BaseRoom(old(ring), blocks, nunits);
      CoverSelf(blocks);
      ghost var grown := false;
      ghost var g := if nunits <= 4096 then 4096 else nunits;
      while true
        invariant Shape() && ring != [] && Live(ring, blocks) == old(Live(ring, blocks))
        invariant grown ==> HasRoom(ring, blocks, nunits) && !HasRoom(old(ring), old(blocks), nunits)
        invariant grown ==> !Kills(top, ArgFor(nbytes)) && !(SbrkPositive(nbytes) && refused)
        invariant grown ==> (Valid() <==> SbrkPositive(nbytes)) && (Valid() ==> brk == top + g)
        invariant grown ==> Extended(blocks, old(blocks), top, g) && Precedes(Based(old(ring)), freep, top)
        invariant !grown ==> blocks == old(blocks) && brk == old(brk) && Valid()
        invariant !grown ==> ring == Based(old(ring)) && freep == if old(ring) == [] then BASE else old(freep)
        invariant !grown ==> (HasRoom(ring, blocks, nunits) <==> HasRoom(old(ring), old(blocks), nunits))
        decreases !grown
      {
        var fits, p, prevp;
        ghost var i, f;
        fits, p, prevp, i, f := FirstFit(nunits);
        if fits {
          found := FreeList(ring, blocks, freep);
          p := Take(p, prevp, nunits, i);
          TakenAt(found, nunits, f, i);
          SameWithin(blocks, found.blocks, brk);
          if grown {
            ExtendedSame(old(blocks), found.blocks, top, g, blocks);
          }
          return Block(p + 1), found;
        }
        r := Morecore(nunits, top, refused);
        if !r.Block? {
          found := FreeList(ring, blocks, freep);
          return;
        }
        grown := true;
        RoomNow(nunits);
      }
    }

    lemma RoomNow(n: nat)
      requires Shape() && ring != [] && n > 0 && freep in size && freep in ptr && ptr[freep] in size
      requires size[freep] >= n || size[ptr[freep]] >= n
      ensures HasRoom(ring, blocks, n)
    {
      var f :| 0 <= f < |ring| && ring[f] == freep;
      InRing(f);
      InRing(Following(|ring|, f));
      assert Succ(ring, f) == ring[Following(|ring|, f)];
      assert f > 0 ==> ring[f] in blocks;
    }
  }

  /** A process whose size is in the middle of a page asks for half of the address space: sbrk leaves the
      process as it is, and malloc returns a block of memory that the process does not have. */
  method HugeRequestBreaks(brk: nat) returns (a: Allocator, r: Reply)
    requires BASE < brk < UINT / 2 / HEADER - 1 && brk % PAGE != 0
    ensures r.Block? && !a.Valid()
  {
    HugeArgument();
    a := new Allocator(brk);
    ghost var found;
    r, found := a.Malloc(0x8000_0000, brk, false);
  }

  /** At the end of a page, where exec leaves it, the same request kills the process. */
  method HugeRequestKills(brk: nat) returns (a: Allocator, r: Reply)
    requires BASE < brk && brk % PAGE == 0
    ensures r == Killed
  {
    HugeArgument();
    a := new Allocator(brk);
    ghost var found;
    r, found := a.Malloc(0x8000_0000, brk, false);
  }

  lemma HugeArgument()
    ensures !SbrkPositive(0x8000_0000) && ArgFor(0x8000_0000) == 1 - UINT / 2 / HEADER
    ensures !SbrkPositive(0xFFFF_FFF8) && ArgFor(0xFFFF_FFF8) == 0
  {
  }

  /** The free blocks in ring order, all blocks, and where a search starts. */
  datatype FreeList = FreeList(ring: seq<nat>, blocks: map<nat, nat>, freep: nat)

  /** The ring with the empty block that the first call makes. */
  function Based(ring: seq<nat>): seq<nat> {
    if ring == [] then [BASE] else ring
  }

  /** `p` is the last in the ring before the address `b`. */
  ghost predicate Precedes(ring: seq<nat>, p: nat, b: nat) {
    p in ring && p < b && forall x | x in ring && x < b :: x <= p
  }

  lemma PlacePrecedes(ring: seq<nat>, i: nat, b: nat)
    requires Increasing(ring) && Between(ring, i, b)
    ensures Precedes(ring, ring[i], b)
  {
    forall x | x in ring && x < b ensures x <= ring[i] {
      var k :| 0 <= k < |ring| && ring[k] == x;
    }
  }

  /** Going round from position `f` to position `i`, excluding both, one comes by position `k`. */
  predicate Passed(f: nat, k: nat, i: nat) {
    if f < i then f < k < i else f < k || k < i
  }

  /** Position `i` is the first one behind `f`, going round, whose block has `n` units. */
  ghost predicate FirstFrom(ring: seq<nat>, blocks: map<nat, nat>, n: nat, f: nat, i: nat) {
    && f < |ring| && 1 <= i < |ring| && ring[i] in blocks && blocks[ring[i]] >= n
    && forall k: nat | 1 <= k < |ring| && Passed(f, k, i) && ring[k] in blocks :: blocks[ring[k]] < n
  }

  /** A block of `n` units at `q` is the whole or the tail of the first block with room, and `prev` is the one
      before that in the ring. */
  ghost predicate TakenFrom(h: FreeList, n: nat, q: nat, prev: nat) {
    exists f: nat, i: nat :: FirstFrom(h.ring, h.blocks, n, f, i) && TakenHere(h, n, q, prev, f, i)
  }

  ghost predicate TakenHere(h: FreeList, n: nat, q: nat, prev: nat, f: nat, i: nat)
    requires FirstFrom(h.ring, h.blocks, n, f, i)
  {
    h.ring[f] == h.freep && q + n == h.ring[i] + h.blocks[h.ring[i]] && prev == h.ring[i - 1]
  }

  lemma TakenAt(h: FreeList, n: nat, f: nat, i: nat)
    requires FirstFrom(h.ring, h.blocks, n, f, i) && h.ring[f] == h.freep
    ensures TakenFrom(h, n, h.ring[i] + h.blocks[h.ring[i]] - n, h.ring[i - 1])
  {
    assert TakenHere(h, n, h.ring[i] + h.blocks[h.ring[i]] - n, h.ring[i - 1], f, i);
  }

  lemma UnvisitedFirst(ring: seq<nat>, blocks: map<nat, nat>, n: nat, i: nat, f: nat)
    requires Unvisited(ring, blocks, n, i, f) && f < |ring|
    requires 1 <= i < |ring| && ring[i] in blocks && blocks[ring[i]] >= n
    ensures FirstFrom(ring, blocks, n, f, i)
  {
  }

  /** Every block that is large enough is still ahead of a walk that has come to `i` and ends at `f`. */
  ghost predicate Unvisited(ring: seq<nat>, blocks: map<nat, nat>, n: nat, i: nat, f: nat) {
    forall k | 1 <= k < |ring| && ring[k] in blocks && blocks[ring[k]] >= n ::
      Distance(|ring|, k, f) <= Distance(|ring|, i, f)
  }

  lemma NoneVisited(ring: seq<nat>, blocks: map<nat, nat>, n: nat, f: nat)
    requires f < |ring|
    ensures Unvisited(ring, blocks, n, Following(|ring|, f), f)
  {
  }

  lemma Visited(ring: seq<nat>, blocks: map<nat, nat>, n: nat, i: nat, f: nat)
    requires i < |ring| && f < |ring| && i != f
    ensures Distance(|ring|, Following(|ring|, i), f) < Distance(|ring|, i, f)
    ensures Unvisited(ring, blocks, n, i, f) && (i > 0 ==> ring[i] !in blocks || blocks[ring[i]] < n)
            ==> Unvisited(ring, blocks, n, Following(|ring|, i), f)
  {
  }

  lemma NoneLeft(ring: seq<nat>, blocks: map<nat, nat>, n: nat, f: nat)
    requires f < |ring|
    ensures Unvisited(ring, blocks, n, f, f) && (f > 0 ==> ring[f] !in blocks || blocks[ring[f]] < n)
            ==> !HasRoom(ring, blocks, n)
  {
  }

  function Following(n: nat, i: nat): nat {
    if i + 1 < n then i + 1 else 0
  }

  /** Steps along a ring of `n` from `i` to `j`. */
  function Distance(n: nat, i: nat, j: nat): int {
    if i <= j then j - i else n + j - i
  }

  /** The units for a request, computed in 32-bit arithmetic. */
  function Units(nbytes: nat): (n: nat)
    ensures n > 0
  {
    (nbytes + HEADER - 1) % UINT / HEADER + 1
  }

  /** What sbrk returns, and where the memory of the process ends afterwards. */
  datatype SbrkResult = SbrkResult(addr: int, top: nat)

  /** sbrk of `n` units in a process of size `top`. A negative argument frees memory; if the new size would
      be negative it wraps to a larger one and nothing is freed, and if it is 0 everything is freed and
      growproc takes the size for an error. */
  function Sbrk(top: nat, n: int, refused: bool): SbrkResult {
    if n > 0 then if refused then SbrkResult(-1, top) else SbrkResult(top, top + n)
    else if n == 0 || top + n < 0 then SbrkResult(top, top)
    else if top + n == 0 then SbrkResult(-1, 0)
    else SbrkResult(top, top + n)
  }

  /** The units that `nu * sizeof(Header)` stands for once it is an int. */
  function SbrkArg(nu: nat): int {
    var bytes := nu * HEADER % UINT;
    (if bytes < UINT / 2 then bytes else bytes - UINT) / HEADER
  }

  /** The argument that morecore passes to sbrk for a request. */
  function ArgFor(nbytes: nat): int {
    SbrkArg(Growth(Units(nbytes)))
  }

  predicate SbrkPositive(nbytes: nat) {
    ArgFor(nbytes) > 0
  }

  /** The page of the unit at `a` is there in a process of size `top`. */
  predicate HasPage(a: nat, top: nat) {
    a / PAGE < (top + PAGE - 1) / PAGE
  }

  /** After sbrk of `n` units in a process of size `top` the page at the old size is not there, so that the
      process is killed when morecore stores the header. (A process of size 0 has no page to return to.) */
  predicate Kills(top: nat, n: int) {
    n <= 0 && !HasPage(top, Sbrk(top, n, false).top)
  }

  lemma HeaderPage(top: nat, n: int, refused: bool)
    requires top > 0
    ensures var call := Sbrk(top, n, refused);
            && (call.addr == -1 && call.top > 0 <==> n > 0 && refused)
            && (n > 0 && !refused ==> HasPage(top, call.top))
            && (Kills(top, n) <==> n <= 0 && !HasPage(top, call.top))
            && (call.addr == -1 && call.top == 0 ==> !HasPage(top, call.top))
  {
  }

  /** When that is: for an argument that is not positive, exactly if the size was at the end of a page, or a
      page is given up. */
  lemma KillsWhen(top: nat, n: int)
    ensures Kills(top, n) <==> n <= 0 && (top % PAGE == 0 || 0 <= top + n <= top - top % PAGE)
  {
  }

  lemma ArgRange(nu: nat)
    requires 4096 <= nu <= UINT / HEADER
    ensures SbrkArg(nu) == if nu < UINT / HEADER / 2 then nu else nu - UINT / HEADER
  {
  }

  /** A block holds the bytes that were asked for, with less than a unit to spare, exactly if rounding the
      request up does not wrap; if it does, it has no unit but its header. */
  lemma RequestHeld(nbytes: nat)
    requires nbytes < UINT
    ensures (Units(nbytes) - 1) * HEADER >= nbytes <==> nbytes + HEADER - 1 < UINT
    ensures nbytes + HEADER - 1 < UINT ==> (Units(nbytes) - 2) * HEADER < nbytes
    ensures nbytes + HEADER - 1 >= UINT ==> Units(nbytes) == 1
  {
  }

  /** Which requests morecore can pass on to sbrk. */
  lemma SbrkRange(nbytes: nat)
    requires nbytes < UINT
    ensures SbrkPositive(nbytes) <==> nbytes <= UINT / 2 - 2 * HEADER || nbytes + HEADER - 1 >= UINT
  {
  }

  /** Some free block has `n` units. */
  ghost predicate HasRoom(ring: seq<nat>, blocks: map<nat, nat>, n: nat) {
    exists i :: 1 <= i < |ring| && ring[i] in blocks && blocks[ring[i]] >= n
  }

  /** How many units morecore asks for. */
  function Growth(nunits: nat): nat {
    if nunits < 4096 then 4096 else nunits
  }

  /** The blocks now cover what they covered before and `n` units from `a` on. */
  ghost predicate Extended(now: map<nat, nat>, before: map<nat, nat>, a: nat, n: nat) {
    forall x: nat :: Covers(now, x) <==> Covers(before, x) || a <= x < a + n
  }

  lemma GrowOk(ring: seq<nat>, blocks: map<nat, nat>, a: nat, n: nat, brk: nat)
    requires ring != [] && ring[0] == BASE && Apart(blocks) && FreeOk(ring, blocks) && a >= brk && n > 0
    requires Within(blocks, brk)
    ensures a !in blocks && a !in ring && Apart(blocks[a := n]) && FreeOk(ring, blocks[a := n])
    ensures Live(ring, blocks[a := n]) == Live(ring, blocks)[a := n]
    ensures Extended(blocks[a := n], blocks, a, n)
  {
    var m := blocks[a := n];
    WithinEnds(blocks, brk);
    assert a !in blocks;
    forall c: nat, d: nat ensures Below(m, c, d) {
      assert Below(blocks, c, d);
    }
    forall k: nat | 1 <= k < |ring| ensures FreeAt(ring, m, k) {
      assert FreeAt(ring, blocks, k);
    }
    forall x: nat ensures Covers(m, x) <==> Covers(blocks, x) || a <= x < a + n {
      if c: nat :| Holds(blocks, c, x) {
        assert Holds(m, c, x);
      }
      if c: nat :| Holds(m, c, x) {
        assert c != a ==> Holds(blocks, c, x);
      }
      if a <= x < a + n {
        assert Holds(m, a, x);
      }
    }
  }

  lemma ExtendedSame(before: map<nat, nat>, mid: map<nat, nat>, a: nat, n: nat, now: map<nat, nat>)
    requires Extended(mid, before, a, n) && SameCover(now, mid)
    ensures Extended(now, before, a, n)
  {
  }

  lemma CoverSelf(m: map<nat, nat>)
    ensures SameCover(m, m)
  {
  }

  /** The empty block of the first call has no room. */
  lemma BaseRoom(ring: seq<nat>, blocks: map<nat, nat>, n: nat)
    ensures ring == [] ==> !HasRoom(ring, blocks, n) && !HasRoom([BASE], blocks, n)
  {
  }

  lemma ExtendedThen(before: map<nat, nat>, a: nat, n: nat, now: map<nat, nat>)
    requires Extended(before[a := n], before, a, n) && SameCover(now, before[a := n])
    ensures Extended(now, before, a, n)
  {
  }

  /** Sizes are as recorded. */
  ghost predicate Sizes(size: map<nat, nat>, blocks: map<nat, nat>) {
    && BASE in size && size[BASE] == 0
    && (forall b | b in blocks :: b in size && size[b] == blocks[b])
  }

  /** The base and all blocks are below `brk`. */
  ghost predicate Within(blocks: map<nat, nat>, brk: nat) {
    brk > BASE && forall x: nat :: Covers(blocks, x) ==> x < brk
  }

  lemma WithinEnds(blocks: map<nat, nat>, brk: nat)
    requires Within(blocks, brk) && Apart(blocks)
    ensures forall b | b in blocks :: b + blocks[b] <= brk
  {
    forall b | b in blocks ensures b + blocks[b] <= brk {
      assert Holds(blocks, b, b + blocks[b] - 1);
      assert Covers(blocks, b + blocks[b] - 1);
    }
  }

  lemma SameWithin(now: map<nat, nat>, before: map<nat, nat>, brk: nat)
    requires SameCover(now, before)
    ensures Within(now, brk) <==> Within(before, brk)
  {
  }

  /** New memory from `a` on is within the memory of the process exactly if that ends behind it. */
  lemma ExtendedWithin(before: map<nat, nat>, brk: nat, a: nat, n: nat, now: map<nat, nat>, end: nat)
    requires Within(before, brk) && a >= brk && n > 0 && Extended(now, before, a, n)
    ensures Within(now, end) <==> a + n <= end
  {
    assert Covers(now, a + n - 1);
  }

  /** Halfway through free: the block `b` knows its successor and is not yet in the ring. */
  ghost predicate Joining(ptr: map<nat, nat>, size: map<nat, nat>, ring: seq<nat>, blocks: map<nat, nat>, i: nat,
                          b: nat)
  {
    && Freeing(ring, blocks, i, b) && Sizes(size, blocks)
    && RingExcept(ptr, ring, i) && b in ptr && ptr[b] == Succ(ring, i)
    && (i + 1 < |ring| ==> b + blocks[b] != ring[i + 1])
  }

  lemma {:induction false} PlaceExists(ring: seq<nat>, b: nat, n: nat)
    requires ring != [] && Increasing(ring) && ring[0] < b && b !in ring && 1 <= n <= |ring|
    requires forall k | n <= k < |ring| :: b < ring[k]
    ensures exists i: nat :: Between(ring, i, b)
    decreases n
  {
    if ring[n - 1] < b {
      assert Between(ring, n - 1, b);
    } else {
      PlaceExists(ring, b, n - 1);
    }
  }
}
