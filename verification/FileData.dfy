/** readi and writei of fs.c refine reading and writing a sequence of bytes. */
module FileData {
  import opened Common
  import opened BlockOwners
  import opened DiskBlocks
  import opened InodeSlots
  import opened DiskState
  import opened Bitmap
  import opened FileBlocks
  import opened FileBytes

  ghost predicate FileOk(slots: map<Place, nat>, inodes: seq<Inode>, i: nat)
    requires i < |inodes|
  {
    inodes[i].size <= MAXFILE * BSIZE && MappedTo(slots, i, Blocks(inodes[i].size))
  }

  /** At rest every file has blocks for its size and no more, and the inodes on the disk are current. */
  ghost predicate Sound(v: Volume)
    reads v
  {
    && v.Valid() && v.dinodes == v.inodes
    && (forall i: nat | i < |v.inodes| :: FileOk(v.slots, v.inodes, i))
  }

  ghost function Contents(v: Volume, i: nat): seq<Byte>
    requires i < |v.inodes|
    reads v
  {
    Bytes(v.slots, v.data, i, v.inodes[i].size)
  }

  /** The same for a volume on the disk. */
  ghost predicate SoundShot(g: Geometry, s: Shot) {
    && Owns(g, s.bitmap, s.slots) && |s.data| == g.size < UINT && Reflects(s.inodes, s.data, s.slots)
    && (forall i: nat | i < |s.inodes| :: FileOk(s.slots, s.inodes, i))
  }

  ghost function ShotContents(s: Shot, i: nat): seq<Byte>
    requires i < |s.inodes|
  {
    Bytes(s.slots, s.data, i, s.inodes[i].size)
  }

  // ---------------------------------------------------------------- reading

  /** readi: -1 for an offset behind the end or a range that wraps, else the bytes there are. It
      changes nothing, because every block below the size is mapped. */
  method Readi(v: Volume, i: nat, off: nat, n: nat) returns (r: int, dst: seq<Byte>)
    requires Sound(v) && i < |v.inodes| && off < UINT && n < UINT
    modifies v
    ensures unchanged(v)
    ensures r == -1 <==> off > v.inodes[i].size || off + n >= UINT
    ensures r == -1 ==> dst == []
    ensures r != -1 ==>
        && r == |dst|
        && dst == Contents(v, i)[off..if off + n < v.inodes[i].size then off + n else v.inodes[i].size]
  {
    hide Covered, Reflects, FreeBlocks;
    var size := v.inodes[i].size;
    dst := [];
    if off > size || (off + n) % UINT < off {
      return -1, [];
    }
    var n' := if off + n > size then size - off else n;
    ghost var m := Blocks(size);
    assert FileOk(v.slots, v.inodes, i);
    var tot := 0;
    while tot < n'
      invariant 0 <= tot <= n' && unchanged(v) && |dst| == tot
      invariant forall x | 0 <= x < tot :: dst[x] == ByteAt(v.slots, v.data, i, off + x)
    {
      var o := off + tot;
      assert SlotUsed(v.slots, i, o / BSIZE, m);
      var addr := v.Bmap(i, o / BSIZE);
      var k := if n' - tot < BSIZE - o % BSIZE then n' - tot else BSIZE - o % BSIZE;
      var piece := v.data[addr][o % BSIZE..o % BSIZE + k];
      forall x | 0 <= x < k ensures piece[x] == ByteAt(v.slots, v.data, i, o + x) {
        assert (o + x) / BSIZE == o / BSIZE && (o + x) % BSIZE == o % BSIZE + x;
      }
      dst := dst + piece;
      tot := tot + k;
    }
    r := n';
  }

  // ---------------------------------------------------------------- writing one block

  /** What a write into file `i` at `off` makes of the bytes of the blocks that were mapped and of the
      bytes written. */
  ghost predicate Spliced(slots: map<Place, nat>, data: seq<Block>, slots': map<Place, nat>, data': seq<Block>,
                          i: nat, m: nat, off: nat, piece: seq<Byte>)
  {
    forall x: nat :: SplicedAt(slots, data, slots', data', i, m, off, piece, x)
  }

  ghost predicate SplicedAt(slots: map<Place, nat>, data: seq<Block>, slots': map<Place, nat>, data': seq<Block>,
                            i: nat, m: nat, off: nat, piece: seq<Byte>, x: nat)
  {
    if off <= x < off + |piece| then ByteAt(slots', data', i, x) == piece[x - off]
    else x < m * BSIZE ==> ByteAt(slots', data', i, x) == ByteAt(slots, data, i, x)
  }

  lemma MapKeeps(slots: map<Place, nat>, data: seq<Block>, slots': map<Place, nat>, data': seq<Block>, i: nat, m: nat,
                 x: nat)
    requires KeepsFiles(slots, data, slots', data') && MappedTo(slots, i, m) && x < m * BSIZE
    ensures ByteAt(slots', data', i, x) == ByteAt(slots, data, i, x)
  {
    assert SlotUsed(slots, i, x / BSIZE, m);
    MapByte(slots, data, slots', data', i, x);
  }

  /** Mapping a block of file `i` leaves all other files. */
  lemma MapOthers(slots: map<Place, nat>, data: seq<Block>, slots': map<Place, nat>, data': seq<Block>,
                  i: nat, bn: nat, addr: nat, j: nat, x: nat)
    requires KeepsFiles(slots, data, slots', data') && Mapping(slots, slots', i, bn, addr) && j != i
    requires forall p: Place | p in slots :: p.k <= MAXFILE
    ensures OtherSame(slots, data, slots', data', j, x)
  {
    var p := Place(j, x / BSIZE);
    if p in slots && slots[p] != 0 && p.k < MAXFILE {
      MapByte(slots, data, slots', data', j, x);
    }
  }

  lemma PatchOthers(data: seq<Block>, slots: map<Place, nat>, i: nat, bn: nat, o: nat, piece: seq<Byte>, j: nat, x: nat)
    requires Place(i, bn) in slots && bn < MAXFILE && o + |piece| <= BSIZE && j != i
    requires forall p: Place, q: Place :: Unshared(slots, p, q)
    requires 0 < slots[Place(i, bn)] < |data|
    ensures var addr := slots[Place(i, bn)];
            OtherSame(slots, data, slots, data[addr := Patched(data[addr], o, piece)], j, x)
  {
    PatchByte(data, slots, i, bn, o, piece, j, x);
  }

  /** One turn of the loop of writei is a splice of the file's bytes. */
  lemma WriteSplices(slots: map<Place, nat>, data: seq<Block>, slots1: map<Place, nat>, data1: seq<Block>,
                     i: nat, m: nat, off: nat, piece: seq<Byte>, x: nat)
    requires KeepsFiles(slots, data, slots1, data1) && MappedTo(slots, i, m)
    requires Place(i, off / BSIZE) in slots1 && off / BSIZE < MAXFILE && 0 < slots1[Place(i, off / BSIZE)] < |data1|
    requires off % BSIZE + |piece| <= BSIZE && forall p: Place, q: Place :: Unshared(slots1, p, q)
    ensures var addr := slots1[Place(i, off / BSIZE)];
            SplicedAt(slots, data, slots1, data1[addr := Patched(data1[addr], off % BSIZE, piece)], i, m, off, piece, x)
  {
    PatchByte(data1, slots1, i, off / BSIZE, off % BSIZE, piece, i, x);
    InPiece(off, |piece|, x);
    if x < m * BSIZE {
      MapKeeps(slots, data, slots1, data1, i, m, x);
    }
  }

  lemma InPiece(off: nat, n: nat, x: nat)
    requires off % BSIZE + n <= BSIZE
    ensures off <= x < off + n <==> x / BSIZE == off / BSIZE && off % BSIZE <= x % BSIZE < off % BSIZE + n
    ensures off <= x < off + n ==> x % BSIZE - off % BSIZE == x - off
  {
  }

  /** The blocks that one turn of the loop logs: the data block, bitmap blocks, and the indirect block. */
  ghost predicate LogsAtMost(before: set<nat>, after: set<nat>, d: nat, bm: set<nat>, ind: set<nat>) {
    after <= before + {d} + bm + ind
  }

  /** How many bitmap blocks a write into block `bn` of a file of `m` blocks may log. */
  function BitmapCost(bn: nat, m: nat): nat {
    if bn < m then 0 else if bn == NDIRECT then 2 else 1
  }

  lemma NeededCost(slots: map<Place, nat>, i: nat, bn: nat, m: nat)
    requires MappedTo(slots, i, m) && bn <= m && bn < MAXFILE
    ensures Place(i, bn) in slots && (slots[Place(i, bn)] != 0 <==> bn < m)
    ensures Needed(slots, i, bn) == BitmapCost(bn, m)
  {
    assert SlotUsed(slots, i, bn, m);
  }

  ghost function IndirectCost(slots: map<Place, nat>, i: nat, bn: nat, m: nat): set<nat>
    requires Place(i, MAXFILE) in slots
  {
    if bn >= m && bn >= NDIRECT then {slots[Place(i, MAXFILE)]} else {}
  }

  /** bmap, the copy and log_write in the loop of writei, for a piece within one block. */
  method WriteBlock(v: Volume, i: nat, off: nat, piece: seq<Byte>, ghost m: nat)
    returns (ok: bool, ghost d: nat, ghost bm: set<nat>)
    requires v.Valid() && i < |v.inodes| && MappedTo(v.slots, i, m) && off / BSIZE <= m
    requires off % BSIZE + |piece| <= BSIZE
    modifies v`bitmap, v`data, v`inodes, v`slots, v`logged
    ensures ok <==> off / BSIZE < MAXFILE && BitmapCost(off / BSIZE, m) <= old(v.Free())
    ensures off / BSIZE < MAXFILE ==> v.Free() == if ok then old(v.Free()) - BitmapCost(off / BSIZE, m) else 0
    ensures ok ==> v.Valid() && MappedTo(v.slots, i, Max(m, off / BSIZE + 1))
    ensures ok ==> OnlyAddrs(old(v.inodes), v.inodes, i)
    ensures ok && off / BSIZE < m ==> v.inodes == old(v.inodes) && v.slots == old(v.slots)
    ensures ok ==> Spliced(old(v.slots), old(v.data), v.slots, v.data, i, m, off, piece)
    ensures ok ==> OthersSame(old(v.slots), old(v.data), v.slots, v.data, i)
    ensures ok ==> LogsAtMost(old(v.logged), v.logged, d, bm, IndirectCost(v.slots, i, off / BSIZE, m))
    ensures ok ==> |bm| <= BitmapCost(off / BSIZE, m)
    ensures ok && m > NDIRECT ==> v.slots[Place(i, MAXFILE)] == old(v.slots)[Place(i, MAXFILE)]
  {
    hide Covered, Owns, Reflects, FreeBlocks, KeepsFiles, Spliced, OthersSame, OnlyAddrs;
    ghost var s0, d0, bn := v.slots, v.data, off / BSIZE;
    if bn < MAXFILE {
      NeededCost(v.slots, i, bn, m);
    }
    ok, d, bm := false, 0, {};
    var addr := v.Bmap(i, off / BSIZE);
    if addr == 0 {
      return;
    }
    d := addr;
    if bn >= m {
      bm := {v.BBlock(addr)} + if bn == NDIRECT then {v.BBlock(v.slots[Place(i, MAXFILE)])} else {};
    }
    MapNext(s0, v.slots, i, bn, addr, m);
    ghost var d1 := v.data;
    PatchBlock(v, i, off / BSIZE, addr, off % BSIZE, piece);
    BlockWritten(v.g, v.bitmap, v.inodes, s0, d0, v.slots, d1, i, m, off, piece);
    ok := true;
  }

  /** The copy into the block and log_write. */
  method PatchBlock(v: Volume, i: nat, bn: nat, addr: nat, o: nat, piece: seq<Byte>)
    requires v.Valid() && i < |v.inodes| && bn < MAXFILE && addr == v.slots[Place(i, bn)] && addr != 0
    requires o + |piece| <= BSIZE
    modifies v`data, v`logged
    ensures v.Valid() && addr < |old(v.data)| && v.data == old(v.data)[addr := Patched(old(v.data)[addr], o, piece)]
    ensures v.logged == old(v.logged) + {addr}
  {
    hide Covered;
    PatchSlots(v.inodes, v.data, v.slots, i, bn, Patched(v.data[addr], o, piece));
    CoveredBlock(v.g, v.base, v.bitmap, v.data, v.dinodes, v.logged, addr, Patched(v.data[addr], o, piece));
    v.data := v.data[addr := Patched(v.data[addr], o, piece)];
    v.logged := v.logged + {addr};
  }

  lemma BlockWritten(g: Geometry, bm: seq<bv8>, inodes: seq<Inode>, s0: map<Place, nat>, d0: seq<Block>, s: map<Place,
                     nat>,
                     d: seq<Block>, i: nat, m: nat, off: nat, piece: seq<Byte>)
    requires Owns(g, bm, s) && g.size == |d| && Reflects(inodes, d, s)
    requires KeepsFiles(s0, d0, s, d) && MappedTo(s0, i, m) && off / BSIZE < MAXFILE && off % BSIZE + |piece| <= BSIZE
    requires Place(i, off / BSIZE) in s && Mapping(s0, s, i, off / BSIZE, s[Place(i, off / BSIZE)])
    requires 0 < s[Place(i, off / BSIZE)] < |d|
    ensures var addr := s[Place(i, off / BSIZE)];
            var d' := d[addr := Patched(d[addr], off % BSIZE, piece)];
            Spliced(s0, d0, s, d', i, m, off, piece) && OthersSame(s0, d0, s, d', i)
  {
    var bn := off / BSIZE;
    var addr := s[Place(i, bn)];
    var d' := d[addr := Patched(d[addr], off % BSIZE, piece)];
    forall x: nat ensures SplicedAt(s0, d0, s, d', i, m, off, piece, x) {
      WriteSplices(s0, d0, s, d, i, m, off, piece, x);
    }
    forall j: nat, x: nat | j != i ensures OtherSame(s0, d0, s, d', j, x) {
      MapOthers(s0, d0, s, d, i, bn, addr, j, x);
      PatchOthers(d, s, i, bn, off % BSIZE, piece, j, x);
    }
  }

  // ---------------------------------------------------------------- writing a range

  lemma SplicedTwice(s0: map<Place, nat>, d0: seq<Block>, s1: map<Place, nat>, d1: seq<Block>,
                     s2: map<Place, nat>, d2: seq<Block>, i: nat, m0: nat, m: nat, off: nat, src: seq<Byte>, tot: nat,
                     k: nat)
    requires tot + k <= |src| && m0 <= m && off + tot <= m * BSIZE
    requires Spliced(s0, d0, s1, d1, i, m0, off, src[..tot])
    requires Spliced(s1, d1, s2, d2, i, m, off + tot, src[tot..tot + k])
    ensures Spliced(s0, d0, s2, d2, i, m0, off, src[..tot + k])
  {
    var written := src[..tot + k];
    forall x: nat ensures SplicedAt(s0, d0, s2, d2, i, m0, off, written, x) {
      assert SplicedAt(s0, d0, s1, d1, i, m0, off, src[..tot], x);
      assert SplicedAt(s1, d1, s2, d2, i, m, off + tot, src[tot..tot + k], x);
    }
  }

  lemma OthersTwice(s0: map<Place, nat>, d0: seq<Block>, s1: map<Place, nat>, d1: seq<Block>,
                    s2: map<Place, nat>, d2: seq<Block>, i: nat)
    requires OthersSame(s0, d0, s1, d1, i) && OthersSame(s1, d1, s2, d2, i)
    ensures OthersSame(s0, d0, s2, d2, i)
  {
    forall j: nat, x: nat | j != i ensures OtherSame(s0, d0, s2, d2, j, x) {
      assert OtherSame(s0, d0, s1, d1, j, x) && OtherSame(s1, d1, s2, d2, j, x);
    }
  }

  /** How many data blocks, and how many blocks in all, writing `n` bytes at `off` into a file of `size`
      bytes may log. */
  function DataCost(off: nat, n: nat): nat {
    if n == 0 then 0 else if Blocks(off + n) < off / BSIZE then 0 else Blocks(off + n) - off / BSIZE
  }

  function AllocCost(m0: nat, m: nat): nat {
    (if m0 < m then m - m0 else 0) + if m0 <= NDIRECT < m then 1 else 0
  }

  /** How many free blocks a write of `n` bytes at `off` into a file of `size` bytes takes. */
  function SpaceCost(off: nat, n: nat, size: nat): nat {
    AllocCost(Blocks(size), if n == 0 then Blocks(size) else Max(Blocks(size), Blocks(off + n)))
  }

  ghost function IndirectSet(slots: map<Place, nat>, i: nat, m0: nat, m: nat): set<nat>
    requires Place(i, MAXFILE) in slots
  {
    if m > m0 && m > NDIRECT then {slots[Place(i, MAXFILE)]} else {}
  }

  /** What the loop of writei has done after `tot` bytes. */
  ghost predicate Progress(s0: map<Place, nat>, d0: seq<Block>, log0: set<nat>, s: map<Place, nat>, d: seq<Block>,
                           log: set<nat>,
                           i: nat, m0: nat, m: nat, off: nat, src: seq<Byte>, tot: nat, data: set<nat>, bm: set<nat>)
  {
    && tot <= |src| && MappedTo(s, i, m) && m == Max(m0, if tot == 0 then m0 else Blocks(off + tot))
    && Spliced(s0, d0, s, d, i, m0, off, src[..tot])
    && OthersSame(s0, d0, s, d, i)
    && log <= log0 + data + bm + IndirectSet(s, i, m0, m)
    && |data| <= DataCost(off, tot) && |bm| <= AllocCost(m0, m)
  }

  lemma StepNumbers(m0: nat, m: nat, off: nat, tot: nat, k: nat)
    requires k > 0 && (off + tot) % BSIZE + k <= BSIZE && (tot == 0 || (off + tot) % BSIZE == 0)
    requires m == Max(m0, if tot == 0 then m0 else Blocks(off + tot)) && (off + tot) / BSIZE <= m
    ensures var bn := (off + tot) / BSIZE;
            && Blocks(off + tot + k) == bn + 1
            && Max(m, bn + 1) == Max(m0, Blocks(off + tot + k))
            && DataCost(off, tot) + 1 == DataCost(off, tot + k)
            && AllocCost(m0, m) + BitmapCost(bn, m) == AllocCost(m0, Max(m, bn + 1))
  {
    assert Blocks(off + tot + k) == (off + tot) / BSIZE + 1;
    if tot > 0 {
      assert Blocks(off + tot) == (off + tot) / BSIZE;
    }
  }

  lemma ProgressLog(log0: set<nat>, log1: set<nat>, log2: set<nat>, s1: map<Place, nat>, s2: map<Place, nat>, i: nat,
                    m0: nat, m: nat,
                    bn: nat, data: set<nat>, bm: set<nat>, d: nat, bm': set<nat>)
    requires Place(i, MAXFILE) in s1 && Place(i, MAXFILE) in s2 && m0 <= m && bn <= m
    requires m > NDIRECT ==> s2[Place(i, MAXFILE)] == s1[Place(i, MAXFILE)]
    requires log1 <= log0 + data + bm + IndirectSet(s1, i, m0, m)
    requires LogsAtMost(log1, log2, d, bm', IndirectCost(s2, i, bn, m))
    ensures log2 <= log0 + (data + {d}) + (bm + bm') + IndirectSet(s2, i, m0, Max(m, bn + 1))
  {
  }

  lemma CardSum(a: set<nat>, b: set<nat>)
    ensures |a + b| <= |a| + |b|
  {
    assert a + b == a + (b - a);
    assert |b - a| <= |b| by {
      assert b == (b - a) + (b * a);
    }
  }

  lemma ProgressStep(s0: map<Place, nat>, d0: seq<Block>, log0: set<nat>, s1: map<Place, nat>, d1: seq<Block>,
                     log1: set<nat>,
                     s2: map<Place, nat>, d2: seq<Block>, log2: set<nat>, i: nat, m0: nat, m: nat, off: nat,
                     src: seq<Byte>,
                     tot: nat, k: nat, data: set<nat>, bm: set<nat>, d: nat, bm': set<nat>)
    requires Progress(s0, d0, log0, s1, d1, log1, i, m0, m, off, src, tot, data, bm)
    requires 0 < k && tot + k <= |src| && (off + tot) / BSIZE <= m && off <= m0 * BSIZE
    requires (off + tot) % BSIZE + k <= BSIZE && (tot == 0 || (off + tot) % BSIZE == 0)
    requires MappedTo(s2, i, Max(m, (off + tot) / BSIZE + 1)) && OthersSame(s1, d1, s2, d2, i)
    requires Spliced(s1, d1, s2, d2, i, m, off + tot, src[tot..tot + k])
    requires LogsAtMost(log1, log2, d, bm', IndirectCost(s2, i, (off + tot) / BSIZE, m))
      && |bm'| <= BitmapCost((off + tot) / BSIZE, m)
    requires m > NDIRECT ==> s2[Place(i, MAXFILE)] == s1[Place(i, MAXFILE)]
    ensures Progress(s0, d0, log0, s2, d2, log2, i, m0, Max(m, (off + tot) / BSIZE + 1), off, src, tot + k,
                     data + {d}, bm + bm')
  {
    StepNumbers(m0, m, off, tot, k);
    SplicedTwice(s0, d0, s1, d1, s2, d2, i, m0, m, off, src, tot, k);
    OthersTwice(s0, d0, s1, d1, s2, d2, i);
    ProgressLog(log0, log1, log2, s1, s2, i, m0, m, (off + tot) / BSIZE, data, bm, d, bm');
    CardSum(data, {d});
    CardSum(bm, bm');
  }

  predicate OnBoundary(off: nat, src: seq<Byte>, tot: nat) {
    tot == 0 || tot == |src| || (off + tot) % BSIZE == 0
  }

  /** One turn of the loop of writei, with the bytes from `tot` on. */
  method WriteTurn(v: Volume, i: nat, src: seq<Byte>, off: nat, tot: nat, ghost s0: map<Place, nat>,
                   ghost d0: seq<Block>,
                   ghost log0: set<nat>, ghost m0: nat, ghost m: nat, ghost data: set<nat>, ghost bm: set<nat>)
    returns (ok: bool, tot': nat, ghost m': nat, ghost data': set<nat>, ghost bm': set<nat>)
    requires v.Valid() && i < |v.inodes| && tot < |src| && off <= m0 * BSIZE && OnBoundary(off, src, tot)
    requires Progress(s0, d0, log0, v.slots, v.data, v.logged, i, m0, m, off, src, tot, data, bm)
    modifies v`bitmap, v`data, v`inodes, v`slots, v`logged
    ensures tot < tot' <= |src| && OnBoundary(off, src, tot')
    ensures ok ==> v.Valid() && OnlyAddrs(old(v.inodes), v.inodes, i) && m <= m'
    ensures ok ==> Progress(s0, d0, log0, v.slots, v.data, v.logged, i, m0, m', off, src, tot', data', bm')
    ensures ok && m' == m ==> v.inodes == old(v.inodes)
    ensures ok ==> v.Free() + AllocCost(m0, m') == old(v.Free()) + AllocCost(m0, m)
    ensures off + |src| <= MAXFILE * BSIZE ==> m' == Max(m0, Blocks(off + tot'))
    ensures off + |src| <= MAXFILE * BSIZE && !ok ==>
        v.Free() == 0 && old(v.Free()) + AllocCost(m0, m) < AllocCost(m0, m')
  {
    hide Spliced, OthersSame, LogsAtMost, MappedTo, OnlyAddrs, IndirectCost, BitmapCost, IndirectSet, DataCost,
      AllocCost, Volume.Valid, Volume.Free,
      Blocks;
    var o := off + tot;
    var k := if |src| - tot < BSIZE - o % BSIZE then |src| - tot else BSIZE - o % BSIZE;
    TurnNumbers(off, src, tot, k);
    TurnBlocks(m0, m, off, tot);
    tot' := tot + k;
    StepNumbers(m0, m, off, tot, k);
    ghost var s1, d1, log1 := v.slots, v.data, v.logged;
    ghost var d, b;
    ok, d, b := WriteBlock(v, i, o, src[tot..tot + k], m);
    m', data', bm' := Max(m, o / BSIZE + 1), data + {d}, bm + b;
    if ok {
      ProgressStep(s0, d0, log0, s1, d1, log1, v.slots, v.data, v.logged, i, m0, m, off, src, tot, k, data, bm, d, b);
    }
  }

  lemma TurnNumbers(off: nat, src: seq<Byte>, tot: nat, k: nat)
    requires tot < |src| && OnBoundary(off, src, tot)
    requires k == if |src| - tot < BSIZE - (off + tot) % BSIZE then |src| - tot else BSIZE - (off + tot) % BSIZE
    ensures k > 0 && tot + k <= |src| && (off + tot) % BSIZE + k <= BSIZE && OnBoundary(off, src, tot + k)
    ensures (off + tot) / BSIZE >= MAXFILE ==> off + |src| > MAXFILE * BSIZE
  {
  }

  lemma TurnBlocks(m0: nat, m: nat, off: nat, tot: nat)
    requires off <= m0 * BSIZE && m == Max(m0, if tot == 0 then m0 else Blocks(off + tot))
    ensures (off + tot) / BSIZE <= m
  {
  }

  /** The loop of writei. */
  method WriteRange(v: Volume, i: nat, src: seq<Byte>, off: nat)
    returns (ok: bool, ghost m: nat, ghost data: set<nat>, ghost bm: set<nat>)
    requires v.Valid() && i < |v.inodes| && FileOk(v.slots, v.inodes, i) && off <= v.inodes[i].size
    modifies v`bitmap, v`data, v`inodes, v`slots, v`logged
    ensures off + |src| <= MAXFILE * BSIZE ==>
        var cost := SpaceCost(off, |src|, old(v.inodes)[i].size);
        && (ok <==> cost <= old(v.Free()))
        && v.Free() == if ok then old(v.Free()) - cost else 0
    ensures ok ==> v.Valid() && OnlyAddrs(old(v.inodes), v.inodes, i)
    ensures ok ==> Progress(old(v.slots), old(v.data), old(v.logged), v.slots, v.data, v.logged, i,
                            Blocks(old(v.inodes)[i].size), m, off, src, |src|, data, bm)
    ensures ok && m == Blocks(old(v.inodes)[i].size) ==> v.inodes == old(v.inodes)
  {
    hide Volume.Valid, Volume.Free, Spliced, OthersSame, IndirectSet, DataCost, MappedTo;
    ghost var s0, d0, log0, m0 := v.slots, v.data, v.logged, Blocks(v.inodes[i].size);
    ok, m, data, bm := true, m0, {}, {};
    var tot := 0;
    ProgressStart(s0, d0, log0, i, m0, off, src);
    while tot < |src|
      invariant 0 <= tot <= |src| && v.Valid() && v.Free() + AllocCost(m0, m) == old(v.Free())
      invariant OnlyAddrs(old(v.inodes), v.inodes, i)
      invariant Progress(s0, d0, log0, v.slots, v.data, v.logged, i, m0, m, off, src, tot, data, bm)
      invariant OnBoundary(off, src, tot)
      invariant m0 <= m && (m == m0 ==> v.inodes == old(v.inodes))
    {
      ok, tot, m, data, bm := WriteTurn(v, i, src, off, tot, s0, d0, log0, m0, m, data, bm);
      if !ok {
        if off + |src| <= MAXFILE * BSIZE {
          MoreBlocks(m0, off + tot, off + |src|);
        }
        return;
      }
    }
  }

  lemma MoreBlocks(m0: nat, n: nat, n': nat)
    requires n <= n'
    ensures AllocCost(m0, Max(m0, Blocks(n))) <= AllocCost(m0, Max(m0, Blocks(n')))
  {
  }

  lemma ProgressStart(s: map<Place, nat>, d: seq<Block>, log: set<nat>, i: nat, m0: nat, off: nat, src: seq<Byte>)
    requires MappedTo(s, i, m0)
    ensures Progress(s, d, log, s, d, log, i, m0, m0, off, src, 0, {}, {})
  {
    var none := src[..0];
    forall x: nat ensures SplicedAt(s, d, s, d, i, m0, off, none, x) {
    }
    forall j: nat, x: nat | j != i ensures OtherSame(s, d, s, d, j, x) {
    }
  }

  /** The bytes of a file after a write at `off`, which must not be behind its end. */
  function Splice(c: seq<Byte>, off: nat, src: seq<Byte>): (r: seq<Byte>)
    requires off <= |c|
    ensures |r| == Max(|c|, off + |src|)
  {
    c[..off] + src + if off + |src| < |c| then c[off + |src|..] else []
  }

  /** How many blocks a write of `n` bytes at `off` into a file of `size` bytes may log. */
  function LogCost(off: nat, n: nat, size: nat): nat {
    var m := if n == 0 then Blocks(size) else Max(Blocks(size), Blocks(off + n));
    DataCost(off, n) + SpaceCost(off, n, size) + (if m > Blocks(size) && m > NDIRECT then 1 else 0)
    + if n > 0 && off + n > size then 1 else 0
  }

  lemma NewContents(s0: map<Place, nat>, d0: seq<Block>, s: map<Place, nat>, d: seq<Block>, i: nat, off: nat,
                    src: seq<Byte>, size: nat)
    requires Spliced(s0, d0, s, d, i, Blocks(size), off, src[..|src|]) && off <= size
    ensures Bytes(s, d, i, Max(size, off + |src|)) == Splice(Bytes(s0, d0, i, size), off, src)
  {
    var c, n := Bytes(s0, d0, i, size), Max(size, off + |src|);
    assert src[..|src|] == src;
    forall x: nat | x < n ensures ByteAt(s, d, i, x) == Splice(c, off, src)[x] {
      assert SplicedAt(s0, d0, s, d, i, Blocks(size), off, src[..|src|], x);
      assert x < size ==> x < Blocks(size) * BSIZE;
    }
  }

  lemma OtherFile(s0: map<Place, nat>, d0: seq<Block>, s: map<Place, nat>, d: seq<Block>, i: nat, j: nat, n: nat,
                  m: nat)
    requires OthersSame(s0, d0, s, d, i) && j != i
    ensures Bytes(s, d, j, n) == Bytes(s0, d0, j, n)
    ensures MappedTo(s0, j, m) ==> MappedTo(s, j, m)
  {
    forall x: nat | x < n ensures ByteAt(s, d, j, x) == ByteAt(s0, d0, j, x) {
      assert OtherSame(s0, d0, s, d, j, x);
    }
    if MappedTo(s0, j, m) {
      assert OtherSame(s0, d0, s, d, j, MAXFILE);
      forall k: nat | k < MAXFILE ensures SlotUsed(s, j, k, m) {
        assert SlotUsed(s0, j, k, m);
        assert OtherSame(s0, d0, s, d, j, k);
      }
    }
  }

  lemma MaxBlocks(size: nat, off: nat, n: nat)
    requires off <= size
    ensures Blocks(Max(size, off + n)) == Max(Blocks(size), if n == 0 then Blocks(size) else Blocks(off + n))
    ensures Blocks(Max(size, off + n)) != Blocks(size) ==> n > 0 && off + n > size
  {
  }

  /** Other files keep their inodes and contents. */
  ghost predicate OthersKept(inodes: seq<Inode>, slots: map<Place, nat>, data: seq<Block>, inodes': seq<Inode>,
                             slots': map<Place, nat>,
                             data': seq<Block>, i: nat)
  {
    && |inodes'| == |inodes|
    && (forall j: nat | j < |inodes| && j != i :: inodes'[j] == inodes[j]
          && Bytes(slots', data', j, inodes[j].size) == Bytes(slots, data, j, inodes[j].size))
  }

  lemma OtherFiles(inodes: seq<Inode>, slots: map<Place, nat>, data: seq<Block>, inodes': seq<Inode>,
                   slots': map<Place, nat>,
                   data': seq<Block>, i: nat)
    requires |inodes'| == |inodes| && (forall j: nat | j < |inodes| :: FileOk(slots, inodes, j))
      && OthersSame(slots, data, slots', data', i)
    requires forall j: nat | j < |inodes| && j != i :: inodes'[j] == inodes[j]
    ensures forall j: nat | j < |inodes| && j != i :: FileOk(slots', inodes', j)
    ensures OthersKept(inodes, slots, data, inodes', slots', data', i)
  {
    forall j: nat | j < |inodes| && j != i
      ensures FileOk(slots', inodes', j)
      ensures Bytes(slots', data', j, inodes[j].size) == Bytes(slots, data, j, inodes[j].size)
    {
      assert FileOk(slots, inodes, j);
      OtherFile(slots, data, slots', data', i, j, inodes[j].size, Blocks(inodes[j].size));
    }
  }

  lemma TouchedCost(log0: set<nat>, log: set<nat>, s: map<Place, nat>, i: nat, m0: nat, m: nat, data: set<nat>,
                    bm: set<nat>, ib: set<nat>)
    returns (t: set<nat>)
    requires Place(i, MAXFILE) in s && log <= log0 + data + bm + IndirectSet(s, i, m0, m)
    ensures log + ib <= log0 + t
    ensures |t| <= |data| + |bm| + (if m > m0 && m > NDIRECT then 1 else 0) + |ib|
  {
    t := data + bm + IndirectSet(s, i, m0, m) + ib;
    CardSum(data, bm);
    CardSum(data + bm, IndirectSet(s, i, m0, m));
    CardSum(data + bm + IndirectSet(s, i, m0, m), ib);
  }

  /** What a finished loop has done. */
  lemma RangeDone(s0: map<Place, nat>, d0: seq<Block>, log0: set<nat>, s: map<Place, nat>, d: seq<Block>,
                  log: set<nat>, i: nat, size: nat, m: nat, off: nat, src: seq<Byte>, data: set<nat>, bm: set<nat>)
    requires Progress(s0, d0, log0, s, d, log, i, Blocks(size), m, off, src, |src|, data, bm) && off <= size
    ensures m == Blocks(Max(size, off + |src|)) && (m != Blocks(size) ==> |src| > 0 && off + |src| > size)
    ensures MappedTo(s, i, m) && OthersSame(s0, d0, s, d, i)
    ensures Spliced(s0, d0, s, d, i, Blocks(size), off, src[..|src|])
    ensures Place(i, MAXFILE) in s && log <= log0 + data + bm + IndirectSet(s, i, Blocks(size), m)
    ensures |data| + |bm| + (if m > Blocks(size) && m > NDIRECT then 1 else 0)
            + (if |src| > 0 && off + |src| > size then 1 else 0) <= LogCost(off, |src|, size)
  {
    MaxBlocks(size, off, |src|);
  }

  /** The end of writei: the size grows if the write went past it, and then the inode goes to the disk;
      without that no block was allocated. */
  method FinishWrite(v: Volume, i: nat, off: nat, n: nat, ghost m: nat,
                     ghost inodes0: seq<Inode>) returns (ghost ib: set<nat>)
    requires v.Valid() && i < |v.inodes| && v.dinodes == inodes0 && OnlyAddrs(inodes0, v.inodes, i)
    requires off <= v.inodes[i].size && off + n <= MAXFILE * BSIZE && v.inodes[i].size <= MAXFILE * BSIZE
    requires m == Blocks(Max(v.inodes[i].size, off + n)) && (m == Blocks(v.inodes[i].size) ==> v.inodes == inodes0)
    modifies v`inodes, v`dinodes, v`logged
    ensures v.Valid() && v.dinodes == v.inodes && |v.inodes| == |inodes0|
    ensures v.logged == old(v.logged) + ib
    ensures v.inodes[i].size == Max(inodes0[i].size, off + n)
    ensures forall j | 0 <= j < |inodes0| && j != i :: v.inodes[j] == inodes0[j]
    ensures |ib| == if n > 0 && off + n > inodes0[i].size then 1 else 0
  {
    MaxBlocks(v.inodes[i].size, off, n);
    ib := {};
    if n > 0 && off + n > v.inodes[i].size {
      ib := {v.IBlock(i)};
      v.SetSize(i, off + n);
    }
  }

  /** writei: -1 for an offset behind the end, a range that wraps or one beyond the largest file, and
      nothing changes; -2 for the panic of balloc, exactly if fewer blocks are free than the write
      takes; else all of `src` is written. Then the
      file's bytes are spliced, all other files are as before, every file still has exactly the blocks
      it needs, and what was logged is within the cost of the write. */
  method Writei(v: Volume, i: nat, src: seq<Byte>, off: nat) returns (r: int, ghost touched: set<nat>)
    requires Sound(v) && i < |v.inodes| && off < UINT && |src| < UINT
    modifies v`bitmap, v`data, v`inodes, v`dinodes, v`slots, v`logged
    ensures r == -1 || r == -2 || r == |src|
    ensures r == -1 <==> off > old(v.inodes)[i].size || off + |src| >= UINT || off + |src| > MAXFILE * BSIZE
    ensures r == -1 ==> unchanged(v)
    ensures r == -2 <==> r != -1 && old(v.Free()) < SpaceCost(off, |src|, old(v.inodes)[i].size)
    ensures r == -2 ==> v.Free() == 0
    ensures r >= 0 ==> v.Free() == old(v.Free()) - SpaceCost(off, |src|, old(v.inodes)[i].size)
    ensures r >= 0 ==>
        && Sound(v) && |v.inodes| == |old(v.inodes)|
        && Contents(v, i) == Splice(old(Contents(v, i)), off, src)
    ensures r >= 0 ==> OthersKept(old(v.inodes), old(v.slots), old(v.data), v.inodes, v.slots, v.data, i)
    ensures r >= 0 ==> v.logged <= old(v.logged) + touched && |touched| <= LogCost(off, |src|, old(v.inodes)[i].size)
  {
    hide Spliced, OthersSame, OthersKept, Splice, Bytes, Progress, SpaceCost, LogCost, MappedTo, Volume.Free,
      Volume.Valid;
    touched := {};
    ghost var size, inodes0, s0, d0, log0 := v.inodes[i].size, v.inodes, v.slots, v.data, v.logged;
    if off > v.inodes[i].size || (off + |src|) % UINT < off {
      return -1, {};
    }
    if off + |src| > MAXFILE * BSIZE {
      return -1, {};
    }
    assert FileOk(v.slots, v.inodes, i);
    ghost var m, data, bm;
    var ok;
    ok, m, data, bm := WriteRange(v, i, src, off);
    if !ok {
      return -2, {};
    }
    ghost var log1 := v.logged;
    RangeDone(s0, d0, log0, v.slots, v.data, log1, i, size, m, off, src, data, bm);
    ghost var ib := FinishWrite(v, i, off, |src|, m, inodes0);
    touched := TouchedCost(log0, log1, v.slots, i, Blocks(size), m, data, bm, ib);
    NewContents(s0, d0, v.slots, v.data, i, off, src, size);
    OtherFiles(inodes0, s0, d0, v.inodes, v.slots, v.data, i);
    r := |src|;
  }

  // ---------------------------------------------------------------- new volumes, and truncation

  /** A new volume is sound, all its files are empty, and all blocks behind the metadata are free. */
  method Format(g: Geometry, bytes: nat, n: nat) returns (v: Volume)
    requires 0 < g.first && g.size < UINT && Laid(g, bytes, n)
    ensures fresh(v) && v.g == g && Sound(v) && |v.inodes| == n
    ensures forall i: nat | i < n :: Contents(v, i) == []
    ensures forall b: nat | b < g.size :: b in FreeBlocks(v.bitmap, g.size) <==> g.first <= b
  {
    v := new Volume(g, bytes, n);
    forall b: nat | b < g.size ensures Bit(v.bitmap, b) <==> b < g.first {
      assert BitOk(g, v.bitmap, v.slots, b);
      assert b != 0 ==> forall p: Place :: !Refers(v.slots, p, b);
    }
    forall i: nat | i < n ensures FileOk(v.slots, v.inodes, i) {
      NoBlocks(v.slots, i);
    }
  }

  lemma NoBlocks(slots: map<Place, nat>, i: nat)
    requires forall k: nat | k <= MAXFILE :: Place(i, k) in slots && slots[Place(i, k)] == 0
    ensures MappedTo(slots, i, 0)
  {
  }

  /** The blocks of file `i`, with its indirect block. */
  ghost function BlocksOf(slots: map<Place, nat>, i: nat): set<nat> {
    set p: Place | p in slots && p.inum == i && slots[p] != 0 :: slots[p]
  }

  /** itrunc on a volume at rest: the file becomes empty, exactly its blocks become free, and all other
      files are as before. */
  method Truncate(v: Volume, i: nat) returns (ok: bool)
    requires Sound(v) && i < |v.inodes|
    modifies v`bitmap, v`inodes, v`dinodes, v`slots, v`logged
    ensures ok && Sound(v) && |v.inodes| == |old(v.inodes)| && Contents(v, i) == []
    ensures OthersKept(old(v.inodes), old(v.slots), old(v.data), v.inodes, v.slots, v.data, i)
    ensures FreeBlocks(v.bitmap, v.g.size) == FreeBlocks(old(v.bitmap), v.g.size) + BlocksOf(old(v.slots), i)
  {
    hide Covered;
    ghost var bm, inodes, slots := v.bitmap, v.inodes, v.slots;
    ok := v.Itrunc(i);
    TruncFrees(v.g, bm, v.bitmap, slots, i);
    ZeroedOthers(slots, v.data, i);
    OtherFiles(inodes, slots, v.data, v.inodes, v.slots, v.data, i);
    NoBlocks(v.slots, i);
  }

  lemma ZeroedOthers(slots: map<Place, nat>, data: seq<Block>, i: nat)
    ensures OthersSame(slots, data, Zeroed(slots, i, 0, MAXFILE + 1), data, i)
  {
    var slots' := Zeroed(slots, i, 0, MAXFILE + 1);
    forall j: nat, x: nat | j != i ensures OtherSame(slots, data, slots', data, j, x) {
    }
  }

  lemma TruncFrees(g: Geometry, bm: seq<bv8>, bm': seq<bv8>, slots: map<Place, nat>, i: nat)
    requires Owns(g, bm, slots) && Owns(g, bm', Zeroed(slots, i, 0, MAXFILE + 1))
    requires forall p: Place | p in slots :: p.k <= MAXFILE
    ensures FreeBlocks(bm', g.size) == FreeBlocks(bm, g.size) + BlocksOf(slots, i)
  {
    var slots' := Zeroed(slots, i, 0, MAXFILE + 1);
    forall b: nat | b < g.size ensures Bit(bm', b) <==> Bit(bm, b) && b !in BlocksOf(slots, i) {
      assert BitOk(g, bm, slots, b) && BitOk(g, bm', slots', b);
      if b >= g.first {
        ZeroedOwned(slots, i, b);
      }
    }
  }

  lemma ZeroedOwned(slots: map<Place, nat>, i: nat, b: nat)
    requires b != 0 && (forall p: Place, q: Place :: Unshared(slots, p, q))
      && (forall p: Place | p in slots :: p.k <= MAXFILE)
    ensures Owned(Zeroed(slots, i, 0, MAXFILE + 1), b) <==> Owned(slots, b) && b !in BlocksOf(slots, i)
  {
    var slots' := Zeroed(slots, i, 0, MAXFILE + 1);
    if p :| Refers(slots', p, b) {
      assert Refers(slots, p, b);
      forall q: Place | q in slots && q.inum == i && slots[q] != 0 ensures slots[q] != b {
        assert Unshared(slots, p, q);
      }
    }
    if p :| Refers(slots, p, b) {
      assert p.inum != i ==> Refers(slots', p, b);
    }
  }
}
