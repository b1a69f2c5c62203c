/** filewrite of file.c: a write is cut into chunks, each a transaction of its own that logs no more
    blocks than one operation may.
 */
module FileWrite {
  import opened Common
  import opened BlockOwners
  import opened DiskBlocks
  import opened InodeSlots
  import opened DiskState
  import opened FileBlocks
  import opened FileBytes
  import opened FileData

  /** The largest chunk: three blocks. */
  const CHUNK: nat := (MAXOPBLOCKS - 1 - 1 - 2) / 2 * 512

  /** Whatever its alignment, and even if it crosses into the indirect block and every new block has its
      bit in another bitmap block, a chunk logs at most MAXOPBLOCKS blocks. */
  lemma ChunkFits(off: nat, n: nat, size: nat)
    requires n <= CHUNK && off <= size
    ensures LogCost(off, n, size) <= MAXOPBLOCKS
  {
    if n > 0 {
      var m := Max(Blocks(size), Blocks(off + n));
      assert Blocks(size) >= Blocks(off);
      assert Blocks(off + n) - off / BSIZE <= if off % BSIZE == 0 then 3 else 4;
      assert off % BSIZE != 0 ==> Blocks(off) == off / BSIZE + 1;
    }
  }

  /** The cost formula reaches the bound, and exceeds it for a chunk of one byte more. */
  lemma ChunkTight()
    ensures LogCost(11 * BSIZE + 1, CHUNK, 11 * BSIZE + 1) == MAXOPBLOCKS
    ensures LogCost(11 * BSIZE, CHUNK + 1, 11 * BSIZE) == MAXOPBLOCKS + 1
  {
  }

  lemma SpliceTwice(c: seq<Byte>, off: nat, a: seq<Byte>, b: seq<Byte>)
    requires off <= |c|
    ensures Splice(Splice(c, off, a), off + |a|, b) == Splice(c, off, a + b)
  {
  }

  lemma SpliceNothing(c: seq<Byte>, off: nat, a: seq<Byte>)
    ensures off <= |c| ==> Splice(c, off, a[..0]) == c
  {
  }

  lemma NothingChanged(inodes: seq<Inode>, slots: map<Place, nat>, data: seq<Block>, i: nat)
    ensures OthersKept(inodes, slots, data, inodes, slots, data, i)
  {
  }

  lemma KeptTwice(n0: seq<Inode>, s0: map<Place, nat>, d0: seq<Block>, n1: seq<Inode>, s1: map<Place, nat>,
                  d1: seq<Block>,
                  n2: seq<Inode>, s2: map<Place, nat>, d2: seq<Block>, i: nat)
    requires OthersKept(n0, s0, d0, n1, s1, d1, i) && OthersKept(n1, s1, d1, n2, s2, d2, i)
    ensures OthersKept(n0, s0, d0, n2, s2, d2, i)
  {
  }

  /** One chunk, between begin_op and end_op. */
  method WriteChunk(v: Volume, i: nat, piece: seq<Byte>, off: nat) returns (r: int)
    requires Sound(v) && i < |v.inodes| && off < UINT && |piece| <= CHUNK
    modifies v
    ensures r == -1 || r == -2 || r == |piece|
    ensures r == -1 <==> off > |old(Contents(v, i))| || off + |piece| > MAXFILE * BSIZE
    ensures v.base == old(v.Now())
    ensures r == -1 ==> Sound(v) && v.Now() == old(v.Now()) && v.inodes == old(v.inodes)
    ensures r == -2 <==> r != -1 && old(v.Free()) < SpaceCost(off, |piece|, |old(Contents(v, i))|)
    ensures r == -2 ==> v.Free() == 0
    ensures r >= 0 ==> v.Free() == old(v.Free()) - SpaceCost(off, |piece|, |old(Contents(v, i))|)
    ensures r >= 0 ==>
        && Sound(v) && |v.inodes| == |old(v.inodes)|
        && Contents(v, i) == Splice(old(Contents(v, i)), off, piece)
    ensures r >= 0 ==> |v.logged| <= MAXOPBLOCKS
    ensures r != -2 ==> OthersKept(old(v.inodes), old(v.slots), old(v.data), v.inodes, v.slots, v.data, i)
  {
    hide Owns, Reflects, OthersKept;
    NothingChanged(v.inodes, v.slots, v.data, i);
    ghost var size := v.inodes[i].size;
    v.base := v.Now();
    v.logged := {};
    CoveredStart(v.g, v.base);
    ghost var touched;
    r, touched := Writei(v, i, piece, off);
    if r >= 0 {
      ChunkFits(off, |piece|, size);
      SubsetCard(v.logged, touched);
    }
  }

  /** The size of the chunk at `k`. */
  function Next(addr: seq<Byte>, k: nat): nat
    requires k <= |addr|
  {
    if |addr| - k > CHUNK then CHUNK else |addr| - k
  }

  /** What filewrite has done after `k` bytes. */
  ghost predicate Written(c0: seq<Byte>, c: seq<Byte>, addr: seq<Byte>, off: nat, k: nat, logs: seq<set<nat>>) {
    && k <= |addr|
    && (if off <= |c0| then c == Splice(c0, off, addr[..k]) else k == 0 && c == c0)
    && ChunkEnd(addr, k) && k == End(addr, |logs|)
  }

  /** Where the first `j` chunks end. */
  function End(addr: seq<Byte>, j: nat): (k: nat)
    ensures k <= |addr|
  {
    if j * CHUNK <= |addr| then j * CHUNK else |addr|
  }

  /** What a file that held `c0` holds after the first `j` chunks. */
  ghost function After(c0: seq<Byte>, addr: seq<Byte>, off: nat, j: nat): seq<Byte> {
    if off <= |c0| then Splice(c0, off, addr[..End(addr, j)]) else c0
  }

  /** A sound volume in which file `i` holds `c` and all other files are as in `s0`. */
  ghost predicate Holds(g: Geometry, s0: Shot, s: Shot, i: nat, c: seq<Byte>) {
    && SoundShot(g, s) && i < |s.inodes| && ShotContents(s, i) == c
    && OthersKept(s0.inodes, s0.slots, s0.data, s.inodes, s.slots, s.data, i)
  }

  /** The volume before each transaction of filewrite and after the last; `logs` is what each of them
      logged. */
  ghost predicate History(g: Geometry, i: nat, c0: seq<Byte>, addr: seq<Byte>, off: nat, shots: seq<Shot>,
                          logs: seq<set<nat>>) {
    && |shots| == |logs| + 1
    && (forall j: nat | j <= |logs| :: Holds(g, shots[0], shots[j], i, After(c0, addr, off, j)))
    && (forall j: nat | j < |logs| :: Covers(g, shots[j], shots[j + 1], logs[j]))
    && (forall j: nat | j < |logs| :: |logs[j]| <= MAXOPBLOCKS)
  }

  lemma HistoryMore(g: Geometry, i: nat, c0: seq<Byte>, addr: seq<Byte>, off: nat, shots: seq<Shot>,
                    logs: seq<set<nat>>, t: Shot, log: set<nat>)
    requires History(g, i, c0, addr, off, shots, logs)
    requires Holds(g, shots[|logs|], t, i, After(c0, addr, off, |logs| + 1))
    requires Covers(g, shots[|logs|], t, log) && |log| <= MAXOPBLOCKS
    ensures History(g, i, c0, addr, off, shots + [t], logs + [log])
    ensures (shots + [t])[0] == shots[0] && |shots| == |logs| + 1
  {
    hide SoundShot, OthersKept, Covers, After;
    var shots', logs' := shots + [t], logs + [log];
    var s0, s := shots[0], shots[|logs|];
    assert Holds(g, s0, s, i, After(c0, addr, off, |logs|));
    KeptTwice(s0.inodes, s0.slots, s0.data, s.inodes, s.slots, s.data, t.inodes, t.slots, t.data, i);
    forall j: nat | j <= |logs'| ensures Holds(g, shots'[0], shots'[j], i, After(c0, addr, off, j)) {
      assert j <= |logs| ==> shots'[j] == shots[j];
    }
    forall j: nat | j < |logs'| ensures Covers(g, shots'[j], shots'[j + 1], logs'[j]) {
      assert j < |logs| ==> shots'[j] == shots[j] && shots'[j + 1] == shots[j + 1];
    }
  }

  predicate ChunkEnd(addr: seq<Byte>, k: nat) {
    k == |addr| || k % CHUNK == 0
  }

  lemma NextChunkEnd(addr: seq<Byte>, k: nat)
    requires k < |addr| && ChunkEnd(addr, k)
    ensures k + Next(addr, k) <= |addr| && ChunkEnd(addr, k + Next(addr, k))
  {
    assert CHUNK == 1536;
  }

  lemma SpliceMore(c0: seq<Byte>, c: seq<Byte>, addr: seq<Byte>, off: nat, k: nat, n: nat)
    requires off <= |c0| && k + n <= |addr| && c == Splice(c0, off, addr[..k])
    ensures off + k <= |c| && Splice(c, off + k, addr[k..k + n]) == Splice(c0, off, addr[..k + n])
  {
    SpliceTwice(c0, off, addr[..k], addr[k..k + n]);
    assert addr[..k] + addr[k..k + n] == addr[..k + n];
  }

  lemma WrittenMore(c0: seq<Byte>, c: seq<Byte>, c': seq<Byte>, addr: seq<Byte>, off: nat, k: nat, n: nat,
                    logs: seq<set<nat>>, log: set<nat>)
    requires Written(c0, c, addr, off, k, logs) && k < |addr| && n == Next(addr, k)
    requires off + k <= |c| && off + k + n <= MAXFILE * BSIZE && c' == Splice(c, off + k, addr[k..k + n])
    ensures Written(c0, c', addr, off, k + n, logs + [log]) && c' == After(c0, addr, off, |logs| + 1)
  {
    NextChunkEnd(addr, k);
    SpliceMore(c0, c, addr, off, k, n);
  }

  lemma WrittenReach(c0: seq<Byte>, c: seq<Byte>, addr: seq<Byte>, off: nat, k: nat, logs: seq<set<nat>>)
    requires Written(c0, c, addr, off, k, logs)
    ensures off <= |c0| <==> off + k <= |c|
    ensures off <= |c0| ==> |c| == Max(|c0|, off + k)
  {
  }

  /** How much of `addr` the largest file has room for, in whole chunks. */
  function Room(addr: seq<Byte>, off: nat): (k: nat)
    ensures k <= |addr|
  {
    if off + |addr| <= MAXFILE * BSIZE then |addr|
    else if off > MAXFILE * BSIZE then 0
    else WholeChunks(MAXFILE * BSIZE - off)
  }

  function WholeChunks(n: nat): (k: nat)
    ensures k <= n
  {
    n - n % CHUNK
  }

  lemma NextChunk(k: nat, n: nat)
    requires k <= n && k % CHUNK == 0
    ensures if k + CHUNK <= n then k + CHUNK <= WholeChunks(n) else k == WholeChunks(n)
  {
    assert CHUNK == 1536;
    assert k == 1536 * (k / 1536) && n == 1536 * (n / 1536) + n % 1536;
  }

  lemma NextRoom(addr: seq<Byte>, off: nat, k: nat)
    requires k < |addr| && ChunkEnd(addr, k) && off <= MAXFILE * BSIZE && k <= Room(addr, off)
    ensures if off + k + Next(addr, k) <= MAXFILE * BSIZE then k + Next(addr, k) <= Room(addr, off)
            else k == Room(addr, off)
  {
    hide WholeChunks;
    if off + |addr| > MAXFILE * BSIZE {
      NextChunk(k, MAXFILE * BSIZE - off);
    }
  }

  /** The blocks for two writes in a row are the blocks for both together. */
  lemma SpaceSum(off: nat, k: nat, n: nat, size: nat)
    requires off <= size
    ensures SpaceCost(off, k, size) + SpaceCost(off + k, n, Max(size, off + k)) == SpaceCost(off, k + n, size)
  {
    assert Blocks(Max(size, off + k)) == Max(Blocks(size), Blocks(off + k));
    assert Blocks(off) <= Blocks(size) && Blocks(off + k) <= Blocks(off + k + n);
  }

  /** A chunk that fits the largest file is within the room, and with it the blocks still add up; at one
      that does not, the room is used up. */
  lemma ChunkRoom(addr: seq<Byte>, off: nat, k: nat, size: nat)
    requires off <= size <= MAXFILE * BSIZE && k < |addr| && ChunkEnd(addr, k) && k <= Room(addr, off)
    ensures var n := Next(addr, k);
            if off + k + n > MAXFILE * BSIZE then k == Room(addr, off)
            else
              && k + n <= Room(addr, off)
              && SpaceCost(off, k, size) + SpaceCost(off + k, n, Max(size, off + k)) == SpaceCost(off, k + n, size)
              && SpaceCost(off, k + n, size) <= SpaceCost(off, Room(addr, off), size)
  {
    hide SpaceCost, Room, Next;
    var n, room := Next(addr, k), Room(addr, off);
    NextRoom(addr, off, k);
    if off + k + n <= MAXFILE * BSIZE {
      SpaceSum(off, k, n, size);
      SpaceSum(off, k + n, room - (k + n), size);
    }
  }

  /** One turn of the loop of filewrite. */
  method WriteNext(v: Volume, i: nat, addr: seq<Byte>, off0: nat, k: nat, ghost c0: seq<Byte>, ghost shots: seq<Shot>,
                   ghost logs: seq<set<nat>>)
    returns (r: int, k': nat, ghost shots': seq<Shot>, ghost logs': seq<set<nat>>)
    requires Sound(v) && i < |v.inodes| && off0 + k < UINT && k < |addr|
    requires Written(c0, Contents(v, i), addr, off0, k, logs)
    requires History(v.g, i, c0, addr, off0, shots, logs) && shots[|logs|] == v.Now()
    modifies v
    ensures r == -1 || r == -2 || (r > 0 && k' == k + r)
    ensures History(v.g, i, c0, addr, off0, shots', logs') && shots'[0] == shots[0]
    ensures r != -2 ==> Sound(v) && |v.inodes| == |old(v.inodes)| && k' <= |addr| && shots'[|logs'|] == v.Now()
    ensures r != -2 ==> Written(c0, Contents(v, i), addr, off0, k', logs')
    ensures r == -1 ==>
        k' == k && (off0 > |c0| || off0 + k + Next(addr, k) > MAXFILE * BSIZE)
        && v.Free() == old(v.Free())
    ensures r != -1 ==> off0 <= |c0| && off0 + k + Next(addr, k) <= MAXFILE * BSIZE
    ensures r > 0 ==> r == Next(addr, k) && v.Free() == old(v.Free()) - SpaceCost(off0 + k, r, Max(|c0|, off0 + k))
    ensures r == -2 ==> v.Free() == 0 && old(v.Free()) < SpaceCost(off0 + k, Next(addr, k), Max(|c0|, off0 + k))
    ensures r != -2 ==> OthersKept(old(v.inodes), old(v.slots), old(v.data), v.inodes, v.slots, v.data, i)
  {
    hide Owns, Reflects, OthersKept, Written, Splice, Covered, History, Bytes, FileOk, SpaceCost, Volume.Free, After;
    k', shots', logs' := k, shots, logs;
    ghost var c := Contents(v, i);
    WrittenReach(c0, c, addr, off0, k, logs);
    var n1 := |addr| - k;
    if n1 > CHUNK {
      n1 := CHUNK;
    }
    r := WriteChunk(v, i, addr[k..k + n1], off0 + k);
    if r >= 0 {
      k', logs' := k + n1, logs + [v.logged];
      WrittenMore(c0, c, Contents(v, i), addr, off0, k, n1, logs, v.logged);
      HistoryMore(v.g, i, c0, addr, off0, shots, logs, v.Now(), v.logged);
      shots' := shots + [v.Now()];
    }
  }

  /** filewrite on an inode. `shots` and `logs` are its transactions, `done` is how much of `addr` was
      written. A write stops early, and fails, at the first chunk that would pass the largest file size;
      -2 is the panic of balloc, exactly if fewer blocks are free than the chunks before that take. */
  method Filewrite(v: Volume, i: nat, addr: seq<Byte>, off0: nat)
    returns (r: int, off: nat, ghost done: nat, ghost shots: seq<Shot>, ghost logs: seq<set<nat>>)
    requires Sound(v) && i < |v.inodes| && off0 < UINT
    modifies v
    ensures r == -2 <==> var c0 := old(Contents(v, i));
                         off0 <= |c0| && old(v.Free()) < SpaceCost(off0, Room(addr, off0), |c0|)
    ensures r == -2 ==> v.Free() == 0
    ensures r != -2 ==> Sound(v) && |v.inodes| == |old(v.inodes)| && off == off0 + done
    ensures r != -2 ==> Written(old(Contents(v, i)), Contents(v, i), addr, off0, done, logs)
    ensures r != -2 ==> r == if done == |addr| then |addr| else -1
    ensures r != -2 ==> done == if off0 <= |old(Contents(v, i))| then Room(addr, off0) else 0
    ensures r != -2 ==> OthersKept(old(v.inodes), old(v.slots), old(v.data), v.inodes, v.slots, v.data, i)
    ensures History(v.g, i, old(Contents(v, i)), addr, off0, shots, logs) && shots[0] == old(v.Now())
    ensures r != -2 ==> shots[|logs|] == v.Now()
  {
    hide OthersKept, Sound, Bytes, SpaceCost, Volume.Free, Room, Next, Splice, Holds, Covers;
    NothingChanged(v.inodes, v.slots, v.data, i);
    off, done, shots, logs := off0, 0, [v.Now()], [];
    ghost var c0, free := Contents(v, i), v.Free();
    var k := 0;
    HistoryStart(v, i, addr, off0);
    while k < |addr|
      invariant 0 <= k <= |addr| && off0 + k < UINT && Sound(v) && |v.inodes| == |old(v.inodes)|
      invariant Written(c0, Contents(v, i), addr, off0, k, logs)
      invariant OthersKept(old(v.inodes), old(v.slots), old(v.data), v.inodes, v.slots, v.data, i)
      invariant History(v.g, i, c0, addr, off0, shots, logs) && shots[0] == old(v.Now()) && shots[|logs|] == v.Now()
      invariant off0 <= |c0| ==> k <= Room(addr, off0) && v.Free() + SpaceCost(off0, k, |c0|) == free
      decreases |addr| - k
    {
      ghost var n, s, d, k0 := v.inodes, v.slots, v.data, k;
      r, k, shots, logs := WriteNext(v, i, addr, off0, k, c0, shots, logs);
      if off0 <= |c0| {
        ChunkRoom(addr, off0, k0, |c0|);
      }
      if r != -2 {
        KeptTwice(old(v.inodes), old(v.slots), old(v.data), n, s, d, v.inodes, v.slots, v.data, i);
      }
      if r < 0 {
        off, done := off0 + k, k;
        return;
      }
    }
    r, off, done := |addr|, off0 + k, k;
  }

  lemma HistoryStart(v: Volume, i: nat, addr: seq<Byte>, off: nat)
    requires Sound(v) && i < |v.inodes|
    ensures Written(Contents(v, i), Contents(v, i), addr, off, 0, [])
    ensures History(v.g, i, Contents(v, i), addr, off, [v.Now()], [])
    ensures |Contents(v, i)| <= MAXFILE * BSIZE
    ensures off <= |Contents(v, i)| ==> SpaceCost(off, 0, |Contents(v, i)|) == 0
  {
    hide Owns, Reflects, Covered, OthersKept, MappedTo, Splice;
    var c0 := Contents(v, i);
    NothingChanged(v.inodes, v.slots, v.data, i);
    assert FileOk(v.slots, v.inodes, i);
    SpliceNothing(c0, off, addr);
  }
}
