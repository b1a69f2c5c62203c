/** filewrite on a disk with a log: cut it anywhere and recover, and the volume is sound and holds the
    bytes of some number of whole chunks. This joins fs.c and file.c with log.c. */
module FileCrash {
  import opened Common
  import opened BlockOwners
  import opened DiskBlocks
  import opened InodeSlots
  import opened DiskState
  import opened FileBytes
  import opened FileData
  import opened FileWrite
  import opened RedoLog

  // ---------------------------------------------------------------- a volume in disk blocks

  /** What a block of a volume holds: eight inodes, 512 bytes of the bitmap, or data. */
  datatype Content = InodePart(inodes: seq<Inode>) | BitmapPart(bits: seq<bv8>) | DataBlock(data: Block)

  /** Part `j` of `s`, which is cut into parts of `n` elements. */
  function Part<T>(s: seq<T>, n: nat, j: nat): seq<T> {
    s[Min(n * j, |s|)..Min(n * j + n, |s|)]
  }

  lemma SamePart<T>(s: seq<T>, t: seq<T>, n: nat, j: nat)
    requires |s| == |t| && forall x: nat | x < |s| && n * j <= x < n * j + n :: s[x] == t[x]
    ensures Part(s, n, j) == Part(t, n, j)
  {
  }

  lemma PartTells<T>(s: seq<T>, t: seq<T>, n: nat, j: nat, x: nat)
    requires |s| == |t| && Part(s, n, j) == Part(t, n, j) && x < |s| && n * j <= x < n * j + n
    ensures s[x] == t[x]
  {
    assert s[x] == Part(s, n, j)[x - n * j] && t[x] == Part(t, n, j)[x - n * j];
  }

  function ContentAt(g: Geometry, s: Shot, b: nat): Content
    requires g.inodestart <= b < |s.data|
  {
    if b < g.bmapstart then InodePart(Part(s.inodes, IPB, b - g.inodestart))
    else if b < g.first then BitmapPart(Part(s.bitmap, BSIZE, b - g.bmapstart))
    else DataBlock(s.data[b])
  }

  /** The blocks of a volume behind the log, by number. */
  function Image(g: Geometry, s: Shot): Home<Content> {
    map b: nat | g.inodestart <= b < |s.data| :: ContentAt(g, s, b)
  }

  /** A block that was not logged holds what it held. */
  lemma UnloggedSame(g: Geometry, s: Shot, t: Shot, logged: set<nat>, b: nat)
    requires Covers(g, s, t, logged) && g.inodestart <= b < |s.data| && b !in logged
    ensures ContentAt(g, t, b) == ContentAt(g, s, b)
  {
    if b < g.bmapstart {
      var j := b - g.inodestart;
      forall i: nat | i < |s.inodes| && IPB * j <= i < IPB * j + IPB ensures s.inodes[i] == t.inodes[i] {
        assert InodeBlock(g, i) == b;
      }
      SamePart(t.inodes, s.inodes, IPB, j);
    } else if b < g.first {
      var j := b - g.bmapstart;
      forall x: nat | x < |s.bitmap| && BSIZE * j <= x < BSIZE * j + BSIZE ensures s.bitmap[x] == t.bitmap[x] {
        assert BitBlock(g, 8 * x) == b;
      }
      SamePart(t.bitmap, s.bitmap, BSIZE, j);
    }
  }

  /** Installing the logged blocks of `t` on the disk of `s` gives the disk of `t`. */
  lemma UpdatedImage(g: Geometry, s: Shot, t: Shot, logged: set<nat>, blocks: seq<nat>)
    requires Covers(g, s, t, logged) && |s.data| == g.size && (forall b: nat :: b in blocks <==> b in logged)
    ensures AllIn(blocks, Image(g, s)) && AllIn(blocks, Image(g, t))
    ensures Updated(Image(g, s), blocks, Image(g, t)) == Image(g, t)
  {
    forall b: nat | g.inodestart <= b < |s.data| && b !in blocks ensures ContentAt(g, t, b) == ContentAt(g, s, b) {
      UnloggedSame(g, s, t, logged, b);
    }
  }

  lemma InodeTells(g: Geometry, s: Shot, t: Shot, i: nat)
    requires |s.data| == |t.data| == g.size && Laid(g, |s.bitmap|, |s.inodes|)
    requires |s.inodes| == |t.inodes| && i < |s.inodes| && Image(g, s) == Image(g, t)
    ensures s.inodes[i] == t.inodes[i]
  {
    hide Part;
    InodeBlockIn(g, |s.bitmap|, |s.inodes|, i);
    var b := InodeBlock(g, i);
    assert Image(g, s)[b] == Image(g, t)[b];
    PartTells(s.inodes, t.inodes, IPB, i / IPB, i);
  }

  lemma BitsTell(g: Geometry, s: Shot, t: Shot, x: nat)
    requires |s.data| == |t.data| == g.size && Laid(g, |s.bitmap|, |s.inodes|)
    requires |s.bitmap| == |t.bitmap| && x < |s.bitmap| && Image(g, s) == Image(g, t)
    ensures s.bitmap[x] == t.bitmap[x]
  {
    hide Part;
    var b := g.bmapstart + x / BSIZE;
    assert Image(g, s)[b] == Image(g, t)[b];
    PartTells(s.bitmap, t.bitmap, BSIZE, x / BSIZE, x);
  }

  lemma DataTells(g: Geometry, s: Shot, t: Shot, b: nat)
    requires |s.data| == |t.data| == g.size && Laid(g, |s.bitmap|, |s.inodes|)
    requires g.first <= b < g.size && Image(g, s) == Image(g, t)
    ensures s.data[b] == t.data[b]
  {
    hide Part;
    assert Image(g, s)[b] == Image(g, t)[b];
  }

  /** The blocks determine the volume, so equal disks have equal files. */
  lemma ImageTells(g: Geometry, s: Shot, t: Shot, i: nat)
    requires SoundShot(g, s) && SoundShot(g, t) && Laid(g, |s.bitmap|, |s.inodes|)
    requires |s.bitmap| == |t.bitmap| && |s.inodes| == |t.inodes| && i < |s.inodes|
    requires Image(g, s) == Image(g, t)
    ensures s.inodes == t.inodes && s.bitmap == t.bitmap && s.slots == t.slots
    ensures ShotContents(s, i) == ShotContents(t, i)
  {
    hide Image, Part, Laid, FileOk, Owns, Reflects;
    forall i: nat | i < |s.inodes| ensures s.inodes[i] == t.inodes[i] {
      InodeTells(g, s, t, i);
    }
    forall x: nat | x < |s.bitmap| ensures s.bitmap[x] == t.bitmap[x] {
      BitsTell(g, s, t, x);
    }
    forall b: nat | g.first <= b < g.size ensures s.data[b] == t.data[b] {
      DataTells(g, s, t, b);
    }
    SameSlots(g, s, t);
    SameBytes(g, s, t, i);
  }

  lemma SameBytes(g: Geometry, s: Shot, t: Shot, i: nat)
    requires Owns(g, s.bitmap, s.slots) && s.slots == t.slots && s.inodes == t.inodes && i < |s.inodes|
    requires |s.data| == |t.data| == g.size && forall b: nat | g.first <= b < g.size :: s.data[b] == t.data[b]
    ensures ShotContents(s, i) == ShotContents(t, i)
  {
    hide Unshared, BitOk;
    forall x: nat ensures ByteAt(s.slots, s.data, i, x) == ByteAt(t.slots, t.data, i, x) {
    }
  }

  lemma SameSlots(g: Geometry, s: Shot, t: Shot)
    requires SoundShot(g, s) && SoundShot(g, t) && s.inodes == t.inodes
    requires forall b: nat | g.first <= b < g.size :: s.data[b] == t.data[b]
    ensures s.slots == t.slots
  {
    forall p: Place | p in s.slots ensures p in t.slots && s.slots[p] == t.slots[p] {
      var q := Place(p.inum, MAXFILE);
      assert q in s.slots && s.slots[q] == s.inodes[p.inum].addrs[NDIRECT];
    }
    assert s.slots.Keys == t.slots.Keys;
  }

  // ---------------------------------------------------------------- the transactions of filewrite

  /** A disk with an empty log that holds the volume. */
  ghost predicate Ready(g: Geometry, s: Shot, d: Disk<Content>) {
    DiskOk(d) && d.head.n == 0 && d.home == Image(g, s)
  }

  /** What the header lists: each logged block once, in some order. */
  ghost predicate Lists(blocks: seq<nat>, logged: set<nat>) {
    |blocks| == |logged| && forall b: nat :: b in blocks <==> b in logged
  }

  /** A transaction that fits the log can be committed, and that turns the disk of `s` into that of `t`. */
  lemma CommitReady(g: Geometry, s: Shot, t: Shot, logged: set<nat>, blocks: seq<nat>, d: Disk<Content>)
    requires Covers(g, s, t, logged) && |s.data| == g.size && Lists(blocks, logged) && Ready(g, s, d)
    requires |logged| <= |d.log| && |logged| <= LOGSIZE
    ensures Loggable(d, blocks, Image(g, t)) && Updated(d.home, blocks, Image(g, t)) == Image(g, t)
    ensures var trace := CommitTrace(d, blocks, Image(g, t));
            Ready(g, t, CutAt(d, trace, |trace|)) && |CutAt(d, trace, |trace|).log| == |d.log|
  {
    UpdatedImage(g, s, t, logged, blocks);
    CommitLeaves(d, blocks, Image(g, t));
  }

  /** The disk after the first `j` transactions have been committed. */
  ghost function Committed(g: Geometry, i: nat, c0: seq<Byte>, addr: seq<Byte>, off: nat, shots: seq<Shot>,
                           logs: seq<set<nat>>,
                           lists: seq<seq<nat>>, d: Disk<Content>, j: nat): (r: Disk<Content>)
    requires History(g, i, c0, addr, off, shots, logs) && Ready(g, shots[0], d) && |d.log| >= MAXOPBLOCKS && j <= |logs|
    requires |lists| == |logs| && forall k: nat | k < |logs| :: Lists(lists[k], logs[k])
    ensures Ready(g, shots[j], r) && |r.log| == |d.log|
  {
    if j == 0 then d
    else
      var p := Committed(g, i, c0, addr, off, shots, logs, lists, d, j - 1);
      assert Holds(g, shots[0], shots[j - 1], i, After(c0, addr, off, j - 1));
      CommitReady(g, shots[j - 1], shots[j], logs[j - 1], lists[j - 1], p);
      var trace := CommitTrace(p, lists[j - 1], Image(g, shots[j]));
      CutAt(p, trace, |trace|)
  }

  /** The writes of transaction `j`. */
  ghost function Writes(g: Geometry, i: nat, c0: seq<Byte>, addr: seq<Byte>, off: nat, shots: seq<Shot>,
                        logs: seq<set<nat>>,
                        lists: seq<seq<nat>>, d: Disk<Content>, j: nat): seq<Disk<Content>>
    requires History(g, i, c0, addr, off, shots, logs) && Ready(g, shots[0], d) && |d.log| >= MAXOPBLOCKS && j < |logs|
    requires |lists| == |logs| && forall k: nat | k < |logs| :: Lists(lists[k], logs[k])
  {
    var p := Committed(g, i, c0, addr, off, shots, logs, lists, d, j);
    assert Holds(g, shots[0], shots[j], i, After(c0, addr, off, j));
    CommitReady(g, shots[j], shots[j + 1], logs[j], lists[j], p);
    CommitTrace(p, lists[j], Image(g, shots[j + 1]))
  }

  /** Stop a filewrite after any number of the block writes of any of its transactions, and stop recovery
      any number of times: in the end the disk is that of a sound volume in which the file holds what was
      there before and the first `k` chunks, for k the number of transactions whose header was written,
      and all other files are as before. */
  lemma FilewriteCrash(g: Geometry, i: nat, c0: seq<Byte>, addr: seq<Byte>, off: nat, shots: seq<Shot>,
                       logs: seq<set<nat>>,
                       lists: seq<seq<nat>>, d: Disk<Content>, j: nat, cut: nat, cuts: seq<nat>)
    requires History(g, i, c0, addr, off, shots, logs) && Ready(g, shots[0], d) && |d.log| >= MAXOPBLOCKS && j < |logs|
    requires |lists| == |logs| && forall k: nat | k < |logs| :: Lists(lists[k], logs[k])
    requires cut <= |Writes(g, i, c0, addr, off, shots, logs, lists, d, j)|
    ensures var p := Committed(g, i, c0, addr, off, shots, logs, lists, d, j);
            var q := CutAt(p, Writes(g, i, c0, addr, off, shots, logs, lists, d, j), cut);
            var k := if cut <= |lists[j]| then j else j + 1;
            && DiskOk(q)
            && DiskOk(Boot(q, cuts)) && Boot(q, cuts).head.n == 0 && Boot(q, cuts).home == Image(g, shots[k])
            && Holds(g, shots[0], shots[k], i, After(c0, addr, off, k))
  {
    var p := Committed(g, i, c0, addr, off, shots, logs, lists, d, j);
    assert Holds(g, shots[0], shots[j], i, After(c0, addr, off, j));
    CommitReady(g, shots[j], shots[j + 1], logs[j], lists[j], p);
    CrashAtomicity(p, lists[j], Image(g, shots[j + 1]), cut, cuts);
  }
}
