/** The redo log of log.c: what commit and recovery write to the disk, one block at a time, and
    what recovery makes of the disk when the machine stops between any two of those writes.
 */
module RedoLog {
  import opened Common

  /** Home blocks by number; `B` is what a block holds. */
  type Home<B> = map<nat, B>

  /** The header block: `n` entries of `block` count, the rest is left over from earlier use. */
  datatype Head = Head(n: nat, block: seq<nat>)

  /** A disk: the header block, the log blocks behind it, and all blocks outside the log by number. */
  datatype Disk<B> = Disk(head: Head, log: seq<B>, home: Home<B>)

  // ---------------------------------------------------------------- the disk's meaning

  ghost predicate AllIn<B>(bs: seq<nat>, h: Home<B>) {
    forall b | b in bs :: b in h
  }

  /** The header on the disk is one the kernel could have written. */
  ghost predicate DiskOk<B>(d: Disk<B>) {
    && |d.head.block| == LOGSIZE
    && d.head.n <= LOGSIZE
    && d.head.n <= |d.log|
    && AllIn(Listed(d.head), d.home)
  }

  function Listed(head: Head): seq<nat> {
    if head.n <= |head.block| then head.block[..head.n] else head.block
  }

  /** Copies log block i to home block bs[i], in order, for all i. */
  function Replay<B>(h: Home<B>, bs: seq<nat>, log: seq<B>): (r: Home<B>)
    requires |bs| <= |log|
    ensures AllIn(bs, r)
  {
    if bs == [] then h
    else
      var i := |bs| - 1;
      Replay(h, bs[..i], log)[bs[i] := log[i]]
  }

  /** What the home blocks are once recovery has run to its end. */
  function Recovered<B>(d: Disk<B>): Home<B>
    requires DiskOk(d)
  {
    Replay(d.home, Listed(d.head), d.log)
  }

  /** The disk with the first `k` log blocks installed. */
  function Installed<B>(d: Disk<B>, k: nat): Disk<B>
    requires DiskOk(d) && k <= d.head.n
  {
    d.(home := Replay(d.home, d.head.block[..k], d.log))
  }

  function Erased<B>(d: Disk<B>): Disk<B> {
    d.(head := d.head.(n := 0))
  }

  function InstallTrace<B>(d: Disk<B>, k: nat): (t: seq<Disk<B>>)
    requires DiskOk(d) && k <= d.head.n
    ensures |t| == k
  {
    seq(k, i requires 0 <= i < k => Installed(d, i + 1))
  }

  /** The disks that recovery passes through, one for each block it writes. */
  function RecoverTrace<B>(d: Disk<B>): (t: seq<Disk<B>>)
    requires DiskOk(d)
    ensures |t| == d.head.n + 1
  {
    InstallTrace(d, d.head.n) + [Erased(Installed(d, d.head.n))]
  }

  /** The header block after write_head: only the count and the listed entries change. */
  function WithHead(head: Head, blocks: seq<nat>): (r: Head)
    requires |blocks| <= |head.block|
    ensures Listed(r) == blocks && |r.block| == |head.block|
  {
    Head(|blocks|, blocks + head.block[|blocks|..])
  }

  /** A transaction that may be committed: it fits the log, and each block has new contents. */
  ghost predicate Loggable<B>(d: Disk<B>, blocks: seq<nat>, cache: Home<B>) {
    && DiskOk(d)
    && |blocks| <= LOGSIZE
    && |blocks| <= |d.log|
    && AllIn(blocks, d.home)
    && AllIn(blocks, cache)
  }

  /** The first `k` new contents copied into the log. */
  function Logged<B>(d: Disk<B>, blocks: seq<nat>, cache: Home<B>, k: nat): (r: Disk<B>)
    requires Loggable(d, blocks, cache) && k <= |blocks|
    ensures |r.log| == |d.log|
  {
    d.(log := seq(k, i requires 0 <= i < k => cache[blocks[i]]) + d.log[k..])
  }

  function LoggedTrace<B>(d: Disk<B>, blocks: seq<nat>, cache: Home<B>, k: nat): (t: seq<Disk<B>>)
    requires Loggable(d, blocks, cache) && k <= |blocks|
    ensures |t| == k
  {
    seq(k, i requires 0 <= i < k => Logged(d, blocks, cache, i + 1))
  }

  lemma LoggedNone<B>(d: Disk<B>, blocks: seq<nat>, cache: Home<B>)
    requires Loggable(d, blocks, cache)
    ensures Logged(d, blocks, cache, 0) == d && LoggedTrace(d, blocks, cache, 0) == []
  {
    assert d.log[0..] == d.log;
  }

  /** One turn of write_log. */
  lemma LoggedNext<B>(d: Disk<B>, blocks: seq<nat>, cache: Home<B>, k: nat)
    requires Loggable(d, blocks, cache) && k < |blocks|
    ensures var r := Logged(d, blocks, cache, k);
            r.(log := r.log[k := cache[blocks[k]]]) == Logged(d, blocks, cache, k + 1)
    ensures LoggedTrace(d, blocks, cache, k + 1) == LoggedTrace(d, blocks, cache, k) + [Logged(d, blocks, cache, k + 1)]
  {
    var r := Logged(d, blocks, cache, k);
    assert r.log[k := cache[blocks[k]]] == Logged(d, blocks, cache, k + 1).log;
  }

  /** The disk at the commit point. */
  function Sealed<B>(d: Disk<B>, blocks: seq<nat>, cache: Home<B>): (r: Disk<B>)
    requires Loggable(d, blocks, cache)
    ensures DiskOk(r) && Listed(r.head) == blocks && r.head.n == |blocks| && r.home == d.home
  {
    Logged(d, blocks, cache, |blocks|).(head := WithHead(d.head, blocks))
  }

  /** The disks that a commit passes through, one for each block it writes. */
  function CommitTrace<B>(d: Disk<B>, blocks: seq<nat>, cache: Home<B>): (t: seq<Disk<B>>)
    requires Loggable(d, blocks, cache)
    ensures |t| == if blocks == [] then 0 else 2 * |blocks| + 2
  {
    if blocks == [] then []
    else
      LoggedTrace(d, blocks, cache, |blocks|)
      + [Sealed(d, blocks, cache)]
      + RecoverTrace(Sealed(d, blocks, cache))
  }

  /** The disk that a run of block writes leaves when it is cut after `cut` of them. */
  function CutAt<B>(d: Disk<B>, trace: seq<Disk<B>>, cut: nat): Disk<B>
    requires cut <= |trace|
  {
    if cut == 0 then d else trace[cut - 1]
  }

  // ---------------------------------------------------------------- recovery survives its own crashes

  /** What replaying leaves in one block depends on the old disk only where nothing was replayed. */
  lemma {:induction false} ReplayForgets<B>(h: Home<B>, h': Home<B>, bs: seq<nat>, log: seq<B>, b: nat)
    requires |bs| <= |log|
    requires b in h && b in h'
    requires b in bs || h[b] == h'[b]
    ensures b in Replay(h, bs, log) && b in Replay(h', bs, log)
    ensures Replay(h, bs, log)[b] == Replay(h', bs, log)[b]
  {
    if bs != [] {
      var i := |bs| - 1;
      assert bs == bs[..i] + [bs[i]];
      if b != bs[i] {
        ReplayForgets(h, h', bs[..i], log, b);
      }
    }
  }

  lemma {:induction false} ReplayKeys<B>(h: Home<B>, bs: seq<nat>, log: seq<B>)
    requires |bs| <= |log| && AllIn(bs, h)
    ensures Replay(h, bs, log).Keys == h.Keys
  {
    if bs != [] {
      ReplayKeys(h, bs[..|bs| - 1], log);
    }
  }

  lemma {:induction false} ReplayElsewhere<B>(h: Home<B>, bs: seq<nat>, log: seq<B>, b: nat)
    requires |bs| <= |log|
    requires b !in bs
    ensures b in Replay(h, bs, log) <==> b in h
    ensures b in h ==> Replay(h, bs, log)[b] == h[b]
  {
    if bs != [] {
      var i := |bs| - 1;
      assert bs == bs[..i] + [bs[i]];
      ReplayElsewhere(h, bs[..i], log, b);
    }
  }

  /** Replaying a prefix of the log and then all of it is replaying all of it. */
  lemma ReplayResumed<B>(h: Home<B>, bs: seq<nat>, log: seq<B>, j: nat)
    requires j <= |bs| <= |log| && AllIn(bs, h)
    ensures AllIn(bs, Replay(h, bs[..j], log))
    ensures Replay(Replay(h, bs[..j], log), bs, log) == Replay(h, bs, log)
  {
    var h' := Replay(h, bs[..j], log);
    ReplayKeys(h, bs[..j], log);
    ReplayKeys(h, bs, log);
    ReplayKeys(h', bs, log);
    forall b: nat | b in h ensures Replay(h', bs, log)[b] == Replay(h, bs, log)[b] {
      if b !in bs {
        ReplayElsewhere(h, bs[..j], log, b);
      }
      ReplayForgets(h, h', bs, log, b);
    }
    assert forall b | b in h :: Replay(h', bs, log)[b] == Replay(h, bs, log)[b];
  }

  /** Wherever recovery is cut, a later recovery still reaches the same home blocks. */
  lemma RecoveryCut<B>(d: Disk<B>, cut: nat)
    requires DiskOk(d) && cut <= d.head.n + 1
    ensures DiskOk(CutAt(d, RecoverTrace(d), cut))
    ensures Recovered(CutAt(d, RecoverTrace(d), cut)) == Recovered(d)
  {
    var bs := Listed(d.head);
    if cut <= d.head.n {
      assert bs[..cut] == d.head.block[..cut];
      ReplayResumed(d.home, bs, d.log, cut);
      assert CutAt(d, RecoverTrace(d), cut) == Installed(d, cut);
    }
  }

  /** The disk after recovery was started and cut once for each entry of `cuts`. */
  function CutRecoveries<B>(d: Disk<B>, cuts: seq<nat>): (r: Disk<B>)
    requires DiskOk(d)
    ensures DiskOk(r)
    decreases |cuts|
  {
    if cuts == [] then d
    else
      var t := RecoverTrace(d);
      var cut := if cuts[0] <= |t| then cuts[0] else |t|;
      RecoveryCut(d, cut);
      CutRecoveries(CutAt(d, t, cut), cuts[1..])
  }

  /** A full boot after any number of cut boots. */
  function Boot<B>(d: Disk<B>, cuts: seq<nat>): Disk<B>
    requires DiskOk(d)
  {
    var r := CutRecoveries(d, cuts);
    Erased(Installed(r, r.head.n))
  }

  lemma {:induction false} BootReaches<B>(d: Disk<B>, cuts: seq<nat>)
    requires DiskOk(d)
    ensures DiskOk(Boot(d, cuts)) && Boot(d, cuts).head.n == 0
    ensures Boot(d, cuts).home == Recovered(d)
    decreases |cuts|
  {
    if cuts != [] {
      var t := RecoverTrace(d);
      var cut := if cuts[0] <= |t| then cuts[0] else |t|;
      RecoveryCut(d, cut);
      BootReaches(CutAt(d, t, cut), cuts[1..]);
    }
  }

  // ---------------------------------------------------------------- commit is atomic

  /** The home blocks with every logged block updated. */
  function Updated<B>(h: Home<B>, blocks: seq<nat>, cache: Home<B>): Home<B>
    requires AllIn(blocks, cache)
  {
    h + map b | b in blocks :: cache[b]
  }

  lemma {:induction false} ReplayGives<B>(h: Home<B>, blocks: seq<nat>, cache: Home<B>, log: seq<B>, b: nat)
    requires |blocks| <= |log| && AllIn(blocks, cache) && b in blocks
    requires forall i | 0 <= i < |blocks| :: log[i] == cache[blocks[i]]
    ensures Replay(h, blocks, log)[b] == cache[b]
  {
    var i := |blocks| - 1;
    assert blocks == blocks[..i] + [blocks[i]];
    if b != blocks[i] {
      ReplayGives(h, blocks[..i], cache, log, b);
    }
  }

  lemma ReplayIsUpdate<B>(h: Home<B>, blocks: seq<nat>, cache: Home<B>, log: seq<B>)
    requires |blocks| <= |log| && AllIn(blocks, cache) && AllIn(blocks, h)
    requires forall i | 0 <= i < |blocks| :: log[i] == cache[blocks[i]]
    ensures Replay(h, blocks, log) == Updated(h, blocks, cache)
  {
    var r := Replay(h, blocks, log);
    ReplayKeys(h, blocks, log);
    forall b: nat | b in h ensures r[b] == if b in blocks then cache[b] else h[b] {
      if b in blocks {
        ReplayGives(h, blocks, cache, log, b);
      } else {
        ReplayElsewhere(h, blocks, log, b);
      }
    }
    assert r.Keys == Updated(h, blocks, cache).Keys;
  }

  lemma CommitTraceAt<B>(d: Disk<B>, blocks: seq<nat>, cache: Home<B>, cut: nat)
    requires Loggable(d, blocks, cache) && cut <= |CommitTrace(d, blocks, cache)|
    ensures cut <= |blocks| ==> CutAt(d, CommitTrace(d, blocks, cache), cut) == Logged(d, blocks, cache, cut)
    ensures cut > |blocks| ==>
              var s := Sealed(d, blocks, cache);
              CutAt(d, CommitTrace(d, blocks, cache), cut) == CutAt(s, RecoverTrace(s), cut - |blocks| - 1)
  {
  }

  /** A commit that is cut after any number of its writes recovers to the old home blocks if the
      header was not yet written, and to all of the new ones if it was. */
  lemma CommitCut<B>(d: Disk<B>, blocks: seq<nat>, cache: Home<B>, cut: nat)
    requires Loggable(d, blocks, cache) && d.head.n == 0
    requires cut <= |CommitTrace(d, blocks, cache)|
    ensures var r := CutAt(d, CommitTrace(d, blocks, cache), cut);
            DiskOk(r) && Recovered(r) == if cut <= |blocks| then d.home else Updated(d.home, blocks, cache)
  {
    CommitTraceAt(d, blocks, cache, cut);
    if cut > |blocks| {
      var s := Sealed(d, blocks, cache);
      RecoveryCut(s, cut - |blocks| - 1);
      ReplayIsUpdate(d.home, blocks, cache, s.log);
    }
  }

  /** A whole commit leaves an empty log and every logged block updated. */
  lemma CommitLeaves<B>(d: Disk<B>, blocks: seq<nat>, cache: Home<B>)
    requires Loggable(d, blocks, cache) && d.head.n == 0
    ensures var t := CommitTrace(d, blocks, cache);
            var r := CutAt(d, t, |t|);
            DiskOk(r) && r.head.n == 0 && |r.log| == |d.log| && r.home == Updated(d.home, blocks, cache)
  {
    var t := CommitTrace(d, blocks, cache);
    CommitCut(d, blocks, cache, |t|);
    if blocks != [] {
      var s := Sealed(d, blocks, cache);
      CommitTraceAt(d, blocks, cache, |t|);
      assert CutAt(d, t, |t|) == Erased(Installed(s, s.head.n));
    }
  }

  /** What a commit has done to the home blocks after `cut` of its writes: nothing to blocks that are not
      logged, and nothing to any block before the header is written; in the end each logged block has its
      new contents. */
  lemma CommitHome<B>(d: Disk<B>, blocks: seq<nat>, cache: Home<B>, cut: nat, b: nat)
    requires Loggable(d, blocks, cache) && d.head.n == 0 && cut <= |CommitTrace(d, blocks, cache)| && b in d.home
    ensures var r := CutAt(d, CommitTrace(d, blocks, cache), cut);
            && b in r.home
            && (b !in blocks || cut <= |blocks| + 1 ==> r.home[b] == d.home[b])
            && (b in blocks ==> r.home[b] == d.home[b] || r.home[b] == cache[b])
            && (b in blocks && cut == |CommitTrace(d, blocks, cache)| ==> r.home[b] == cache[b])
  {
    CommitTraceAt(d, blocks, cache, cut);
    if cut > |blocks| {
      var s, k := Sealed(d, blocks, cache), cut - |blocks| - 1;
      var n := if k <= |blocks| then k else |blocks|;
      assert CutAt(s, RecoverTrace(s), k).home == Installed(s, n).home;
      assert s.head.block[..n] == blocks[..n];
      InstalledHome(s.home, blocks[..n], cache, s.log, b);
      assert blocks[..|blocks|] == blocks;
    }
  }

  /** A commit adds and removes no home block. */
  lemma CommitKeys<B>(d: Disk<B>, blocks: seq<nat>, cache: Home<B>, cut: nat)
    requires Loggable(d, blocks, cache) && cut <= |CommitTrace(d, blocks, cache)|
    ensures CutAt(d, CommitTrace(d, blocks, cache), cut).home.Keys == d.home.Keys
  {
    CommitTraceAt(d, blocks, cache, cut);
    if cut > |blocks| {
      var s, k := Sealed(d, blocks, cache), cut - |blocks| - 1;
      var n := if k <= |blocks| then k else |blocks|;
      assert CutAt(s, RecoverTrace(s), k).home == Installed(s, n).home;
      assert s.head.block[..n] == blocks[..n];
      ReplayKeys(s.home, blocks[..n], s.log);
    }
  }

  lemma InstalledHome<B>(h: Home<B>, blocks: seq<nat>, cache: Home<B>, log: seq<B>, b: nat)
    requires |blocks| <= |log| && AllIn(blocks, cache) && b in h
    requires forall i | 0 <= i < |blocks| :: log[i] == cache[blocks[i]]
    ensures b in Replay(h, blocks, log)
    ensures Replay(h, blocks, log)[b] == if b in blocks then cache[b] else h[b]
  {
    if b in blocks {
      ReplayGives(h, blocks, cache, log, b);
    } else {
      ReplayElsewhere(h, blocks, log, b);
    }
  }

  /** Crash atomicity: cut the commit anywhere, cut recovery any number of times anywhere, and
      the home blocks still end as the old disk or as the old disk with the whole transaction. */
  lemma CrashAtomicity<B>(d: Disk<B>, blocks: seq<nat>, cache: Home<B>, cut: nat, cuts: seq<nat>)
    requires Loggable(d, blocks, cache) && d.head.n == 0
    requires cut <= |CommitTrace(d, blocks, cache)|
    ensures var r := CutAt(d, CommitTrace(d, blocks, cache), cut);
            && DiskOk(r)
            && DiskOk(Boot(r, cuts)) && Boot(r, cuts).head.n == 0
            && Boot(r, cuts).home == if cut <= |blocks| then d.home else Updated(d.home, blocks, cache)
  {
    CommitCut(d, blocks, cache, cut);
    BootReaches(CutAt(d, CommitTrace(d, blocks, cache), cut), cuts);
  }
}
