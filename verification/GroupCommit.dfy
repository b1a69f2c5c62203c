/** Group commit in log.c as a state machine: processes open operations, log blocks and close
    operations in any interleaving, the last one out commits, and the machine may stop anywhere.
    The machine refines an object whose durable contents change only by whole operations.
 */
module GroupCommit {
  import opened Common
  import opened RedoLog

  /** The in-memory log structure; `blocks` is the first `n` entries of its block array. */
  datatype LogState = LogState(outstanding: int, committing: bool, blocks: seq<nat>)

  /** `cache` holds the contents of the dirty buffers. `left[p]` is negative while process `p` is
      not inside an operation, otherwise the number of blocks that its operation may still add. */
  datatype State<B> = State(disk: Disk<B>, cache: Home<B>, log: LogState, left: seq<int>)

  /** Crash(cut, cuts): the machine stops after `cut` block writes of a running commit, boots are
      cut once for each of `cuts`, and then a boot runs to its end. */
  datatype Event<B> =
    | Begin(p: nat)
    | Write(p: nat, b: nat, w: B)
    | End(p: nat)
    | Commit
    | Crash(cut: nat, cuts: seq<nat>)

  // ---------------------------------------------------------------- the steps of log.c

  predicate Admits(log: LogState) {
    !log.committing && |log.blocks| + (log.outstanding + 1) * MAXOPBLOCKS <= LOGSIZE
  }

  /** The guard of the two panics in log_write; `slots` is log.size - 1. */
  predicate WritePanics(log: LogState, slots: nat) {
    |log.blocks| >= LOGSIZE || |log.blocks| >= slots || log.outstanding < 1
  }

  /** log_write: a block that is already logged is absorbed. */
  function Append(blocks: seq<nat>, b: nat): (r: seq<nat>)
    ensures Distinct(blocks) ==> Distinct(r)
    ensures forall x :: x in r <==> x in blocks || x == b
    ensures |r| == |blocks| + if b in blocks then 0 else 1
  {
    if b in blocks then blocks else blocks + [b]
  }

  function AfterEnd(log: LogState): LogState {
    LogState(log.outstanding - 1, log.committing || log.outstanding == 1, log.blocks)
  }

  function Idle(n: nat): seq<int> {
    seq(n, i => -1)
  }

  /** The block writes of the commit that is running, if one is. */
  function PendingTrace<B>(s: State<B>): seq<Disk<B>>
    requires Inv(s)
  {
    if s.log.committing then CommitTrace(s.disk, s.log.blocks, s.cache) else []
  }

  ghost predicate Enabled<B>(s: State<B>, e: Event<B>)
    requires Inv(s)
  {
    match e
    case Begin(p) => p < |s.left| && s.left[p] < 0 && Admits(s.log)
    case Write(p, b, w) =>
      && p < |s.left| && s.left[p] >= 0 && b in s.disk.home
      && !WritePanics(s.log, |s.disk.log|)
      && (b in s.log.blocks || s.left[p] > 0)
    case End(p) => p < |s.left| && s.left[p] >= 0
    case Commit => s.log.committing
    case Crash(cut, _) => cut <= |PendingTrace(s)|
  }

  function Next<B>(s: State<B>, e: Event<B>): State<B>
    requires Inv(s) && Enabled(s, e)
  {
    match e
    case Begin(p) =>
      s.(log := s.log.(outstanding := s.log.outstanding + 1), left := s.left[p := MAXOPBLOCKS])
    case Write(p, b, w) =>
      State(s.disk, s.cache[b := w], s.log.(blocks := Append(s.log.blocks, b)),
            if b in s.log.blocks then s.left else s.left[p := s.left[p] - 1])
    case End(p) => s.(log := AfterEnd(s.log), left := s.left[p := -1])
    case Commit =>
      var t := CommitTrace(s.disk, s.log.blocks, s.cache);
      State(CutAt(s.disk, t, |t|), map[], LogState(0, false, []), s.left)
    case Crash(cut, cuts) =>
      CutDiskOk(s, cut);
      State(Boot(CutAt(s.disk, PendingTrace(s), cut), cuts), map[], LogState(0, false, []), Idle(|s.left|))
  }

  lemma CutDiskOk<B>(s: State<B>, cut: nat)
    requires Inv(s) && cut <= |PendingTrace(s)|
    ensures DiskOk(CutAt(s.disk, PendingTrace(s), cut))
  {
    if s.log.committing {
      CommitCut(s.disk, s.log.blocks, s.cache, cut);
    }
  }

  // ---------------------------------------------------------------- the invariant

  /** The number of operations that are open. */
  function Open(left: seq<int>): nat {
    if left == [] then 0 else Open(left[1..]) + if left[0] >= 0 then 1 else 0
  }

  /** The number of blocks that the open operations may still add. */
  function Reserved(left: seq<int>): nat {
    if left == [] then 0 else Reserved(left[1..]) + if left[0] >= 0 then left[0] else 0
  }

  ghost predicate Inv<B>(s: State<B>) {
    && DiskOk(s.disk) && s.disk.head.n == 0
    && Loggable(s.disk, s.log.blocks, s.cache)
    && (forall b | b in s.cache :: b in s.log.blocks)
    && Distinct(s.log.blocks)
    && (forall p | 0 <= p < |s.left| :: s.left[p] <= MAXOPBLOCKS)
    && s.log.outstanding == Open(s.left)
    && (s.log.committing ==> s.log.outstanding == 0)
    && |s.log.blocks| + Reserved(s.left) <= LOGSIZE
  }

  lemma {:induction false} SetLeft(left: seq<int>, p: nat, v: int)
    requires p < |left|
    ensures Open(left[p := v]) == Open(left) - (if left[p] >= 0 then 1 else 0) + (if v >= 0 then 1 else 0)
    ensures Reserved(left[p := v])
            == Reserved(left) - (if left[p] >= 0 then left[p] else 0) + (if v >= 0 then v else 0)
  {
    if p > 0 {
      assert left[p := v][1..] == left[1..][p - 1 := v];
      SetLeft(left[1..], p - 1, v);
    } else {
      assert left[p := v][1..] == left[1..];
    }
  }

  lemma {:induction false} ReservedBound(left: seq<int>)
    requires forall p | 0 <= p < |left| :: left[p] <= MAXOPBLOCKS
    ensures Reserved(left) <= MAXOPBLOCKS * Open(left)
  {
    if left != [] {
      ReservedBound(left[1..]);
    }
  }

  lemma {:induction false} NoneOpen(left: seq<int>)
    ensures Open(left) == 0 <==> forall p | 0 <= p < |left| :: left[p] < 0
    ensures Open(left) == 0 ==> Reserved(left) == 0
  {
    if left != [] {
      NoneOpen(left[1..]);
      assert forall p | 0 <= p < |left[1..]| :: left[1..][p] == left[p + 1];
      assert forall p | 1 <= p < |left| :: left[p] == left[1..][p - 1];
    }
  }

  // ---------------------------------------------------------------- the object that is refined

  /** What the file system calls see: the contents that survive a crash, the contents that
      operations read and write, and which operations are open. */
  datatype Atomic<B> = Atomic(durable: Home<B>, visible: Home<B>, open: set<nat>)

  ghost function View<B>(s: State<B>): Atomic<B> {
    Atomic(s.disk.home, s.disk.home + s.cache, set p | 0 <= p < |s.left| && s.left[p] >= 0)
  }

  /** Contents become durable only when no operation is open, and then all of them do. */
  ghost predicate AtomicStep<B>(a: Atomic<B>, e: Event<B>, a': Atomic<B>) {
    match e
    case Begin(p) => p !in a.open && a' == a.(open := a.open + {p})
    case Write(p, b, w) => p in a.open && a' == a.(visible := a.visible[b := w])
    case End(p) => p in a.open && a' == a.(open := a.open - {p})
    case Commit => a.open == {} && a' == a.(durable := a.visible)
    case Crash(_, _) =>
      || a' == Atomic(a.durable, a.durable, {})
      || (a.open == {} && a' == Atomic(a.visible, a.visible, {}))
  }

  // ---------------------------------------------------------------- one step

  lemma BeginStep<B>(s: State<B>, p: nat)
    requires Inv(s) && Enabled(s, Begin(p))
    ensures Inv(Next(s, Begin(p))) && AtomicStep(View(s), Begin(p), View(Next(s, Begin(p))))
  {
    SetLeft(s.left, p, MAXOPBLOCKS);
    ReservedBound(s.left);
  }

  lemma WriteStep<B>(s: State<B>, p: nat, b: nat, w: B)
    requires Inv(s) && Enabled(s, Write(p, b, w))
    ensures Inv(Next(s, Write(p, b, w))) && AtomicStep(View(s), Write(p, b, w), View(Next(s, Write(p, b, w))))
  {
    hide DiskOk;
    var s' := Next(s, Write(p, b, w));
    SetLeft(s.left, p, s.left[p] - 1);
    NoneOpen(s.left);
    assert s'.disk.home + s'.cache == (s.disk.home + s.cache)[b := w];
    assert View(s').open == View(s).open;
  }

  lemma EndStep<B>(s: State<B>, p: nat)
    requires Inv(s) && Enabled(s, End(p))
    ensures !s.log.committing
    ensures Inv(Next(s, End(p))) && AtomicStep(View(s), End(p), View(Next(s, End(p))))
  {
    SetLeft(s.left, p, -1);
    NoneOpen(s.left);
  }

  lemma UpdatedIsVisible<B>(s: State<B>)
    requires Inv(s)
    ensures Updated(s.disk.home, s.log.blocks, s.cache) == View(s).visible
  {
  }

  lemma CommitStep<B>(s: State<B>)
    requires Inv(s) && Enabled(s, Commit)
    ensures Inv(Next(s, Commit)) && AtomicStep(View(s), Commit, View(Next(s, Commit)))
  {
    hide CommitTrace, CutAt, Updated;
    CommitLeaves(s.disk, s.log.blocks, s.cache);
    UpdatedIsVisible(s);
    NoneOpen(s.left);
  }

  /** A crash keeps the durable contents if the commit record was not written, and otherwise
      makes everything durable; it never leaves a mixture. */
  lemma CrashLeaves<B>(s: State<B>, cut: nat, cuts: seq<nat>)
    requires Inv(s) && cut <= |PendingTrace(s)|
    ensures DiskOk(CutAt(s.disk, PendingTrace(s), cut))
    ensures var d := Boot(CutAt(s.disk, PendingTrace(s), cut), cuts);
            && DiskOk(d) && d.head.n == 0
            && d.home == if cut <= |s.log.blocks| then View(s).durable else View(s).visible
  {
    if s.log.committing {
      CrashAtomicity(s.disk, s.log.blocks, s.cache, cut, cuts);
      UpdatedIsVisible(s);
    } else {
      BootReaches(s.disk, cuts);
    }
  }

  lemma CrashStep<B>(s: State<B>, cut: nat, cuts: seq<nat>)
    requires Inv(s) && Enabled(s, Crash(cut, cuts))
    ensures var s' := Next(s, Crash(cut, cuts)); Inv(s') && AtomicStep(View(s), Crash(cut, cuts), View(s'))
  {
    hide DiskOk, Boot, CutAt, CommitTrace;
    CrashLeaves(s, cut, cuts);
    NoneOpen(Idle(|s.left|));
    NoneOpen(s.left);
    var s' := Next(s, Crash(cut, cuts));
    assert s'.disk.home + s'.cache == s'.disk.home;
    assert View(s').open == {};
    if s.log.committing {
      assert View(s).open == {};
    }
  }

  /** Every step of the machine keeps the invariant and is a step of the atomic object. */
  lemma StepRefines<B>(s: State<B>, e: Event<B>)
    requires Inv(s) && Enabled(s, e)
    ensures Inv(Next(s, e)) && AtomicStep(View(s), e, View(Next(s, e)))
  {
    match e
    case Begin(p) => BeginStep(s, p);
    case Write(p, b, w) => WriteStep(s, p, b, w);
    case End(p) => EndStep(s, p);
    case Commit => CommitStep(s);
    case Crash(cut, cuts) => CrashStep(s, cut, cuts);
  }

  // ---------------------------------------------------------------- whole runs

  ghost predicate Initial<B>(s: State<B>) {
    && DiskOk(s.disk) && s.disk.head.n == 0
    && s == State(s.disk, map[], LogState(0, false, []), Idle(|s.left|))
  }

  /** A step of the machine; from a state outside the invariant, where the commit's writes have
      no meaning, anything may follow. */
  ghost predicate Step<B>(s: State<B>, e: Event<B>, s': State<B>) {
    Inv(s) ==> Enabled(s, e) && s' == Next(s, e)
  }

  /** `states` is what the machine passes through on the events `es`. */
  ghost predicate IsRun<B>(states: seq<State<B>>, es: seq<Event<B>>) {
    && |states| == |es| + 1
    && Initial(states[0])
    && (forall i | 0 <= i < |es| :: Step(states[i], es[i], states[i + 1]))
  }

  lemma InitialInv<B>(s: State<B>)
    requires Initial(s)
    ensures Inv(s)
  {
    NoneOpen(s.left);
  }

  /** In every reachable state the log has room for all that open operations may still add, its
      block numbers are distinct, and a commit runs only while no operation is open. */
  lemma {:induction false} ReachableInv<B>(states: seq<State<B>>, es: seq<Event<B>>, k: nat)
    requires IsRun(states, es) && k <= |es|
    ensures Inv(states[k])
  {
    if k == 0 {
      InitialInv(states[0]);
    } else {
      ReachableInv(states, es, k - 1);
      assert Step(states[k - 1], es[k - 1], states[k - 1 + 1]);
      StepRefines(states[k - 1], es[k - 1]);
    }
  }

  ghost predicate QuiescentAt<B>(states: seq<State<B>>, k: nat, durable: Home<B>) {
    k < |states| && View(states[k]).open == {} && View(states[k]).visible == durable
  }

  /** Whatever survives a crash at any moment of any run is exactly what was visible at some
      moment when no operation was open: whole operations only, and all of them up to there. */
  lemma {:induction false} DurableIsQuiescent<B>(states: seq<State<B>>, es: seq<Event<B>>, n: nat) returns (k: nat)
    requires IsRun(states, es) && n <= |es|
    ensures k <= n && (n > 0 ==> k < n)
    ensures QuiescentAt(states, k, View(states[n]).durable)
  {
    ReachableInv(states, es, n);
    if n == 0 {
      k := 0;
      assert View(states[0]).visible == View(states[0]).durable;
    } else {
      k := DurableIsQuiescent(states, es, n - 1);
      ReachableInv(states, es, n - 1);
      assert Step(states[n - 1], es[n - 1], states[n - 1 + 1]);
      StepRefines(states[n - 1], es[n - 1]);
      if !QuiescentAt(states, k, View(states[n]).durable) {
        k := n - 1;
      }
    }
  }

  /** Of the writes that respect the reservation of their operation, exactly these panic: any write when the
      log on the disk has no slot left, and a write of a block that is logged already when LOGSIZE blocks
      are, because the test comes before the search that would absorb it. */
  lemma WritePanicsWhen<B>(s: State<B>, p: nat, b: nat)
    requires Inv(s) && p < |s.left| && s.left[p] >= 0 && (b in s.log.blocks || s.left[p] > 0)
    ensures WritePanics(s.log, |s.disk.log|)
       <==> |s.log.blocks| == |s.disk.log| || (b in s.log.blocks && |s.log.blocks| == LOGSIZE)
    ensures b !in s.log.blocks ==> |s.log.blocks| < LOGSIZE
  {
    SetLeft(s.left, p, -1);
  }
}
