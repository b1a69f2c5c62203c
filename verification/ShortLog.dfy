/** Runs in which every operation keeps to its reservation and log_write panics all the same: on the log
    that mkfs.c makes, which is one block shorter than log.c assumes, and on a longer log for a block that
    is logged already. And runs in which any number of operations share a commit.
 */
module ShortLog {
  import opened Common
  import opened DiskBlocks
  import opened RedoLog
  import opened GroupCommit

  function Numbers(k: nat): seq<nat> {
    seq(k, i requires i >= 0 => i)
  }

  /** The disk of a fresh file system of 30 blocks, with `slots` log blocks behind the header. */
  function FreshDisk(slots: nat): Disk<Block> {
    var log: seq<Block> := seq(slots, i => Zero());
    var home: Home<Block> := map b | b in Numbers(LOGSIZE) :: Zero();
    Disk(Head(0, seq(LOGSIZE, i => 0)), log, home)
  }

  /** What process `p` may still add when block numbers below `k` have been logged, ten by each process. */
  function LeftOf(p: nat, k: nat): int {
    if k <= 10 * p then 10 else if k >= 10 * p + 10 then 0 else 10 * p + 10 - k
  }

  /** Three operations are open and have logged the blocks below `k`. */
  function Filled(slots: nat, k: nat): State<Block> {
    State(FreshDisk(slots), map b | b in Numbers(k) :: Zero(), LogState(3, false, Numbers(k)),
          [LeftOf(0, k), LeftOf(1, k), LeftOf(2, k)])
  }

  lemma FilledInv(slots: nat, k: nat)
    requires k <= LOGSIZE && k <= slots
    ensures Inv(Filled(slots, k))
  {
    Three(LeftOf(0, k), LeftOf(1, k), LeftOf(2, k));
    NumbersBelow(k);
    NumbersBelow(LOGSIZE);
  }

  lemma NumbersBelow(k: nat)
    ensures forall b: nat :: b in Numbers(k) <==> b < k
  {
    forall b: nat | b < k ensures b in Numbers(k) {
      assert Numbers(k)[b] == b;
    }
  }

  lemma Three(a: int, b: int, c: int)
    ensures Open([a, b, c]) == (if a >= 0 then 1 else 0) + (if b >= 0 then 1 else 0) + if c >= 0 then 1 else 0
    ensures Reserved([a, b, c]) == (if a >= 0 then a else 0) + (if b >= 0 then b else 0) + if c >= 0 then c else 0
  {
    var l1, l2, l3 := [c], [b, c], [a, b, c];
    assert l3[1..] == l2 && l2[1..] == l1 && l1[1..] == [];
    assert Open(l1[1..]) == 0 && Reserved(l1[1..]) == 0;
    assert Open(l2[1..]) == Open(l1) && Reserved(l2[1..]) == Reserved(l1);
    assert Open(l3[1..]) == Open(l2) && Reserved(l3[1..]) == Reserved(l2);
  }

  lemma FillStep(slots: nat, k: nat)
    requires k < LOGSIZE && k < slots
    ensures Step(Filled(slots, k), Write(k / 10, k, Zero()), Filled(slots, k + 1))
  {
    FilledInv(slots, k);
    NumbersBelow(k);
    NumbersBelow(k + 1);
    NumbersBelow(LOGSIZE);
    var s, e, t := Filled(slots, k), Write(k / 10, k, Zero()), Filled(slots, k + 1);
    assert Next(s, e).cache == t.cache;
    assert Next(s, e).left == t.left;
    assert Next(s, e).log.blocks == t.log.blocks;
  }

  /** Three operations log `n` blocks, ten each. */
  lemma FillRun(slots: nat, n: nat) returns (states: seq<State<Block>>, es: seq<Event<Block>>)
    requires n <= LOGSIZE && n <= slots
    ensures IsRun(states, es) && states[|es|] == Filled(slots, n)
  {
    states, es := OpenThree(slots);
    for k := 0 to n
      invariant IsRun(states, es) && states[|es|] == Filled(slots, k)
    {
      FillStep(slots, k);
      states, es := states + [Filled(slots, k + 1)], es + [Write(k / 10, k, Zero())];
    }
  }

  /** mkfs makes LOGSIZE blocks for the header and the log together, so 29 are left. With all of them used,
      the next write that the reservations allow is a panic. */
  lemma ShortLogPanics() returns (states: seq<State<Block>>, es: seq<Event<Block>>)
    ensures IsRun(states, es)
    ensures var s := states[|es|];
            && |s.disk.log| == LOGSIZE - 1
            && |s.left| == 3 && s.left[2] == 1 && 29 !in s.log.blocks && WritePanics(s.log, |s.disk.log|)
  {
    states, es := FillRun(LOGSIZE - 1, LOGSIZE - 1);
    NumbersBelow(LOGSIZE - 1);
  }

  /** However long the log is: with LOGSIZE blocks logged, writing one of them again is a panic. */
  lemma AbsorbedWritePanics(slots: nat) returns (states: seq<State<Block>>, es: seq<Event<Block>>)
    requires slots >= LOGSIZE
    ensures IsRun(states, es)
    ensures var s := states[|es|];
            && |s.disk.log| == slots
            && |s.left| == 3 && s.left[0] == 0 && 5 in s.log.blocks && WritePanics(s.log, |s.disk.log|)
  {
    states, es := FillRun(slots, LOGSIZE);
    NumbersBelow(LOGSIZE);
  }

  /** The first `k` of three processes have opened an operation. */
  function Opening(slots: nat, k: nat): State<Block> {
    State(FreshDisk(slots), map[], LogState(k, false, []),
          [if k > 0 then 10 else -1, if k > 1 then 10 else -1, if k > 2 then 10 else -1])
  }

  lemma OpenStep(slots: nat, k: nat)
    requires k < 3
    ensures Step(Opening(slots, k), Begin(k), Opening(slots, k + 1))
  {
    var s := Opening(slots, k);
    Three(s.left[0], s.left[1], s.left[2]);
    if Inv(s) {
      assert Next(s, Begin(k)).left == Opening(slots, k + 1).left;
    }
  }

  lemma OpenThree(slots: nat) returns (states: seq<State<Block>>, es: seq<Event<Block>>)
    ensures IsRun(states, es) && states[|es|] == Filled(slots, 0)
  {
    states, es := [Opening(slots, 0)], [];
    assert Opening(slots, 0).left == Idle(3);
    for k := 0 to 3
      invariant IsRun(states, es) && states[|es|] == Opening(slots, k)
    {
      OpenStep(slots, k);
      states, es := states + [Opening(slots, k + 1)], es + [Begin(k)];
    }
    assert Opening(slots, 3) == Filled(slots, 0);
  }

  // ---------------------------------------------------------------- a commit of any number of operations

  /** Process 0 has an operation open and has logged block 0; process 1 has one open or not. */
  function Lasting(slots: nat, both: bool): State<Block> {
    State(FreshDisk(slots), map[0 := Zero()], LogState(if both then 2 else 1, false, [0]), [9, if both then 10 else -1])
  }

  lemma Two(a: int, b: int)
    ensures Open([a, b]) == (if a >= 0 then 1 else 0) + if b >= 0 then 1 else 0
    ensures Reserved([a, b]) == (if a >= 0 then a else 0) + if b >= 0 then b else 0
  {
    var l1, l2 := [b], [a, b];
    assert l2[1..] == l1 && l1[1..] == [];
    assert Open(l1[1..]) == 0 && Reserved(l1[1..]) == 0;
  }

  lemma LastingInv(slots: nat, both: bool)
    requires slots >= 2
    ensures Inv(Lasting(slots, both))
  {
    Two(9, if both then 10 else -1);
    NumbersBelow(LOGSIZE);
  }

  /** While process 0 goes on, a whole operation of process 1 leaves the log as it was. */
  lemma LastingRound(slots: nat)
    requires slots >= 2
    ensures Step(Lasting(slots, false), Begin(1), Lasting(slots, true))
    ensures Step(Lasting(slots, true), Write(1, 0, Zero()), Lasting(slots, true))
    ensures Step(Lasting(slots, true), End(1), Lasting(slots, false))
  {
    LastingInv(slots, false);
    LastingInv(slots, true);
    NumbersBelow(LOGSIZE);
    var s, t := Lasting(slots, false), Lasting(slots, true);
    assert Next(s, Begin(1)).left == t.left;
    assert Next(t, Write(1, 0, Zero())).cache == t.cache;
    assert Next(t, End(1)).left == s.left;
  }

  lemma LastingStart(slots: nat) returns (states: seq<State<Block>>, es: seq<Event<Block>>)
    requires slots >= 2
    ensures IsRun(states, es) && |states| == |es| + 1 && states[|es|] == Lasting(slots, false) && Ended(es) == 0
    ensures forall e | e in es :: !e.Commit? && !e.Crash?
  {
    var none := State(FreshDisk(slots), map[], LogState(0, false, []), [-1, -1]);
    assert none.left == Idle(2);
    states, es := [none], [];
    var one := LastingBegun(slots, none);
    states, es := Go(states, es, Begin(0), one);
    LastingWritten(slots, one);
    states, es := Go(states, es, Write(0, 0, Zero()), Lasting(slots, false));
  }

  lemma LastingBegun(slots: nat, none: State<Block>) returns (one: State<Block>)
    requires none == State(FreshDisk(slots), map[], LogState(0, false, []), [-1, -1]) && Initial(none)
    ensures one == State(FreshDisk(slots), map[], LogState(1, false, []), [10, -1])
    ensures Step(none, Begin(0), one) && Inv(one)
  {
    InitialInv(none);
    BeginStep(none, 0);
    one := Next(none, Begin(0));
  }

  lemma LastingWritten(slots: nat, one: State<Block>)
    requires slots >= 2 && one == State(FreshDisk(slots), map[], LogState(1, false, []), [10, -1]) && Inv(one)
    ensures Step(one, Write(0, 0, Zero()), Lasting(slots, false))
  {
    NumbersBelow(LOGSIZE);
    assert Next(one, Write(0, 0, Zero())).left == [9, -1];
  }

  /** How many operations have ended. */
  function Ended(es: seq<Event<Block>>): nat {
    if es == [] then 0 else Ended(es[..|es| - 1]) + if es[|es| - 1].End? then 1 else 0
  }

  lemma EndedMore(es: seq<Event<Block>>, e: Event<Block>)
    ensures Ended(es + [e]) == Ended(es) + if e.End? then 1 else 0
  {
    assert (es + [e])[..|es|] == es;
  }

  /** begin_op does not bound the number of operations in a commit: for every `n` there is a run in which n + 1
      operations end and then the first commit makes all of them durable. */
  lemma AnyNumberShareCommit(slots: nat, n: nat) returns (states: seq<State<Block>>, es: seq<Event<Block>>)
    requires slots >= 2
    ensures IsRun(states, es) && es != [] && es[|es| - 1] == Commit && Ended(es) == n + 1
    ensures forall i | 0 <= i < |es| - 1 :: !es[i].Commit? && !es[i].Crash?
    ensures states[|es|].log == LogState(0, false, [])
    ensures View(states[|es|]).durable == View(states[|es| - 1]).visible
  {
    hide IsRun, Step, Lasting;
    states, es := LastingStart(slots);
    LastingRound(slots);
    for k := 0 to n
      invariant IsRun(states, es) && |states| == |es| + 1 && states[|es|] == Lasting(slots, false) && Ended(es) == k
      invariant forall e | e in es :: !e.Commit? && !e.Crash?
    {
      states, es := Go(states, es, Begin(1), Lasting(slots, true));
      states, es := Go(states, es, Write(1, 0, Zero()), Lasting(slots, true));
      states, es := Go(states, es, End(1), Lasting(slots, false));
    }
    var last, done := LastingEnd(slots);
    states, es := Go(states, es, End(0), last);
    ghost var before, sofar := states, es;
    states, es := Go(states, es, Commit, done);
    assert states[|es| - 1] == last;
    forall i | 0 <= i < |es| - 1 ensures !es[i].Commit? && !es[i].Crash? {
      assert es[i] == sofar[i] && sofar[i] in sofar;
    }
  }

  lemma LastingEnd(slots: nat) returns (last: State<Block>, done: State<Block>)
    requires slots >= 2
    ensures Step(Lasting(slots, false), End(0), last) && Step(last, Commit, done)
    ensures done.log == LogState(0, false, []) && View(done).durable == View(last).visible
  {
    hide CommitTrace;
    LastingInv(slots, false);
    last := Next(Lasting(slots, false), End(0));
    EndStep(Lasting(slots, false), 0);
    done := Next(last, Commit);
    CommitStep(last);
  }

  /** A run with one more step. */
  lemma Go(states: seq<State<Block>>, es: seq<Event<Block>>, e: Event<Block>, s: State<Block>)
    returns (states': seq<State<Block>>, es': seq<Event<Block>>)
    requires IsRun(states, es) && Step(states[|es|], e, s)
    ensures IsRun(states', es') && states' == states + [s] && es' == es + [e] && |states'| == |es'| + 1
    ensures Ended(es') == Ended(es) + if e.End? then 1 else 0
  {
    states', es' := states + [s], es + [e];
    EndedMore(es, e);
  }
}
