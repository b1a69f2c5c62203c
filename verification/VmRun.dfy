/** Whole runs (vm.c, trap.c, proc.c): whatever processes do, and whatever the replacement policy does,
    each sees a private flat memory.
 */
module VmRun {
  import opened Common
  import opened Frames
  import opened SwapMeta
  import opened VmCore
  import opened VmSteps
  import opened VmWorld
  import opened VmGrow
  import opened VmBudget
  import opened VmQueue
  import opened VmMachine

  /** What may happen next. `i` and `choices` are the positions of the pages that the policy will choose if
      some have to go out, and `room` is the page that a fork finds no memory to map. */
  datatype Command =
    | Create(pid: nat)
    | Grow(pid: nat, n: nat, choices: seq<nat>)
    | Read(v: Virt, off: nat, i: nat)
    | Write(v: Virt, off: nat, byte: bv8, i: nat)
    | Clone(pid: nat, child: nat, room: nat)
    | Leave(pid: nat)
    | Permute(pid: nat, order: seq<nat>)

  /** The flat memories after a command that ended as `r`. */
  ghost function After(w: World, c: Command, r: Outcome): World {
    if r != Done then w
    else match c
      case Create(pid) => w[pid := []]
      case Grow(pid, n, _) => if pid in w then w[pid := w[pid] + Blank(n)] else w
      case Read(_, _, _) => w
      case Write(v, off, byte, _) =>
        if v.pid in w && v.page < |w[v.pid]| && off < PGSIZE then Replaced(w, v, w[v.pid][v.page][off := byte]) else w
      case Clone(pid, child, _) => if pid in w then w[child := w[pid]] else w
      case Leave(pid) => w - {pid}
      case Permute(_, _) => w
  }

  /** A byte that was read is the byte of the flat memory. */
  ghost predicate Answers(w: World, c: Command, r: Outcome) {
    r.Got? ==> c.Read? && ByteIs(w, c.v, c.off, r.byte)
  }

  ghost function AfterAll(w: World, cs: seq<Command>, rs: seq<Outcome>): World
    requires |rs| <= |cs|
  {
    if rs == [] then w
    else
      var n := |rs| - 1;
      After(AfterAll(w, cs, rs[..n]), cs[n], rs[n])
  }

  predicate Final(r: Outcome) {
    r == NoMemory || r == Panic || r == Overrun
  }

  /** Where a process has resident pages, the policy chooses one of them. */
  predicate Choice(procs: map<nat, Proc>, pid: nat, i: nat) {
    pid in procs && procs[pid].list != [] ==> i < |procs[pid].list|
  }

  lemma FlatKeys(s: Vm)
    ensures Flat(s).Keys == s.procs.Keys
  {
  }

  /** The queues of resident pages after a command that ended as `r`. */
  ghost function AfterQueues(s: Vm, c: Command, r: Outcome): map<nat, seq<nat>> {
    var q := Queues(s);
    match c
    case Create(pid) => if r == Done then q[pid := []] else q
    case Grow(pid, n, choices) => if pid in q then q[pid := GrownPages(s.procs[pid], n, choices, r == Done)] else q
    case Read(v, _, i) => if r.Got? then Accessed(s, v, i) else q
    case Write(v, _, _, i) => if r == Done then Accessed(s, v, i) else q
    case Clone(pid, child, _) => if r == Done && pid in q then q[child := q[pid]] else q
    case Leave(pid) => if r == Done then q - {pid} else q
    case Permute(pid, order) => if r == Done && pid in q then q[pid := PagesBy(s.procs[pid], order)] else q
  }

  /** A page that has to come in is the last of its queue afterwards, and the one at position `i` is out. */
  ghost function Accessed(s: Vm, v: Virt, i: nat): map<nat, seq<nat>> {
    var q := Queues(s);
    if v in s.pt && s.pt[v].Swapped? && v.pid in q && i < |q[v.pid]|
    then q[v.pid := Without(q[v.pid], i) + [v.page]] else q
  }

  lemma TouchedQueues(s: Vm, t: Vm, v: Virt, i: nat)
    ensures Touched(s, t, v, i) ==> Queues(t) == Accessed(s, v, i)
  {
    hide PagesIn, Without;
    if Touched(s, t, v, i) && s.pt[v].Swapped? {
      QueuesNow(s, t, v.pid, Without(PagesIn(s.procs[v.pid]), i) + [v.page]);
    }
  }

  lemma QueuesRefused(s: Vm, c: Command)
    ensures !(c.Grow? && c.pid in s.procs) ==> AfterQueues(s, c, Refused) == Queues(s)
  {
  }

  lemma GrowQueues(s: Vm, t: Vm, c: Command, r: Outcome)
    requires c.Grow? && c.pid in s.procs && QueueTo(s, t, c.pid, GrownPages(s.procs[c.pid], c.n, c.choices, r == Done))
    ensures Queues(t) == AfterQueues(s, c, r)
  {
    hide PagesIn, GrownPages;
    QueuesNow(s, t, c.pid, GrownPages(s.procs[c.pid], c.n, c.choices, r == Done));
  }

  lemma AccessQueues(s: Vm, t: Vm, c: Command, r: Outcome)
    requires (c.Read? || c.Write?) && (c.Read? ==> r != Done)
    requires r.Got? || r == Done ==> Touched(s, t, c.v, c.i)
    ensures (r.Got? && c.Read?) || (r == Done && c.Write?) ==> Queues(t) == AfterQueues(s, c, r)
    ensures r == Fault ==> AfterQueues(s, c, r) == Queues(s)
  {
    hide PagesIn, Accessed;
    TouchedQueues(s, t, c.v, c.i);
  }

  lemma CloneQueues(s: Vm, t: Vm, c: Command, r: Outcome)
    requires c.Clone? && c.pid in s.procs
    requires r == Done ==> c.child in t.procs && t.procs == s.procs[c.child := t.procs[c.child]]
    requires r == Done ==> t.procs[c.child].list == s.procs[c.pid].list && t.procs[c.child].meta == s.procs[c.pid].meta
    requires r != Done ==> t.procs == s.procs
    ensures Queues(t) == AfterQueues(s, c, r)
  {
    if r == Done {
      SamePages(s.procs[c.pid], t.procs[c.child]);
    }
    hide PagesIn;
  }

  lemma OtherQueues(s: Vm, t: Vm, c: Command)
    requires c.Create? || c.Leave? || c.Permute?
    requires c.Create? ==> t.procs == s.procs[c.pid := EmptyProc()]
    requires c.Leave? ==> t.procs == s.procs - {c.pid}
    requires c.Permute? ==> c.pid in s.procs && t.procs == s.procs[c.pid := s.procs[c.pid].(list := c.order)]
    ensures Queues(t) == AfterQueues(s, c, Done)
  {
    if c.Permute? {
      assert PagesIn(t.procs[c.pid]) == PagesBy(s.procs[c.pid], c.order);
    }
  }

  /** How a command ends, by what holds before it. */
  ghost predicate Ends(s: Vm, c: Command, r: Outcome)
    requires Inv(s)
  {
    match c
    case Create(pid) => r == if pid in s.procs then Refused else Done
    case Grow(pid, n, choices) =>
      r == if pid !in s.procs then Refused
           else if Fits(s, pid, choices, n) then Done
           else if Fits(s, pid, choices, 1) && s.procs[pid].sz + n < KERN_PAGES then Overrun
           else Refused
    case Read(v, off, i) =>
      if off >= PGSIZE || !Choice(s.procs, v.pid, i) then r == Refused
      else if v !in s.pt then r == Fault
      else if Blocked(s, v, i) then r == Panic
      else r.Got?
    case Write(v, off, _, i) =>
      r == if off >= PGSIZE || !Choice(s.procs, v.pid, i) then Refused
           else if v !in s.pt then Fault
           else if Blocked(s, v, i) then Panic
           else if Starved(s, v) then NoMemory
           else Done
    case Clone(pid, child, room) =>
      r == if pid !in s.procs || child in s.procs then Refused
           else if Virt(pid, room) in s.pt && s.pt[Virt(pid, room)].Present? then Refused
           else Done
    case Leave(pid) => r == if pid in s.procs then Done else Refused
    case Permute(pid, order) =>
      r == if pid in s.procs && multiset(order) == multiset(s.procs[pid].list) then Done else Refused
  }

  /** One command on the machine. What is not possible is refused without effect. */
  method Do(m: Machine, c: Command) returns (r: Outcome)
    requires Good(m.State())
    modifies m
    ensures Ends(old(m.State()), c, r) && Answers(old(Flat(m.State())), c, r)
    ensures !Final(r) ==> Good(m.State()) && Flat(m.State()) == After(old(Flat(m.State())), c, r)
    ensures !Final(r) ==> Queues(m.State()) == AfterQueues(old(m.State()), c, r)
  {
    hide Inv, Resting, SizeOk, Flat, Fits, Blocked, Starved, Queues, AfterQueues, GrownPages, QueueTo, Touched;
    FlatKeys(m.State());
    ghost var s := m.State();
    r := Refused;
    QueuesRefused(s, c);
    match c {
      case Create(pid) =>
        if pid !in m.procs {
          m.NewProc(pid);
          r := Done;
          OtherQueues(s, m.State(), c);
        }
      case Grow(pid, n, choices) =>
        if pid in m.procs {
          r := m.GrowProc(pid, n, choices);
          if r != Overrun {
            GrowQueues(s, m.State(), c, r);
          }
        }
      case Read(v, off, i) =>
        if off < PGSIZE && Choice(m.procs, v.pid, i) {
          r := m.Load(v, off, i);
          AccessQueues(s, m.State(), c, r);
        }
      case Write(v, off, byte, i) =>
        if off < PGSIZE && Choice(m.procs, v.pid, i) {
          r := m.Store(v, off, byte, i);
          AccessQueues(s, m.State(), c, r);
        }
      case Clone(pid, child, room) =>
        if pid in m.procs && child !in m.procs {
          r := m.Fork(pid, child, room);
          CloneQueues(s, m.State(), c, r);
        }
      case Leave(pid) =>
        if pid in m.procs {
          m.Exit(pid);
          r := Done;
          OtherQueues(s, m.State(), c);
        }
      case Permute(pid, order) =>
        if pid in m.procs && multiset(order) == multiset(m.procs[pid].list) {
          m.Reorder(pid, order);
          r := Done;
          OtherQueues(s, m.State(), c);
        }
    }
  }

  /** Step `k` of a run: the command ends as its state says, and changes the flat memories and the queues of
      resident pages as the command says. */
  ghost predicate StepAt(states: seq<Vm>, cs: seq<Command>, rs: seq<Outcome>, k: nat)
    requires k < |rs| <= |cs| && |states| == |rs| + 1
  {
    && Good(states[k]) && Ends(states[k], cs[k], rs[k]) && Answers(Flat(states[k]), cs[k], rs[k])
    && (!Final(rs[k]) ==> Good(states[k + 1]) && Flat(states[k + 1]) == After(Flat(states[k]), cs[k], rs[k]))
    && (!Final(rs[k]) ==> Queues(states[k + 1]) == AfterQueues(states[k], cs[k], rs[k]))
    && (Final(rs[k]) ==> k + 1 == |rs|)
  }

  /** `rs` is how the commands end, all of them or those up to a final outcome, and `states` is what the machine
      passes through. */
  ghost predicate Ran(states: seq<Vm>, cs: seq<Command>, rs: seq<Outcome>) {
    && |rs| <= |cs| && |states| == |rs| + 1 && Good(states[0])
    && (|rs| < |cs| ==> rs != [] && Final(rs[|rs| - 1]))
    && forall k: nat | k < |rs| :: StepAt(states, cs, rs, k)
  }

  /** Any run, up to a panic, a write fault without memory or a growth that stops half-way: every command ends
      in exactly the way its state says. */
  method Run(m: Machine, cs: seq<Command>) returns (rs: seq<Outcome>, ghost states: seq<Vm>)
    requires Good(m.State())
    modifies m
    ensures Ran(states, cs, rs) && states[0] == old(m.State()) && states[|rs|] == m.State()
  {
    hide Good, Flat, After, Answers, Ends, StepAt, Queues, AfterQueues;
    rs, states := [], [m.State()];
    while |rs| < |cs|
      invariant |rs| <= |cs| && |states| == |rs| + 1 && Good(m.State())
      invariant states[0] == old(m.State()) && states[|rs|] == m.State()
      invariant forall k: nat | k < |rs| :: StepAt(states, cs, rs, k) && !Final(rs[k])
      decreases |cs| - |rs|
    {
      var r := Do(m, cs[|rs|]);
      OneMore(states, cs, rs, r, m.State());
      rs, states := rs + [r], states + [m.State()];
      if Final(r) {
        return;
      }
    }
  }

  lemma OneMore(states: seq<Vm>, cs: seq<Command>, rs: seq<Outcome>, r: Outcome, s: Vm)
    requires |rs| < |cs| && |states| == |rs| + 1
    requires forall k: nat | k < |rs| :: StepAt(states, cs, rs, k) && !Final(rs[k])
    requires var t, c := states[|rs|], cs[|rs|];
             && Good(t) && Ends(t, c, r) && Answers(Flat(t), c, r)
             && (!Final(r) ==> Good(s) && Flat(s) == After(Flat(t), c, r) && Queues(s) == AfterQueues(t, c, r))
    ensures forall k: nat | k <= |rs| :: StepAt(states + [s], cs, rs + [r], k)
  {
    hide Good, Flat, After, Answers, Ends, Queues, AfterQueues;
    forall k: nat | k <= |rs| ensures StepAt(states + [s], cs, rs + [r], k) {
      assert k < |rs| ==> StepAt(states, cs, rs, k);
    }
  }

  // ---------------------------------------------------------------- what a run means

  /** At every point each process has its own flat memory, changed by its own stores and growth only, and a
      child's starts as its parent's. */
  lemma {:induction false} RunFlat(states: seq<Vm>, cs: seq<Command>, rs: seq<Outcome>, k: nat)
    requires Ran(states, cs, rs) && k <= |rs| && (k > 0 ==> !Final(rs[k - 1]))
    ensures Good(states[k]) && Flat(states[k]) == AfterAll(Flat(states[0]), cs, rs[..k])
    ensures k < |rs| ==> Answers(AfterAll(Flat(states[0]), cs, rs[..k]), cs[k], rs[k])
  {
    hide Good, Flat, After, Answers, Ends, Queues, AfterQueues;
    if k > 0 {
      assert StepAt(states, cs, rs, k - 1);
      if k > 1 {
        assert StepAt(states, cs, rs, k - 2);
      }
      RunFlat(states, cs, rs, k - 1);
      assert rs[..k][..k - 1] == rs[..k - 1];
    }
    if k < |rs| {
      assert StepAt(states, cs, rs, k);
    }
  }

  /** The bytes that a growth adds are 0, and there are as many as were asked for. */
  lemma GrownBytes(w: World, c: Command, page: nat, off: nat)
    requires c.Grow? && c.pid in w && |w[c.pid]| <= page < |w[c.pid]| + c.n && off < PGSIZE
    ensures |After(w, c, Done)[c.pid]| == |w[c.pid]| + c.n && ByteIs(After(w, c, Done), Virt(c.pid, page), off, 0)
  {
  }

  /** The process whose memory a command may change. */
  function Actor(c: Command): nat {
    match c
    case Create(pid) => pid
    case Grow(pid, _, _) => pid
    case Read(v, _, _) => v.pid
    case Write(v, _, _, _) => v.pid
    case Clone(_, child, _) => child
    case Leave(pid) => pid
    case Permute(pid, _) => pid
  }

  /** No command changes the memory of another process, and only a store changes a byte of its own. */
  lemma Isolation(w: World, c: Command, r: Outcome, q: nat)
    requires q in w
    ensures q != Actor(c) ==> q in After(w, c, r) && After(w, c, r)[q] == w[q]
    ensures q == Actor(c) && !c.Write? && !c.Create? && !c.Clone? && !c.Leave? ==>
              q in After(w, c, r) && w[q] <= After(w, c, r)[q]
  {
  }

  /** The command does not store to this byte, and does not end the process. */
  predicate Spares(c: Command, v: Virt, off: nat) {
    && !(c.Write? && c.v == v && c.off == off)
    && !(c.Leave? && c.pid == v.pid) && !(c.Create? && c.pid == v.pid) && !(c.Clone? && c.child == v.pid)
  }

  lemma SparedByte(w: World, c: Command, r: Outcome, v: Virt, off: nat, byte: bv8)
    requires Spares(c, v, off) && ByteIs(w, v, off, byte)
    ensures ByteIs(After(w, c, r), v, off, byte)
  {
  }

  /** A byte that was stored is there, through swaps, faults, forks and growth of all processes, until its own
      process stores another one there or ends. */
  lemma {:induction false} StoredStays(states: seq<Vm>, cs: seq<Command>, rs: seq<Outcome>, k: nat, n: nat)
    requires Ran(states, cs, rs) && k < n <= |rs| && cs[k].Write? && rs[k] == Done && !Final(rs[n - 1])
    requires forall j | k < j < n :: Spares(cs[j], cs[k].v, cs[k].off)
    ensures cs[k].off < PGSIZE && ByteIs(Flat(states[n]), cs[k].v, cs[k].off, cs[k].byte)
    decreases n
  {
    hide Good, Flat, After, Answers, Ends, Spares, ByteIs, Queues, AfterQueues;
    assert StepAt(states, cs, rs, n - 1);
    if n == k + 1 {
      StoredByte(states[k], cs[k]);
    } else {
      assert StepAt(states, cs, rs, n - 2);
      StoredStays(states, cs, rs, k, n - 1);
      SparedByte(Flat(states[n - 1]), cs[n - 1], rs[n - 1], cs[k].v, cs[k].off, cs[k].byte);
    }
  }

  lemma StoredByte(s: Vm, c: Command)
    requires Good(s) && c.Write? && Ends(s, c, Done)
    ensures c.off < PGSIZE && ByteIs(After(Flat(s), c, Done), c.v, c.off, c.byte)
  {
    hide Inv, Resting, SizeOk, Flat, MemoryOf, Blocked, Starved, Fits, Choice;
    FlatAt(s, c.v);
  }

  /** A read answers with the byte that was stored last, or panics, exactly if it finds no frame. */
  lemma ReadsWhatWasWritten(states: seq<Vm>, cs: seq<Command>, rs: seq<Outcome>, k: nat, n: nat)
    requires Ran(states, cs, rs) && k < n < |rs| && cs[k].Write? && rs[k] == Done
    requires forall j | k < j < n :: Spares(cs[j], cs[k].v, cs[k].off)
    requires cs[n].Read? && cs[n].v == cs[k].v && cs[n].off == cs[k].off
    requires Choice(states[n].procs, cs[n].v.pid, cs[n].i)
    ensures Good(states[n])
    ensures rs[n] == if Blocked(states[n], cs[n].v, cs[n].i) then Panic else Got(cs[k].byte)
  {
    hide Good, Flat, After, Answers, Ends, Spares, ByteIs, Blocked, Choice, Queues, AfterQueues;
    assert StepAt(states, cs, rs, n - 1) && StepAt(states, cs, rs, n);
    StoredStays(states, cs, rs, k, n);
    ReadAnswers(states[n], cs[n], rs[n], cs[k].byte);
  }

  lemma ReadAnswers(s: Vm, c: Command, r: Outcome, byte: bv8)
    requires Good(s) && c.Read? && Choice(s.procs, c.v.pid, c.i) && ByteIs(Flat(s), c.v, c.off, byte)
    requires Ends(s, c, r) && Answers(Flat(s), c, r)
    ensures r == if Blocked(s, c.v, c.i) then Panic else Got(byte)
  {
    hide Inv, Blocked;
    MappedIfSeen(s, c.v);
  }

  lemma MappedIfSeen(s: Vm, v: Virt)
    requires Good(s) && v.pid in Flat(s) && v.page < |Flat(s)[v.pid]|
    ensures v in s.pt
  {
    assert SizeOk(s, v);
  }

  /** The first process of a machine grows. */
  method FirstGrowth(frames: nat, n: nat) returns (m: Machine, r: Outcome)
    ensures fresh(m) && (Good(m.State()) <==> r != Overrun)
    ensures r == if n <= MAX_TOTAL_PAGES && Min(n, MAX_PSYC_PAGES) <= frames then Done
                 else if frames > 0 && n < KERN_PAGES then Overrun else Refused
  {
    hide Inv, Resting, SizeOk, Flat, Fits, NoneShared;
    m := new Machine(frames);
    m.NewProc(0);
    FirstFits(m.State(), 0, [], n);
    FirstFits(m.State(), 0, [], 1);
    r := m.GrowProc(0, n, []);
  }

  /** A process that asks for 33 pages at once gets an error and keeps 32 pages beyond its size. */
  method GrowTooFar() returns (m: Machine, r: Outcome)
    ensures fresh(m) && r == Overrun && !Good(m.State())
  {
    m, r := FirstGrowth(MAX_TOTAL_PAGES + 1, MAX_TOTAL_PAGES + 1);
  }

  /** A process that asks for two pages on a machine with one frame gets an error, and the state is broken: its
      list of resident pages has a record that is not used (AllocUvm). */
  method GrowStarved() returns (m: Machine, r: Outcome)
    ensures fresh(m) && r == Overrun && !Good(m.State())
  {
    m, r := FirstGrowth(1, 2);
  }

  /** A process may have twice as many pages as the machine has frames. */
  method GrowThroughDisk() returns (m: Machine, r: Outcome)
    ensures fresh(m) && r == Done && Good(m.State())
  {
    m, r := FirstGrowth(MAX_PSYC_PAGES, MAX_TOTAL_PAGES);
  }
}
