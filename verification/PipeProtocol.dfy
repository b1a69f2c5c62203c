/** Pipes with sleep and wakeup (pipe.c, proc.c) as a state machine over processes: who holds the
    pipe's lock and the process table's lock, who sleeps on which channel, and the pipe's bytes.
    A step is what one process does between two points where another may interfere.
 */
module PipeProtocol {
  import opened Common

  /** A call in progress; Write carries the bytes that are still to be written. */
  datatype Call = Write(buf: seq<bv8>) | Read(n: nat) | Close(writable: bool)

  datatype Channel = NRead | NWrite

  /** Where a process is:
      Enter, Woken: wants the pipe lock;
      Loop: has it and is about to test the pipe;
      WakeFirst: a writer that found the pipe full and wakes readers before it sleeps;
      ToSleep: in sleep(), wants the process table lock;
      Dropping: has both locks;
      Dozing: has the table lock only and is about to change its state to SLEEPING;
      Asleep: sleeps;
      Waking: has the pipe lock and is about to wake a channel on its way out;
      Leaving: about to release the pipe lock. */
  datatype Place =
    | Idle
    | Enter(call: Call)
    | Loop(call: Call)
    | WakeFirst(call: Call)
    | ToSleep(call: Call)
    | Dropping(call: Call)
    | Dozing(call: Call)
    | Asleep(call: Call)
    | Woken(call: Call)
    | Waking(chan: Channel)
    | Leaving

  /** `stored` and `consumed` are all bytes ever written and read; `readers` and `writers` say whether
      an open file still refers to that end. */
  datatype State = State(
    at: seq<Place>, pipeLock: Option<nat>, tableLock: Option<nat>,
    stored: seq<bv8>, consumed: seq<bv8>, readopen: bool, writeopen: bool,
    readers: bool, writers: bool, killed: set<nat>)
  {
    predicate Empty() {
      |stored| == |consumed|
    }

    predicate Full() {
      |stored| == |consumed| + PIPESIZE
    }
  }

  datatype Event = Start(p: nat, call: Call) | Go(p: nat) | Kill(p: nat)

  function CallOf(l: Place): Option<Call> {
    match l
    case Idle | Waking(_) | Leaving => None
    case Enter(c) => Some(c)
    case Loop(c) => Some(c)
    case WakeFirst(c) => Some(c)
    case ToSleep(c) => Some(c)
    case Dropping(c) => Some(c)
    case Dozing(c) => Some(c)
    case Asleep(c) => Some(c)
    case Woken(c) => Some(c)
  }

  predicate Calling(l: Place, read: bool) {
    CallOf(l).Some? && Uses(CallOf(l).value, read)
  }

  predicate Uses(c: Call, read: bool) {
    if read then c.Read? else c.Write?
  }

  predicate HasPipeLock(l: Place) {
    l.Loop? || l.WakeFirst? || l.ToSleep? || l.Dropping? || l.Waking? || l.Leaving?
  }

  predicate HasTableLock(l: Place) {
    l.Dropping? || l.Dozing?
  }

  // ---------------------------------------------------------------- the steps

  /** wakeup(chan): every process asleep on the channel becomes runnable. */
  function WakeOne(l: Place, chan: Channel): Place {
    if l.Asleep? && ((chan == NRead && l.call.Read?) || (chan == NWrite && l.call.Write?)) then Woken(l.call) else l
  }

  function WakeAll(at: seq<Place>, chan: Channel): (r: seq<Place>)
    ensures |r| == |at|
  {
    seq(|at|, i requires 0 <= i < |at| => WakeOne(at[i], chan))
  }

  ghost predicate Enabled(s: State, e: Event) {
    match e
    case Start(p, c) =>
      && p < |s.at| && s.at[p] == Idle
      && (match c
          case Write(_) => s.writers
          case Read(_) => s.readers
          case Close(w) =>
            if w then s.writers && forall q | 0 <= q < |s.at| :: !Calling(s.at[q], false)
            else s.readers && forall q | 0 <= q < |s.at| :: !Calling(s.at[q], true))
    case Go(p) =>
      && p < |s.at|
      && (match s.at[p]
          case Idle | Asleep(_) => false
          case Enter(_) | Woken(_) => s.pipeLock == None
          case WakeFirst(_) | ToSleep(_) | Waking(_) => s.tableLock == None
          case Loop(_) | Dropping(_) | Dozing(_) | Leaving => true)
    case Kill(p) => p < |s.at| && s.tableLock == None
  }

  /** pipewrite at the top of its loop: it fills the pipe as far as it can. */
  function WriteTurn(s: State, p: nat, buf: seq<bv8>): State
    requires p < |s.at|
  {
    if buf == [] then s.(at := s.at[p := Waking(NRead)])
    else if s.Full() then
      s.(at := s.at[p := if !s.readopen || p in s.killed then Leaving else WakeFirst(Write(buf))])
    else
      var room := if |s.stored| < |s.consumed| + PIPESIZE then |s.consumed| + PIPESIZE - |s.stored| else 0;
      var k := Min(room, |buf|);
      s.(stored := s.stored + buf[..k], at := s.at[p := Loop(Write(buf[k..]))])
  }

  /** piperead at the top of its loop: it takes what there is, up to `n` bytes. */
  function ReadTurn(s: State, p: nat, n: nat): State
    requires p < |s.at|
  {
    if s.Empty() && s.writeopen then
      s.(at := s.at[p := if p in s.killed then Leaving else ToSleep(Read(n))])
    else
      var k := Min(|s.consumed| + n, |s.stored|);
      s.(consumed := s.stored[..k], at := s.at[p := Waking(NWrite)])
  }

  function CloseTurn(s: State, p: nat, writable: bool): State
    requires p < |s.at|
  {
    if writable then s.(writeopen := false, at := s.at[p := Waking(NRead)])
    else s.(readopen := false, at := s.at[p := Waking(NWrite)])
  }

  function Next(s: State, e: Event): State
    requires Enabled(s, e)
  {
    match e
    case Start(p, c) =>
      var s' := s.(at := s.at[p := Enter(c)]);
      if c == Close(true) then s'.(writers := false) else if c == Close(false) then s'.(readers := false) else s'
    case Go(p) =>
      (match s.at[p]
       case Enter(c) => s.(at := s.at[p := Loop(c)], pipeLock := Some(p))
       case Woken(c) => s.(at := s.at[p := Loop(c)], pipeLock := Some(p))
       case Loop(Write(buf)) => WriteTurn(s, p, buf)
       case Loop(Read(n)) => ReadTurn(s, p, n)
       case Loop(Close(w)) => CloseTurn(s, p, w)
       case WakeFirst(c) => s.(at := WakeAll(s.at, NRead)[p := ToSleep(c)])
       case ToSleep(c) => s.(at := s.at[p := Dropping(c)], tableLock := Some(p))
       case Dropping(c) => s.(at := s.at[p := Dozing(c)], pipeLock := None)
       case Dozing(c) => s.(at := s.at[p := Asleep(c)], tableLock := None)
       case Waking(chan) => s.(at := WakeAll(s.at, chan)[p := Leaving])
       case Leaving => s.(at := s.at[p := Idle], pipeLock := None)
       case _ => s)
    case Kill(p) =>
      s.(killed := s.killed + {p}, at := if s.at[p].Asleep? then s.at[p := Woken(s.at[p].call)] else s.at)
  }

  // ---------------------------------------------------------------- what a step is

  predicate IsTurn(s: State, e: Event) {
    e.Go? && e.p < |s.at| && s.at[e.p].Loop?
  }

  lemma Inside(s: State, e: Event)
    requires Enabled(s, e)
    ensures e.p < |s.at|
  {
  }

  lemma TurnStep(s: State, e: Event)
    requires Enabled(s, e) && IsTurn(s, e)
    ensures Next(s, e) == match s.at[e.p].call
                          case Write(buf) => WriteTurn(s, e.p, buf)
                          case Read(n) => ReadTurn(s, e.p, n)
                          case Close(w) => CloseTurn(s, e.p, w)
  {
  }

  lemma StaysOrWakes(s: State, e: Event, p: nat)
    requires Enabled(s, e) && p < |s.at| && (e.p != p || e.Kill?)
    ensures |Next(s, e).at| == |s.at|
    ensures var l, l' := s.at[p], Next(s, e).at[p]; l' == l || (l.Asleep? && l' == Woken(l.call))
  {
    if IsTurn(s, e) {
      TurnStep(s, e);
    }
  }

  // ---------------------------------------------------------------- the invariant

  ghost predicate Fifo(s: State) {
    s.consumed <= s.stored && |s.stored| <= |s.consumed| + PIPESIZE
  }

  /** The holder of the pipe lock has yet to wake the channel before it lets go of the lock. */
  predicate WillWake(l: Place, chan: Channel) {
    match chan
    case NRead => l == Waking(NRead) || (l.WakeFirst? && l.call.Write?) || (l.Loop? && l.call.Write?)
    case NWrite => l == Waking(NWrite)
  }

  predicate Owed(s: State, chan: Channel) {
    s.pipeLock.Some? && s.pipeLock.value < |s.at| && WillWake(s.at[s.pipeLock.value], chan)
  }

  /** What a place depends on: whether a reader has to wait, whether a writer has to wait, and
      whether a wakeup of readers or of writers is still owed. */
  datatype Cond = Cond(dry: bool, full: bool, readersOwed: bool, writersOwed: bool)

  function CondOf(s: State): Cond {
    Cond(s.Empty() && s.writeopen, s.Full() && s.readopen, Owed(s, NRead), Owed(s, NWrite))
  }

  /** Why a process may be where it is: a reader waits only for an empty pipe, a writer only for a
      full one, unless the process that changed this still has to wake it. */
  predicate PlaceOk(l: Place, k: Cond) {
    match l
    case WakeFirst(c) => c.Write? && k.full
    case ToSleep(c) => (c.Read? && k.dry) || (c.Write? && k.full)
    case Dropping(c) => (c.Read? && k.dry) || (c.Write? && k.full)
    case Dozing(c) => (c.Read? && (k.dry || k.readersOwed)) || (c.Write? && (k.full || k.writersOwed))
    case Asleep(c) => (c.Read? && (k.dry || k.readersOwed)) || (c.Write? && (k.full || k.writersOwed))
    case _ => true
  }

  /** A call keeps its end of the pipe referred to; closing an end means nothing refers to it. */
  predicate EndOk(l: Place, readers: bool, writers: bool) {
    match CallOf(l)
    case None => true
    case Some(Read(_)) => readers
    case Some(Write(_)) => writers
    case Some(Close(w)) => if w then !writers else !readers
  }

  predicate ProcOk(s: State, q: nat, l: Place) {
    && (HasPipeLock(l) <==> s.pipeLock == Some(q))
    && (HasTableLock(l) <==> s.tableLock == Some(q))
    && EndOk(l, s.readers, s.writers)
    && PlaceOk(l, CondOf(s))
  }

  ghost predicate Inv(s: State) {
    && Fifo(s)
    && (s.readers ==> s.readopen) && (s.writers ==> s.writeopen)
    && (s.pipeLock.Some? ==> s.pipeLock.value < |s.at|)
    && (forall q | 0 <= q < |s.at| :: ProcOk(s, q, s.at[q]))
  }

  /** A killed writer returns from a full pipe without waking anybody (and without waiting). */
  predicate Abandons(s: State, e: Event) {
    && e.Go? && e.p < |s.at| && s.at[e.p].Loop? && s.at[e.p].call.Write? && s.at[e.p].call.buf != []
    && s.Full() && s.readopen && e.p in s.killed
  }

  predicate ReaderSleeps(l: Place) {
    (l.Asleep? || l.Dozing?) && l.call.Read?
  }

  ghost predicate SomeReaderSleeps(s: State) {
    exists q :: 0 <= q < |s.at| && ReaderSleeps(s.at[q])
  }

  lemma StartKeeps(s: State, p: nat, c: Call)
    requires Inv(s) && p < |s.at| && s.at[p] == Idle && !c.Close?
    requires c.Read? ==> s.readers
    requires c.Write? ==> s.writers
    ensures Inv(s.(at := s.at[p := Enter(c)]))
  {
  }

  lemma StartCloseKeeps(s: State, p: nat, w: bool)
    requires Inv(s) && p < |s.at| && s.at[p] == Idle
    requires forall q | 0 <= q < |s.at| :: !Calling(s.at[q], !w)
    ensures var s' := s.(at := s.at[p := Enter(Close(w))]);
            Inv(if w then s'.(writers := false) else s'.(readers := false))
  {
  }

  lemma AcquireKeeps(s: State, p: nat, c: Call)
    requires Inv(s) && p < |s.at| && (s.at[p] == Enter(c) || s.at[p] == Woken(c)) && s.pipeLock == None
    ensures Inv(s.(at := s.at[p := Loop(c)], pipeLock := Some(p)))
  {
  }

  /** A full pipe whose read end is closed has no reader to wake: a process in piperead keeps its
      end open. */
  lemma WriteKeeps(s: State, p: nat, buf: seq<bv8>)
    requires Inv(s) && p < |s.at| && s.at[p] == Loop(Write(buf))
    requires !(Abandons(s, Go(p)) && SomeReaderSleeps(s))
    ensures Inv(WriteTurn(s, p, buf))
  {
  }

  lemma ReadKeeps(s: State, p: nat, n: nat)
    requires Inv(s) && p < |s.at| && s.at[p] == Loop(Read(n))
    ensures Inv(ReadTurn(s, p, n))
  {
  }

  lemma CloseKeeps(s: State, p: nat, w: bool)
    requires Inv(s) && p < |s.at| && s.at[p] == Loop(Close(w))
    ensures Inv(CloseTurn(s, p, w))
  {
  }

  /** A wakeup needs the table lock, so no process is on its way to sleep while it runs. */
  lemma WakeFirstKeeps(s: State, p: nat, c: Call)
    requires Inv(s) && p < |s.at| && s.at[p] == WakeFirst(c) && s.tableLock == None
    ensures Inv(s.(at := WakeAll(s.at, NRead)[p := ToSleep(c)]))
  {
  }

  lemma WakingKeeps(s: State, p: nat, chan: Channel)
    requires Inv(s) && p < |s.at| && s.at[p] == Waking(chan) && s.tableLock == None
    ensures Inv(s.(at := WakeAll(s.at, chan)[p := Leaving]))
  {
  }

  lemma ToSleepKeeps(s: State, p: nat, c: Call)
    requires Inv(s) && p < |s.at| && s.at[p] == ToSleep(c) && s.tableLock == None
    ensures Inv(s.(at := s.at[p := Dropping(c)], tableLock := Some(p)))
  {
  }

  lemma DroppingKeeps(s: State, p: nat, c: Call)
    requires Inv(s) && p < |s.at| && s.at[p] == Dropping(c)
    ensures Inv(s.(at := s.at[p := Dozing(c)], pipeLock := None))
  {
  }

  lemma DozingKeeps(s: State, p: nat, c: Call)
    requires Inv(s) && p < |s.at| && s.at[p] == Dozing(c)
    ensures Inv(s.(at := s.at[p := Asleep(c)], tableLock := None))
  {
  }

  lemma LeavingKeeps(s: State, p: nat)
    requires Inv(s) && p < |s.at| && s.at[p] == Leaving
    ensures Inv(s.(at := s.at[p := Idle], pipeLock := None))
  {
  }

  lemma KillKeeps(s: State, p: nat)
    requires Inv(s) && p < |s.at|
    ensures Inv(s.(killed := s.killed + {p}, at := if s.at[p].Asleep? then s.at[p := Woken(s.at[p].call)] else s.at))
  {
  }

  lemma GoKeeps(s: State, p: nat)
    requires Inv(s) && Enabled(s, Go(p)) && !(Abandons(s, Go(p)) && SomeReaderSleeps(s))
    ensures Inv(Next(s, Go(p)))
  {
    match s.at[p]
    case Enter(c) => AcquireKeeps(s, p, c);
    case Woken(c) => AcquireKeeps(s, p, c);
    case Loop(Write(buf)) => WriteKeeps(s, p, buf);
    case Loop(Read(n)) => ReadKeeps(s, p, n);
    case Loop(Close(w)) => CloseKeeps(s, p, w);
    case WakeFirst(c) => WakeFirstKeeps(s, p, c);
    case Waking(chan) => WakingKeeps(s, p, chan);
    case ToSleep(c) => ToSleepKeeps(s, p, c);
    case Dropping(c) => DroppingKeeps(s, p, c);
    case Dozing(c) => DozingKeeps(s, p, c);
    case Leaving => LeavingKeeps(s, p);
  }

  /** Every step keeps the invariant except one: a killed writer that gives up on a full pipe while a
      reader sleeps. */
  lemma StepKeepsInv(s: State, e: Event)
    requires Inv(s) && Enabled(s, e)
    ensures Inv(Next(s, e)) <==> !(Abandons(s, e) && SomeReaderSleeps(s))
  {
    if Abandons(s, e) && SomeReaderSleeps(s) {
      AbandonBreaks(s, e.p);
    } else {
      match e
      case Start(p, c) => if c.Close? { StartCloseKeeps(s, p, c.writable); } else { StartKeeps(s, p, c); }
      case Kill(p) => KillKeeps(s, p);
      case Go(p) => GoKeeps(s, p);
    }
  }

  lemma AbandonBreaks(s: State, p: nat)
    requires Inv(s) && Abandons(s, Go(p)) && SomeReaderSleeps(s)
    ensures !Inv(WriteTurn(s, p, s.at[p].call.buf))
  {
    var q :| 0 <= q < |s.at| && ReaderSleeps(s.at[q]);
    var s' := WriteTurn(s, p, s.at[p].call.buf);
    assert !ProcOk(s', q, s'.at[q]);
  }

  // ---------------------------------------------------------------- whole runs

  function Initial(n: nat): State {
    State(seq(n, i => Idle), None, None, [], [], true, true, true, true, {})
  }

  ghost predicate Step(s: State, e: Event, s': State) {
    Enabled(s, e) && s' == Next(s, e)
  }

  ghost predicate Steps(states: seq<State>, es: seq<Event>) {
    && |states| == |es| + 1
    && (forall i | 0 <= i < |es| :: Step(states[i], es[i], states[i + 1]))
  }

  ghost predicate IsRun(states: seq<State>, es: seq<Event>) {
    Steps(states, es) && states[0] == Initial(|states[0].at|)
  }

  /** No reader is abandoned; so in particular when nobody is killed. */
  ghost predicate Attended(states: seq<State>, es: seq<Event>)
    requires |states| == |es| + 1
  {
    forall i | 0 <= i < |es| :: !(Abandons(states[i], es[i]) && SomeReaderSleeps(states[i]))
  }

  lemma {:induction false} RunKeepsInv(states: seq<State>, es: seq<Event>, k: nat)
    requires IsRun(states, es) && Attended(states, es) && k <= |es|
    ensures Inv(states[k])
  {
    if k > 0 {
      RunKeepsInv(states, es, k - 1);
      assert Step(states[k - 1], es[k - 1], states[k - 1 + 1]);
      StepKeepsInv(states[k - 1], es[k - 1]);
    }
  }

  /** Each lock is held by the one process that is at a place where it has it. */
  predicate LocksAt(s: State, q: nat)
    requires q < |s.at|
  {
    && (HasPipeLock(s.at[q]) <==> s.pipeLock == Some(q)) && (HasTableLock(s.at[q]) <==> s.tableLock == Some(q))
  }

  ghost predicate Locks(s: State) {
    && (s.pipeLock.Some? ==> s.pipeLock.value < |s.at|) && (s.tableLock.Some? ==> s.tableLock.value < |s.at|)
    && forall q: nat | q < |s.at| :: LocksAt(s, q)
  }

  /** A lock stays, or the process of the step takes it or lets it go. */
  predicate LockMoves(before: Option<nat>, after: Option<nat>, p: nat) {
    after == before || (before == None && after == Some(p)) || (before == Some(p) && after == None)
  }

  lemma OwnLocks(s: State, e: Event)
    requires Enabled(s, e) && e.p < |s.at| && LocksAt(s, e.p)
    ensures |Next(s, e).at| == |s.at| && LocksAt(Next(s, e), e.p)
    ensures LockMoves(s.pipeLock, Next(s, e).pipeLock, e.p) && LockMoves(s.tableLock, Next(s, e).tableLock, e.p)
  {
    if IsTurn(s, e) {
      hide Next, Enabled;
      TurnStep(s, e);
    } else {
      QuietLocks(s, e);
    }
  }

  lemma QuietLocks(s: State, e: Event)
    requires Enabled(s, e) && e.p < |s.at| && LocksAt(s, e.p) && !IsTurn(s, e)
    ensures |Next(s, e).at| == |s.at| && LocksAt(Next(s, e), e.p)
    ensures LockMoves(s.pipeLock, Next(s, e).pipeLock, e.p) && LockMoves(s.tableLock, Next(s, e).tableLock, e.p)
  {
    hide WriteTurn, ReadTurn, CloseTurn, WakeAll, Calling;
    if e.Go? {
      GoPlaces(s, e.p);
      hide Next, Enabled;
    }
  }

  /** Where a process goes that is not in a turn, and with which locks. */
  lemma GoPlaces(s: State, p: nat)
    requires Enabled(s, Go(p)) && p < |s.at| && !s.at[p].Loop?
    ensures var l, t := s.at[p], Next(s, Go(p));
            && |t.at| == |s.at|
            && if l.Enter? || l.Woken?
               then s.pipeLock == None && t.at[p].Loop? && t.pipeLock == Some(p) && t.tableLock == s.tableLock
               else if l.ToSleep?
               then s.tableLock == None && t.at[p].Dropping? && t.pipeLock == s.pipeLock && t.tableLock == Some(p)
               else if l.Dropping?
               then t.at[p].Dozing? && t.pipeLock == None && t.tableLock == s.tableLock
               else if l.Dozing?
               then t.at[p].Asleep? && t.pipeLock == s.pipeLock && t.tableLock == None
               else if l.Leaving?
               then t.at[p].Idle? && t.pipeLock == None && t.tableLock == s.tableLock
               else && (if l.WakeFirst? then t.at[p].ToSleep? else l.Waking? && t.at[p].Leaving?)
                    && t.pipeLock == s.pipeLock && t.tableLock == s.tableLock
  {
    hide WriteTurn, ReadTurn, CloseTurn, WakeAll, Calling;
  }

  lemma LocksStep(s: State, e: Event)
    requires Locks(s) && Enabled(s, e)
    ensures Locks(Next(s, e))
  {
    hide Next, Enabled;
    Inside(s, e);
    OwnLocks(s, e);
    var t := Next(s, e);
    forall q: nat | q < |t.at| ensures LocksAt(t, q) {
      assert LocksAt(s, q);
      if q != e.p {
        StaysOrWakes(s, e, q);
      }
    }
  }

  lemma {:induction false} LocksAlways(states: seq<State>, es: seq<Event>, k: nat)
    requires IsRun(states, es) && k <= |es|
    ensures Locks(states[k])
  {
    hide Next, Enabled;
    if k > 0 {
      LocksAlways(states, es, k - 1);
      assert Step(states[k - 1], es[k - 1], states[k - 1 + 1]);
      LocksStep(states[k - 1], es[k - 1]);
    } else {
      assert forall q: nat | q < |states[0].at| :: LocksAt(states[0], q);
    }
  }

  predicate Busy(l: Place) {
    !l.Idle? && !l.Asleep?
  }

  /** No deadlock: at any moment of any run, also with kills, if some process is in a call and not asleep, then
      some process can go on. */
  lemma NoDeadlock(states: seq<State>, es: seq<Event>, k: nat, q: nat) returns (p: nat)
    requires IsRun(states, es) && k <= |es| && q < |states[k].at| && Busy(states[k].at[q])
    ensures Enabled(states[k], Go(p))
  {
    LocksAlways(states, es, k);
    var s := states[k];
    p := if s.tableLock.Some? then s.tableLock.value else if s.pipeLock.Some? then s.pipeLock.value else q;
    assert LocksAt(s, p);
  }

  lemma {:induction false} NobodyKilled(states: seq<State>, es: seq<Event>, k: nat)
    requires IsRun(states, es) && k <= |es| && forall i | 0 <= i < |es| :: !es[i].Kill?
    ensures states[k].killed == {}
  {
    if k > 0 {
      NobodyKilled(states, es, k - 1);
      assert Step(states[k - 1], es[k - 1], states[k - 1 + 1]);
    }
  }

  /** No lost wakeup, and a FIFO: at any moment of any run without kills, what was read is a prefix of
      what was written with at most 512 bytes between, and when the pipe lock is free a process asleep
      in piperead means an empty pipe that may still be written, a process asleep in pipewrite a full
      pipe that may still be read. */
  lemma NoLostWakeup(states: seq<State>, es: seq<Event>, k: nat, p: nat)
    requires IsRun(states, es) && k <= |es| && p < |states[k].at|
    requires forall i | 0 <= i < |es| :: !es[i].Kill?
    ensures states[k].consumed <= states[k].stored && |states[k].stored| <= |states[k].consumed| + PIPESIZE
    ensures states[k].pipeLock == None && states[k].at[p].Asleep? ==>
              match states[k].at[p].call
              case Read(_) => states[k].Empty() && states[k].writeopen
              case Write(_) => states[k].Full() && states[k].readopen
              case Close(_) => false
  {
    forall i | 0 <= i < |es| ensures !Abandons(states[i], es[i]) {
      NobodyKilled(states, es, i);
    }
    RunKeepsInv(states, es, k);
    assert ProcOk(states[k], p, states[k].at[p]);
  }

  /** The first half of a run of two processes: the reader finds the pipe empty and falls asleep. */
  lemma ReaderFallsAsleep() returns (states: seq<State>, es: seq<Event>)
    ensures IsRun(states, es)
    ensures states[|es|] == Initial(2).(at := [Asleep(Read(1)), Idle])
  {
    states, es := ReaderFindsNothing();
    var s0, s3 := Initial(2), states[|es|];
    var s4 := s0.(at := [Dropping(Read(1)), Idle], pipeLock := Some(0), tableLock := Some(0));
    var s5 := s0.(at := [Dozing(Read(1)), Idle], tableLock := Some(0));
    var s6 := s0.(at := [Asleep(Read(1)), Idle]);
    assert Step(s3, Go(0), s4) && Step(s4, Go(0), s5) && Step(s5, Go(0), s6);
    var more, es' := [s3, s4, s5, s6], [Go(0), Go(0), Go(0)];
    Extend(states, es, more, es');
    states, es := states + more[1..], es + es';
  }

  lemma ReaderFindsNothing() returns (states: seq<State>, es: seq<Event>)
    ensures IsRun(states, es)
    ensures states[|es|] == Initial(2).(at := [ToSleep(Read(1)), Idle], pipeLock := Some(0))
  {
    var s0 := Initial(2);
    assert s0.at == [Idle, Idle];
    var s1 := s0.(at := [Enter(Read(1)), Idle]);
    var s2 := s0.(at := [Loop(Read(1)), Idle], pipeLock := Some(0));
    var s3 := s0.(at := [ToSleep(Read(1)), Idle], pipeLock := Some(0));
    assert Step(s0, Start(0, Read(1)), s1) && Step(s1, Go(0), s2) && Step(s2, Go(0), s3);
    states, es := [s0, s1, s2, s3], [Start(0, Read(1)), Go(0), Go(0)];
  }

  /** A run in which a killed writer strands a reader: in the end the pipe lock is free, the pipe is
      full, and the reader is still asleep. */
  lemma KilledWriterStrandsReader() returns (states: seq<State>, es: seq<Event>)
    ensures IsRun(states, es)
    ensures var s := states[|es|]; s.pipeLock == None && s.Full() && s.at == [Asleep(Read(1)), Idle]
  {
    states, es := ReaderFallsAsleep();
    var buf: seq<bv8> := seq(PIPESIZE + 1, i => 0);
    var s0, sleeping := states[|es|], Asleep(Read(1));
    var s1 := s0.(at := [sleeping, Enter(Write(buf))]);
    var s2 := s0.(at := [sleeping, Loop(Write(buf))], pipeLock := Some(1));
    var s3 := s2.(at := [sleeping, Loop(Write(buf[PIPESIZE..]))], stored := buf[..PIPESIZE]);
    var s4 := s3.(killed := {1});
    var s5 := s4.(at := [sleeping, Leaving]);
    var s6 := s5.(at := [sleeping, Idle], pipeLock := None);
    assert Step(s0, Start(1, Write(buf)), s1) && Step(s1, Go(1), s2) && Step(s2, Go(1), s3);
    assert Step(s3, Kill(1), s4) && Step(s4, Go(1), s5) && Step(s5, Go(1), s6);
    var more, es' := [s0, s1, s2, s3, s4, s5, s6], [Start(1, Write(buf)), Go(1), Go(1), Kill(1), Go(1), Go(1)];
    Extend(states, es, more, es');
    states, es := states + more[1..], es + es';
  }

  lemma Extend(states: seq<State>, es: seq<Event>, more: seq<State>, es': seq<Event>)
    requires Steps(states, es) && Steps(more, es') && more[0] == states[|es|]
    ensures Steps(states + more[1..], es + es')
  {
    var all, es2 := states + more[1..], es + es';
    forall i | 0 <= i < |es2| ensures Step(all[i], es2[i], all[i + 1]) {
      if i >= |es| {
        assert Step(more[i - |es|], es'[i - |es|], more[i - |es| + 1]);
      }
    }
  }
}
