/** Which bytes go through a pipe (pipe.c), over every run of the protocol with all its interleavings and kills:
    each write call stores the bytes of its buffer in order, the pipe is one queue of what all write calls have
    stored, and each read call takes the next bytes of it, as many as there are and as it asked for. And the
    turns of the protocol are what the loops on the ring buffer do.
 */
module PipeBytes {
  import opened Common
  import opened PipeProtocol
  import PipeRing

  // ---------------------------------------------------------------- calls and their bytes

  /** The call that process `p` started last, in the first `k` steps. */
  function Given(es: seq<Event>, k: nat, p: nat): Option<Call>
    requires k <= |es|
  {
    if k == 0 then None
    else if es[k - 1].Start? && es[k - 1].p == p then Some(es[k - 1].call)
    else Given(es, k - 1, p)
  }

  /** The bytes that a step takes from the front of the buffer that its process writes. */
  ghost function Piece(s: State, e: Event, s': State): seq<bv8> {
    if e.Go? && e.p < |s.at| && e.p < |s'.at| && s.at[e.p].Loop? && s.at[e.p].call.Write?
       && s'.at[e.p].Loop? && s'.at[e.p].call.Write? && |s'.at[e.p].call.buf| <= |s.at[e.p].call.buf|
    then s.at[e.p].call.buf[..|s.at[e.p].call.buf| - |s'.at[e.p].call.buf|]
    else []
  }

  /** The bytes that a step takes out of the pipe. */
  ghost function Take(s: State, s': State): seq<bv8> {
    if |s.consumed| <= |s'.consumed| then s'.consumed[|s.consumed|..] else []
  }

  /** What the last call of process `p` has taken from its buffer so far. */
  ghost function Sent(states: seq<State>, es: seq<Event>, k: nat, p: nat): seq<bv8>
    requires k <= |es| && |states| == |es| + 1
  {
    if k == 0 || (es[k - 1].Start? && es[k - 1].p == p) then []
    else if es[k - 1].p == p then Sent(states, es, k - 1, p) + Piece(states[k - 1], es[k - 1], states[k])
    else Sent(states, es, k - 1, p)
  }

  /** All pieces, in the order of the steps. */
  ghost function AllSent(states: seq<State>, es: seq<Event>, k: nat): seq<bv8>
    requires k <= |es| && |states| == |es| + 1
  {
    if k == 0 then [] else AllSent(states, es, k - 1) + Piece(states[k - 1], es[k - 1], states[k])
  }

  ghost function AllTaken(states: seq<State>, es: seq<Event>, k: nat): seq<bv8>
    requires k <= |es| && |states| == |es| + 1
  {
    if k == 0 then [] else AllTaken(states, es, k - 1) + Take(states[k - 1], states[k])
  }

  // ---------------------------------------------------------------- one step

  /** Other steps move no bytes. */
  lemma QuietStep(s: State, e: Event)
    requires Enabled(s, e) && !IsTurn(s, e)
    ensures Next(s, e).stored == s.stored && Next(s, e).consumed == s.consumed && |Next(s, e).at| == |s.at|
  {
  }

  lemma TurnFifo(s: State, p: nat)
    requires Fifo(s) && p < |s.at|
    ensures forall buf: seq<bv8> :: Fifo(WriteTurn(s, p, buf)) && |WriteTurn(s, p, buf).at| == |s.at|
    ensures forall n: nat :: Fifo(ReadTurn(s, p, n)) && |ReadTurn(s, p, n).at| == |s.at|
    ensures forall w: bool :: Fifo(CloseTurn(s, p, w)) && |CloseTurn(s, p, w).at| == |s.at|
  {
  }

  lemma FifoStep(s: State, e: Event)
    requires Fifo(s) && Enabled(s, e)
    ensures Fifo(Next(s, e)) && |Next(s, e).at| == |s.at|
  {
    hide Next, Enabled;
    Inside(s, e);
    if IsTurn(s, e) {
      TurnStep(s, e);
      TurnFifo(s, e.p);
      hide WriteTurn, ReadTurn, CloseTurn, Fifo;
    } else {
      QuietStep(s, e);
    }
  }

  /** A step stores exactly the piece that it takes from the buffer of its process. */
  lemma StoreStep(s: State, e: Event)
    requires Fifo(s) && Enabled(s, e)
    ensures Next(s, e).stored == s.stored + Piece(s, e, Next(s, e))
  {
    hide Next, Enabled;
    Inside(s, e);
    if IsTurn(s, e) {
      TurnStep(s, e);
    } else {
      QuietStep(s, e);
    }
  }

  /** A step takes something out of the pipe only in a turn of a reader that does not wait, and then it is the
      next bytes, as many as there are and as were asked for; a reader waits, or leaves if it is killed, exactly if
      the pipe is empty and may still be written. */
  lemma TakeStep(s: State, e: Event)
    requires Fifo(s) && Enabled(s, e)
    ensures Next(s, e).consumed == s.consumed + Take(s, Next(s, e))
    ensures !(e.Go? && s.at[e.p].Loop? && s.at[e.p].call.Read?) ==> Take(s, Next(s, e)) == []
    ensures e.Go? && s.at[e.p].Loop? && s.at[e.p].call.Read? ==>
              var n, place := s.at[e.p].call.n, Next(s, e).at[e.p];
              if |s.stored| == |s.consumed| && s.writeopen
              then Take(s, Next(s, e)) == [] && place == (if e.p in s.killed then Leaving else ToSleep(Read(n)))
              else && place == Waking(NWrite)
                   && Take(s, Next(s, e))
                      == s.stored[|s.consumed|..|s.consumed| + Min(n, |s.stored| - |s.consumed|)]
  {
    hide Next, Enabled;
    Inside(s, e);
    if IsTurn(s, e) {
      TurnStep(s, e);
    } else {
      QuietStep(s, e);
    }
  }

  /** A writer goes on until its buffer is empty, and then wakes readers; it stops at a full pipe only, and gives
      up there exactly if nobody can read or it is killed. */
  lemma FillStep(s: State, e: Event)
    requires Fifo(s) && Enabled(s, e) && e.Go? && s.at[e.p].Loop? && s.at[e.p].call.Write?
    ensures var buf, t := s.at[e.p].call.buf, Next(s, e);
            if buf == [] then t.at[e.p] == Waking(NRead)
            else if |s.stored| == |s.consumed| + PIPESIZE
            then t.at[e.p] == if !s.readopen || e.p in s.killed then Leaving else WakeFirst(Write(buf))
            else && t.at[e.p].Loop? && t.at[e.p].call.Write? && Piece(s, e, t) + t.at[e.p].call.buf == buf
                 && |Piece(s, e, t)| == Min(|buf|, |s.consumed| + PIPESIZE - |s.stored|)
  {
    hide Next, Enabled;
    Inside(s, e);
    TurnStep(s, e);
  }

  // ---------------------------------------------------------------- whole runs, with kills

  lemma {:induction false} FifoAlways(states: seq<State>, es: seq<Event>, k: nat)
    requires IsRun(states, es) && k <= |es|
    ensures Fifo(states[k]) && |states[k].at| == |states[0].at|
  {
    if k > 0 {
      FifoAlways(states, es, k - 1);
      assert Step(states[k - 1], es[k - 1], states[k - 1 + 1]);
      FifoStep(states[k - 1], es[k - 1]);
    }
  }

  /** Where a process may be in the call `given`, of whose buffer it has taken `sent`. */
  predicate CallOk(given: Option<Call>, sent: seq<bv8>, l: Place) {
    match given
    case None => l == Idle
    case Some(Write(all)) =>
      if l.Idle? || l.Leaving? then sent <= all
      else if l.Waking? then sent == all && l.chan == NRead
      else CallOf(l).value.Write? && sent + CallOf(l).value.buf == all
    case Some(Read(n)) =>
      l.Idle? || l.Leaving? || (if l.Waking? then l.chan == NWrite else CallOf(l).value == Read(n))
    case Some(Close(w)) =>
      || l.Idle? || l.Leaving?
      || (if l.Waking? then l.chan == (if w then NRead else NWrite) else CallOf(l).value == Close(w))
  }

  lemma OwnStep(s: State, e: Event, given: Option<Call>, sent: seq<bv8>)
    requires Fifo(s) && Enabled(s, e) && e.Go? && CallOk(given, sent, s.at[e.p])
    ensures CallOk(given, sent + Piece(s, e, Next(s, e)), Next(s, e).at[e.p])
  {
    var l, t := s.at[e.p], Next(s, e);
    if l.Loop? && l.call.Write? {
      hide Piece, Fifo, Next, Enabled;
      FillStep(s, e);
      assert sent + l.call.buf == given.value.buf;
      WriterMoves(given.value.buf, sent, l.call.buf, Piece(s, e, t), t.at[e.p]);
    } else {
      assert Piece(s, e, t) == [] && sent + [] == sent;
      Moves(s, e);
      hide Piece, Fifo, Next, Enabled;
    }
  }

  lemma WriterMoves(all: seq<bv8>, sent: seq<bv8>, buf: seq<bv8>, piece: seq<bv8>, l: Place)
    requires sent + buf == all && piece <= buf && (l.Waking? ==> buf == [] && l.chan == NRead) && !l.Idle?
    requires CallOf(l) == if l.Waking? || l.Leaving? then None else Some(Write(buf[|piece|..]))
    ensures CallOk(Some(Write(all)), sent + piece, l)
  {
    assert sent + piece + buf[|piece|..] == all;
  }

  /** Apart from the turns of writers a process goes on with its call or leaves it. */
  lemma Moves(s: State, e: Event)
    requires Enabled(s, e) && e.Go? && !(s.at[e.p].Loop? && s.at[e.p].call.Write?)
    ensures var l, l' := s.at[e.p], Next(s, e).at[e.p];
            || (CallOf(l).Some? && CallOf(l') == CallOf(l))
            || (l.Loop? && l.call.Read? && (l' == Waking(NWrite) || l' == Leaving))
            || (l.Loop? && l.call.Close? && l' == Waking(if l.call.writable then NRead else NWrite))
            || (l.Waking? && l' == Leaving)
            || (l.Leaving? && l' == Idle)
  {
  }

  lemma OtherStep(s: State, e: Event, p: nat, given: Option<Call>, sent: seq<bv8>)
    requires Enabled(s, e) && p < |s.at| && (e.p != p || e.Kill?) && CallOk(given, sent, s.at[p])
    ensures |Next(s, e).at| == |s.at| && CallOk(given, sent, Next(s, e).at[p])
  {
    StaysOrWakes(s, e, p);
    hide Next, Enabled;
  }

  /** What a write call has stored, followed by what it still has to store, is the buffer that it was started
      with; once it is on its way out with success it has stored all of it. A read call still asks for what it
      was started with. */
  lemma {:induction false} CallsInOrder(states: seq<State>, es: seq<Event>, k: nat, p: nat)
    requires IsRun(states, es) && k <= |es| && p < |states[k].at|
    ensures CallOk(Given(es, k, p), Sent(states, es, k, p), states[k].at[p])
  {
    hide Piece, CallOk, Fifo, Next, Enabled;
    if k == 0 {
      Unstarted(states[0], p);
    } else {
      var s, e := states[k - 1], es[k - 1];
      assert Step(s, e, states[k - 1 + 1]);
      FifoAlways(states, es, k - 1);
      FifoStep(s, e);
      CallsInOrder(states, es, k - 1, p);
      if e.Start? && e.p == p {
        Started(s, e);
      } else if e.Go? && e.p == p {
        OwnStep(s, e, Given(es, k - 1, p), Sent(states, es, k - 1, p));
      } else {
        OtherStep(s, e, p, Given(es, k - 1, p), Sent(states, es, k - 1, p));
        KillSends(s, e, states[k]);
        assert Sent(states, es, k - 1, p) + [] == Sent(states, es, k - 1, p);
      }
    }
  }

  lemma Unstarted(s: State, p: nat)
    requires s == Initial(|s.at|) && p < |s.at|
    ensures CallOk(None, [], s.at[p])
  {
  }

  lemma Started(s: State, e: Event)
    requires Enabled(s, e) && e.Start?
    ensures CallOk(Some(e.call), [], Next(s, e).at[e.p])
  {
  }

  lemma KillSends(s: State, e: Event, s': State)
    ensures !e.Go? ==> Piece(s, e, s') == []
  {
  }

  /** A pipe is one queue: what is in it and what went through it is what write calls took from their buffers, in
      the order of their turns, and what read calls have taken, in the order of theirs, is the front of that. */
  lemma {:induction false} PipeIsQueue(states: seq<State>, es: seq<Event>, k: nat)
    requires IsRun(states, es) && k <= |es|
    ensures states[k].stored == AllSent(states, es, k) && states[k].consumed == AllTaken(states, es, k)
    ensures AllTaken(states, es, k) <= AllSent(states, es, k)
    ensures |AllSent(states, es, k)| <= |AllTaken(states, es, k)| + PIPESIZE
  {
    hide Piece, Take, Next, Enabled;
    FifoAlways(states, es, k);
    if k > 0 {
      PipeIsQueue(states, es, k - 1);
      assert Step(states[k - 1], es[k - 1], states[k - 1 + 1]);
      FifoAlways(states, es, k - 1);
      StoreStep(states[k - 1], es[k - 1]);
      TakeStep(states[k - 1], es[k - 1]);
    }
  }

  /** A read call that was started for `n` bytes and does not wait takes exactly the next bytes of the queue: `n`
      of them, or all there are. */
  lemma ReadGets(states: seq<State>, es: seq<Event>, k: nat, p: nat)
    requires IsRun(states, es) && k < |es| && es[k] == Go(p) && p < |states[k].at| && states[k].at[p].Loop?
    requires Given(es, k, p).Some? && Given(es, k, p).value.Read? && p < |states[k + 1].at|
    ensures var n, sent, c := Given(es, k, p).value.n, AllSent(states, es, k), |AllTaken(states, es, k)|;
            if states[k + 1].at[p] == Waking(NWrite)
            then c <= |sent| && Take(states[k], states[k + 1]) == sent[c..c + Min(n, |sent| - c)]
            else Take(states[k], states[k + 1]) == [] && c == |sent| && states[k].writeopen
  {
    hide Take, Piece, Next, Enabled;
    CallsInOrder(states, es, k, p);
    FifoAlways(states, es, k);
    PipeIsQueue(states, es, k);
    assert Step(states[k], es[k], states[k + 1]);
    TakeStep(states[k], es[k]);
  }

  // ---------------------------------------------------------------- the ring buffer does these turns

  ghost predicate Mirrors(q: PipeRing.Pipe, s: State)
    reads q, q.data
  {
    q.Valid() && q.stored == s.stored && q.consumed == s.consumed
  }

  /** The loop of pipewrite on the ring buffer is a turn of a writer; `left` is what it has still to write. */
  method WriterTurn(q: PipeRing.Pipe, ghost s: State, ghost p: nat, buf: seq<bv8>) returns (left: seq<bv8>)
    requires Mirrors(q, s) && p < |s.at|
    modifies q, q.data
    ensures Mirrors(q, WriteTurn(s, p, buf))
    ensures if buf != [] && !s.Full() then WriteTurn(s, p, buf).at[p] == Loop(Write(left)) else left == buf
  {
    var i := q.WriteUntilFull(buf, 0);
    left := buf[i..];
  }

  /** The copy loop of piperead on the ring buffer is a turn of a reader that does not wait. */
  method ReaderTurn(q: PipeRing.Pipe, ghost s: State, ghost p: nat, n: nat) returns (out: seq<bv8>)
    requires Mirrors(q, s) && p < |s.at| && !(s.Empty() && s.writeopen)
    modifies q
    ensures Mirrors(q, ReadTurn(s, p, n)) && out == Take(s, ReadTurn(s, p, n))
  {
    out := q.ReadAvailable(n);
  }
}
