/** Growth by any number of pages (allocuvm of vm.c, growproc of proc.c): what the loop has done after some
    of its turns, whichever way it ends.
 */
module VmGrow {
  import opened Common
  import opened Frames
  import opened SwapMeta
  import opened VmCore
  import opened VmSwap
  import opened VmCow
  import opened VmSteps
  import opened VmFork
  import opened VmWorld
  import opened VmUnwind

  /** `k` pages of zeroes from page `n` on. */
  ghost function Fresh(m: Memory, pid: nat, n: nat, k: nat): Memory {
    if k == 0 then m else Fresh(m, pid, n, k - 1)[Virt(pid, n + k - 1) := Zeroes()]
  }

  ghost predicate PagesOk(s0: Vm, s: Vm, pid: nat, n: nat, k: nat, v: Virt) {
    v in s.pt <==> v in s0.pt || (v.pid == pid && n <= v.page < n + k)
  }

  function Total(p: Proc): nat {
    p.nram + p.ndisk
  }

  /** The loop of allocuvm has added `k` pages behind the size of process `pid`. */
  ghost predicate Growing(s0: Vm, s: Vm, pid: nat, k: nat) {
    && Calm(s) && pid in s0.procs && SameShape(s0, s)
    && Total(s.procs[pid]) == Total(s0.procs[pid]) + k
    && MemoryOf(s) == Fresh(MemoryOf(s0), pid, s0.procs[pid].sz, k)
    && forall v: Virt :: PagesOk(s0, s, pid, s0.procs[pid].sz, k, v)
  }

  lemma GrowStart(s: Vm, pid: nat)
    requires Good(s) && pid in s.procs
    ensures Growing(s, s, pid, 0)
  {
  }

  /** Neither creating a swap file nor moving a page out adds a page. */
  lemma GrowTouch(s0: Vm, s: Vm, pid: nat, k: nat)
    requires Growing(s0, s, pid, k)
    ensures Growing(s0, TouchVm(s, pid, s.procs[pid].list, true, s.procs[pid].sz), pid, k)
  {
    hide Inv, Resting, MemoryOf;
    var t := TouchVm(s, pid, s.procs[pid].list, true, s.procs[pid].sz);
    TouchCalm(s, pid, s.procs[pid].list, true, s.procs[pid].sz);
    GrowKeeps(s0, s, t, pid, k);
  }

  lemma GrowKeeps(s0: Vm, s: Vm, t: Vm, pid: nat, k: nat)
    requires Growing(s0, s, pid, k) && Calm(t) && MemoryOf(t) == MemoryOf(s) && t.pt.Keys == s.pt.Keys
    requires SameShape(s, t) && Total(t.procs[pid]) == Total(s.procs[pid])
    ensures Growing(s0, t, pid, k)
  {
    hide Inv, Resting, MemoryOf;
    var n := s0.procs[pid].sz;
    forall v: Virt ensures PagesOk(s0, t, pid, n, k, v) {
      assert PagesOk(s0, s, pid, n, k, v);
    }
  }

  lemma GrowOut(s0: Vm, s: Vm, pid: nat, k: nat, i: nat, slot: nat)
    requires Growing(s0, s, pid, k) && i < |s.procs[pid].list| && LowestFree(s.procs[pid].avail, slot)
      && s.procs[pid].hasFile
    requires s.procs[pid].nram == MAX_PSYC_PAGES && s.procs[pid].ndisk < MAX_TOTAL_PAGES - MAX_PSYC_PAGES
    ensures Growing(s0, OutVm(s, pid, i, slot), pid, k) && OutVm(s, pid, i, slot).procs[pid].nram < MAX_PSYC_PAGES
  {
    hide Inv, Resting, MemoryOf, OutVm, LowestFree;
    RoomCalm(s, pid, i, slot);
    OutNumbers(s, pid, i, slot);
    GrowKeeps(s0, s, OutVm(s, pid, i, slot), pid, k);
  }

  lemma GrowNew(s0: Vm, s: Vm, pid: nat, k: nat, a: nat)
    requires Growing(s0, s, pid, k) && s.procs[pid].nram < MAX_PSYC_PAGES && s.free != []
    requires a < MAX_TOTAL_PAGES && a < |s.procs[pid].meta| && s.procs[pid].meta[a].state == NotUsed
    requires forall v: Virt :: SizeOk(s0, v)
    ensures Growing(s0, NewVm(s, pid, a, s0.procs[pid].sz + k), pid, k + 1)
  {
    hide Inv, Resting, MemoryOf, NewVm;
    var n := s0.procs[pid].sz;
    var u := Virt(pid, n + k);
    assert SizeOk(s0, u) && PagesOk(s0, s, pid, n, k, u);
    NewCalm(s, pid, a, n + k);
    NewShape(s, pid, a, n + k);
    var t, k1 := NewVm(s, pid, a, n + k), k + 1;
    forall v: Virt ensures PagesOk(s0, t, pid, n, k1, v) {
      assert PagesOk(s0, s, pid, n, k, v);
    }
  }

  lemma NewShape(s: Vm, pid: nat, a: nat, n: nat)
    requires Inv(s) && pid in s.procs && a < MAX_TOTAL_PAGES && s.free != []
    ensures var t := NewVm(s, pid, a, n);
            && SameShape(s, t) && t.pt.Keys == s.pt.Keys + {Virt(pid, n)} && pid in t.procs
            && Total(t.procs[pid]) == Total(s.procs[pid]) + 1
  {
  }

  // ---------------------------------------------------------------- how it ends

  ghost function Blank(k: nat): seq<Page> {
    seq(k, i => Zeroes())
  }

  lemma {:induction false} FreshAt(m: Memory, pid: nat, n: nat, k: nat, v: Virt)
    ensures PageOf(Fresh(m, pid, n, k), v)
         == if v.pid == pid && n <= v.page < n + k then Zeroes() else PageOf(m, v)
  {
    if k > 0 {
      FreshAt(m, pid, n, k - 1, v);
    }
  }

  lemma FreshImage(m: Memory, pid: nat, n: nat, k: nat)
    ensures Image(Fresh(m, pid, n, k), pid, n + k) == Image(m, pid, n) + Blank(k)
  {
    var m' := Fresh(m, pid, n, k);
    forall page: nat | page < n + k
      ensures PageOf(m', Virt(pid, page)) == (Image(m, pid, n) + Blank(k))[page]
    {
      FreshAt(m, pid, n, k, Virt(pid, page));
    }
  }

  lemma FreshOther(m: Memory, pid: nat, n: nat, k: nat, q: nat, size: nat)
    requires q != pid
    ensures Image(Fresh(m, pid, n, k), q, size) == Image(m, q, size)
  {
    forall page: nat | page < size
      ensures PageOf(Fresh(m, pid, n, k), Virt(q, page)) == PageOf(m, Virt(q, page))
    {
      FreshAt(m, pid, n, k, Virt(q, page));
    }
    ImageSame(m, Fresh(m, pid, n, k), q, size);
  }

  /** All pages were added, and growproc sets the size. */
  lemma GrowDone(s0: Vm, s: Vm, pid: nat, k: nat)
    requires Good(s0) && Growing(s0, s, pid, k)
    ensures var p := s.procs[pid]; var t := TouchVm(s, pid, p.list, p.hasFile, p.sz + k);
            Good(t) && Flat(t) == Flat(s0)[pid := Flat(s0)[pid] + Blank(k)]
  {
    hide Inv, Resting, MemoryOf, Flat, SizeOk;
    var p := s.procs[pid];
    TouchCalm(s, pid, p.list, p.hasFile, p.sz + k);
    GrownSizes(s0, s, pid, k);
    GrownFlat(s0, TouchVm(s, pid, p.list, p.hasFile, p.sz + k), pid, k);
  }

  lemma GrownSizes(s0: Vm, s: Vm, pid: nat, k: nat)
    requires Good(s0) && Growing(s0, s, pid, k)
    ensures var p := s.procs[pid]; var t := TouchVm(s, pid, p.list, p.hasFile, p.sz + k);
            forall v: Virt :: SizeOk(t, v)
  {
    hide Inv, Resting, MemoryOf;
    var p := s.procs[pid];
    var t, n := TouchVm(s, pid, p.list, p.hasFile, p.sz + k), p.sz;
    forall v: Virt ensures SizeOk(t, v) {
      assert SizeOk(s0, v) && PagesOk(s0, s, pid, n, k, v);
    }
  }

  lemma GrownFlat(s0: Vm, t: Vm, pid: nat, k: nat)
    requires pid in s0.procs && t.procs.Keys == s0.procs.Keys && t.procs[pid].sz == s0.procs[pid].sz + k
    requires forall q: nat | q in s0.procs && q != pid :: t.procs[q].sz == s0.procs[q].sz
    requires MemoryOf(t) == Fresh(MemoryOf(s0), pid, s0.procs[pid].sz, k)
    ensures Flat(t) == Flat(s0)[pid := Flat(s0)[pid] + Blank(k)]
  {
    hide MemoryOf, Image, Fresh;
    var m, n := MemoryOf(s0), s0.procs[pid].sz;
    forall q: nat | q in s0.procs
      ensures Flat(t)[q] == if q == pid then Flat(s0)[q] + Blank(k) else Flat(s0)[q]
    {
      if q == pid {
        FreshImage(m, pid, n, k);
      } else {
        FreshOther(m, pid, n, k, q, s0.procs[q].sz);
      }
    }
  }

  /** A growth that stops at the limit returns without setting the size: the state is sound exactly if no
      page was added, and no process sees the pages that were. */
  lemma GrowStuck(s0: Vm, s: Vm, pid: nat, k: nat)
    requires Good(s0) && Growing(s0, s, pid, k)
    ensures Good(s) <==> k == 0
    ensures Flat(s) == Flat(s0)
  {
    hide Inv, Resting, MemoryOf, Flat;
    var n := s0.procs[pid].sz;
    BeyondFlat(s0, s, pid, k);
    if k == 0 {
      forall v: Virt ensures SizeOk(s, v) {
        assert SizeOk(s0, v) && PagesOk(s0, s, pid, n, 0, v);
      }
    } else {
      assert PagesOk(s0, s, pid, n, k, Virt(pid, n));
      assert !SizeOk(s, Virt(pid, n));
    }
  }

  lemma BeyondFlat(s0: Vm, s: Vm, pid: nat, k: nat)
    requires SameShape(s0, s) && pid in s0.procs && MemoryOf(s) == Fresh(MemoryOf(s0), pid, s0.procs[pid].sz, k)
    ensures Flat(s) == Flat(s0)
  {
    hide MemoryOf, Image, Fresh;
    var m, n := MemoryOf(s0), s0.procs[pid].sz;
    forall q: nat | q in s0.procs ensures Flat(s)[q] == Flat(s0)[q] {
      forall page: nat | page < s0.procs[q].sz
        ensures PageOf(Fresh(m, pid, n, k), Virt(q, page)) == PageOf(m, Virt(q, page))
      {
        FreshAt(m, pid, n, k, Virt(q, page));
      }
      ImageSame(m, Fresh(m, pid, n, k), q, s0.procs[q].sz);
    }
  }

  /** After a growth that found no frame has given up its pages again, every process sees what it saw. */
  lemma GrowUndone(s0: Vm, s: Vm, t: Vm, pid: nat, k: nat, n: nat)
    requires Good(s0) && Growing(s0, s, pid, k) && k <= n
    requires GivenUp(s, t, pid, s0.procs[pid].sz, s0.procs[pid].sz + n)
    ensures MemoryOf(t) == MemoryOf(s0) && Flat(t) == Flat(s0)
  {
    hide Inv, Resting, MemoryOf;
    forall v: Virt ensures SameAt(MemoryOf(s0), MemoryOf(t), v) {
      UndoneAt(s0, s, t, pid, k, n, v);
    }
    SameEverywhere(MemoryOf(s0), MemoryOf(t));
    SameFlat(s0, t);
  }

  lemma UndoneAt(s0: Vm, s: Vm, t: Vm, pid: nat, k: nat, n: nat, v: Virt)
    requires Good(s0) && Growing(s0, s, pid, k) && k <= n
    requires GivenUp(s, t, pid, s0.procs[pid].sz, s0.procs[pid].sz + n)
    ensures SameAt(MemoryOf(s0), MemoryOf(t), v)
  {
    hide CountsOk, SharingOk, ProcsOk, Resting, Fresh;
    var lo := s0.procs[pid].sz;
    var hi := lo + n;
    assert SizeOk(s0, v) && PagesOk(s0, s, pid, lo, k, v) && StaysUnless(s, t, pid, lo, hi, v);
    FreshAt(MemoryOf(s0), pid, lo, k, v);
    if v in s0.pt {
      assert Recorded(s0, v) && Recorded(s, v);
    }
  }

  /** The first `j` turns of copyuvm. */
  ghost function CopyTurns(s: Vm, parent: nat, child: nat, j: nat): (t: Vm)
    requires parent != child && forall page: nat | page < j :: Virt(parent, page) in s.pt
    ensures t.procs == s.procs && forall u: Virt | u.pid != child :: u in t.pt <==> u in s.pt
    ensures forall page: nat :: Virt(child, page) in t.pt <==> page < j || Virt(child, page) in s.pt
  {
    if j == 0 then s
    else ShareVm(CopyTurns(s, parent, child, j - 1), Virt(parent, j - 1), Virt(child, j - 1))
  }

  /** What a later fork makes of pages beyond the size: copyuvm copies the page table up to the size, and the
      child has all records, so it has records of pages that it does not have. */
  lemma OverrunForkBreaks(s0: Vm, s: Vm, parent: nat, child: nat, k: nat)
    requires Good(s0) && Growing(s0, s, parent, k) && k > 0 && child !in s0.procs
    ensures forall page: nat | page < s.procs[parent].sz :: Virt(parent, page) in s.pt
    ensures !Inv(BornVm(CopyTurns(s, parent, child, s.procs[parent].sz), parent, child))
  {
    hide Inv, Resting, MemoryOf, Fresh, CopyTurns, SizeOk;
    var n := s.procs[parent].sz;
    forall page: nat | page < n ensures Virt(parent, page) in s.pt {
      BelowSize(s0, s, parent, k, page);
    }
    var a := BeyondRecord(s0, s, parent, child, k);
    RecordAlone(BornVm(CopyTurns(s, parent, child, n), parent, child), child, a);
  }

  lemma BelowSize(s0: Vm, s: Vm, pid: nat, k: nat, page: nat)
    requires Good(s0) && Growing(s0, s, pid, k) && page < s.procs[pid].sz
    ensures Virt(pid, page) in s.pt
  {
    hide Inv, Resting, MemoryOf, Fresh;
    assert SizeOk(s0, Virt(pid, page)) && PagesOk(s0, s, pid, s0.procs[pid].sz, k, Virt(pid, page));
  }

  /** The first page beyond the size has a record, and another process does not have such a page. */
  lemma BeyondRecord(s0: Vm, s: Vm, parent: nat, child: nat, k: nat) returns (a: nat)
    requires Good(s0) && Growing(s0, s, parent, k) && k > 0 && child !in s0.procs
    ensures var n := s.procs[parent].sz;
            && a < MAX_TOTAL_PAGES && a < |s.procs[parent].meta| && s.procs[parent].meta[a].id == n
            && Virt(child, n) !in s.pt
  {
    hide CountsOk, SharingOk, ProcsOk, Resting, MemoryOf, Fresh;
    var n := s0.procs[parent].sz;
    var v, u := Virt(parent, n), Virt(child, n);
    assert PagesOk(s0, s, parent, n, k, v) && SizeOk(s0, u) && PagesOk(s0, s, parent, n, k, u);
    assert Recorded(s, v);
    a :| EntryFor(s.procs[parent], a, n, s.pt[v]);
  }

  /** A record of a page that is not mapped breaks the invariant. */
  lemma RecordAlone(s: Vm, pid: nat, a: nat)
    requires pid in s.procs && a < MAX_TOTAL_PAGES && a < |s.procs[pid].meta| && s.procs[pid].meta[a].id >= 0
    requires Virt(pid, s.procs[pid].meta[a].id) !in s.pt
    ensures !Inv(s)
  {
    assert !RecordMapped(s, pid, a);
  }

  // ---------------------------------------------------------------- a write fault without memory

  lemma OneFrame(s: Vm)
    requires s == Vm([Junk()], [0], [0], map[], map[])
    ensures Good(s)
  {
    forall f: nat | f < 1 ensures RefOk(s.pt, s.refs, f) && FreeOk(s.refs, s.free, f) {
      assert Mappers(s.pt, f) == {};
      assert s.free[0] == 0;
    }
  }

  /** The machine has one frame; a process grows by a page, forks, and writes the page. */
  lemma LastFrame() returns (s: Vm, v: Virt, u: Virt)
    ensures Good(s) && v != u && v in s.pt && s.pt[v].Present? && Maps(s.pt, u, s.pt[v].frame)
    ensures s.refs[s.pt[v].frame] == 2 && s.free == [] && !Inv(FaultVm(s, v))
  {
    var s0 := Vm([Junk()], [0], [0], map[], map[]);
    OneFrame(s0);
    SpawnGood(s0, 0, EmptyProc());
    var s1 := SpawnVm(s0, 0, EmptyProc());
    var s2 := FirstPage(s1);
    s, v, u := ForkedOnce(s2);
  }

  lemma FirstPage(s1: Vm) returns (s2: Vm)
    requires Good(s1) && s1 == Vm([Junk()], [0], [0], map[], map[0 := EmptyProc()])
    ensures Good(s2) && OnePage(s2)
  {
    hide Inv, Resting, MemoryOf, Flat, SizeOk;
    GrowStart(s1, 0);
    GrowNew(s1, s1, 0, 0, 0);
    var t := NewVm(s1, 0, 0, 0);
    GrowDone(s1, t, 0, 1);
    s2 := TouchVm(t, 0, t.procs[0].list, t.procs[0].hasFile, 1);
  }

  /** One process with one page in the only frame, and the page is its own. */
  ghost predicate OnePage(s: Vm) {
    && 0 in s.procs && s.procs[0].sz == 1 && 1 !in s.procs && s.refs == [1] && s.free == []
    && Virt(0, 0) in s.pt && s.pt[Virt(0, 0)] == Present(0, true, false)
  }

  lemma ForkedOnce(s2: Vm) returns (s: Vm, v: Virt, u: Virt)
    requires Good(s2) && OnePage(s2)
    ensures Good(s) && v != u && v in s.pt && s.pt[v].Present? && Maps(s.pt, u, s.pt[v].frame)
    ensures s.refs[s.pt[v].frame] == 2 && s.free == [] && !Inv(FaultVm(s, v))
  {
    hide Inv, Resting, MemoryOf, Forking, SizeOk, FaultVm;
    v, u := Virt(0, 0), Virt(1, 0);
    var s3 := SharedOnce(s2);
    ForkEnd(s2, s3, 0, 1);
    s := BornVm(s3, 0, 1);
    FaultInv(s, v);
  }

  lemma SharedOnce(s: Vm) returns (t: Vm)
    requires Good(s) && OnePage(s)
    ensures Forking(s, t, 0, 1, 1) && t.procs == s.procs && t.refs == [2] && t.free == []
    ensures Maps(t.pt, Virt(0, 0), 0) && Maps(t.pt, Virt(1, 0), 0)
  {
    hide Inv, Resting, MemoryOf, Forking, SizeOk;
    ForkStart(s, 0, 1);
    ForkTurn(s, s, 0, 1, 0);
    t := ShareVm(s, Virt(0, 0), Virt(1, 0));
  }
}
