/** One private flat memory for each process, and what the operations on page tables, frames and swap
    files come to on it (vm.c, trap.c, proc.c).
 */
module VmWorld {
  import opened Common
  import opened Frames
  import opened SwapMeta
  import opened VmCore
  import opened VmSwap
  import opened VmCow
  import opened VmSteps
  import opened VmFork

  /** The pages of each process, from address 0 on. */
  type World = map<nat, seq<Page>>

  ghost function PageOf(m: Memory, v: Virt): Page {
    if v in m then m[v] else Zeroes()
  }

  ghost function Image(m: Memory, pid: nat, n: nat): seq<Page> {
    seq(n, page requires page >= 0 => PageOf(m, Virt(pid, page)))
  }

  ghost function Flat(s: Vm): World {
    map pid | pid in s.procs :: Image(MemoryOf(s), pid, s.procs[pid].sz)
  }

  /** One page of one process changes. */
  ghost function Replaced(w: World, v: Virt, page: Page): World
    requires v.pid in w && v.page < |w[v.pid]|
  {
    var pages: seq<Page> := w[v.pid][v.page := page];
    w[v.pid := pages]
  }

  ghost predicate SameShape(s: Vm, t: Vm) {
    s.procs.Keys == t.procs.Keys && forall pid: nat | pid in s.procs :: t.procs[pid].sz == s.procs[pid].sz
  }

  lemma SameFlat(s: Vm, t: Vm)
    requires SameShape(s, t) && MemoryOf(t) == MemoryOf(s)
    ensures Flat(t) == Flat(s)
  {
  }

  lemma ImageSame(m: Memory, m': Memory, pid: nat, n: nat)
    requires forall page: nat | page < n :: PageOf(m', Virt(pid, page)) == PageOf(m, Virt(pid, page))
    ensures Image(m', pid, n) == Image(m, pid, n)
  {
  }

  /** What a page of a process holds is what its flat memory holds there. */
  lemma FlatAt(s: Vm, v: Virt)
    requires Good(s) && v in s.pt
    ensures v.pid in s.procs && v.pid in Flat(s) && v.page < |Flat(s)[v.pid]| && v in MemoryOf(s)
      && Flat(s)[v.pid][v.page] == MemoryOf(s)[v]
  {
    assert SizeOk(s, v) && Recorded(s, v);
  }

  // ---------------------------------------------------------------- stores

  lemma StoreFlat(s: Vm, t: Vm, v: Virt, page: Page)
    requires SameShape(s, t) && MemoryOf(t) == MemoryOf(s)[v := page] && v.pid in s.procs && v.page < s.procs[v.pid].sz
    ensures Flat(t) == Replaced(Flat(s), v, page)
  {
    hide MemoryOf;
    var m, m' := MemoryOf(s), MemoryOf(t);
    forall pid: nat | pid in s.procs
      ensures Flat(t)[pid] == if pid == v.pid then Flat(s)[pid][v.page := page] else Flat(s)[pid]
    {
      if pid != v.pid {
        ImageSame(m, m', pid, s.procs[pid].sz);
      } else {
        ImageStore(m, v, page, s.procs[pid].sz);
      }
    }
  }

  lemma ImageStore(m: Memory, v: Virt, page: Page, n: nat)
    requires v.page < n
    ensures Image(m[v := page], v.pid, n) == Image(m, v.pid, n)[v.page := page]
  {
  }

  // ---------------------------------------------------------------- fork and exit

  /** `t` has one process more than `s`, of the size of `parent`. */
  ghost predicate OneMore(s: Vm, t: Vm, parent: nat, child: nat) {
    && parent in s.procs && child !in s.procs && t.procs.Keys == s.procs.Keys + {child}
    && t.procs[child].sz == s.procs[parent].sz
    && forall q: nat | q in s.procs :: t.procs[q].sz == s.procs[q].sz
  }

  lemma ForkFlat(s: Vm, t: Vm, parent: nat, child: nat)
    requires OneMore(s, t, parent, child) && (forall v: Virt | v in MemoryOf(s) :: v.pid != child)
    requires MemoryOf(t) == Forked(MemoryOf(s), parent, child)
    ensures Flat(t) == Flat(s)[child := Flat(s)[parent]]
  {
    hide MemoryOf, Forked, Image;
    var m := MemoryOf(s);
    forall q: nat | q in t.procs ensures Flat(t)[q] == if q == child then Flat(s)[parent] else Flat(s)[q] {
      ImageFork(m, parent, child, q, t.procs[q].sz);
    }
  }

  lemma NoPages(s: Vm, pid: nat)
    requires (forall v: Virt :: SizeOk(s, v)) && pid !in s.procs
    ensures forall v: Virt | v in MemoryOf(s) :: v.pid != pid
  {
    forall v: Virt | v in MemoryOf(s) ensures v.pid != pid {
      assert SizeOk(s, v);
    }
  }

  lemma ImageFork(m: Memory, parent: nat, child: nat, q: nat, n: nat)
    requires parent != child && forall v: Virt | v in m :: v.pid != child
    ensures Image(Forked(m, parent, child), q, n) == Image(m, if q == child then parent else q, n)
  {
    var f, o := Forked(m, parent, child), if q == child then parent else q;
    forall page: nat | page < n ensures PageOf(f, Virt(q, page)) == PageOf(m, Virt(o, page)) {
      if q == child && Virt(parent, page) in m {
        assert Virt(child, page) in f;
      }
    }
  }

  lemma ExitFlat(s: Vm, t: Vm, pid: nat)
    requires t.procs == s.procs - {pid} && MemoryOf(t) == Exited(MemoryOf(s), pid)
    ensures Flat(t) == Flat(s) - {pid}
  {
    hide MemoryOf;
    var m, m' := MemoryOf(s), MemoryOf(t);
    forall q: nat | q in t.procs ensures Flat(t)[q] == Flat(s)[q] {
      ImageSame(m, m', q, s.procs[q].sz);
    }
  }

  lemma SpawnFlat(s: Vm, pid: nat, p: Proc)
    requires Good(s) && pid !in s.procs && Unused(p)
    ensures Good(SpawnVm(s, pid, p)) && Flat(SpawnVm(s, pid, p)) == Flat(s)[pid := []]
  {
    SpawnGood(s, pid, p);
    SpawnImages(s, pid, p);
  }

  lemma SpawnImages(s: Vm, pid: nat, p: Proc)
    requires pid !in s.procs && p.sz == 0 && MemoryOf(SpawnVm(s, pid, p)) == MemoryOf(s)
    ensures Flat(SpawnVm(s, pid, p)) == Flat(s)[pid := []]
  {
    hide MemoryOf;
    assert Image(MemoryOf(s), pid, 0) == [];
  }

  // ---------------------------------------------------------------- swapping, reordering, faults

  lemma SwapFlat(s: Vm, pid: nat, i: nat, slot: nat, a: nat)
    requires Good(s) && pid in s.procs && i < |s.procs[pid].list| && LowestFree(s.procs[pid].avail, slot)
    requires a < MAX_TOTAL_PAGES && s.procs[pid].meta[a].state == InDisk
    ensures Inv(OutVm(s, pid, i, slot)) && OutVm(s, pid, i, slot).procs[pid].meta[a].state == InDisk
    ensures var t := OutVm(s, pid, i, slot);
            t.free != [] ==> Good(InVm(t, pid, a)) && Flat(InVm(t, pid, a)) == Flat(s)
  {
    hide Inv, Resting, SizeOk, LowestFree, OutVm, InVm, MemoryOf, Flat;
    SwapGood(s, pid, i, slot, a);
    OutNumbers(s, pid, i, slot);
    var t := OutVm(s, pid, i, slot);
    if t.free != [] {
      InNumbers(t, pid, a);
      SameFlat(s, InVm(t, pid, a));
    }
  }

  lemma TouchFlat(s: Vm, pid: nat, order: seq<nat>)
    requires Good(s) && pid in s.procs && multiset(order) == multiset(s.procs[pid].list)
    ensures var t := TouchVm(s, pid, order, s.procs[pid].hasFile, s.procs[pid].sz); Good(t) && Flat(t) == Flat(s)
  {
    hide Inv, Resting, SizeOk, MemoryOf, Flat;
    TouchGood(s, pid, order);
    SameFlat(s, TouchVm(s, pid, order, s.procs[pid].hasFile, s.procs[pid].sz));
  }

  lemma FaultFlat(s: Vm, v: Virt)
    requires Good(s) && v in s.pt && s.pt[v].Present?
    ensures var t := FaultVm(s, v); Good(t) <==> s.refs[s.pt[v].frame] == 1 || s.free != []
    ensures var t := FaultVm(s, v); Good(t) ==> Flat(t) == Flat(s) && v in t.pt && t.pt[v].Present? && t.pt[v].w
  {
    FaultInv(s, v);
    if s.refs[s.pt[v].frame] == 1 || s.free != [] {
      FaultGood(s, v);
      FaultSame(s, v);
      SameFlat(s, FaultVm(s, v));
    }
  }

  lemma StoredFlat(s: Vm, v: Virt, page: Page)
    requires Good(s) && v in s.pt && s.pt[v].Present? && s.pt[v].w
    ensures v.pid in Flat(s) && v.page < |Flat(s)[v.pid]|
    ensures Good(StoreVm(s, v, page)) && Flat(StoreVm(s, v, page)) == Replaced(Flat(s), v, page)
  {
    FlatAt(s, v);
    StoreGood(s, v, page);
    StoreFlat(s, StoreVm(s, v, page), v, page);
  }

  lemma BornShape(s0: Vm, s: Vm, parent: nat, child: nat)
    requires parent in s0.procs && Forking(s0, s, parent, child, s0.procs[parent].sz)
    ensures child !in s0.procs && parent in s.procs && OneMore(s0, BornVm(s, parent, child), parent, child)
  {
  }

  /** A fork that got to the end. */
  lemma BornFlat(s0: Vm, s: Vm, parent: nat, child: nat)
    requires Good(s0) && parent in s0.procs && Forking(s0, s, parent, child, s0.procs[parent].sz)
    ensures Good(BornVm(s, parent, child)) && Flat(BornVm(s, parent, child)) == Flat(s0)[child := Flat(s0)[parent]]
  {
    BornShape(s0, s, parent, child);
    NoPages(s0, child);
    hide Inv, Resting, SizeOk, MemoryOf, Forking, BornVm, Flat, OneMore, Forked;
    ForkEnd(s0, s, parent, child);
    ForkFlat(s0, BornVm(s, parent, child), parent, child);
  }

  lemma NoChildFlat(s0: Vm, s: Vm, child: nat, n: nat)
    requires Good(s0) && child !in s0.procs && Freeing(s0, s, child, n, n)
    ensures Good(s) && Flat(s) == Flat(s0)
  {
    NoChild(s0, s, child, n);
    SameFlat(s0, s);
  }

  lemma GoneFlat(s0: Vm, s: Vm, pid: nat, n: nat)
    requires Good(s0) && Freeing(s0, s, pid, n, n)
    ensures Good(GoneVm(s, pid)) && Flat(GoneVm(s, pid)) == Flat(s0) - {pid}
  {
    FreeEnd(s0, s, pid, n);
    ExitFlat(s0, GoneVm(s, pid), pid);
  }
}
