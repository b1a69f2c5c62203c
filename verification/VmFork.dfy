/** Whole forks and exits (vm.c, proc.c): the loops over the pages of a process, also when they stop in
    the middle, and the memories that processes see afterwards.
 */
module VmFork {
  import opened Frames
  import opened VmCore
  import opened VmCow
  import opened VmSteps

  /** The child of `parent` has a copy of each page of it. */
  ghost function Forked(m: Memory, parent: nat, child: nat): Memory {
    m + map v | v in m && v.pid == parent :: Virt(child, v.page) := m[v]
  }

  ghost function Exited(m: Memory, pid: nat): Memory {
    map v | v in m && v.pid != pid :: m[v]
  }

  ghost predicate Untouched(s0: Vm, s: Vm, v: Virt) {
    SameKind(s0.pt, s.pt, v) && SameView(s0, s, v)
  }

  /** Other processes than `x` have the same pages with the same contents, in memory or on the disk as before. */
  ghost predicate Outside(s0: Vm, s: Vm, x: nat) {
    s.procs == s0.procs && forall v: Virt | v.pid != x :: Untouched(s0, s, v)
  }

  lemma OutsideStep(s0: Vm, s: Vm, t: Vm, x: nat)
    requires Outside(s0, s, x) && Outside(s, t, x)
    ensures Outside(s0, t, x)
  {
    forall v: Virt | v.pid != x ensures Untouched(s0, t, v) {
      assert Untouched(s0, s, v) && Untouched(s, t, v);
    }
  }

  // ---------------------------------------------------------------- copyuvm

  /** The first `k` pages of the child are mapped as those of the parent. */
  ghost predicate ChildOk(pt: PageTable, parent: nat, child: nat, k: nat, page: nat) {
    && (Virt(child, page) in pt <==> page < k)
    && (page < k ==> Virt(parent, page) in pt && pt[Virt(child, page)] == pt[Virt(parent, page)])
  }

  ghost predicate Forking(s0: Vm, s: Vm, parent: nat, child: nat, k: nat) {
    && child !in s0.procs && parent in s0.procs && InvBut(s, child) && Outside(s0, s, child)
    && forall page: nat :: ChildOk(s.pt, parent, child, k, page)
  }

  lemma ForkStart(s: Vm, parent: nat, child: nat)
    requires Good(s) && parent in s.procs && child !in s.procs
    ensures Forking(s, s, parent, child, 0)
  {
    forall page: nat ensures ChildOk(s.pt, parent, child, 0, page) {
      assert SizeOk(s, Virt(child, page));
    }
  }

  lemma ForkTurn(s0: Vm, s: Vm, parent: nat, child: nat, k: nat)
    requires Forking(s0, s, parent, child, k) && Virt(parent, k) in s.pt
    ensures Forking(s0, ShareVm(s, Virt(parent, k), Virt(child, k)), parent, child, k + 1)
  {
    var v, u := Virt(parent, k), Virt(child, k);
    var t := ShareVm(s, v, u);
    assert ChildOk(s.pt, parent, child, k, k);
    ShareInv(s, v, u);
    forall z: Virt | z.pid != child ensures Untouched(s, t, z) {
      ShareView(s, v, u, z);
    }
    OutsideStep(s0, s, t, child);
    var next := k + 1;
    forall page: nat ensures ChildOk(t.pt, parent, child, next, page) {
      assert ChildOk(s.pt, parent, child, k, page);
    }
  }

  /** fork with all pages shared and the metadata copied: the child has a copy of the parent's memory, and
      nobody else sees a change. */
  lemma ForkEnd(s0: Vm, s: Vm, parent: nat, child: nat)
    requires Good(s0) && parent in s0.procs && Forking(s0, s, parent, child, s0.procs[parent].sz)
    ensures Good(BornVm(s, parent, child)) && MemoryOf(BornVm(s, parent, child)) == Forked(MemoryOf(s0), parent, child)
  {
    var n := s0.procs[parent].sz;
    forall page: nat ensures Cloned(s.pt, parent, child, page) {
      assert ChildOk(s.pt, parent, child, n, page);
      assert SizeOk(s0, Virt(parent, page)) && Untouched(s0, s, Virt(parent, page));
    }
    BornInv(s, parent, child);
    BornSizes(s0, s, parent, child);
    BornMemory(s0, s, parent, child, n);
  }

  lemma BornSizes(s0: Vm, s: Vm, parent: nat, child: nat)
    requires Good(s0) && parent in s0.procs && Forking(s0, s, parent, child, s0.procs[parent].sz)
    ensures Resting(BornVm(s, parent, child)) && forall v: Virt :: SizeOk(BornVm(s, parent, child), v)
  {
    var t := BornVm(s, parent, child);
    forall v: Virt ensures SizeOk(t, v) {
      if v.pid == child {
        assert ChildOk(s.pt, parent, child, s0.procs[parent].sz, v.page);
      } else {
        assert SizeOk(s0, v) && Untouched(s0, s, v);
      }
    }
  }

  lemma BornPage(s0: Vm, s: Vm, parent: nat, child: nat, n: nat, v: Virt)
    requires Agree(s0) && Forking(s0, s, parent, child, n)
    requires v in s.pt && forall page: nat :: Cloned(s.pt, parent, child, page)
    ensures var t, w := BornVm(s, parent, child), Origin(v, parent, child);
            Recorded(t, v) && Recorded(s0, w) && PageAt(t, v) == PageAt(s0, w)
  {
    var w := Origin(v, parent, child);
    assert Cloned(s.pt, parent, child, v.page);
    BornView(s, parent, child, v);
    assert Untouched(s0, s, w);
    assert Recorded(s0, w);
  }

  lemma BornMemory(s0: Vm, s: Vm, parent: nat, child: nat, n: nat)
    requires Agree(s0) && Forking(s0, s, parent, child, n)
    requires forall page: nat :: Cloned(s.pt, parent, child, page)
    ensures MemoryOf(BornVm(s, parent, child)) == Forked(MemoryOf(s0), parent, child)
  {
    assert parent in s.procs;
    hide *;
    var t := BornVm(s, parent, child);
    var m := Forked(MemoryOf(s0), parent, child);
    forall v: Virt ensures SameAt(m, MemoryOf(t), v) {
      BornAt(s0, s, parent, child, n, v);
    }
    SameEverywhere(m, MemoryOf(t));
  }

  lemma BornAt(s0: Vm, s: Vm, parent: nat, child: nat, n: nat, v: Virt)
    requires Agree(s0) && Forking(s0, s, parent, child, n)
    requires forall page: nat :: Cloned(s.pt, parent, child, page)
    ensures SameAt(Forked(MemoryOf(s0), parent, child), MemoryOf(BornVm(s, parent, child)), v)
  {
    BornDomain(s0, s, parent, child, n, v);
    if v in s.pt {
      BornPage(s0, s, parent, child, n, v);
    }
  }

  lemma ForkedAt(m: Memory, parent: nat, child: nat, v: Virt)
    requires parent != child && (v.pid == child ==> v !in m)
    ensures v in Forked(m, parent, child) <==> Origin(v, parent, child) in m
    ensures v in Forked(m, parent, child) ==> Forked(m, parent, child)[v] == m[Origin(v, parent, child)]
  {
    if v.pid == child && Virt(parent, v.page) in m {
      assert Virt(child, v.page) in Forked(m, parent, child);
    }
  }

  lemma BornDomain(s0: Vm, s: Vm, parent: nat, child: nat, n: nat, v: Virt)
    requires Agree(s0) && Forking(s0, s, parent, child, n)
    requires forall page: nat :: Cloned(s.pt, parent, child, page)
    ensures v in MemoryOf(BornVm(s, parent, child)) <==> v in s.pt
    ensures v in Forked(MemoryOf(s0), parent, child) <==> v in s.pt
    ensures v in s.pt ==>
        && Recorded(s0, Origin(v, parent, child))
        && Forked(MemoryOf(s0), parent, child)[v] == PageAt(s0, Origin(v, parent, child))
  {
    hide InvBut, Forked;
    var w := Origin(v, parent, child);
    assert Cloned(s.pt, parent, child, v.page) && Untouched(s0, s, w);
    ForkedAt(MemoryOf(s0), parent, child, v);
    if v in s.pt {
      BornPage(s0, s, parent, child, n, v);
    }
  }

  // ---------------------------------------------------------------- freevm

  /** Of the pages of `x`, those below `k` are gone. */
  ghost predicate RestOk(pt: PageTable, x: nat, k: nat, n: nat, page: nat) {
    Virt(x, page) in pt ==> k <= page < n
  }

  ghost predicate Freeing(s0: Vm, s: Vm, x: nat, k: nat, n: nat) {
    InvBut(s, x) && Outside(s0, s, x) && forall page: nat :: RestOk(s.pt, x, k, n, page)
  }

  /** copyuvm cannot map page `k` of the child: it has write-protected the page of the parent already. */
  ghost function ProtectVm(s: Vm, v: Virt): Vm
    requires v in s.pt
  {
    s.(pt := s.pt[v := Shared(s.pt[v])])
  }

  lemma ProtectInv(s: Vm, v: Virt, x: nat)
    requires InvBut(s, x) && v in s.pt && v.pid != x
    ensures InvBut(ProtectVm(s, v), x)
  {
    var t, e := ProtectVm(s, v), s.pt[v];
    if e.Present? && e.w {
      FlagsOk(s.pt, s.refs, s.free, v, false, true);
      ShareReadOnly(s.pt, v);
    } else {
      assert t.pt == s.pt;
    }
    assert SameRecords(s, t, x);
    RecordsKept(s, t, x);
  }

  lemma ProtectView(s: Vm, v: Virt, x: nat, z: Virt)
    requires InvBut(s, x) && v in s.pt && v.pid != x && z.pid != x
    ensures SameView(s, ProtectVm(s, v), z)
  {
    var t := ProtectVm(s, v);
    assert SameRecords(s, t, x);
    if Recorded(s, z) {
      if s.pt[z].Swapped? {
        FileViewKept(s, t, x, z);
      } else {
        assert SameKind(s.pt, t.pt, z);
        RecordKept(s, t, x, z);
      }
    }
  }

  lemma ForkFails(s0: Vm, s: Vm, parent: nat, child: nat, k: nat)
    requires Forking(s0, s, parent, child, k) && Virt(parent, k) in s.pt && parent != child
    ensures Freeing(s0, ProtectVm(s, Virt(parent, k)), child, 0, k)
  {
    var v := Virt(parent, k);
    var t := ProtectVm(s, v);
    ProtectInv(s, v, child);
    forall z: Virt | z.pid != child ensures Untouched(s, t, z) {
      ProtectView(s, v, child, z);
    }
    OutsideStep(s0, s, t, child);
    forall page: nat ensures RestOk(t.pt, child, 0, k, page) {
      assert ChildOk(s.pt, parent, child, k, page);
    }
  }

  lemma FreeStart(s: Vm, x: nat)
    requires Good(s) && x in s.procs
    ensures Freeing(s, s, x, 0, s.procs[x].sz)
  {
    forall page: nat ensures RestOk(s.pt, x, 0, s.procs[x].sz, page) {
      assert SizeOk(s, Virt(x, page));
    }
  }

  lemma FreeTurn(s0: Vm, s: Vm, x: nat, k: nat, n: nat)
    requires Freeing(s0, s, x, k, n) && Virt(x, k) in s.pt
    ensures var e := s.pt[Virt(x, k)]; e.Present? ==> e.frame < |s.refs| && s.refs[e.frame] > 0
    ensures Freeing(s0, DropVm(s, Virt(x, k)), x, k + 1, n)
  {
    var u := Virt(x, k);
    DropInv(s, u);
    var t := DropVm(s, u);
    forall z: Virt | z.pid != x ensures Untouched(s, t, z) {
      DropView(s, u, z);
    }
    OutsideStep(s0, s, t, x);
    var next := k + 1;
    forall page: nat ensures RestOk(t.pt, x, next, n, page) {
      assert RestOk(s.pt, x, k, n, page);
    }
  }

  /** With all its pages freed a process is gone, and the others see what they saw. */
  lemma FreeEnd(s0: Vm, s: Vm, x: nat, n: nat)
    requires Good(s0) && Freeing(s0, s, x, n, n)
    ensures Good(GoneVm(s, x)) && MemoryOf(GoneVm(s, x)) == Exited(MemoryOf(s0), x)
  {
    var t := GoneVm(s, x);
    forall v: Virt | v in s.pt ensures v.pid != x {
      assert RestOk(s.pt, x, n, n, v.page);
    }
    GoneInv(s, x);
    forall v: Virt ensures SizeOk(t, v) {
      assert SizeOk(s0, v);
      if v.pid != x {
        assert Untouched(s0, s, v);
      }
    }
    GoneMemory(s0, s, x);
  }

  lemma GoneMemory(s0: Vm, s: Vm, x: nat)
    requires Agree(s0) && InvBut(s, x) && Outside(s0, s, x) && forall v: Virt | v in s.pt :: v.pid != x
    ensures MemoryOf(GoneVm(s, x)) == Exited(MemoryOf(s0), x)
  {
    hide *;
    var t := GoneVm(s, x);
    var m := Exited(MemoryOf(s0), x);
    forall v: Virt ensures SameAt(m, MemoryOf(t), v) {
      GoneAt(s0, s, x, v);
    }
    SameEverywhere(m, MemoryOf(t));
  }

  lemma GoneAt(s0: Vm, s: Vm, x: nat, v: Virt)
    requires Agree(s0) && InvBut(s, x) && Outside(s0, s, x) && forall v: Virt | v in s.pt :: v.pid != x
    ensures SameAt(Exited(MemoryOf(s0), x), MemoryOf(GoneVm(s, x)), v)
  {
    hide InvBut, Outside;
    GonePage(s0, s, x, v);
  }

  lemma GonePage(s0: Vm, s: Vm, x: nat, v: Virt)
    requires Agree(s0) && InvBut(s, x) && Outside(s0, s, x) && forall v: Virt | v in s.pt :: v.pid != x
    ensures var t := GoneVm(s, x); v in MemoryOf(t) <==> v in s0.pt && v.pid != x
    ensures v in s0.pt && v.pid != x ==> Recorded(s0, v) && MemoryOf(GoneVm(s, x))[v] == PageAt(s0, v)
    ensures v in MemoryOf(s0) <==> v in s0.pt
  {
    if v in s0.pt {
      assert Recorded(s0, v);
    }
    if v.pid != x {
      assert Untouched(s0, s, v);
      GoneView(s, x, v);
    }
  }

  lemma SameProcs(s0: Vm, s: Vm, x: nat, n: nat)
    requires x !in s0.procs && Freeing(s0, s, x, n, n)
    ensures GoneVm(s, x) == s
  {
    assert s.procs - {x} == s.procs;
  }

  /** A fork that fails has changed what nobody sees. */
  lemma NoChild(s0: Vm, s: Vm, child: nat, n: nat)
    requires Good(s0) && child !in s0.procs && Freeing(s0, s, child, n, n)
    ensures Good(s) && MemoryOf(s) == MemoryOf(s0)
  {
    hide Freeing, Inv, Resting;
    FreeEnd(s0, s, child, n);
    SameProcs(s0, s, child, n);
    NoneExited(s0, child);
  }

  lemma NoneExited(s: Vm, x: nat)
    requires x !in s.procs && forall v: Virt :: SizeOk(s, v)
    ensures Exited(MemoryOf(s), x) == MemoryOf(s)
  {
    forall v: Virt | v in MemoryOf(s) ensures v.pid != x {
      assert SizeOk(s, v);
    }
  }
}
