/** A page comes back from the swap file, and a process grows by a page (vm.c). */
module VmSwap {
  import opened Common
  import opened Frames
  import opened SwapMeta
  import opened VmCore

  /** The page of a record that is in the swap file. */
  ghost function OnDisk(s: Vm, pid: nat, a: nat): (v: Virt)
    requires Inv(s) && pid in s.procs && a < MAX_TOTAL_PAGES && s.procs[pid].meta[a].state == InDisk
    ensures v.pid == pid && v in s.pt && s.pt[v].Swapped? && EntryFor(s.procs[pid], a, v.page, s.pt[v])
  {
    assert EntryOk(s.procs[pid], a) && RecordMapped(s, pid, a);
    Virt(pid, s.procs[pid].meta[a].id)
  }

  /** getPageFromFile of record `a` of process `pid`, when there is a free frame. */
  ghost function InVm(s: Vm, pid: nat, a: nat): Vm
    requires Inv(s) && pid in s.procs && a < MAX_TOTAL_PAGES && s.procs[pid].meta[a].state == InDisk && s.free != []
  {
    var p, v, f := s.procs[pid], OnDisk(s, pid, a), s.free[0];
    assert EntryOk(p, a);
    Vm(s.mem[f := InFile(p, a)], s.refs[f := 1], s.free[1..], s.pt[v := Present(f, true, false)],
       s.procs[pid := In(p, a)])
  }

  lemma InRecorded(s: Vm, pid: nat, a: nat, u: Virt)
    requires Inv(s) && pid in s.procs && a < MAX_TOTAL_PAGES && s.procs[pid].meta[a].state == InDisk && s.free != []
    requires u in s.pt
    ensures Recorded(InVm(s, pid, a), u)
  {
    hide CountsOk, SharingOk, MetaOk;
    TwoRecords(s.procs[pid], a, a);
    var s', v := InVm(s, pid, a), OnDisk(s, pid, a);
    assert Recorded(s, u);
    var b: nat :| EntryFor(s.procs[u.pid], b, u.page, s.pt[u]);
    assert EntryFor(s'.procs[u.pid], if u == v then a else b, u.page, s'.pt[u]);
  }

  lemma InMapped(s: Vm, pid: nat, a: nat, q: nat, b: nat)
    requires Inv(s) && pid in s.procs && a < MAX_TOTAL_PAGES && s.procs[pid].meta[a].state == InDisk && s.free != []
    requires b < MAX_TOTAL_PAGES
    ensures RecordMapped(InVm(s, pid, a), q, b)
  {
    hide CountsOk, SharingOk, MetaOk;
    TwoRecords(s.procs[pid], a, b);
    assert RecordMapped(s, q, b);
  }

  lemma InInv(s: Vm, pid: nat, a: nat)
    requires Inv(s) && pid in s.procs && a < MAX_TOTAL_PAGES && s.procs[pid].meta[a].state == InDisk && s.free != []
    ensures Inv(InVm(s, pid, a))
  {
    var s', v := InVm(s, pid, a), OnDisk(s, pid, a);
    AllocOk(s.pt, s.refs, s.free, v, true, false);
    SharePrivate(s.pt, v, s.free[0]);
    InOk(s.procs[pid], a);
    forall u: Virt | u in s'.pt ensures Recorded(s', u) {
      InRecorded(s, pid, a, u);
    }
    forall q: nat, b: nat | b < MAX_TOTAL_PAGES ensures RecordMapped(s', q, b) {
      InMapped(s, pid, a, q, b);
    }
  }

  lemma InViewFile(s: Vm, pid: nat, a: nat, u: Virt)
    requires Inv(s) && pid in s.procs && a < MAX_TOTAL_PAGES && s.procs[pid].meta[a].state == InDisk && s.free != []
    requires Recorded(s, u) && s.pt[u].Swapped? && u != OnDisk(s, pid, a)
    ensures SameView(s, InVm(s, pid, a), u)
  {
    hide CountsOk, SharingOk, Agree;
    var s' := InVm(s, pid, a);
    InInv(s, pid, a);
    var b: nat :| EntryFor(s.procs[u.pid], b, u.page, s.pt[u]);
    PageInFile(s, u, b);
    assert EntryFor(s'.procs[u.pid], b, u.page, s'.pt[u]);
    PageInFile(s', u, b);
  }

  lemma InViewMemory(s: Vm, pid: nat, a: nat, u: Virt)
    requires Inv(s) && pid in s.procs && a < MAX_TOTAL_PAGES && s.procs[pid].meta[a].state == InDisk && s.free != []
    requires Recorded(s, u) && s.pt[u].Present?
    ensures SameView(s, InVm(s, pid, a), u)
  {
    hide MetaOk, Agree, SharingOk, RecordMapped;
    TwoRecords(s.procs[pid], a, a);
    InRecorded(s, pid, a, u);
    NotFree(s.pt, s.refs, s.free, u);
  }

  lemma InViewSelf(s: Vm, pid: nat, a: nat)
    requires Inv(s) && pid in s.procs && a < MAX_TOTAL_PAGES && s.procs[pid].meta[a].state == InDisk && s.free != []
    ensures SameView(s, InVm(s, pid, a), OnDisk(s, pid, a))
  {
    hide SharingOk, RefOk, FreeOk;
    var u := OnDisk(s, pid, a);
    assert Recorded(s, u);
    InRecorded(s, pid, a, u);
    PageInFile(s, u, a);
  }

  lemma NothingSeen(s: Vm, t: Vm, u: Virt)
    requires !Recorded(s, u)
    ensures SameView(s, t, u)
  {
  }

  /** Moving a page in changes what no process sees. */
  lemma InView(s: Vm, pid: nat, a: nat, u: Virt)
    requires Inv(s) && pid in s.procs && a < MAX_TOTAL_PAGES && s.procs[pid].meta[a].state == InDisk && s.free != []
    ensures SameView(s, InVm(s, pid, a), u)
  {
    hide Inv, SameView, InVm;
    if Recorded(s, u) {
      if u == OnDisk(s, pid, a) {
        InViewSelf(s, pid, a);
      } else if s.pt[u].Swapped? {
        InViewFile(s, pid, a, u);
      } else {
        InViewMemory(s, pid, a, u);
      }
    } else {
      assert SameView(s, InVm(s, pid, a), u) by {
        NothingSeen(s, InVm(s, pid, a), u);
      }
    }
  }

  // ---------------------------------------------------------------- growth

  /** The end of the loop body of allocuvm: a zeroed frame for a new page, recorded in record `a`. */
  ghost function NewVm(s: Vm, pid: nat, a: nat, page: nat): Vm
    requires Inv(s) && pid in s.procs && a < MAX_TOTAL_PAGES && s.free != []
  {
    var f := s.free[0];
    assert f in s.free;
    Vm(s.mem[f := Zeroes()], s.refs[f := 1], s.free[1..], s.pt[Virt(pid, page) := Present(f, true, false)],
       s.procs[pid := Added(s.procs[pid], a, page)])
  }

  lemma NewId(s: Vm, pid: nat, page: nat, b: nat)
    requires Inv(s) && pid in s.procs && Virt(pid, page) !in s.pt && b < MAX_TOTAL_PAGES
    ensures s.procs[pid].meta[b].id != page
  {
    assert RecordMapped(s, pid, b);
  }

  lemma NewInv(s: Vm, pid: nat, a: nat, page: nat)
    requires Inv(s) && pid in s.procs && a < MAX_TOTAL_PAGES && s.procs[pid].meta[a].state == NotUsed && s.free != []
    requires Virt(pid, page) !in s.pt
    ensures Inv(NewVm(s, pid, a, page))
  {
    hide CountsOk, SharingOk, MetaOk, RecordMapped;
    var s', v := NewVm(s, pid, a, page), Virt(pid, page);
    TwoRecords(s.procs[pid], a, a);
    AllocOk(s.pt, s.refs, s.free, v, true, false);
    SharePrivate(s.pt, v, s.free[0]);
    forall b: nat | b < MAX_TOTAL_PAGES ensures s.procs[pid].meta[b].id != page {
      NewId(s, pid, page, b);
    }
    AddedOk(s.procs[pid], a, page);
    forall u: Virt | u in s'.pt ensures Recorded(s', u) {
      NewRecorded(s, pid, a, page, u);
    }
    forall q: nat, b: nat | b < MAX_TOTAL_PAGES ensures RecordMapped(s', q, b) {
      NewMapped(s, pid, a, page, q, b);
    }
  }

  lemma NewMapped(s: Vm, pid: nat, a: nat, page: nat, q: nat, b: nat)
    requires Inv(s) && pid in s.procs && a < MAX_TOTAL_PAGES && s.procs[pid].meta[a].state == NotUsed && s.free != []
    requires Virt(pid, page) !in s.pt && b < MAX_TOTAL_PAGES
    ensures RecordMapped(NewVm(s, pid, a, page), q, b)
  {
    hide CountsOk, SharingOk, MetaOk;
    TwoRecords(s.procs[pid], a, b);
    assert RecordMapped(s, q, b);
  }

  lemma NewRecorded(s: Vm, pid: nat, a: nat, page: nat, u: Virt)
    requires Inv(s) && pid in s.procs && a < MAX_TOTAL_PAGES && s.procs[pid].meta[a].state == NotUsed && s.free != []
    requires Virt(pid, page) !in s.pt && (u in s.pt || u == Virt(pid, page))
    ensures Recorded(NewVm(s, pid, a, page), u)
  {
    hide CountsOk, SharingOk, MetaOk;
    var s' := NewVm(s, pid, a, page);
    TwoRecords(s.procs[pid], a, a);
    if u == Virt(pid, page) {
      assert EntryFor(s'.procs[pid], a, page, s'.pt[u]);
    } else {
      assert Recorded(s, u);
      var b: nat :| EntryFor(s.procs[u.pid], b, u.page, s.pt[u]);
      assert EntryFor(s'.procs[u.pid], b, u.page, s'.pt[u]);
    }
  }

  /** A new page is all zero, and no other page changes. */
  lemma NewView(s: Vm, pid: nat, a: nat, page: nat, u: Virt)
    requires Inv(s) && pid in s.procs && a < MAX_TOTAL_PAGES && s.procs[pid].meta[a].state == NotUsed && s.free != []
    requires Virt(pid, page) !in s.pt
    ensures SameView(s, NewVm(s, pid, a, page), u)
    ensures Recorded(NewVm(s, pid, a, page), Virt(pid, page))
      && PageAt(NewVm(s, pid, a, page), Virt(pid, page)) == Zeroes()
  {
    hide MetaOk, Agree, SharingOk;
    NewRecorded(s, pid, a, page, Virt(pid, page));
    if Recorded(s, u) {
      if s.pt[u].Swapped? {
        NewViewFile(s, pid, a, page, u);
      } else {
        NewRecorded(s, pid, a, page, u);
        NotFree(s.pt, s.refs, s.free, u);
      }
    }
  }

  lemma NewViewFile(s: Vm, pid: nat, a: nat, page: nat, u: Virt)
    requires Inv(s) && pid in s.procs && a < MAX_TOTAL_PAGES && s.procs[pid].meta[a].state == NotUsed && s.free != []
    requires Virt(pid, page) !in s.pt && Recorded(s, u) && s.pt[u].Swapped?
    ensures SameView(s, NewVm(s, pid, a, page), u)
  {
    hide CountsOk, SharingOk, Agree;
    var s' := NewVm(s, pid, a, page);
    NewInv(s, pid, a, page);
    var b: nat :| EntryFor(s.procs[u.pid], b, u.page, s.pt[u]);
    PageInFile(s, u, b);
    assert EntryFor(s'.procs[u.pid], b, u.page, s'.pt[u]);
    PageInFile(s', u, b);
  }
}
