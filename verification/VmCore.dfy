/** Copy-on-write and swapping together (vm.c, trap.c, kalloc.c, proc.c): page tables, frames and swap
    files of all processes, and the private memory that each process sees through them.
 */
module VmCore {
  import opened Common
  import opened Frames
  import opened SwapMeta

  /** The whole state: frames and their counts, the free list, all page tables, all paging metadata. */
  datatype Vm = Vm(mem: seq<Page>, refs: seq<nat>, free: seq<nat>, pt: PageTable, procs: map<nat, Proc>)

  function Zeroes(): Page {
    seq(PGSIZE, i => 0)
  }

  /** What kfree fills a freed frame with. */
  function Junk(): Page {
    seq(PGSIZE, i => 1)
  }

  // ---------------------------------------------------------------- what processes see

  /** Record `a` is the record of `page`, and says what the page table entry says. */
  ghost predicate EntryFor(p: Proc, a: nat, page: nat, e: Pte) {
    && a < MAX_TOTAL_PAGES && a < |p.meta| && p.meta[a].id == page
    && p.meta[a].state == if e.Present? then InMemory else InDisk
  }

  ghost predicate Recorded(s: Vm, v: Virt) {
    v in s.pt && v.pid in s.procs && exists a: nat :: EntryFor(s.procs[v.pid], a, v.page, s.pt[v])
  }

  ghost predicate RecordMapped(s: Vm, pid: nat, a: nat) {
    pid in s.procs && a < |s.procs[pid].meta| && s.procs[pid].meta[a].id >= 0 ==>
      var page := s.procs[pid].meta[a].id;
      Virt(pid, page) in s.pt && EntryFor(s.procs[pid], a, page, s.pt[Virt(pid, page)])
  }

  /** Page tables and metadata say the same. */
  ghost predicate Agree(s: Vm) {
    && (forall v: Virt | v in s.pt :: Recorded(s, v))
    && (forall pid: nat, a: nat | a < MAX_TOTAL_PAGES :: RecordMapped(s, pid, a))
  }

  /** The contents of a page: its frame, or its slot of the swap file. */
  ghost function PageAt(s: Vm, v: Virt): Page
    requires Recorded(s, v)
  {
    if s.pt[v].Present? then
      if s.pt[v].frame < |s.mem| then s.mem[s.pt[v].frame] else Zeroes()
    else
      var a: nat :| EntryFor(s.procs[v.pid], a, v.page, s.pt[v]);
      InFile(s.procs[v.pid], a)
  }

  ghost function InFile(p: Proc, a: nat): Page
    requires a < |p.meta|
  {
    if 0 <= p.meta[a].slot < |p.file| then p.file[p.meta[a].slot] else Zeroes()
  }

  ghost predicate ProcsOk(s: Vm) {
    forall pid: nat | pid in s.procs :: MetaOk(s.procs[pid])
  }

  ghost predicate Resting(s: Vm) {
    forall pid: nat | pid in s.procs :: AtRest(s.procs[pid])
  }

  /** What holds at every point, also in the middle of a swap. */
  ghost predicate Inv(s: Vm) {
    && |s.mem| == |s.refs| && CountsOk(s.pt, s.refs, s.free) && SharingOk(s.pt)
    && ProcsOk(s) && Agree(s)
  }

  /** A page in the swap file is found through its only record. */
  lemma PageInFile(s: Vm, v: Virt, a: nat)
    requires Recorded(s, v) && MetaOk(s.procs[v.pid]) && s.pt[v].Swapped?
      && EntryFor(s.procs[v.pid], a, v.page, s.pt[v])
    ensures PageAt(s, v) == InFile(s.procs[v.pid], a)
  {
    var p := s.procs[v.pid];
    forall b: nat | EntryFor(p, b, v.page, s.pt[v]) ensures b == a {
      assert Apart(p.meta, a, b);
    }
  }

  /** Every page of `before` is still there with the same contents. */
  ghost predicate SameView(before: Vm, after: Vm, v: Virt) {
    Recorded(before, v) ==> Recorded(after, v) && PageAt(after, v) == PageAt(before, v)
  }

  // ---------------------------------------------------------------- a page goes out

  /** The page at position `i` of the list of resident pages. */
  ghost function Resident(s: Vm, pid: nat, i: nat): (v: Virt)
    requires Inv(s) && pid in s.procs && i < |s.procs[pid].list|
    ensures v.pid == pid && v in s.pt && s.pt[v].Present? && s.pt[v].frame < |s.mem|
    ensures EntryFor(s.procs[pid], s.procs[pid].list[i], v.page, s.pt[v])
  {
    var p := s.procs[pid];
    var a := p.list[i];
    assert EntryOk(p, a) && RecordMapped(s, pid, a);
    Virt(pid, p.meta[a].id)
  }

  /** moveToDisk of the page at position `i` of the list of process `pid`, into slot `slot`. */
  ghost function OutVm(s: Vm, pid: nat, i: nat, slot: nat): Vm
    requires Inv(s) && pid in s.procs && i < |s.procs[pid].list| && LowestFree(s.procs[pid].avail, slot)
  {
    var p, v := s.procs[pid], Resident(s, pid, i);
    var f := s.pt[v].frame;
    DropOk(s.pt, s.refs, s.free, v);
    SlotFits(p, slot);
    var n := s.refs[f] - 1;
    Vm(if n == 0 then s.mem[f := Junk()] else s.mem, s.refs[f := n], Freed(s.free, f, n), s.pt[v := Swapped],
       s.procs[pid := Out(p, i, slot, s.mem[f])])
  }

  lemma OutRecorded(s: Vm, pid: nat, i: nat, slot: nat, u: Virt)
    requires Inv(s) && pid in s.procs && i < |s.procs[pid].list| && LowestFree(s.procs[pid].avail, slot) && u in s.pt
    ensures Recorded(OutVm(s, pid, i, slot), u)
  {
    hide CountsOk, SharingOk, ProcsOk;
    var s', p, v := OutVm(s, pid, i, slot), s.procs[pid], Resident(s, pid, i);
    assert Recorded(s, u);
    var b: nat :| EntryFor(s.procs[u.pid], b, u.page, s.pt[u]);
    if u == v {
      assert EntryFor(s'.procs[pid], p.list[i], v.page, s'.pt[v]);
    } else {
      assert EntryFor(s'.procs[u.pid], b, u.page, s'.pt[u]);
    }
  }

  lemma OutMapped(s: Vm, pid: nat, i: nat, slot: nat, q: nat, b: nat)
    requires Inv(s) && pid in s.procs && i < |s.procs[pid].list| && LowestFree(s.procs[pid].avail, slot)
      && b < MAX_TOTAL_PAGES
    ensures RecordMapped(OutVm(s, pid, i, slot), q, b)
  {
    hide CountsOk, SharingOk, MetaOk, EntryOk;
    var p := s.procs[pid];
    ListedRecord(p, i);
    TwoRecords(p, p.list[i], b);
    assert RecordMapped(s, q, b);
  }

  lemma OutInv(s: Vm, pid: nat, i: nat, slot: nat)
    requires Inv(s) && pid in s.procs && i < |s.procs[pid].list| && LowestFree(s.procs[pid].avail, slot)
      && s.procs[pid].hasFile
    ensures Inv(OutVm(s, pid, i, slot))
  {
    var s', v := OutVm(s, pid, i, slot), Resident(s, pid, i);
    DropOk(s.pt, s.refs, s.free, v);
    ShareDrop(s.pt, v);
    SlotFits(s.procs[pid], slot);
    OutOk(s.procs[pid], i, slot, s.mem[s.pt[v].frame]);
    forall u: Virt | u in s'.pt ensures Recorded(s', u) {
      OutRecorded(s, pid, i, slot, u);
    }
    forall q: nat, b: nat | b < MAX_TOTAL_PAGES ensures RecordMapped(s', q, b) {
      OutMapped(s, pid, i, slot, q, b);
    }
  }

  /** A frame that is freed is mapped by no page but the one that gives it up. */
  lemma FreedFrame(s: Vm, v: Virt, u: Virt)
    requires Inv(s) && v in s.pt && s.pt[v].Present? && s.refs[s.pt[v].frame] == 1
    ensures Maps(s.pt, u, s.pt[v].frame) ==> u == v
  {
    OnlyMapper(s.pt, s.refs, s.free, v, u);
  }

  lemma OutViewSelf(s: Vm, pid: nat, i: nat, slot: nat)
    requires Inv(s) && pid in s.procs && i < |s.procs[pid].list| && LowestFree(s.procs[pid].avail, slot)
      && s.procs[pid].hasFile
    ensures SameView(s, OutVm(s, pid, i, slot), Resident(s, pid, i))
  {
    var s', p, v := OutVm(s, pid, i, slot), s.procs[pid], Resident(s, pid, i);
    OutInv(s, pid, i, slot);
    OutRecorded(s, pid, i, slot, v);
    SlotFits(p, slot);
    PageInFile(s', v, p.list[i]);
  }

  lemma OutKeepsFile(p: Proc, i: nat, slot: nat, page: Page, b: nat)
    requires MetaOk(p) && i < |p.list| && LowestFree(p.avail, slot) && slot <= |p.file|
    requires b < MAX_TOTAL_PAGES && p.meta[b].state == InDisk
    ensures Out(p, i, slot, page).meta[b] == p.meta[b] && InFile(Out(p, i, slot, page), b) == InFile(p, b)
  {
    assert EntryOk(p, b) && EntryOk(p, p.list[i]);
  }

  lemma OutViewFile(s: Vm, pid: nat, i: nat, slot: nat, u: Virt)
    requires Inv(s) && pid in s.procs && i < |s.procs[pid].list| && LowestFree(s.procs[pid].avail, slot)
      && s.procs[pid].hasFile
    requires Recorded(s, u) && s.pt[u].Swapped?
    ensures SameView(s, OutVm(s, pid, i, slot), u)
  {
    var s', p := OutVm(s, pid, i, slot), s.procs[pid];
    OutInv(s, pid, i, slot);
    OutRecorded(s, pid, i, slot, u);
    var b: nat :| EntryFor(s.procs[u.pid], b, u.page, s.pt[u]);
    PageInFile(s, u, b);
    SlotFits(p, slot);
    if u.pid == pid {
      OutKeepsFile(p, i, slot, s.mem[s.pt[Resident(s, pid, i)].frame], b);
    }
    PageInFile(s', u, b);
  }

  lemma OutViewMemory(s: Vm, pid: nat, i: nat, slot: nat, u: Virt)
    requires Inv(s) && pid in s.procs && i < |s.procs[pid].list| && LowestFree(s.procs[pid].avail, slot)
      && s.procs[pid].hasFile
    requires Recorded(s, u) && s.pt[u].Present? && u != Resident(s, pid, i)
    ensures SameView(s, OutVm(s, pid, i, slot), u)
  {
    var v := Resident(s, pid, i);
    OutRecorded(s, pid, i, slot, u);
    if s.refs[s.pt[v].frame] == 1 {
      FreedFrame(s, v, u);
    }
  }

  /** Moving a page out changes what no process sees. */
  lemma OutView(s: Vm, pid: nat, i: nat, slot: nat, u: Virt)
    requires Inv(s) && pid in s.procs && i < |s.procs[pid].list| && LowestFree(s.procs[pid].avail, slot)
      && s.procs[pid].hasFile
    ensures SameView(s, OutVm(s, pid, i, slot), u)
  {
    if Recorded(s, u) {
      if u == Resident(s, pid, i) {
        OutViewSelf(s, pid, i, slot);
      } else if s.pt[u].Swapped? {
        OutViewFile(s, pid, i, slot, u);
      } else {
        OutViewMemory(s, pid, i, slot, u);
      }
    }
  }
}
