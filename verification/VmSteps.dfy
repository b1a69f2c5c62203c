/** What each operation on the memory of processes does to the flat memories that they see (vm.c, trap.c,
    proc.c).
 */
module VmSteps {
  import opened Common
  import opened Frames
  import opened SwapMeta
  import opened VmCore
  import opened VmSwap
  import opened VmCow

  /** The memory that processes see: a page of bytes for each page that a process has. */
  type Memory = map<Virt, Page>

  ghost function MemoryOf(s: Vm): Memory {
    map v | v in s.pt && Recorded(s, v) :: PageAt(s, v)
  }

  /** A process has the pages below its size. */
  ghost predicate SizeOk(s: Vm, v: Virt) {
    v in s.pt <==> v.pid in s.procs && v.page < s.procs[v.pid].sz
  }

  /** What holds between the turns of a growth. */
  ghost predicate Calm(s: Vm) {
    Inv(s) && Resting(s)
  }

  /** What holds between operations. */
  ghost predicate Good(s: Vm) {
    Inv(s) && Resting(s) && forall v: Virt :: SizeOk(s, v)
  }

  ghost predicate SameAt(m: Memory, m': Memory, v: Virt) {
    (v in m <==> v in m') && (v in m ==> m[v] == m'[v])
  }

  lemma SameEverywhere(m: Memory, m': Memory)
    requires forall v: Virt :: SameAt(m, m', v)
    ensures m' == m
  {
    assert forall v: Virt :: v in m <==> v in m' by {
      forall v: Virt ensures v in m <==> v in m' {
        assert SameAt(m, m', v);
      }
    }
    assert forall v: Virt | v in m :: m[v] == m'[v] by {
      forall v: Virt | v in m ensures m[v] == m'[v] {
        assert SameAt(m, m', v);
      }
    }
  }

  lemma SameMemory(s: Vm, t: Vm)
    requires Agree(s) && s.pt.Keys == t.pt.Keys && forall v: Virt :: SameView(s, t, v)
    ensures MemoryOf(t) == MemoryOf(s)
  {
    forall v: Virt | v in s.pt ensures v in MemoryOf(s) && v in MemoryOf(t) && MemoryOf(t)[v] == MemoryOf(s)[v] {
      assert Recorded(s, v) && SameView(s, t, v);
    }
  }

  lemma SameSizes(s: Vm, t: Vm)
    requires s.pt.Keys == t.pt.Keys && s.procs.Keys == t.procs.Keys
    requires forall pid: nat | pid in s.procs :: s.procs[pid].sz == t.procs[pid].sz
    requires forall v: Virt :: SizeOk(s, v)
    ensures forall v: Virt :: SizeOk(t, v)
  {
    forall v: Virt ensures SizeOk(t, v) {
      assert SizeOk(s, v);
    }
  }

  lemma ProcOk(s: Vm, pid: nat)
    requires Inv(s) && pid in s.procs
    ensures MetaOk(s.procs[pid])
  {
  }

  // ---------------------------------------------------------------- swapping

  /** `t` differs from `s` in the pages of one process, which has `ram` and `disk` pages afterwards. */
  ghost predicate Numbers(s: Vm, t: Vm, pid: nat, ram: int, disk: int) {
    && s.pt.Keys == t.pt.Keys && pid in s.procs && pid in t.procs && t.procs == s.procs[pid := t.procs[pid]]
    && t.procs[pid].nram == ram && t.procs[pid].ndisk == disk && t.procs[pid].sz == s.procs[pid].sz
  }

  lemma OutNumbers(s: Vm, pid: nat, i: nat, slot: nat)
    requires Inv(s) && pid in s.procs && i < |s.procs[pid].list| && LowestFree(s.procs[pid].avail, slot)
    ensures Numbers(s, OutVm(s, pid, i, slot), pid, s.procs[pid].nram - 1, s.procs[pid].ndisk + 1)
  {
    assert MetaOk(s.procs[pid]);
    SlotFits(s.procs[pid], slot);
  }

  lemma InNumbers(s: Vm, pid: nat, a: nat)
    requires Inv(s) && pid in s.procs && a < MAX_TOTAL_PAGES && s.procs[pid].meta[a].state == InDisk && s.free != []
    ensures Numbers(s, InVm(s, pid, a), pid, s.procs[pid].nram + 1, s.procs[pid].ndisk - 1)
  {
    CountSome(s.procs[pid].meta, a);
    assert MetaOk(s.procs[pid]) && EntryOk(s.procs[pid], a);
  }

  lemma NumbersGood(s: Vm, t: Vm, pid: nat)
    requires Inv(t) && Resting(s) && (forall v: Virt :: SizeOk(s, v)) && pid in s.procs && pid in t.procs
    requires Numbers(s, t, pid, t.procs[pid].nram, t.procs[pid].ndisk) && AtRest(t.procs[pid])
    ensures Good(t)
  {
    hide Inv;
    SameSizes(s, t);
  }

  lemma OutMemory(s: Vm, pid: nat, i: nat, slot: nat)
    requires Inv(s) && pid in s.procs && i < |s.procs[pid].list| && LowestFree(s.procs[pid].avail, slot)
      && s.procs[pid].hasFile
    ensures Inv(OutVm(s, pid, i, slot)) && MemoryOf(OutVm(s, pid, i, slot)) == MemoryOf(s)
  {
    var t := OutVm(s, pid, i, slot);
    OutInv(s, pid, i, slot);
    forall u: Virt ensures SameView(s, t, u) {
      OutView(s, pid, i, slot, u);
    }
    SameMemory(s, t);
  }

  lemma InMemoryView(s: Vm, pid: nat, a: nat)
    requires Inv(s) && pid in s.procs && a < MAX_TOTAL_PAGES && s.procs[pid].meta[a].state == InDisk && s.free != []
    ensures Inv(InVm(s, pid, a)) && MemoryOf(InVm(s, pid, a)) == MemoryOf(s)
  {
    var t := InVm(s, pid, a);
    InInv(s, pid, a);
    forall u: Virt ensures SameView(s, t, u) {
      InView(s, pid, a, u);
    }
    SameMemory(s, t);
  }

  lemma OutKeepsDisk(p: Proc, i: nat, slot: nat, page: Page, a: nat)
    requires MetaOk(p) && i < |p.list| && LowestFree(p.avail, slot) && slot <= |p.file|
    requires a < MAX_TOTAL_PAGES && p.meta[a].state == InDisk
    ensures Out(p, i, slot, page).meta[a] == p.meta[a] && p.nram > 0 && p.ndisk > 0
  {
    assert EntryOk(p, a) && EntryOk(p, p.list[i]);
    CountSome(p.meta, a);
  }

  lemma OutDisk(s: Vm, pid: nat, i: nat, slot: nat, a: nat)
    requires Inv(s) && pid in s.procs && i < |s.procs[pid].list| && LowestFree(s.procs[pid].avail, slot)
    requires a < MAX_TOTAL_PAGES && s.procs[pid].meta[a].state == InDisk
    ensures OutVm(s, pid, i, slot).procs[pid].meta[a] == s.procs[pid].meta[a]
  {
    SlotFits(s.procs[pid], slot);
    OutKeepsDisk(s.procs[pid], i, slot, s.mem[s.pt[Resident(s, pid, i)].frame], a);
  }

  /** swapPages: exchanging any resident page for one in the file changes what no process sees, and leaves
      as many pages in memory and on the disk as before. */
  lemma SwapGood(s: Vm, pid: nat, i: nat, slot: nat, a: nat)
    requires Good(s) && pid in s.procs && i < |s.procs[pid].list| && LowestFree(s.procs[pid].avail, slot)
    requires a < MAX_TOTAL_PAGES && s.procs[pid].meta[a].state == InDisk
    ensures s.procs[pid].hasFile && Inv(OutVm(s, pid, i, slot))
      && OutVm(s, pid, i, slot).procs[pid].meta[a].state == InDisk
    ensures var t := OutVm(s, pid, i, slot);
            t.free != [] ==> Good(InVm(t, pid, a)) && MemoryOf(InVm(t, pid, a)) == MemoryOf(s)
  {
    hide Inv, MemoryOf, OutVm, InVm;
    var p, t := s.procs[pid], OutVm(s, pid, i, slot);
    ProcOk(s, pid);
    VictimLeft(p, a);
    OutMemory(s, pid, i, slot);
    OutNumbers(s, pid, i, slot);
    OutDisk(s, pid, i, slot, a);
    if t.free != [] {
      InMemoryView(t, pid, a);
      InNumbers(t, pid, a);
      NumbersGood(s, InVm(t, pid, a), pid);
    }
  }

  // ------------------------------------------- reordering the list, creating the file, setting the size

  /** The list of resident pages in another order, a swap file if `file` says so, and another size. */
  ghost function TouchVm(s: Vm, pid: nat, order: seq<nat>, file: bool, n: nat): Vm
    requires pid in s.procs
  {
    s.(procs := s.procs[pid := s.procs[pid].(list := order, hasFile := file, sz := n)])
  }

  lemma TouchOk(p: Proc, order: seq<nat>, file: bool, n: nat)
    requires MetaOk(p) && multiset(order) == multiset(p.list) && (p.hasFile ==> file)
    ensures MetaOk(p.(list := order, hasFile := file, sz := n))
  {
    var q := p.(list := order, hasFile := file, sz := n);
    SameMembers(order, p.list);
    forall a: nat | a < MAX_TOTAL_PAGES ensures EntryOk(q, a) {
      assert EntryOk(p, a);
    }
    NoRepeats(order, p.list);
    forall i | 0 <= i < |order| ensures order[i] < MAX_TOTAL_PAGES {
      assert order[i] in p.list;
    }
  }

  lemma SameMembers(s: seq<nat>, t: seq<nat>)
    requires multiset(s) == multiset(t)
    ensures |s| == |t| && forall x :: x in s <==> x in t
  {
    assert |s| == |multiset(s)| && |t| == |multiset(t)|;
    forall x ensures x in s <==> x in t {
      assert x in s <==> x in multiset(s);
    }
  }

  lemma {:induction false} OnceEach(t: seq<nat>, x: nat)
    requires forall i, j | 0 <= i < j < |t| :: t[i] != t[j]
    ensures multiset(t)[x] <= 1
  {
    if t != [] {
      var r := t[1..];
      assert t == [t[0]] + r;
      OnceEach(r, x);
      assert multiset(t) == multiset{t[0]} + multiset(r);
      assert t[0] !in r;
    }
  }

  lemma Twice(s: seq<nat>, i: nat, j: nat)
    requires i < j < |s| && s[i] == s[j]
    ensures multiset(s)[s[i]] > 1
  {
    assert s == s[..j] + [s[j]] + s[j + 1..];
    assert s[i] in s[..j];
    assert multiset(s) == multiset(s[..j]) + multiset{s[j]} + multiset(s[j + 1..]);
  }

  lemma NoRepeats(s: seq<nat>, t: seq<nat>)
    requires multiset(s) == multiset(t) && forall i, j | 0 <= i < j < |t| :: t[i] != t[j]
    ensures forall i, j | 0 <= i < j < |s| :: s[i] != s[j]
  {
    forall i, j | 0 <= i < j < |s| ensures s[i] != s[j] {
      if s[i] == s[j] {
        OnceEach(t, s[i]);
        Twice(s, i, j);
        assert false;
      }
    }
  }

  lemma TouchRecorded(s: Vm, pid: nat, order: seq<nat>, file: bool, n: nat, v: Virt)
    requires pid in s.procs
    ensures Recorded(TouchVm(s, pid, order, file, n), v) <==> Recorded(s, v)
  {
    var t := TouchVm(s, pid, order, file, n);
    if Recorded(s, v) {
      var a: nat :| EntryFor(s.procs[v.pid], a, v.page, s.pt[v]);
      assert EntryFor(t.procs[v.pid], a, v.page, t.pt[v]);
    } else if Recorded(t, v) {
      var a: nat :| EntryFor(t.procs[v.pid], a, v.page, t.pt[v]);
      assert EntryFor(s.procs[v.pid], a, v.page, s.pt[v]);
    }
  }

  lemma TouchCalm(s: Vm, pid: nat, order: seq<nat>, file: bool, n: nat)
    requires Calm(s) && pid in s.procs && multiset(order) == multiset(s.procs[pid].list)
      && (s.procs[pid].hasFile ==> file)
    ensures Calm(TouchVm(s, pid, order, file, n)) && MemoryOf(TouchVm(s, pid, order, file, n)) == MemoryOf(s)
  {
    var t := TouchVm(s, pid, order, file, n);
    TouchOk(s.procs[pid], order, file, n);
    forall v: Virt | v in t.pt ensures Recorded(t, v) {
      TouchRecorded(s, pid, order, file, n, v);
    }
    forall q: nat, a: nat | a < MAX_TOTAL_PAGES ensures RecordMapped(t, q, a) {
      assert RecordMapped(s, q, a);
    }
    forall v: Virt ensures SameView(s, t, v) {
      TouchView(s, pid, order, file, n, v);
    }
    SameMemory(s, t);
  }

  /** A policy may put the resident pages in any order. */
  lemma TouchGood(s: Vm, pid: nat, order: seq<nat>)
    requires Good(s) && pid in s.procs && multiset(order) == multiset(s.procs[pid].list)
    ensures var t := TouchVm(s, pid, order, s.procs[pid].hasFile, s.procs[pid].sz);
            Good(t) && MemoryOf(t) == MemoryOf(s)
  {
    hide Inv, Resting, MemoryOf;
    TouchCalm(s, pid, order, s.procs[pid].hasFile, s.procs[pid].sz);
    SameSizes(s, TouchVm(s, pid, order, s.procs[pid].hasFile, s.procs[pid].sz));
  }

  lemma TouchView(s: Vm, pid: nat, order: seq<nat>, file: bool, n: nat, v: Virt)
    requires ProcsOk(s) && pid in s.procs && ProcsOk(TouchVm(s, pid, order, file, n))
    ensures SameView(s, TouchVm(s, pid, order, file, n), v)
  {
    var t := TouchVm(s, pid, order, file, n);
    TouchRecorded(s, pid, order, file, n, v);
    if Recorded(s, v) && s.pt[v].Swapped? {
      var a: nat :| EntryFor(s.procs[v.pid], a, v.page, s.pt[v]);
      assert EntryFor(t.procs[v.pid], a, v.page, t.pt[v]);
      PageInFile(s, v, a);
      PageInFile(t, v, a);
    }
  }

  // ---------------------------------------------------------------- growth

  /** A growth that had to move a page out, whether or not it then finds a frame. */
  lemma RoomCalm(s: Vm, pid: nat, i: nat, slot: nat)
    requires Calm(s) && pid in s.procs && i < |s.procs[pid].list| && LowestFree(s.procs[pid].avail, slot)
      && s.procs[pid].hasFile
    requires s.procs[pid].nram == MAX_PSYC_PAGES && s.procs[pid].ndisk < MAX_TOTAL_PAGES - MAX_PSYC_PAGES
    ensures var t := OutVm(s, pid, i, slot); Calm(t) && MemoryOf(t) == MemoryOf(s)
  {
    OutMemory(s, pid, i, slot);
    OutNumbers(s, pid, i, slot);
  }

  /** Another page for a process with a place left in memory: it is all zero, and no other page changes. */
  lemma NewCalm(s: Vm, pid: nat, a: nat, n: nat)
    requires Calm(s) && pid in s.procs && s.procs[pid].nram < MAX_PSYC_PAGES && s.free != []
    requires a < MAX_TOTAL_PAGES && s.procs[pid].meta[a].state == NotUsed && Virt(pid, n) !in s.pt
    ensures var t := NewVm(s, pid, a, n); Calm(t) && MemoryOf(t) == MemoryOf(s)[Virt(pid, n) := Zeroes()]
  {
    NewInv(s, pid, a, n);
    NewMemory(s, pid, a, n);
  }

  lemma NewMemory(s: Vm, pid: nat, a: nat, n: nat)
    requires Inv(s) && pid in s.procs && a < MAX_TOTAL_PAGES && s.procs[pid].meta[a].state == NotUsed && s.free != []
    requires Virt(pid, n) !in s.pt
    ensures MemoryOf(NewVm(s, pid, a, n)) == MemoryOf(s)[Virt(pid, n) := Zeroes()]
  {
    hide MemoryOf;
    var v, t := Virt(pid, n), NewVm(s, pid, a, n);
    NewView(s, pid, a, n, v);
    forall u: Virt | u != v ensures SameView(s, t, u) {
      NewView(s, pid, a, n, u);
    }
    ChangedMemory(s, t, v, Zeroes());
  }

  // ---------------------------------------------------------------- faults and stores

  /** A write fault that finds the memory it needs changes what no process sees. */
  lemma FaultGood(s: Vm, v: Virt)
    requires Good(s) && v in s.pt && s.pt[v].Present? && (s.refs[s.pt[v].frame] == 1 || s.free != [])
    ensures var t := FaultVm(s, v);
            Good(t) && MemoryOf(t) == MemoryOf(s) && v in t.pt && t.pt[v].Present? && t.pt[v].w
  {
    hide MemoryOf, FaultVm;
    FaultInv(s, v);
    FaultView(s, v, v);
    FaultSame(s, v);
    SameSizes(s, FaultVm(s, v));
  }

  lemma FaultSame(s: Vm, v: Virt)
    requires Inv(s) && v in s.pt && s.pt[v].Present? && (s.refs[s.pt[v].frame] == 1 || s.free != [])
    ensures var t := FaultVm(s, v); MemoryOf(t) == MemoryOf(s) && t.procs == s.procs && t.pt.Keys == s.pt.Keys
  {
    hide MemoryOf;
    var t := FaultVm(s, v);
    forall u: Virt ensures SameView(s, t, u) {
      FaultView(s, v, u);
    }
    SameMemory(s, t);
  }

  /** A store changes the page it goes to and no other, of any process. */
  lemma StoreGood(s: Vm, v: Virt, page: Page)
    requires Good(s) && v in s.pt && s.pt[v].Present? && s.pt[v].w
    ensures Good(StoreVm(s, v, page)) && MemoryOf(StoreVm(s, v, page)) == MemoryOf(s)[v := page]
  {
    StoreView(s, v, page, v);
    SameSizes(s, StoreVm(s, v, page));
    StoreMemory(s, v, page);
  }

  lemma StoreMemory(s: Vm, v: Virt, page: Page)
    requires Inv(s) && v in s.pt && s.pt[v].Present? && s.pt[v].w
    ensures MemoryOf(StoreVm(s, v, page)) == MemoryOf(s)[v := page]
  {
    hide MemoryOf;
    var t := StoreVm(s, v, page);
    StoreView(s, v, page, v);
    forall u: Virt | u != v ensures SameView(s, t, u) {
      StoreView(s, v, page, u);
    }
    ChangedMemory(s, t, v, page);
  }

  lemma ChangedMemory(s: Vm, t: Vm, v: Virt, page: Page)
    requires Agree(s) && t.pt.Keys == s.pt.Keys + {v} && Recorded(t, v) && PageAt(t, v) == page
    requires forall u: Virt | u != v :: SameView(s, t, u)
    ensures MemoryOf(t) == MemoryOf(s)[v := page]
  {
    hide MemoryOf;
    var m := MemoryOf(s)[v := page];
    forall u: Virt ensures SameAt(m, MemoryOf(t), u) {
      if u != v {
        assert SameView(s, t, u);
        assert u in s.pt ==> Recorded(s, u);
      }
      ChangedAt(s, t, v, page, u);
    }
    SameEverywhere(m, MemoryOf(t));
  }

  lemma ChangedAt(s: Vm, t: Vm, v: Virt, page: Page, u: Virt)
    requires t.pt.Keys == s.pt.Keys + {v} && Recorded(t, v) && PageAt(t, v) == page
    requires u != v ==> SameView(s, t, u) && (u in s.pt ==> Recorded(s, u))
    ensures SameAt(MemoryOf(s)[v := page], MemoryOf(t), u)
  {
  }

  // ---------------------------------------------------------------- a new process

  /** init_meta_data. */
  function EmptyProc(): Proc {
    Proc(seq(MAX_TOTAL_PAGES, i => NoRecord()), seq(SLOTS, i => false), [], [], false, 0, 0, 0)
  }

  lemma {:induction false} CountNone(meta: seq<PageMeta>, st: PageState)
    requires forall a | 0 <= a < |meta| :: meta[a].state != st
    ensures Count(meta, st) == 0
  {
    if meta != [] {
      CountNone(meta[1..], st);
    }
  }

  lemma {:induction false} TakenNone(avail: seq<bool>)
    requires forall s | 0 <= s < |avail| :: !avail[s]
    ensures Taken(avail) == 0
  {
    if avail != [] {
      TakenNone(avail[1..]);
    }
  }

  ghost predicate Unused(p: Proc) {
    && |p.meta| == MAX_TOTAL_PAGES && (forall a: nat | a < |p.meta| :: p.meta[a] == NoRecord())
    && |p.avail| == SLOTS && (forall s | 0 <= s < |p.avail| :: !p.avail[s])
    && p.list == [] && p.file == [] && p.nram == 0 && p.ndisk == 0 && p.sz == 0
  }

  lemma UnusedOk(p: Proc)
    requires Unused(p)
    ensures MetaOk(p) && AtRest(p)
  {
    CountNone(p.meta, InMemory);
    CountNone(p.meta, InDisk);
    TakenNone(p.avail);
    forall a: nat, b: nat | a < MAX_TOTAL_PAGES && b < MAX_TOTAL_PAGES ensures Apart(p.meta, a, b) {
      assert p.meta[a] == NoRecord() && p.meta[b] == NoRecord();
    }
  }

  ghost function SpawnVm(s: Vm, pid: nat, p: Proc): Vm {
    s.(procs := s.procs[pid := p])
  }

  lemma SpawnGood(s: Vm, pid: nat, p: Proc)
    requires Good(s) && pid !in s.procs && Unused(p)
    ensures Good(SpawnVm(s, pid, p)) && MemoryOf(SpawnVm(s, pid, p)) == MemoryOf(s)
  {
    var t := SpawnVm(s, pid, p);
    UnusedOk(p);
    forall v: Virt ensures SameView(s, t, v) && (v in t.pt ==> Recorded(t, v)) {
      SpawnView(s, pid, p, v);
    }
    forall q: nat, a: nat | a < MAX_TOTAL_PAGES ensures RecordMapped(t, q, a) {
      assert RecordMapped(s, q, a);
    }
    forall v: Virt ensures SizeOk(t, v) {
      assert SizeOk(s, v);
    }
    SameMemory(s, t);
  }

  lemma SpawnView(s: Vm, pid: nat, p: Proc, v: Virt)
    requires ProcsOk(s) && pid !in s.procs && (v in s.pt ==> Recorded(s, v))
    ensures SameView(s, SpawnVm(s, pid, p), v) && (v in s.pt ==> Recorded(SpawnVm(s, pid, p), v))
  {
    if v in s.pt {
      var t := SpawnVm(s, pid, p);
      var a: nat :| EntryFor(s.procs[v.pid], a, v.page, s.pt[v]);
      assert EntryFor(t.procs[v.pid], a, v.page, t.pt[v]);
      if s.pt[v].Swapped? {
        PageInFile(s, v, a);
        PageInFile(t, v, a);
      }
    }
  }
}
