/** The memory of all processes as the kernel changes it in place (kalloc.c, vm.c, trap.c, proc.c): the
    frames, their counts, the free list, the page tables and the paging metadata.
 */
module VmMachine {
  import opened Common
  import opened Frames
  import opened SwapMeta
  import opened VmCore
  import opened VmSwap
  import opened VmCow
  import opened VmSteps
  import opened VmFork
  import opened VmWorld
  import opened VmUnwind
  import opened VmGrow
  import opened VmBudget
  import opened VmQueue

  /** How an operation ends: done, done with a byte read, refused with an error, refused half-way with an
      error, the process killed for an address it does not have, the process killed for lack of memory, or
      a kernel panic. */
  datatype Outcome = Done | Got(byte: bv8) | Refused | Overrun | Fault | NoMemory | Panic

  /** How a turn of allocuvm ends, or allocuvm: with no turn at all for a size that reaches the kernel. */
  datatype Turn = Added | Limit | NoFrames | TooLarge

  /** Moving the victim at position `i` out will not give a free frame. */
  ghost predicate NoFrame(s: Vm, pid: nat, i: nat)
    requires Inv(s) && pid in s.procs && i < |s.procs[pid].list|
  {
    s.free == [] && s.refs[s.pt[Resident(s, pid, i)].frame] > 1
  }

  /** A page that has to come in finds no frame. */
  ghost predicate Blocked(s: Vm, v: Virt, i: nat)
    requires Inv(s)
  {
    v in s.pt && s.pt[v].Swapped? && v.pid in s.procs && i < |s.procs[v.pid].list| && NoFrame(s, v.pid, i)
  }

  /** A shared page that is written finds no frame for a copy. */
  ghost predicate Starved(s: Vm, v: Virt)
    requires Inv(s)
  {
    v in s.pt && s.pt[v].Present? && !s.pt[v].w && s.refs[s.pt[v].frame] != 1 && s.free == []
  }

  /** A shared victim is not a page that nobody else has. */
  lemma OwnStays(s: Vm, pid: nat, i: nat, slot: nat, u: Virt, c: Account)
    requires Matches(s, pid, c) && i < |c.frames| && LowestFree(s.procs[pid].avail, slot)
    requires SharedAt(c, i) && Own(s, u)
    ensures Own(OutVm(s, pid, i, slot), u)
  {
    WritableCountsOne(s, u);
    MatchShared(s, pid, c, i);
    assert u != Resident(s, pid, i);
  }

  lemma OutOwn(s: Vm, pid: nat, i: nat, slot: nat, lo: nat)
    requires Inv(s) && pid in s.procs && i < |s.procs[pid].list| && LowestFree(s.procs[pid].avail, slot)
    requires OwnFrom(s, pid, lo)
    ensures OwnFrom(OutVm(s, pid, i, slot), pid, lo)
  {
    hide CountsOk, SharingOk, Agree, ProcsOk, OwnFrom;
    OwnStep(s, OutVm(s, pid, i, slot), pid, lo);
  }

  lemma NewOwn(s: Vm, pid: nat, a: nat, page: nat, lo: nat)
    requires Inv(s) && pid in s.procs && a < MAX_TOTAL_PAGES && s.free != [] && OwnFrom(s, pid, lo)
    ensures OwnFrom(NewVm(s, pid, a, page), pid, lo)
  {
    hide CountsOk, SharingOk, Agree, ProcsOk, OwnFrom;
    OwnStep(s, NewVm(s, pid, a, page), pid, lo);
  }

  lemma NothingOwned(s: Vm, pid: nat)
    requires pid in s.procs && forall v: Virt :: SizeOk(s, v)
    ensures OwnFrom(s, pid, s.procs[pid].sz)
  {
    forall v: Virt ensures OwnIfThere(s, pid, s.procs[pid].sz, v) {
      assert SizeOk(s, v);
    }
  }

  lemma OwnAt(s: Vm, pid: nat, lo: nat, v: Virt)
    requires OwnFrom(s, pid, lo) && v in s.pt && v.pid == pid && v.page >= lo && s.pt[v].Present?
    ensures Own(s, v)
  {
    assert OwnIfThere(s, pid, lo, v);
  }

  lemma NextUnmapped(s0: Vm, s: Vm, pid: nat, k: nat)
    requires Good(s0) && Growing(s0, s, pid, k)
    ensures Virt(pid, s0.procs[pid].sz + k) !in s.pt
  {
    var u := Virt(pid, s0.procs[pid].sz + k);
    assert SizeOk(s0, u) && PagesOk(s0, s, pid, s0.procs[pid].sz, k, u);
  }

  /** The record of a page in memory is in the list, and giving it up changes no record of a page on the
      disk; a page that nobody else has leaves a free frame. */
  lemma DeleteFacts(s: Vm, v: Virt, a: nat)
    requires Held(s, v, a)
    ensures Inv(s) ==> a in s.procs[v.pid].list
    ensures var t, f := DeleteVm(s, v, a), s.pt[v].frame;
            && v.pid in t.procs && t.procs[v.pid].ndisk == s.procs[v.pid].ndisk && f < |s.refs| && s.refs[f] > 0
            && (t.free == [] <==> s.free == [] && s.refs[f] > 1) && (Own(s, v) ==> s.refs[f] == 1)
            && (forall b: nat | b < MAX_TOTAL_PAGES :: b < |t.procs[v.pid].meta| && b < |s.procs[v.pid].meta|
                  && (t.procs[v.pid].meta[b].state == InDisk <==> s.procs[v.pid].meta[b].state == InDisk))
            && forall u: Virt :: OwnKept(s, t, u)
  {
    hide CountsOk, SharingOk, Agree;
    DropOk(s.pt, s.refs, s.free, v);
    if Own(s, v) {
      OwnCount(s, v);
    }
    if Inv(s) {
      assert EntryOk(s.procs[v.pid], a);
    }
  }

  /** The page of record `c` has come in. */
  ghost predicate Brought(s: Vm, t: Vm, pid: nat, c: nat) {
    && Torn(s) && pid in s.procs && c < MAX_TOTAL_PAGES && s.procs[pid].meta[c].state == InDisk && s.free != []
    && t == LoadVm(s, pid, c)
  }

  lemma LoadKept(s: Vm, t: Vm, pid: nat, c: nat)
    requires Torn(t) && pid in t.procs && c < MAX_TOTAL_PAGES && t.procs[pid].meta[c].state == InDisk && t.free != []
    requires forall u: Virt :: OwnKept(s, t, u)
    ensures forall u: Virt :: OwnKept(s, LoadVm(t, pid, c), u)
  {
    hide Torn;
    var t' := LoadVm(t, pid, c);
    forall u: Virt ensures OwnKept(s, t', u) {
      assert OwnKept(s, t, u);
    }
  }

  /** What holds between the turns of allocuvm. */
  ghost predicate Turning(s0: Vm, s: Vm, pid: nat, k: nat, c: Account) {
    && pid in s0.procs && pid in s.procs && Growing(s0, s, pid, k) && Matches(s, pid, c)
    && OwnFrom(s, pid, s0.procs[pid].sz)
  }

  /** The page that was added last is in memory. */
  ghost predicate LastOwn(s0: Vm, s: Vm, pid: nat, k: nat) {
    k > 0 ==> pid in s0.procs && Own(s, Virt(pid, s0.procs[pid].sz + k - 1))
  }

  /** The account after a turn that found no frame: the page that had to go out is out. */
  function Stopped(c: Account, choice: nat): Account {
    if |c.frames| < MAX_PSYC_PAGES then c else Evicted(c, Pick(|c.frames|, choice))
  }

  lemma TurnNumbers(s0: Vm, s: Vm, pid: nat, k: nat, c: Account)
    requires Turning(s0, s, pid, k, c)
    ensures pid in s.procs
    ensures var p := s.procs[pid];
            && |c.frames| == |p.list| == p.nram <= MAX_PSYC_PAGES && p.ndisk + MAX_PSYC_PAGES <= MAX_TOTAL_PAGES
            && (p.nram == MAX_PSYC_PAGES && p.ndisk + MAX_PSYC_PAGES == MAX_TOTAL_PAGES <==>
                Total(p) == MAX_TOTAL_PAGES)
  {
    assert MetaOk(s.procs[pid]);
  }

  lemma FitsStart(s: Vm, pid: nat, choices: seq<nat>)
    requires Calm(s) && pid in s.procs
    ensures Fits(s, pid, choices, 0) && Needs(AccountOf(s, pid), choices, 0) == 0
  {
  }

  lemma TurnsStart(s: Vm, pid: nat, choices: seq<nat>)
    requires Good(s) && pid in s.procs
    ensures Turning(s, s, pid, 0, AccountAt(AccountOf(s, pid), choices, 0)) && LastOwn(s, s, pid, 0)
    ensures Fits(s, pid, choices, 0) && Needs(AccountOf(s, pid), choices, 0) == 0 && Growing(s, s, pid, 0)
  {
    hide Inv, Resting, SizeOk, MemoryOf, Fresh, PagesOk, OwnFrom, Matches;
    GrowStart(s, pid);
    MatchStart(s, pid);
    NothingOwned(s, pid);
    FitsStart(s, pid, choices);
  }

  lemma TurnGrows(s0: Vm, s: Vm, pid: nat, k: nat, c: Account)
    requires Turning(s0, s, pid, k, c)
    ensures pid in s.procs && Growing(s0, s, pid, k)
  {
  }

  /** The next turn will add a page exactly if one page more fits. */
  lemma FitsNext(s0: Vm, s: Vm, pid: nat, choices: seq<nat>, k: nat)
    requires Good(s0) && pid in s0.procs && Growing(s0, s, pid, k)
    requires var c := AccountOf(s0, pid); |s.free| + Needs(c, choices, k) == |s0.free|
    ensures var c := AccountOf(s0, pid);
            && Turned(AccountAt(c, choices, k), ChoiceAt(choices, k)) == AccountAt(c, choices, k + 1)
            && Needs(c, choices, k + 1) == Needs(c, choices, k) + Cost(AccountAt(c, choices, k), ChoiceAt(choices, k))
            && Total(s.procs[pid]) == Total(s0.procs[pid]) + k <= MAX_TOTAL_PAGES
            && (Fits(s0, pid, choices, k + 1) <==>
                && Total(s.procs[pid]) < MAX_TOTAL_PAGES
                && Cost(AccountAt(c, choices, k), ChoiceAt(choices, k)) <= |s.free|)
  {
    hide CountsOk, SharingOk, Agree, MemoryOf, Fresh, PagesOk, SizeOk, EntryOk, Apart, Count, Taken;
    assert MetaOk(s0.procs[pid]);
    NeedsMore(AccountOf(s0, pid), choices, k);
  }

  /** The records of the pages below `k`. */
  ghost function RecordsBelow(meta: seq<PageMeta>, k: nat): set<nat> {
    set a: nat | a < |meta| && 0 <= meta[a].id < k
  }

  lemma {:induction false} RecordEach(s: Vm, pid: nat, k: nat)
    requires Good(s) && pid in s.procs && k <= s.procs[pid].sz
    ensures |RecordsBelow(s.procs[pid].meta, k)| >= k
  {
    hide CountsOk, SharingOk, MetaOk;
    if k > 0 {
      RecordEach(s, pid, k - 1);
      var meta, v := s.procs[pid].meta, Virt(pid, k - 1);
      assert SizeOk(s, v) && Recorded(s, v);
      var a: nat :| EntryFor(s.procs[pid], a, k - 1, s.pt[v]);
      SubsetCard(RecordsBelow(meta, k - 1) + {a}, RecordsBelow(meta, k));
    }
  }

  /** A process has at most as many pages as it has records. */
  lemma SizeBound(s: Vm, pid: nat)
    requires Good(s) && pid in s.procs
    ensures s.procs[pid].sz <= MAX_TOTAL_PAGES
  {
    var p := s.procs[pid];
    RecordEach(s, pid, p.sz);
    assert MetaOk(p);
    CardBelow(RecordsBelow(p.meta, p.sz), MAX_TOTAL_PAGES);
  }

  lemma LargeUnfit(s: Vm, pid: nat, choices: seq<nat>, n: nat)
    requires Good(s) && pid in s.procs && s.procs[pid].sz + n >= KERN_PAGES
    ensures !Fits(s, pid, choices, n)
  {
    SizeBound(s, pid);
  }

  lemma FitsFacts(s: Vm, pid: nat, choices: seq<nat>, n: nat)
    requires Calm(s) && pid in s.procs
    ensures NoneShared(s, pid) ==>
              var p := s.procs[pid];
              (Fits(s, pid, choices, n) <==>
               && Total(p) + n <= MAX_TOTAL_PAGES
               && p.nram <= MAX_PSYC_PAGES && Min(n, MAX_PSYC_PAGES - p.nram) <= |s.free|)
  {
    if NoneShared(s, pid) {
      UnsharedFits(s, pid, choices, n);
    }
  }

  lemma OutFrees(s: Vm, pid: nat, i: nat, slot: nat)
    requires Inv(s) && pid in s.procs && i < |s.procs[pid].list| && LowestFree(s.procs[pid].avail, slot)
    ensures OutVm(s, pid, i, slot).free == [] <==> NoFrame(s, pid, i)
    ensures |OutVm(s, pid, i, slot).free| >= |s.free|
  {
    DropOk(s.pt, s.refs, s.free, Resident(s, pid, i));
  }

  /** The page at position `i` has left the list, and the record of `page`, which was on the disk, is at its
      end. */
  ghost predicate Exchanged(p: Proc, q: Proc, i: nat, page: nat) {
    exists a: nat :: a < |p.meta| && p.meta[a].id == page && p.meta[a].state == InDisk && i < |p.list|
      && q.list == Without(p.list, i) + [a]
  }

  lemma SwapList(s: Vm, pid: nat, i: nat, slot: nat, a: nat)
    requires Inv(s) && pid in s.procs && i < |s.procs[pid].list| && LowestFree(s.procs[pid].avail, slot)
    requires a < MAX_TOTAL_PAGES && s.procs[pid].meta[a].state == InDisk && s.procs[pid].meta[a].id >= 0
    requires var t := OutVm(s, pid, i, slot);
             Inv(t) && t.procs[pid].meta[a].state == InDisk && t.free != []
    ensures var u := InVm(OutVm(s, pid, i, slot), pid, a);
            pid in u.procs && Exchanged(s.procs[pid], u.procs[pid], i, s.procs[pid].meta[a].id)
  {
    hide CountsOk, SharingOk, Agree;
    OutList(s, pid, i, slot);
    var t := OutVm(s, pid, i, slot);
    var u := InVm(t, pid, a);
    assert u.procs[pid].list == Without(s.procs[pid].list, i) + [a];
  }

  lemma OutKeepsId(s: Vm, pid: nat, i: nat, slot: nat, a: nat)
    requires Inv(s) && pid in s.procs && i < |s.procs[pid].list| && LowestFree(s.procs[pid].avail, slot)
    requires a < MAX_TOTAL_PAGES
    ensures OutVm(s, pid, i, slot).procs[pid].meta[a].id == s.procs[pid].meta[a].id
  {
  }

  /** The queue of resident pages after an access that succeeds: a page that has to come in takes the place of the
      one at position `i`, at the end of the queue. */
  ghost predicate Touched(s: Vm, t: Vm, v: Virt, i: nat) {
    && v in s.pt && v.pid in s.procs
    && if s.pt[v].Swapped?
       then i < |s.procs[v.pid].list| && QueueTo(s, t, v.pid, Without(PagesIn(s.procs[v.pid]), i) + [v.page])
       else t.procs == s.procs
  }

  /** The resident pages after a growth: all new ones are added, or, when there is no frame for the first, a full
      process has given up a page. */
  ghost function GrownPages(p: Proc, n: nat, choices: seq<nat>, done: bool): seq<nat> {
    if done then PagesAfter(PagesIn(p), p.sz, choices, n)
    else if p.sz + n >= KERN_PAGES || Total(p) == MAX_TOTAL_PAGES then PagesIn(p)
    else PageRoom(PagesIn(p), ChoiceAt(choices, 0))
  }

  /** A byte of a page of a process changes. */
  ghost predicate Stored(w: World, v: Virt, off: nat, byte: bv8, w': World)
    requires off < PGSIZE
  {
    && v.pid in w && v.page < |w[v.pid]|
    && w' == Replaced(w, v, w[v.pid][v.page][off := byte])
  }

  lemma FrameOf(s: Vm, v: Virt)
    requires Good(s) && v in s.pt && s.pt[v].Present?
    ensures s.pt[v].frame < |s.mem| && v in MemoryOf(s) && MemoryOf(s)[v] == s.mem[s.pt[v].frame]
  {
    assert Recorded(s, v);
  }

  lemma FrameCounted(s: Vm, v: Virt)
    requires Inv(s) && v in s.pt && s.pt[v].Present?
    ensures s.pt[v].frame < |s.refs| == |s.mem| && s.refs[s.pt[v].frame] > 0
    ensures forall i | 0 <= i < |s.free| :: s.free[i] < |s.refs|
  {
    DropOk(s.pt, s.refs, s.free, v);
  }

  lemma StillThere(s0: Vm, s: Vm, parent: nat, child: nat, k: nat)
    requires Good(s0) && Forking(s0, s, parent, child, k) && k < s0.procs[parent].sz
    ensures Virt(parent, k) in s.pt && CountsOk(s.pt, s.refs, s.free) && SameKind(s0.pt, s.pt, Virt(parent, k))
  {
    assert SizeOk(s0, Virt(parent, k)) && Untouched(s0, s, Virt(parent, k));
  }

  lemma FreeCounts(s0: Vm, s: Vm, x: nat, k: nat, n: nat)
    requires Freeing(s0, s, x, k, n)
    ensures CountsOk(s.pt, s.refs, s.free) && |s.mem| == |s.refs|
  {
  }

  lemma FreeNone(s0: Vm, s: Vm, x: nat, k: nat, n: nat)
    requires Freeing(s0, s, x, k, n) && Virt(x, k) !in s.pt
    ensures Freeing(s0, s, x, k + 1, n)
  {
    var next := k + 1;
    forall page: nat ensures RestOk(s.pt, x, next, n, page) {
      assert RestOk(s.pt, x, k, n, page);
    }
  }

  lemma RestOf(s: Vm, pid: nat)
    requires Resting(s) && pid in s.procs
    ensures AtRest(s.procs[pid])
  {
  }

  lemma RecordCount(p: Proc)
    requires MetaOk(p)
    ensures |p.meta| == MAX_TOTAL_PAGES
  {
  }

  /** What is at offset `off` of a page. */
  ghost predicate ByteIs(w: World, v: Virt, off: nat, byte: bv8) {
    v.pid in w && v.page < |w[v.pid]| && off < PGSIZE && byte == w[v.pid][v.page][off]
  }

  class Machine {
    var mem: seq<Page>
    var refs: seq<nat>
    var free: seq<nat>
    var pt: PageTable
    var procs: map<nat, Proc>

    ghost function State(): Vm
      reads this
    {
      Vm(mem, refs, free, pt, procs)
    }

    /** Boot: every frame is free, and there are no processes. */
    constructor (frames: nat)
      ensures Good(State()) && Flat(State()) == map[] && |mem| == frames == |free| && procs == map[]
    {
      mem, refs, free := seq(frames, i => Junk()), seq(frames, i => 0), seq(frames, i => frames - 1 - i);
      pt, procs := map[], map[];
      new;
      forall f: nat | f < frames ensures RefOk(pt, refs, f) && FreeOk(refs, free, f) {
        assert Mappers(pt, f) == {};
        assert free[frames - 1 - f] == f;
      }
    }

    // -------------------------------------------------------------- frames

    method Kalloc() returns (f: int)
      requires forall i | 0 <= i < |free| :: free[i] < |refs|
      modifies `free, `refs
      ensures f == -1 <==> old(free) == []
      ensures f == -1 ==> free == old(free) && refs == old(refs)
      ensures f != -1 ==> f == old(free)[0] && free == old(free)[1..] && refs == old(refs)[f := 1]
    {
      if free == [] {
        return -1;
      }
      f := free[0];
      free := free[1..];
      refs := refs[f := 1];
    }

    /** The count goes down; the last owner's frame is junked and put on the free list. */
    method Kfree(f: nat) returns (ok: bool)
      requires f < |refs| == |mem|
      modifies `free, `refs, `mem
      ensures ok <==> old(refs)[f] > 0
      ensures !ok ==> mem == old(mem) && refs == old(refs) && free == old(free)
      ensures ok ==> refs == old(refs)[f := old(refs)[f] - 1] && free == Freed(old(free), f, refs[f])
      ensures ok ==> mem == if refs[f] == 0 then old(mem)[f := Junk()] else old(mem)
    {
      if refs[f] == 0 {
        return false;
      }
      refs := refs[f := refs[f] - 1];
      if refs[f] == 0 {
        mem := mem[f := Junk()];
        free := [f] + free;
      }
      ok := true;
    }

    // -------------------------------------------------------------- searching the metadata

    /** nextAvOffset: the lowest free slot, or -1. */
    method NextAvOffset(pid: nat) returns (slot: int)
      requires pid in procs && |procs[pid].avail| == SLOTS
      ensures slot >= 0 ==> LowestFree(procs[pid].avail, slot)
      ensures slot < 0 ==> forall t | 0 <= t < SLOTS :: procs[pid].avail[t]
    {
      var i := 0;
      while i < SLOTS
        invariant i <= SLOTS && forall t | 0 <= t < i :: procs[pid].avail[t]
      {
        if !procs[pid].avail[i] {
          return i;
        }
        i := i + 1;
      }
      return -1;
    }

    /** The search of swapPages for the record of a page. */
    method FindRecord(pid: nat, page: nat) returns (a: int)
      requires pid in procs && |procs[pid].meta| == MAX_TOTAL_PAGES
      ensures a >= 0 ==> a < MAX_TOTAL_PAGES && procs[pid].meta[a].id == page
      ensures a < 0 ==> forall b: nat | b < MAX_TOTAL_PAGES :: procs[pid].meta[b].id != page
    {
      var i := 0;
      while i < MAX_TOTAL_PAGES
        invariant i <= MAX_TOTAL_PAGES && forall b: nat | b < i :: procs[pid].meta[b].id != page
      {
        if procs[pid].meta[i].id == page {
          return i;
        }
        i := i + 1;
      }
      return -1;
    }

    /** The search of addPageToRam for a record that is not used. */
    method FindUnused(pid: nat) returns (a: int)
      requires pid in procs && |procs[pid].meta| == MAX_TOTAL_PAGES
      ensures a >= 0 ==> a < MAX_TOTAL_PAGES && procs[pid].meta[a].state == NotUsed
      ensures forall b: nat | b < a && b < MAX_TOTAL_PAGES :: procs[pid].meta[b].state != NotUsed
      ensures a < 0 ==> forall b: nat | b < MAX_TOTAL_PAGES :: procs[pid].meta[b].state != NotUsed
    {
      var i := 0;
      while i < MAX_TOTAL_PAGES
        invariant i <= MAX_TOTAL_PAGES && forall b: nat | b < i :: procs[pid].meta[b].state != NotUsed
      {
        if procs[pid].meta[i].state == NotUsed {
          return i;
        }
        i := i + 1;
      }
      return -1;
    }

    // -------------------------------------------------------------- moving a page out and in

    /** moveToDisk of the page at position `i` of the list. A swap file that is full is a panic. */
    method MoveToDisk(pid: nat, i: nat) returns (slot: int)
      requires Inv(State()) && pid in procs && i < |procs[pid].list|
      modifies this
      ensures slot < 0 ==> State() == old(State()) && forall t | 0 <= t < SLOTS :: old(procs)[pid].avail[t]
      ensures slot >= 0 ==> LowestFree(old(procs)[pid].avail, slot) && State() == OutVm(old(State()), pid, i, slot)
    {
      slot := NextAvOffset(pid);
      if slot >= 0 {
        WriteOut(pid, i, slot);
      }
    }

    /** The page is written at its slot, its record and entry say so, and its frame loses a reference. */
    method WriteOut(pid: nat, i: nat, slot: nat)
      requires Inv(State()) && pid in procs && i < |procs[pid].list| && LowestFree(procs[pid].avail, slot)
      modifies this
      ensures State() == OutVm(old(State()), pid, i, slot)
    {
      hide SharingOk, Agree;
      var p := procs[pid];
      ghost var v0 := Resident(State(), pid, i);
      DropOk(pt, refs, free, v0);
      SlotFits(p, slot);
      var v := Virt(pid, p.meta[p.list[i]].id);
      var f := pt[v].frame;
      procs := procs[pid := Out(p, i, slot, mem[f])];
      pt := pt[v := Swapped];
      var ok := Kfree(f);
    }

    /** getPageFromFile of record `a`; no frame is a panic. */
    method GetPageFromFile(pid: nat, a: nat) returns (ok: bool)
      requires Inv(State()) && pid in procs && a < MAX_TOTAL_PAGES && procs[pid].meta[a].state == InDisk
      modifies this
      ensures ok <==> old(free) != []
      ensures !ok ==> State() == old(State())
      ensures ok ==> State() == InVm(old(State()), pid, a)
    {
      ghost var v := OnDisk(State(), pid, a);
      assert EntryOk(procs[pid], a);
      ok := LoadPage(pid, a);
    }

    /** The page of record `a` is read into a new frame, and the record is put at the end of the list. */
    method LoadPage(pid: nat, a: nat) returns (ok: bool)
      requires pid in procs && a < |procs[pid].meta| && procs[pid].meta[a].id >= 0
      requires 0 <= procs[pid].meta[a].slot < |procs[pid].avail| && procs[pid].meta[a].slot < |procs[pid].file|
      requires |mem| == |refs| && forall i | 0 <= i < |free| :: free[i] < |refs|
      modifies this
      ensures ok <==> old(free) != []
      ensures !ok ==> State() == old(State())
      ensures ok ==>
                var p, f := old(procs)[pid], old(free)[0];
                State() == Vm(old(mem)[f := p.file[p.meta[a].slot]], old(refs)[f := 1], old(free)[1..],
                              old(pt)[Virt(pid, p.meta[a].id) := Present(f, true, false)], old(procs)[pid := In(p, a)])
    {
      var p := procs[pid];
      var f := Kalloc();
      if f < 0 {
        return false;
      }
      mem := mem[f := p.file[p.meta[a].slot]];
      pt := pt[Virt(pid, p.meta[a].id) := Present(f, true, false)];
      procs := procs[pid := In(p, a)];
      ok := true;
    }

    /** swapPages for a page in the swap file: afterwards it is in memory, writable, and no process sees a
        change. The search finds its record, there is a page to swap it with, and there is a slot. */
    method SwapPages(v: Virt, i: nat) returns (r: Outcome)
      requires Good(State()) && v in pt && pt[v].Swapped?
      requires v.pid in procs && (procs[v.pid].list != [] ==> i < |procs[v.pid].list|)
      modifies this
      ensures i < |old(procs)[v.pid].list| && r == (if NoFrame(old(State()), v.pid, i) then Panic else Done)
      ensures r == Done ==> Good(State()) && Flat(State()) == old(Flat(State())) && v in pt && pt[v].Present? && pt[v].w
      ensures r == Done ==> v.pid in procs && Exchanged(old(procs)[v.pid], procs[v.pid], i, v.page)
      ensures r == Done ==> QueueTo(old(State()), State(), v.pid, Without(PagesIn(old(procs)[v.pid]), i) + [v.page])
    {
      ghost var s := State();
      var a := FindRecord(v.pid, v.page);
      InvTorn(s);
      RecordOf(s, v, a);
      VictimLeft(procs[v.pid], a);
      SlotLeft(procs[v.pid]);
      var slot := MoveToDisk(v.pid, i);
      SwapFlat(s, v.pid, i, slot, a);
      OutFrees(s, v.pid, i, slot);
      OutKeepsId(s, v.pid, i, slot, a);
      var ok := GetPageFromFile(v.pid, a);
      r := if ok then Done else Panic;
      if ok {
        SwapList(s, v.pid, i, slot, a);
        SwapQueue(s, v.pid, i, slot, a);
      }
    }

    // -------------------------------------------------------------- growth

    /** growproc for `n` more pages; `choices` are the positions that the policy chooses. It is done if all
        pages fit; it is refused without effect if not even the first does or if the new size reaches the kernel;
        and if it stops later, at the limit of 32 pages or for lack of a frame, it returns an error and leaves a
        broken state, although no process sees a change. */
    method GrowProc(pid: nat, n: nat, choices: seq<nat>) returns (r: Outcome)
      requires Good(State()) && pid in procs
      modifies this
      ensures r == if Fits(old(State()), pid, choices, n) then Done
                   else if Fits(old(State()), pid, choices, 1) && old(procs)[pid].sz + n < KERN_PAGES then Overrun
                   else Refused
      ensures Good(State()) <==> r != Overrun
      ensures Flat(State())
           == if r == Done then old(Flat(State()))[pid := old(Flat(State()))[pid] + Blank(n)] else old(Flat(State()))
      ensures r != Overrun ==> QueueTo(old(State()), State(), pid, GrownPages(old(procs)[pid], n, choices, r == Done))
      ensures old(NoneShared(State(), pid)) ==>
                var p := old(procs)[pid];
                (r == Done <==>
                 && Total(p) + n <= MAX_TOTAL_PAGES
                 && p.nram <= MAX_PSYC_PAGES && Min(n, MAX_PSYC_PAGES - p.nram) <= |old(free)|)
    {
      hide Inv, Resting, SizeOk, Flat, MemoryOf, Fits, NoneShared, Fresh, PagesOk, QueueTo, GrownPages;
      ghost var s := State();
      RestOf(s, pid);
      FitsFacts(s, pid, choices, n);
      var t, k := AllocUvm(pid, n, choices);
      ghost var now := State();
      if t == TooLarge {
        LargeUnfit(s, pid, choices, n);
        return Refused;
      }
      if t == Added {
        GrowDone(s, now, pid, n);
        procs := procs[pid := procs[pid].(sz := procs[pid].sz + n)];
        QueueTouched(s, now, State(), pid, GrownPages(s.procs[pid], n, choices, true));
        assert State() == TouchVm(now, pid, now.procs[pid].list, now.procs[pid].hasFile, now.procs[pid].sz + n);
        return Done;
      }
      if t == Limit || k == 0 {
        GrowStuck(s, now, pid, k);
      }
      FitsUpTo(s, pid, choices, k + 1, n);
      if k > 0 {
        FitsUpTo(s, pid, choices, 1, k);
      }
      r := if k == 0 then Refused else Overrun;
    }

    /** allocuvm for `n` pages; `k` is how many were added, which is as many as fit, or none if the new size
        reaches the kernel. At the limit it leaves them; without a frame it gives them up again, and leaves a
        record in the list that is not used. */
    method AllocUvm(pid: nat, n: nat, choices: seq<nat>) returns (r: Turn, k: nat)
      requires Good(State()) && pid in procs
      modifies this
      ensures r == TooLarge ==> k == 0 && State() == old(State())
      ensures k <= n && Fits(old(State()), pid, choices, k)
      ensures r != TooLarge && k < n ==> !Fits(old(State()), pid, choices, k + 1)
      ensures r == if old(procs)[pid].sz + n >= KERN_PAGES then TooLarge
                   else if k == n then Added
                   else if Total(old(procs)[pid]) + k == MAX_TOTAL_PAGES then Limit
                   else NoFrames
      ensures r != NoFrames || k == 0 ==> Growing(old(State()), State(), pid, k)
      ensures r == Added || k == 0 ==>
          QueueTo(old(State()), State(), pid, GrownPages(old(procs)[pid], n, choices, r == Added))
      ensures r == NoFrames && k > 0 ==>
          pid in procs && Stale(procs[pid]) && !Inv(State()) && Flat(State()) == old(Flat(State()))
    {
      hide Inv, Resting, SizeOk, Flat, Fits, Turned, Cost, Needs, Stale, Turning, LastOwn, Growing, PageRoom, PagesIn,
        QueueTo, PagesAfter;
      ghost var s, c := State(), AccountOf(State(), pid);
      var sz := procs[pid].sz;
      TurnsStart(s, pid, choices);
      QueueStays(s, pid);
      PagesStart(PagesIn(s.procs[pid]), sz, choices);
      r, k := Added, 0;
      if sz + n >= KERN_PAGES {
        return TooLarge, 0;
      }
      while k < n
        invariant k <= n && r == Added && Fits(s, pid, choices, k)
        invariant Turning(s, State(), pid, k, AccountAt(c, choices, k)) && LastOwn(s, State(), pid, k)
        invariant |free| + Needs(c, choices, k) == |s.free|
        invariant QueueTo(s, State(), pid, PagesAfter(PagesIn(s.procs[pid]), sz, choices, k))
      {
        ghost var before := State();
        PagesNext(PagesIn(s.procs[pid]), sz, choices, k);
        PagesOf(s, before, pid, PagesAfter(PagesIn(s.procs[pid]), sz, choices, k));
        TurnGrows(s, State(), pid, k, AccountAt(c, choices, k));
        FitsNext(s, State(), pid, choices, k);
        r := AllocTurn(s, pid, k, sz + k, ChoiceAt(choices, k), AccountAt(c, choices, k));
        QueueThen(s, before, State(), pid, PagesIn(before.procs[pid]),
                  if r == Added then PageRoom(PagesIn(before.procs[pid]), ChoiceAt(choices, k)) + [sz + k]
                  else if r == Limit then PagesIn(before.procs[pid])
                  else PageRoom(PagesIn(before.procs[pid]), ChoiceAt(choices, k)));
        if r != Added {
          ghost var left := AccountAt(c, choices, k);
          left := if r == Limit then left else Stopped(left, ChoiceAt(choices, k));
          TurnGrows(s, State(), pid, k, left);
          if r == NoFrames && k > 0 {
            GiveUpAll(s, pid, sz, n, k, left);
          }
          return;
        }
        k := k + 1;
      }
      TurnGrows(s, State(), pid, n, AccountAt(c, choices, n));
    }

    /** allocuvm without a frame: the pages that were added are given up again, and no process sees a change. */
    method GiveUpAll(ghost s0: Vm, pid: nat, sz: nat, n: nat, ghost k: nat, ghost c: Account)
      requires Good(s0) && Turning(s0, State(), pid, k, c) && LastOwn(s0, State(), pid, k) && 0 < k <= n
      requires sz == s0.procs[pid].sz
      modifies this
      ensures pid in procs && Stale(procs[pid]) && !Inv(State()) && Flat(State()) == Flat(s0)
    {
      hide Inv, Resting, SizeOk, MemoryOf, Flat, Fresh, PagesOk, Own, OwnFrom, Matches, Stale;
      ghost var now := State();
      Unwind(pid, sz, n, k);
      GrowUndone(s0, now, State(), pid, k, n);
    }

    /** One turn of allocuvm, which needs a frame exactly if the account `c` says so. */
    method AllocTurn(ghost s0: Vm, pid: nat, ghost k: nat, page: nat, choice: nat, ghost c: Account) returns (r: Turn)
      requires Good(s0) && Turning(s0, State(), pid, k, c) && LastOwn(s0, State(), pid, k)
      requires page == s0.procs[pid].sz + k
      modifies this
      ensures r == if Total(old(procs)[pid]) == MAX_TOTAL_PAGES then Limit
                   else if |old(free)| < Cost(c, choice) then NoFrames else Added
      ensures r == Added ==> Turning(s0, State(), pid, k + 1, Turned(c, choice)) && LastOwn(s0, State(), pid, k + 1)
      ensures r == Added ==> |free| + Cost(c, choice) == |old(free)|
      ensures r != Added ==> Turning(s0, State(), pid, k, if r == Limit then c else Stopped(c, choice))
      ensures r != Added ==> LastOwn(s0, State(), pid, k)
      ensures pid in old(procs)
      ensures var pages := PagesIn(old(procs)[pid]);
              QueueTo(old(State()), State(), pid,
                      if r == Limit then pages
                      else if r == NoFrames then PageRoom(pages, choice)
                      else PageRoom(pages, choice) + [page])
    {
      hide Good, Turning, LastOwn, SharedAt, Evicted, Grown, QueueTo;
      ghost var s := State();
      TurnNumbers(s0, State(), pid, k, c);
      QueueStays(s, pid);
      if procs[pid].nram == MAX_PSYC_PAGES {
        if procs[pid].ndisk + MAX_PSYC_PAGES == MAX_TOTAL_PAGES {
          return Limit;
        }
        var i := Pick(|procs[pid].list|, choice);
        MakeRoom(s0, pid, k, i, c);
        ghost var t := State();
        PagesOf(s, t, pid, Without(PagesIn(s.procs[pid]), i));
        r := TakePage(s0, pid, k, page, Evicted(c, i));
        QueueThen(s, t, State(), pid, PagesIn(t.procs[pid]),
                  if r == Added then PagesIn(t.procs[pid]) + [page] else PagesIn(t.procs[pid]));
      } else {
        r := TakePage(s0, pid, k, page, c);
      }
    }

    /** A full process gives up the page at position `i`, into a swap file that is created when needed. */
    method MakeRoom(ghost s0: Vm, pid: nat, ghost k: nat, i: nat, ghost c: Account)
      requires Turning(s0, State(), pid, k, c) && LastOwn(s0, State(), pid, k) && i < |procs[pid].list|
      requires procs[pid].nram == MAX_PSYC_PAGES && procs[pid].ndisk < MAX_TOTAL_PAGES - MAX_PSYC_PAGES
      modifies this
      ensures pid in procs && procs[pid].nram < MAX_PSYC_PAGES
      ensures i < |c.frames| && Turning(s0, State(), pid, k, Evicted(c, i))
      ensures |free| == |old(free)| + if SharedAt(c, i) then 0 else 1
      ensures SharedAt(c, i) ==> LastOwn(s0, State(), pid, k)
      ensures pid in old(procs) && QueueTo(old(State()), State(), pid, Without(PagesIn(old(procs)[pid]), i))
    {
      hide Inv, Resting, SizeOk, MemoryOf, Fresh, PagesOk, OutVm, MetaOk, Own, OwnFrom, SharedAt, Evicted, QueueTo,
        PagesIn, Without;
      ghost var s := State();
      CreateSwapFile(s0, pid, k, c);
      ghost var t := State();
      ProcOk(t, pid);
      RestOf(t, pid);
      SlotLeft(procs[pid]);
      PagesOf(s, t, pid, PagesIn(s.procs[pid]));
      var slot := MoveToDisk(pid, i);
      OutQueue(t, pid, i, slot);
      QueueThen(s, t, State(), pid, PagesIn(t.procs[pid]), Without(PagesIn(t.procs[pid]), i));
      GrowOut(s0, t, pid, k, i, slot);
      OutFree(t, pid, c, i, slot);
      OutMatches(t, pid, c, i, slot);
      OutOwn(t, pid, i, slot, s0.procs[pid].sz);
      if SharedAt(c, i) && k > 0 {
        OwnStays(t, pid, i, slot, Virt(pid, s0.procs[pid].sz + k - 1), c);
      }
    }

    method CreateSwapFile(ghost s0: Vm, pid: nat, ghost k: nat, ghost c: Account)
      requires Turning(s0, State(), pid, k, c) && LastOwn(s0, State(), pid, k)
      modifies `procs
      ensures procs == old(procs)[pid := old(procs)[pid].(hasFile := true)]
      ensures QueueTo(old(State()), State(), pid, PagesIn(old(procs)[pid]))
      ensures Turning(s0, State(), pid, k, c) && LastOwn(s0, State(), pid, k)
    {
      hide Inv, Resting, SizeOk, MemoryOf, Fresh, PagesOk, MetaOk, MatchAt, OwnFrom;
      ghost var s := State();
      GrowTouch(s0, s, pid, k);
      TouchMatches(s, pid, c, true, s.procs[pid].sz);
      procs := procs[pid := procs[pid].(hasFile := true)];
      QueueStays(s, pid);
      QueueTouched(s, s, State(), pid, PagesIn(s.procs[pid]));
      assert State() == TouchVm(s, pid, s.procs[pid].list, true, s.procs[pid].sz);
      OwnStep(s, State(), pid, s0.procs[pid].sz);
    }

    /** A zeroed frame for the next page, and a record for it (addPageToRam). */
    method TakePage(ghost s0: Vm, pid: nat, ghost k: nat, page: nat, ghost c: Account) returns (r: Turn)
      requires Good(s0) && Turning(s0, State(), pid, k, c) && page == s0.procs[pid].sz + k
      requires procs[pid].nram < MAX_PSYC_PAGES
      modifies this
      ensures r == (if old(free) == [] then NoFrames else Added)
      ensures r == Added ==> Turning(s0, State(), pid, k + 1, Grown(c)) && LastOwn(s0, State(), pid, k + 1)
      ensures r == Added ==> |free| + 1 == |old(free)|
      ensures r == NoFrames ==> State() == old(State())
      ensures pid in old(procs) &&
              QueueTo(old(State()), State(), pid,
                      if r == Added then PagesIn(old(procs)[pid]) + [page] else PagesIn(old(procs)[pid]))
    {
      hide Inv, Resting, SizeOk, MemoryOf, Fresh, PagesOk, MetaOk, NewVm, Matches, OwnFrom, PagesIn, QueueTo;
      ghost var s := State();
      ProcOk(s, pid);
      RestOf(s, pid);
      RecordLeft(procs[pid]);
      RecordCount(procs[pid]);
      NextUnmapped(s0, s, pid, k);
      var a := FindUnused(pid);
      r := PutPage(pid, a, page);
      QueueStays(s, pid);
      if r == Added {
        NewQueue(s, pid, a, page);
        GrowNew(s0, s, pid, k, a);
        NewMatches(s, pid, c, a, page);
        NewOwn(s, pid, a, page, s0.procs[pid].sz);
      }
    }

    method PutPage(pid: nat, a: nat, page: nat) returns (r: Turn)
      requires Inv(State()) && pid in procs && a < MAX_TOTAL_PAGES
      modifies this
      ensures r == (if old(free) == [] then NoFrames else Added)
      ensures State() == if r == Added then NewVm(old(State()), pid, a, page) else old(State())
      ensures r == Added ==> Own(State(), Virt(pid, page)) && |free| + 1 == |old(free)|
    {
      var f := Kalloc();
      if f < 0 {
        return NoFrames;
      }
      var p := procs[pid];
      mem := mem[f := Zeroes()];
      pt := pt[Virt(pid, page) := Present(f, true, false)];
      procs := procs[pid := SwapMeta.Added(p, a, page)];
      r := Added;
    }

    /** deallocuvm of the `n` pages that a failed growth asked for, of which it added `k`. All of them are
        given up and all other pages keep their contents, but from the first that was in memory on the list
        of resident pages has a record that is not used. */
    method Unwind(pid: nat, sz: nat, n: nat, ghost k: nat)
      requires Inv(State()) && pid in procs && 0 < k <= n && Own(State(), Virt(pid, sz + k - 1))
      requires OwnFrom(State(), pid, sz)
      modifies this
      ensures pid in procs && Stale(procs[pid]) && !Inv(State()) && GivenUp(old(State()), State(), pid, sz, sz + n)
    {
      hide Inv, Torn, OwnFrom, GivenUp, Stale;
      ghost var s, broken := State(), false;
      InvTorn(s);
      NothingGivenUp(s, pid, sz, sz);
      for j := 0 to n
        invariant Torn(State()) && pid in procs && OwnFrom(State(), pid, sz) && GivenUp(s, State(), pid, sz, sz + j)
        invariant broken ==> Stale(procs[pid])
        invariant !broken ==> j < k && Inv(State()) && Own(State(), Virt(pid, sz + k - 1))
      {
        ghost var t, v := State(), Virt(pid, sz + j);
        if Virt(pid, sz + j) !in pt {
          NothingGivenUp(t, pid, sz + j, sz + j + 1);
        } else if pt[Virt(pid, sz + j)].Present? {
          OwnAt(t, pid, sz, v);
          var ok := DeletePage(pid, sz + j, sz);
          broken := true;
        } else {
          ForgetPage(pid, sz + j, sz, Virt(pid, sz + k - 1));
        }
        GiveUpNext(s, t, State(), pid, sz, sz + j);
      }
      StaleBreaks(State(), pid);
    }

    /** A page in the swap file is given up, with its record and its slot. */
    method ForgetPage(pid: nat, page: nat, ghost lo: nat, ghost u: Virt)
      requires Torn(State()) && pid in procs && Virt(pid, page) in pt && pt[Virt(pid, page)].Swapped?
      requires OwnFrom(State(), pid, lo)
      modifies this
      ensures Torn(State()) && pid in procs && (old(Inv(State())) ==> Inv(State()))
      ensures GivenUp(old(State()), State(), pid, page, page + 1) && (old(Stale(procs[pid])) ==> Stale(procs[pid]))
      ensures OwnFrom(State(), pid, lo) && (old(Own(State(), u)) ==> Own(State(), u))
    {
      hide Inv, CountsOk, SharingOk, Agree, GivenUp, OwnFrom, Stale;
      ghost var s := State();
      var v := Virt(pid, page);
      var a := FindRecord(pid, page);
      RecordOf(s, v, a);
      assert TornEntry(procs[pid], a);
      ForgetTorn(s, v, a);
      ForgetGivesUp(s, v, a);
      if Inv(s) {
        ForgetInv(s, v, a);
      }
      pt := pt - {v};
      procs := procs[pid := Forgotten(procs[pid], a)];
      assert State() == ForgetVm(s, v, a);
      OwnStep(s, State(), pid, lo);
    }

    /** deallocuvm of a page in memory, with deletePage: its record stays in the list, and the first page in
        the swap file takes its place. Not finding a frame for that is a panic, which needs a page that is
        shared. */
    method DeletePage(pid: nat, page: nat, ghost lo: nat) returns (ok: bool)
      requires Torn(State()) && pid in procs && Virt(pid, page) in pt && pt[Virt(pid, page)].Present?
      modifies this
      ensures !ok <==>
                && old(free) == [] && old(refs)[old(pt)[Virt(pid, page)].frame] > 1 && old(procs)[pid].ndisk > 0
                && exists b: nat :: b < MAX_TOTAL_PAGES && old(procs)[pid].meta[b].state == InDisk
      ensures old(Own(State(), Virt(pid, page))) ==> ok
      ensures Torn(State()) && pid in procs && (old(OwnFrom(State(), pid, lo)) ==> OwnFrom(State(), pid, lo))
      ensures old(Inv(State())) || old(Stale(procs[pid])) ==> Stale(procs[pid])
      ensures GivenUp(old(State()), State(), pid, page, page + 1)
    {
      hide Torn, GivenUp, OwnFrom, Stale, Inv;
      ghost var s, v := State(), Virt(pid, page);
      var a := DropRecord(pid, page);
      ghost var t := State();
      DeleteTorn(s, v, a);
      DeleteGivesUp(s, v, a);
      DeleteFacts(s, v, a);
      ok := true;
      if procs[pid].ndisk > 0 {
        ok := BringIn(pid);
        if State() != t {
          ghost var c: nat :| Brought(t, State(), pid, c);
          LoadGivesUp(s, t, v, c);
          LoadKept(s, t, pid, c);
        }
      }
      if OwnFrom(s, pid, lo) {
        OwnStep(s, State(), pid, lo);
      }
    }

    /** The frame, the entry and the record are given up. */
    method DropRecord(pid: nat, page: nat) returns (a: nat)
      requires Torn(State()) && pid in procs && Virt(pid, page) in pt && pt[Virt(pid, page)].Present?
      modifies this
      ensures EntryFor(old(procs)[pid], a, page, old(pt)[Virt(pid, page)])
      ensures State() == DeleteVm(old(State()), Virt(pid, page), a)
    {
      hide CountsOk, SharingOk, Agree;
      ghost var s := State();
      var v := Virt(pid, page);
      DropOk(pt, refs, free, v);
      var ok := Kfree(pt[v].frame);
      pt := pt - {v};
      var b := FindRecord(pid, page);
      RecordOf(s, v, b);
      procs := procs[pid := Deleted(procs[pid], b)];
      a := b;
    }

    /** The end of deletePage: the first page in the swap file comes in. */
    method BringIn(pid: nat) returns (ok: bool)
      requires Torn(State()) && pid in procs
      modifies this
      ensures !ok <==>
                old(free) == [] && exists b: nat :: b < MAX_TOTAL_PAGES && old(procs)[pid].meta[b].state == InDisk
      ensures Torn(State()) && pid in procs && (old(Stale(procs[pid])) ==> Stale(procs[pid]))
      ensures State() == old(State()) || exists c: nat :: Brought(old(State()), State(), pid, c)
    {
      hide SharingOk, Agree, Stale;
      ok := true;
      ghost var t := State();
      var c := FindOnDisk(pid);
      if c >= 0 {
        assert TornEntry(procs[pid], c);
        ghost var v := FiledPage(t, pid, c);
        if t.free != [] {
          LoadTorn(t, pid, c);
        }
        ok := LoadPage(pid, c);
        assert ok ==> Brought(t, State(), pid, c);
      }
    }

    /** The search of deletePage for a page in the swap file. */
    method FindOnDisk(pid: nat) returns (a: int)
      requires pid in procs && |procs[pid].meta| == MAX_TOTAL_PAGES
      ensures a >= 0 ==> a < MAX_TOTAL_PAGES && procs[pid].meta[a].state == InDisk
      ensures forall b: nat | b < a && b < MAX_TOTAL_PAGES :: procs[pid].meta[b].state != InDisk
      ensures a < 0 ==> forall b: nat | b < MAX_TOTAL_PAGES :: procs[pid].meta[b].state != InDisk
    {
      var i := 0;
      while i < MAX_TOTAL_PAGES
        invariant i <= MAX_TOTAL_PAGES && forall b: nat | b < i :: procs[pid].meta[b].state != InDisk
      {
        if procs[pid].meta[i].state == InDisk {
          return i;
        }
        i := i + 1;
      }
      return -1;
    }

    // -------------------------------------------------------------- write faults

    /** The copy-on-write branch of trap. With the memory it needs, no process sees a change and the page
        may be written; without, the state is left with a count that is too low. */
    method WriteFault(v: Virt) returns (r: Outcome)
      requires Good(State()) && v in pt && pt[v].Present?
      modifies this
      ensures r == (if old(refs)[old(pt)[v].frame] == 1 || old(free) != [] then Done else NoMemory)
      ensures State() == FaultVm(old(State()), v) && (Good(State()) <==> r == Done)
      ensures r == Done ==> Flat(State()) == old(Flat(State())) && v in pt && pt[v].Present? && pt[v].w
      ensures procs == old(procs)
    {
      hide Inv, Resting, SizeOk, Flat, MemoryOf;
      FaultFlat(State(), v);
      FrameCounted(State(), v);
      if refs[pt[v].frame] == 1 {
        pt := pt[v := pt[v].(w := true, cow := false)];
        return Done;
      }
      r := CopyFrame(v);
    }

    /** The page gets a frame of its own if there is one; the shared frame loses a reference in any case. */
    method CopyFrame(v: Virt) returns (r: Outcome)
      requires Inv(State()) && v in pt && pt[v].Present? && refs[pt[v].frame] > 1
      modifies this
      ensures r == (if old(free) == [] then NoMemory else Done)
      ensures State() == FaultVm(old(State()), v) && procs == old(procs)
    {
      hide Inv;
      ghost var s := State();
      FrameCounted(s, v);
      r := NoMemory;
      var f := pt[v].frame;
      var g := Kalloc();
      if g >= 0 {
        CopyCounts(s, v);
        mem := mem[g := mem[f]];
        pt := pt[v := Present(g, true, false)];
        r := Done;
      }
      refs := refs[f := refs[f] - 1];
    }

    // -------------------------------------------------------------- loads and stores

    /** A load by a process: it gets the byte that its flat memory has there. */
    method Load(v: Virt, off: nat, i: nat) returns (r: Outcome)
      requires Good(State()) && off < PGSIZE
      requires v.pid in procs && procs[v.pid].list != [] ==> i < |procs[v.pid].list|
      modifies this
      ensures r == Fault <==> v !in old(pt)
      ensures r == Panic || (Good(State()) && Flat(State()) == old(Flat(State())))
      ensures r == Panic || r == Fault || (r.Got? && ByteIs(Flat(State()), v, off, r.byte))
      ensures r == Panic <==> Blocked(old(State()), v, i)
      ensures r.Got? ==> Touched(old(State()), State(), v, i)
      ensures r == Fault ==> State() == old(State())
    {
      hide Inv, Resting, SizeOk, Flat, NoFrame, MemoryOf, QueueTo;
      if v !in pt {
        return Fault;
      }
      FlatAt(State(), v);
      if pt[v].Swapped? {
        r := SwapPages(v, i);
        if r == Panic {
          return;
        }
      }
      var byte := GetByte(v, off);
      r := Got(byte);
    }

    method GetByte(v: Virt, off: nat) returns (byte: bv8)
      requires Good(State()) && v in pt && pt[v].Present? && off < PGSIZE
      ensures ByteIs(Flat(State()), v, off, byte)
    {
      hide Inv, Resting, SizeOk, Flat, MemoryOf;
      FlatAt(State(), v);
      FrameOf(State(), v);
      byte := mem[pt[v].frame][off];
    }

    /** A store by a process: its flat memory changes there, and nothing else changes for anyone. */
    method Store(v: Virt, off: nat, byte: bv8, i: nat) returns (r: Outcome)
      requires Good(State()) && off < PGSIZE
      requires v.pid in procs && procs[v.pid].list != [] ==> i < |procs[v.pid].list|
      modifies this
      ensures r == Fault <==> v !in old(pt)
      ensures r == Done || r == Fault || r == Panic || r == NoMemory
      ensures r == Fault ==> State() == old(State())
      ensures r == Done ==> Good(State()) && Stored(old(Flat(State())), v, off, byte, Flat(State()))
      ensures r == Panic <==> Blocked(old(State()), v, i)
      ensures r == NoMemory <==> Starved(old(State()), v)
      ensures r == Done ==> Touched(old(State()), State(), v, i)
    {
      hide Inv, Resting, SizeOk, Flat, NoFrame, MemoryOf, FaultVm;
      if v !in pt {
        return Fault;
      }
      FlatAt(State(), v);
      if pt[v].Swapped? {
        r := SwapPages(v, i);
        if r == Panic {
          return;
        }
      }
      if !pt[v].w {
        r := WriteFault(v);
        if r == NoMemory {
          return;
        }
      }
      PutByte(v, off, byte);
      r := Done;
    }

    method PutByte(v: Virt, off: nat, byte: bv8)
      requires Good(State()) && v in pt && pt[v].Present? && pt[v].w && off < PGSIZE
      modifies `mem
      ensures Good(State()) && Stored(old(Flat(State())), v, off, byte, Flat(State()))
    {
      hide Resting, SizeOk, Flat, MemoryOf;
      var f := pt[v].frame;
      FlatAt(State(), v);
      FrameOf(State(), v);
      var page: Page := mem[f][off := byte];
      StoredFlat(State(), v, page);
      mem := mem[f := page];
    }

    // -------------------------------------------------------------- fork and exit

    /** One turn of copyuvm. */
    method SharePage(v: Virt, u: Virt)
      requires v in pt && CountsOk(pt, refs, free)
      modifies `pt, `refs
      ensures State() == ShareVm(old(State()), v, u)
    {
      if pt[v].Present? {
        if pt[v].w {
          pt := pt[v := pt[v].(w := false, cow := true)];
        }
        refs := refs[pt[v].frame := refs[pt[v].frame] + 1];
      }
      pt := pt[u := pt[v]];
    }

    /** fork: the child gets the memory of its parent, and nobody else sees a change. It is refused when
        there is no memory to map page `room`, which has to be in memory; then nobody sees a change. */
    method Fork(parent: nat, child: nat, room: nat) returns (r: Outcome)
      requires Good(State()) && parent in procs && child !in procs
      modifies this
      ensures Good(State())
      ensures r == Done ==> Flat(State()) == old(Flat(State()))[child := old(Flat(State()))[parent]]
      ensures r == Refused ==> Flat(State()) == old(Flat(State()))
      ensures r == Done ==> child in procs && procs == old(procs)[child := procs[child]]
      ensures r == Done ==> procs[child].list == old(procs)[parent].list && procs[child].meta == old(procs)[parent].meta
      ensures r == Refused ==> procs == old(procs)
      ensures r == if Virt(parent, room) in old(pt) && old(pt)[Virt(parent, room)].Present? then Refused else Done
    {
      ghost var s := State();
      var k := CopyUvm(parent, child, room);
      if k < procs[parent].sz {
        FreeVm(s, child, k);
        NoChildFlat(s, State(), child, k);
        return Refused;
      }
      BornFlat(s, State(), parent, child);
      procs := procs[child := Copied(procs[parent], Zeroes())];
      assert SizeOk(s, Virt(parent, room));
      r := Done;
    }

    /** copyuvm, up to the page that cannot be mapped. */
    method CopyUvm(parent: nat, child: nat, room: nat) returns (k: nat)
      requires Good(State()) && parent in procs && child !in procs
      modifies `pt, `refs
      ensures parent in procs && k <= procs[parent].sz
      ensures k == procs[parent].sz ==> Forking(old(State()), State(), parent, child, k)
      ensures k < procs[parent].sz ==> Freeing(old(State()), State(), child, 0, k)
      ensures k < procs[parent].sz <==> Virt(parent, room) in old(pt) && old(pt)[Virt(parent, room)].Present?
    {
      hide Inv, Resting, InvBut, Outside, Freeing;
      ghost var s := State();
      var n := procs[parent].sz;
      ForkStart(s, parent, child);
      assert SizeOk(s, Virt(parent, room));
      k := 0;
      while k < n
        invariant k <= n && Forking(s, State(), parent, child, k) && procs == s.procs
        invariant room < k ==> s.pt[Virt(parent, room)].Swapped?
      {
        var v := Virt(parent, k);
        StillThere(s, State(), parent, child, k);
        if pt[v].Present? && k == room {
          ForkFails(s, State(), parent, child, k);
          pt := pt[v := Shared(pt[v])];
          return;
        }
        ForkTurn(s, State(), parent, child, k);
        SharePage(v, Virt(child, k));
        k := k + 1;
      }
    }

    /** deallocuvm of all pages of a process, which has no pages at `n` or above. */
    method FreeVm(ghost s: Vm, x: nat, n: nat)
      requires Freeing(s, State(), x, 0, n)
      modifies this
      ensures Freeing(s, State(), x, n, n) && procs == old(procs)
    {
      hide InvBut, Outside, CountsOk;
      var k := 0;
      while k < n
        invariant k <= n && Freeing(s, State(), x, k, n) && procs == old(procs)
      {
        var u := Virt(x, k);
        if u in pt {
          FreeCounts(s, State(), x, k, n);
          FreeTurn(s, State(), x, k, n);
          DropPage(u);
        } else {
          FreeNone(s, State(), x, k, n);
        }
        k := k + 1;
      }
    }

    method DropPage(u: Virt)
      requires u in pt && |mem| == |refs|
      requires pt[u].Present? ==> pt[u].frame < |refs| && refs[pt[u].frame] > 0
      modifies this
      ensures State() == DropVm(old(State()), u)
    {
      if pt[u].Present? {
        var ok := Kfree(pt[u].frame);
      }
      pt := pt - {u};
    }

    /** The memory of a process goes when it has exited and its parent waits for it. */
    method Exit(pid: nat)
      requires Good(State()) && pid in procs
      modifies this
      ensures Good(State()) && Flat(State()) == old(Flat(State())) - {pid} && procs == old(procs) - {pid}
    {
      ghost var s := State();
      FreeStart(s, pid);
      var n := procs[pid].sz;
      FreeVm(s, pid, n);
      GoneFlat(s, State(), pid, n);
      procs := procs - {pid};
    }

    /** allocproc and init_meta_data. */
    method NewProc(pid: nat)
      requires Good(State()) && pid !in procs
      modifies `procs
      ensures Good(State()) && Flat(State()) == old(Flat(State()))[pid := []] && procs == old(procs)[pid := EmptyProc()]
    {
      assert Unused(EmptyProc());
      SpawnFlat(State(), pid, EmptyProc());
      procs := procs[pid := EmptyProc()];
    }

    /** A replacement policy puts the resident pages in another order. */
    method Reorder(pid: nat, order: seq<nat>)
      requires Good(State()) && pid in procs && multiset(order) == multiset(procs[pid].list)
      modifies this
      ensures Good(State()) && Flat(State()) == old(Flat(State()))
      ensures State() == old(State()).(procs := old(procs)[pid := old(procs)[pid].(list := order)])
    {
      TouchFlat(State(), pid, order);
      procs := procs[pid := procs[pid].(list := order)];
    }
  }
}
