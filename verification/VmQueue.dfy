/** The resident pages of each process, by page number and in the order of the process's list: which pages are in
    memory, and who is next to go (vm.c).
 */
module VmQueue {
  import opened Common
  import opened Frames
  import opened SwapMeta
  import opened VmCore
  import opened VmSwap
  import opened VmBudget

  /** The page of record `a`. */
  function IdAt(p: Proc, a: nat): nat {
    if a < |p.meta| && p.meta[a].id >= 0 then p.meta[a].id else 0
  }

  function PagesBy(p: Proc, order: seq<nat>): (r: seq<nat>)
    ensures |r| == |order|
  {
    seq(|order|, k requires 0 <= k < |order| => IdAt(p, order[k]))
  }

  function PagesIn(p: Proc): (r: seq<nat>)
    ensures |r| == |p.list|
  {
    PagesBy(p, p.list)
  }

  ghost function Queues(s: Vm): map<nat, seq<nat>> {
    map pid | pid in s.procs :: PagesIn(s.procs[pid])
  }

  /** A full process gives up the page that the policy chooses. */
  function PageRoom(pages: seq<nat>, choice: nat): seq<nat> {
    if |pages| < MAX_PSYC_PAGES || |pages| == 0 then pages else Without(pages, Pick(|pages|, choice))
  }

  /** The resident pages after `k` pages from `first` on have been added. */
  function PagesAfter(pages: seq<nat>, first: nat, choices: seq<nat>, k: nat): seq<nat> {
    if k == 0 then pages
    else PageRoom(PagesAfter(pages, first, choices, k - 1), ChoiceAt(choices, k - 1)) + [first + k - 1]
  }

  lemma OutPages(p: Proc, i: nat, slot: nat, page: Page)
    requires i < |p.list| && p.list[i] < |p.meta| && slot < |p.avail| && slot <= |p.file|
    ensures PagesIn(Out(p, i, slot, page)) == Without(PagesIn(p), i)
  {
    hide FileWith;
  }

  lemma InPages(p: Proc, a: nat)
    requires a < |p.meta| && 0 <= p.meta[a].slot < |p.avail| && p.meta[a].id >= 0
    ensures PagesIn(In(p, a)) == PagesIn(p) + [p.meta[a].id]
  {
  }

  lemma AddedPages(p: Proc, a: nat, page: nat)
    requires a < |p.meta| && a !in p.list
    ensures PagesIn(Added(p, a, page)) == PagesIn(p) + [page]
  {
  }

  lemma SamePages(p: Proc, q: Proc)
    requires q.list == p.list && q.meta == p.meta
    ensures PagesIn(q) == PagesIn(p)
  {
  }

  // ---------------------------------------------------------------- steps of the machine

  /** From `s` to `t` only process `pid` changes, and its resident pages become `pages`. */
  ghost predicate QueueTo(s: Vm, t: Vm, pid: nat, pages: seq<nat>) {
    pid in s.procs && pid in t.procs && t.procs == s.procs[pid := t.procs[pid]] && PagesIn(t.procs[pid]) == pages
  }

  lemma OutQueue(s: Vm, pid: nat, i: nat, slot: nat)
    requires Inv(s) && pid in s.procs && i < |s.procs[pid].list| && LowestFree(s.procs[pid].avail, slot)
    ensures QueueTo(s, OutVm(s, pid, i, slot), pid, Without(PagesIn(s.procs[pid]), i))
  {
    hide CountsOk, SharingOk, Agree, Without, PagesIn;
    var p := s.procs[pid];
    ListedRecord(p, i);
    SlotFits(p, slot);
    OutPages(p, i, slot, s.mem[s.pt[Resident(s, pid, i)].frame]);
  }

  lemma InQueue(s: Vm, pid: nat, a: nat)
    requires Inv(s) && pid in s.procs && a < MAX_TOTAL_PAGES && s.procs[pid].meta[a].state == InDisk && s.free != []
    ensures s.procs[pid].meta[a].id >= 0
    ensures QueueTo(s, InVm(s, pid, a), pid, PagesIn(s.procs[pid]) + [s.procs[pid].meta[a].id])
  {
    hide CountsOk, SharingOk, Agree, MetaOk, PagesIn;
    TwoRecords(s.procs[pid], a, a);
    InPages(s.procs[pid], a);
  }

  lemma NewQueue(s: Vm, pid: nat, a: nat, page: nat)
    requires Inv(s) && pid in s.procs && a < MAX_TOTAL_PAGES && s.procs[pid].meta[a].state == NotUsed && s.free != []
    ensures QueueTo(s, NewVm(s, pid, a, page), pid, PagesIn(s.procs[pid]) + [page])
  {
    hide CountsOk, SharingOk, Agree, MetaOk, PagesIn;
    TwoRecords(s.procs[pid], a, a);
    AddedPages(s.procs[pid], a, page);
  }

  /** Out and in: the page at position `i` leaves and the page of record `a` is the last. */
  lemma SwapQueue(s: Vm, pid: nat, i: nat, slot: nat, a: nat)
    requires Inv(s) && pid in s.procs && i < |s.procs[pid].list| && LowestFree(s.procs[pid].avail, slot)
    requires a < MAX_TOTAL_PAGES && Inv(OutVm(s, pid, i, slot)) && OutVm(s, pid, i, slot).free != []
    requires OutVm(s, pid, i, slot).procs[pid].meta[a].state == InDisk
    ensures var t := OutVm(s, pid, i, slot);
            && t.procs[pid].meta[a].id >= 0
            && QueueTo(s, InVm(t, pid, a), pid, Without(PagesIn(s.procs[pid]), i) + [t.procs[pid].meta[a].id])
  {
    hide Inv, OutVm, InVm, Without, PagesIn;
    OutQueue(s, pid, i, slot);
    InQueue(OutVm(s, pid, i, slot), pid, a);
  }

  lemma QueueThen(s: Vm, t: Vm, u: Vm, pid: nat, pages: seq<nat>, more: seq<nat>)
    requires QueueTo(s, t, pid, pages) && QueueTo(t, u, pid, more)
    ensures QueueTo(s, u, pid, more)
  {
  }

  lemma PagesOf(s: Vm, t: Vm, pid: nat, pages: seq<nat>)
    requires QueueTo(s, t, pid, pages)
    ensures pid in t.procs && PagesIn(t.procs[pid]) == pages
  {
  }

  lemma PagesStart(pages: seq<nat>, first: nat, choices: seq<nat>)
    ensures PagesAfter(pages, first, choices, 0) == pages
  {
  }

  lemma PagesNext(pages: seq<nat>, first: nat, choices: seq<nat>, k: nat)
    ensures PagesAfter(pages, first, choices, k + 1)
         == PageRoom(PagesAfter(pages, first, choices, k), ChoiceAt(choices, k)) + [first + k]
  {
  }

  /** Creating the swap file and setting the size leave the queue. */
  lemma QueueTouched(s: Vm, t: Vm, u: Vm, pid: nat, pages: seq<nat>)
    requires QueueTo(s, t, pid, pages) && pid in u.procs && u.procs == t.procs[pid := u.procs[pid]]
    requires u.procs[pid].list == t.procs[pid].list && u.procs[pid].meta == t.procs[pid].meta
    ensures QueueTo(s, u, pid, pages)
  {
    SamePages(t.procs[pid], u.procs[pid]);
  }

  lemma QueueStays(s: Vm, pid: nat)
    requires pid in s.procs
    ensures QueueTo(s, s, pid, PagesIn(s.procs[pid]))
  {
  }

  lemma QueuesNow(s: Vm, t: Vm, pid: nat, pages: seq<nat>)
    requires QueueTo(s, t, pid, pages)
    ensures Queues(t) == Queues(s)[pid := pages]
  {
    OneQueue(s, t, pid);
  }

  /** The queue of one process changes. */
  lemma OneQueue(s: Vm, t: Vm, pid: nat)
    requires pid in t.procs && t.procs == s.procs[pid := t.procs[pid]]
    ensures Queues(t) == Queues(s)[pid := PagesIn(t.procs[pid])]
  {
  }
}
