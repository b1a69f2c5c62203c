/** Page faults under the replacement policies (vm.c, trap.c): the linked list of resident pages on which a
    policy works is the list of the machine, and stays so.
 */
module VmPolicy {
  import opened Common
  import opened Frames
  import opened SwapMeta
  import opened VmCore
  import opened VmSteps
  import opened VmWorld
  import opened VmUnwind
  import opened VmMachine
  import opened PageLinks
  import opened Ageing
  import opened PagePolicy

  /** `l` is the list of resident pages of process `pid`. */
  ghost predicate Mirrors(m: Machine, l: PageList, pid: nat)
    reads m, l, l.next, l.prev
  {
    l.Valid() && pid in m.procs && l.list == m.procs[pid].list
  }

  /** A page in the swap file means a list that does not become empty. */
  lemma LongList(s: Vm, v: Virt)
    requires Good(s) && v in s.pt && s.pt[v].Swapped? && v.pid in s.procs
    ensures |s.procs[v.pid].list| >= MAX_PSYC_PAGES - 1
  {
    assert Recorded(s, v);
    var a: nat :| EntryFor(s.procs[v.pid], a, v.page, s.pt[v]);
    VictimLeft(s.procs[v.pid], a);
  }

  /** The record of the page that comes in is the one that the search finds. */
  lemma SameRecord(s: Vm, pid: nat, q: Proc, i: nat, page: nat, a: nat)
    requires Inv(s) && pid in s.procs && Exchanged(s.procs[pid], q, i, page)
    requires a < MAX_TOTAL_PAGES && s.procs[pid].meta[a].id == page
    ensures i < |s.procs[pid].list| && q.list == Without(s.procs[pid].list, i) + [a] && a !in s.procs[pid].list
  {
    var p := s.procs[pid];
    var b: nat :| b < |p.meta| && p.meta[b].id == page && p.meta[b].state == InDisk && i < |p.list|
      && q.list == Without(p.list, i) + [b];
    assert Apart(p.meta, a, b) && EntryOk(p, b);
  }

  /** The position of a page in the list. */
  method Position(list: seq<nat>, p: nat) returns (i: nat)
    requires p in list
    ensures i < |list| && list[i] == p
  {
    i := 0;
    while list[i] != p
      invariant i < |list| && p !in list[..i]
      decreases |list| - i
    {
      i := i + 1;
    }
  }

  lemma OutOfList(l: PageList, i: nat)
    requires l.Valid() && i < |l.list|
    ensures l.list[i] !in Without(l.list, i) && InRange(MAX_TOTAL_PAGES, l.list)
    ensures (forall x | x in Without(l.list, i) :: x in l.list) && l.accessed.Length == MAX_TOTAL_PAGES
  {
    l.ListFacts();
    var rest := Without(l.list, i);
    forall k | 0 <= k < |rest| ensures rest[k] != l.list[i] && rest[k] in l.list {
      assert rest[k] == l.list[if k < i then k else k + 1];
    }
  }

  /** Record `a` of the process is that of the page. */
  ghost predicate RecordIs(s: Vm, v: Virt, a: nat) {
    v.pid in s.procs && a < |s.procs[v.pid].meta| == MAX_TOTAL_PAGES && s.procs[v.pid].meta[a].id == v.page
  }

  /** swapPages with the victim `p` that the policy has chosen, at position `i`: it leaves the list, and the
      record `a` of the page that comes in is put at its end, with a page table entry of its own, in which the
      access bit is clear (mappages). */
  method Exchange(m: Machine, l: PageList, v: Virt, p: nat, i: nat) returns (r: Outcome, a: nat)
    requires Good(m.State()) && Mirrors(m, l, v.pid) && v in m.pt && m.pt[v].Swapped?
    requires i < |l.list| && l.list[i] == p
    modifies m, l`head, l`list, l.next, l.prev, l.accessed
    ensures r == if NoFrame(old(m.State()), v.pid, i) then Panic else Done
    ensures r == Done ==> Good(m.State()) && Flat(m.State()) == old(Flat(m.State())) && Mirrors(m, l, v.pid)
    ensures r == Done ==> v in m.pt && m.pt[v].Present? && p !in l.list
    ensures RecordIs(old(m.State()), v, a)
    ensures r == Done ==> l.list == Without(old(l.list), i) + [a] && a !in old(l.list)
    ensures l.accessed[..] == if r == Done then old(l.accessed[..])[a := false] else old(l.accessed[..])
  {
    hide Inv, Resting, SizeOk, Flat, PageList.Valid, NoFrame, Exchanged;
    ghost var s := m.State();
    ProcOk(s, v.pid);
    LongList(s, v);
    RecordCount(m.procs[v.pid]);
    var found := m.FindRecord(v.pid, v.page);
    InvTorn(s);
    RecordOf(s, v, found);
    a := found;
    r := m.SwapPages(v, i);
    if r == Done {
      SameRecord(s, v.pid, m.procs[v.pid], i, v.page, a);
      OutOfList(l, i);
      l.RemovePageFromList(p, i);
      l.AddPageToList(a);
      l.accessed[a] := false;
    }
  }

  /** The pages of a linked list in order. */
  method Walk(l: PageList) returns (order: seq<nat>)
    requires l.Valid()
    ensures order == l.list
  {
    order := [];
    var p := l.head;
    while p != NIL
      invariant |order| <= |l.list| && order == l.list[..|order|] && p == At(l.list, |order|)
      decreases |l.list| - |order|
    {
      assert Linked(l.next[..], l.prev[..], l.list, |order|);
      order, p := order + [p], l.next[p];
    }
  }

  /** Whether a victim's frame is shared does not depend on the order of the list. */
  lemma SameFrame(s: Vm, t: Vm, pid: nat, order: seq<nat>, i: nat, j: nat)
    requires Inv(s) && Inv(t) && pid in s.procs && t == s.(procs := s.procs[pid := s.procs[pid].(list := order)])
    requires i < |s.procs[pid].list| && j < |order| && order[j] == s.procs[pid].list[i]
    ensures NoFrame(t, pid, j) <==> NoFrame(s, pid, i)
  {
    hide Inv;
  }

  /** The machine's list takes the order that the policy has given to the linked list. */
  method Adopt(m: Machine, l: PageList, pid: nat)
    requires Good(m.State()) && pid in m.procs && l.Valid() && multiset(l.list) == multiset(m.procs[pid].list)
    modifies m
    ensures Good(m.State()) && Flat(m.State()) == old(Flat(m.State())) && Mirrors(m, l, pid)
    ensures m.State() == old(m.State()).(procs := old(m.procs)[pid := old(m.procs)[pid].(list := l.list)])
  {
    hide Good, Flat, PageList.Valid;
    var order := Walk(l);
    m.Reorder(pid, order);
  }

  lemma WithoutFirst(s: seq<nat>)
    requires s != []
    ensures Without(s, 0) == s[1..]
  {
  }

  lemma BitsElsewhere(s: seq<nat>, user: seq<bool>, before: seq<bool>, after: seq<bool>, all: bool, k: nat, q: nat)
    requires InRange(|user|, s) && |user| == |before| && BitsAfter(s, user, before, after, all, k)
    requires q < |before| && q !in s
    ensures |after| == |before| && after[q] == before[q]
  {
  }

  /** A page fault under SCFIFO: the second-chance page goes out. */
  method FaultScfifo(m: Machine, l: PageList, v: Virt) returns (r: Outcome, ghost k: nat, ghost a: nat)
    requires Good(m.State()) && Mirrors(m, l, v.pid) && v in m.pt && m.pt[v].Swapped?
    requires exists i :: 0 <= i < |l.list| && l.user[l.list[i]]
    modifies m, l`head, l`list, l.next, l.prev, l.accessed
    ensures SecondChance(old(l.list), l.user[..], old(l.accessed[..]), k)
    ensures r == if NoFrame(old(m.State()), v.pid, k) then Panic else Done
    ensures r == Done ==> Good(m.State()) && Flat(m.State()) == old(Flat(m.State())) && Mirrors(m, l, v.pid)
    ensures r == Done ==> v in m.pt && m.pt[v].Present? && old(l.list)[k] !in l.list
    ensures RecordIs(old(m.State()), v, a) && (r == Done ==> l.list == Rotated(old(l.list), k)[1..] + [a])
    ensures r == Done ==>
              var all := AllUserAccessed(old(l.list), l.user[..], old(l.accessed[..]));
              var bits := l.accessed[..][a := old(l.accessed[a])];
              !l.accessed[a] && BitsAfter(old(l.list), l.user[..], old(l.accessed[..]), bits, all, k)
  {
    hide Inv, Resting, SizeOk, Flat, NoFrame, BitsAfter, ListOk, Rotated, Without;
    LongList(m.State(), v);
    l.ListFacts();
    var p;
    ghost var list, accessed, steps := l.list, l.accessed[..], 0;
    p, k, steps := l.ChooseScfifo();
    RotatedReorders(list, k);
    RotatedHead(list, k);
    ghost var s := m.State();
    Adopt(m, l, v.pid);
    SameFrame(s, m.State(), v.pid, l.list, k, 0);
    ghost var bits := l.accessed[..];
    r, a := Exchange(m, l, v, p, 0);
    WithoutFirst(Rotated(list, k));
    SameMembers(Rotated(list, k), list);
    if r == Done {
      BitsElsewhere(list, l.user[..], accessed, bits, AllUserAccessed(list, l.user[..], accessed), k, a);
      assert l.accessed[..][a := accessed[a]] == bits;
    }
  }

  /** A page fault under AQ: the queue advances, and its first page, which was at position `k`, goes out. */
  method FaultAq(m: Machine, l: PageList, v: Virt) returns (r: Outcome, ghost k: nat, ghost a: nat)
    requires Good(m.State()) && Mirrors(m, l, v.pid) && v in m.pt && m.pt[v].Swapped?
    modifies m, l`head, l`list, l.next, l.prev, l.accessed
    ensures var queue := Advanced(old(l.list), old(l.accessed[..]));
            k < |old(l.list)| && queue != [] && queue[0] == old(l.list)[k]
    ensures r == if NoFrame(old(m.State()), v.pid, k) then Panic else Done
    ensures r == Done ==> Good(m.State()) && Flat(m.State()) == old(Flat(m.State())) && Mirrors(m, l, v.pid)
    ensures r == Done ==> v in m.pt && m.pt[v].Present? && old(l.list)[k] !in l.list
    ensures RecordIs(old(m.State()), v, a)
    ensures r == Done ==> l.list == Advanced(old(l.list), old(l.accessed[..]))[1..] + [a]
    ensures r == Done ==> l.accessed[..] == Cleared(old(l.list), old(l.accessed[..]))[a := false]
  {
    hide Inv, Resting, SizeOk, Flat, NoFrame, ListOk, Advanced, Cleared, Without;
    LongList(m.State(), v);
    l.ListFacts();
    ghost var list, accessed := l.list, l.accessed[..];
    l.SwitchQueueAQ();
    AdvancedReorders(list, accessed);
    ghost var s := m.State();
    Adopt(m, l, v.pid);
    l.ListFacts();
    SameMembers(l.list, list);
    assert l.list[0] in list;
    k :| 0 <= k < |list| && list[k] == l.list[0];
    SameFrame(s, m.State(), v.pid, l.list, k, 0);
    ghost var queue := l.list;
    r, a := Exchange(m, l, v, l.head, 0);
    WithoutFirst(queue);
  }

  /** Of the head and the user pages the page at position `k` is the first with the least history. */
  ghost predicate LeastAged(list: seq<nat>, user: seq<bool>, history: seq<seq<bool>>, k: nat)
    requires k < |list| && |history| == |user| == MAX_TOTAL_PAGES && InRange(MAX_TOTAL_PAGES, list)
  {
    forall i: nat | i < |list| && Candidate(list, user, i) ::
      && !LexLess(history[list[i]], history[list[k]], 32)
      && (i < k ==> LexLess(history[list[k]], history[list[i]], 32))
  }

  /** A page fault under NFUA: every resident page gets a sample, and the first page with the least history,
      among the head and the user pages, goes out. */
  method FaultNfua(m: Machine, l: PageList, v: Virt) returns (r: Outcome, ghost k: nat, ghost a: nat)
    requires Good(m.State()) && Mirrors(m, l, v.pid) && v in m.pt && m.pt[v].Swapped? && l.Aged()
    modifies m, l`head, l`list, l.next, l.prev, l.accessed, l`history, l.counter
    ensures k < |old(l.list)| && r == if NoFrame(old(m.State()), v.pid, k) then Panic else Done
    ensures r == Done ==> Good(m.State()) && Flat(m.State()) == old(Flat(m.State())) && Mirrors(m, l, v.pid)
    ensures r == Done ==> v in m.pt && m.pt[v].Present? && old(l.list)[k] !in l.list && l.Aged()
    ensures |l.history| == MAX_TOTAL_PAGES && InRange(MAX_TOTAL_PAGES, old(l.list))
    ensures Candidate(old(l.list), l.user[..], k) && LeastAged(old(l.list), l.user[..], l.history, k)
    ensures forall q | 0 <= q < MAX_TOTAL_PAGES ::
              l.history[q] == if q in old(l.list) then [old(l.accessed[q])] + old(l.history)[q] else old(l.history)[q]
    ensures RecordIs(old(m.State()), v, a) && (r == Done ==> l.list == Without(old(l.list), k) + [a])
    ensures r == Done ==> l.accessed[..] == Cleared(old(l.list), old(l.accessed[..]))[a := false]
  {
    hide Inv, Resting, SizeOk, Flat, NoFrame, ListOk, LexLess, Without, Cleared, RecordIs;
    LongList(m.State(), v);
    l.ListFacts();
    l.UpdateCounters();
    var p;
    p, k := l.ChooseNfua();
    var i := Position(m.procs[v.pid].list, p);
    r, a := Exchange(m, l, v, p, i);
  }
}
