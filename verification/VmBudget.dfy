/** How many frames a growth takes (allocuvm of vm.c): a page for which there is room in memory takes one, and
    a page for which another has to go out takes one exactly if that other is shared.
 */
module VmBudget {
  import opened Common
  import opened Frames
  import opened SwapMeta
  import opened VmCore
  import opened VmSwap
  import opened VmSteps

  /** What is known of the resident pages of a process before it grows, in the order of their list: the frame
      of a page that was there, and None for a page that came later and is therefore not shared. `refs` are
      the counts, and `victims` is how many shared pages have gone out. */
  datatype Account = Account(frames: seq<Option<nat>>, refs: seq<nat>, victims: nat)

  /** The page that the policy chooses of `n`: the one at position `choice`, if there is one. */
  function Pick(n: nat, choice: nat): nat {
    if choice < n then choice else 0
  }

  function ChoiceAt(choices: seq<nat>, k: nat): nat {
    if k < |choices| then choices[k] else 0
  }

  predicate SharedAt(c: Account, i: nat) {
    i < |c.frames| && c.frames[i].Some? && c.frames[i].value < |c.refs| && c.refs[c.frames[i].value] > 1
  }

  /** The page at position `i` goes out. */
  function Evicted(c: Account, i: nat): Account
    requires i < |c.frames|
  {
    var rest := c.frames[..i] + c.frames[i + 1..];
    if SharedAt(c, i)
    then Account(rest, c.refs[c.frames[i].value := c.refs[c.frames[i].value] - 1], c.victims + 1)
    else c.(frames := rest)
  }

  function Grown(c: Account): Account {
    c.(frames := c.frames + [None])
  }

  function Turned(c: Account, choice: nat): Account {
    if |c.frames| < MAX_PSYC_PAGES then Grown(c) else Grown(Evicted(c, Pick(|c.frames|, choice)))
  }

  /** The account after `k` turns. */
  function AccountAt(c: Account, choices: seq<nat>, k: nat): Account {
    if k == 0 then c else Turned(AccountAt(c, choices, k - 1), ChoiceAt(choices, k - 1))
  }

  /** How many frames the turn takes. */
  function Cost(c: Account, choice: nat): nat {
    if |c.frames| < MAX_PSYC_PAGES || SharedAt(c, Pick(|c.frames|, choice)) then 1 else 0
  }

  /** How many frames `n` turns take: one for each page that there is room for, and one for each shared page
      that has to go out. */
  function Needs(c: Account, choices: seq<nat>, n: nat): nat {
    Min(n, Room(c)) + AccountAt(c, choices, n).victims
  }

  /** How many more pages there is room for in memory. */
  function Room(c: Account): nat {
    if |c.frames| < MAX_PSYC_PAGES then MAX_PSYC_PAGES - |c.frames| else 0
  }

  lemma {:induction false} AccountShape(c: Account, choices: seq<nat>, k: nat)
    requires |c.frames| <= MAX_PSYC_PAGES
    ensures |AccountAt(c, choices, k).frames| == Min(|c.frames| + k, MAX_PSYC_PAGES)
  {
    if k > 0 {
      AccountShape(c, choices, k - 1);
    }
  }

  lemma NeedsMore(c: Account, choices: seq<nat>, k: nat)
    requires |c.frames| <= MAX_PSYC_PAGES
    ensures Needs(c, choices, k + 1) == Needs(c, choices, k) + Cost(AccountAt(c, choices, k), ChoiceAt(choices, k))
  {
    AccountShape(c, choices, k);
  }

  lemma {:induction false} NeedsUpTo(c: Account, choices: seq<nat>, k: nat, n: nat)
    requires |c.frames| <= MAX_PSYC_PAGES && k <= n
    ensures Needs(c, choices, k) <= Needs(c, choices, n) <= Needs(c, choices, k) + n - k
    decreases n
  {
    if k < n {
      NeedsUpTo(c, choices, k, n - 1);
      NeedsMore(c, choices, n - 1);
    }
  }

  /** Of pages none of which is shared none will be, so a growth takes as many frames as there is room for. */
  lemma {:induction false} UnsharedNeeds(c: Account, choices: seq<nat>, n: nat)
    requires c.victims == 0 && forall i: nat :: !SharedAt(c, i)
    ensures Needs(c, choices, n) == Min(n, Room(c))
    ensures forall i: nat :: !SharedAt(AccountAt(c, choices, n), i)
  {
    if n > 0 {
      UnsharedNeeds(c, choices, n - 1);
      UnsharedTurn(AccountAt(c, choices, n - 1), ChoiceAt(choices, n - 1));
    }
  }

  lemma UnsharedTurn(c: Account, choice: nat)
    requires forall i: nat :: !SharedAt(c, i)
    ensures Turned(c, choice).victims == c.victims && forall i: nat :: !SharedAt(Turned(c, choice), i)
  {
    var d, j := Turned(c, choice), Pick(|c.frames|, choice);
    forall i: nat ensures !SharedAt(d, i) {
      assert !SharedAt(c, i) && !SharedAt(c, i + 1) && !SharedAt(c, j);
    }
  }

  // ---------------------------------------------------------------- the account of a process

  /** The frame of the resident page at position `i`. */
  ghost function FrameAt(s: Vm, pid: nat, i: nat): (f: nat)
    requires Inv(s) && pid in s.procs && i < |s.procs[pid].list|
    ensures f < |s.refs|
  {
    s.pt[Resident(s, pid, i)].frame
  }

  ghost function AccountOf(s: Vm, pid: nat): Account
    requires Inv(s) && pid in s.procs
  {
    var n := |s.procs[pid].list|;
    Account(seq(n, i requires 0 <= i < n => Some(FrameAt(s, pid, i))), s.refs, 0)
  }

  ghost predicate MatchAt(s: Vm, pid: nat, c: Account, i: nat)
    requires Inv(s) && pid in s.procs && i < |s.procs[pid].list| == |c.frames|
  {
    var f := FrameAt(s, pid, i);
    match c.frames[i]
    case Some(g) => g == f && f < |c.refs| && c.refs[f] == s.refs[f]
    case None => s.refs[f] == 1
  }

  ghost predicate Matches(s: Vm, pid: nat, c: Account) {
    && Inv(s) && pid in s.procs && |s.procs[pid].list| == |c.frames|
    && forall i: nat | i < |c.frames| :: MatchAt(s, pid, c, i)
  }

  lemma MatchStart(s: Vm, pid: nat)
    requires Inv(s) && pid in s.procs
    ensures Matches(s, pid, AccountOf(s, pid))
  {
  }

  /** Different positions are of different pages. */
  lemma OtherResident(s: Vm, pid: nat, i: nat, j: nat)
    requires Inv(s) && pid in s.procs && i < |s.procs[pid].list| && j < |s.procs[pid].list| && i != j
    ensures Resident(s, pid, i) != Resident(s, pid, j)
  {
    var p := s.procs[pid];
    assert MetaOk(p);
    assert p.list[i] != p.list[j];
    assert Apart(p.meta, p.list[i], p.list[j]) && EntryOk(p, p.list[i]);
  }

  lemma MatchShared(s: Vm, pid: nat, c: Account, i: nat)
    requires Matches(s, pid, c) && i < |c.frames|
    ensures s.refs[FrameAt(s, pid, i)] > 0 && (SharedAt(c, i) <==> s.refs[FrameAt(s, pid, i)] > 1)
  {
    assert MatchAt(s, pid, c, i);
    DropOk(s.pt, s.refs, s.free, Resident(s, pid, i));
  }

  /** A page that goes out leaves its frame free exactly if it was not shared. */
  lemma OutFree(s: Vm, pid: nat, c: Account, i: nat, slot: nat)
    requires Matches(s, pid, c) && i < |c.frames| && LowestFree(s.procs[pid].avail, slot)
    ensures |OutVm(s, pid, i, slot).free| == |s.free| + if SharedAt(c, i) then 0 else 1
  {
    MatchShared(s, pid, c, i);
  }

  lemma OutMatches(s: Vm, pid: nat, c: Account, i: nat, slot: nat)
    requires Matches(s, pid, c) && i < |c.frames| && LowestFree(s.procs[pid].avail, slot) && s.procs[pid].hasFile
    ensures Matches(OutVm(s, pid, i, slot), pid, Evicted(c, i))
  {
    OutInv(s, pid, i, slot);
    var t, d := OutVm(s, pid, i, slot), Evicted(c, i);
    OutList(s, pid, i, slot);
    forall j: nat | j < |d.frames| ensures MatchAt(t, pid, d, j) {
      OutMatchAt(s, pid, c, i, slot, j);
    }
  }

  /** What moveToDisk does to the list, the counts and the entries. */
  lemma OutList(s: Vm, pid: nat, i: nat, slot: nat)
    requires Inv(s) && pid in s.procs && i < |s.procs[pid].list| && LowestFree(s.procs[pid].avail, slot)
    ensures var t, v, f := OutVm(s, pid, i, slot), Resident(s, pid, i), FrameAt(s, pid, i);
            && pid in t.procs && t.procs[pid].list == Without(s.procs[pid].list, i)
            && s.refs[f] > 0 && t.refs == s.refs[f := s.refs[f] - 1] && t.pt == s.pt[v := Swapped]
            && (forall a: nat | a < MAX_TOTAL_PAGES :: a < |t.procs[pid].meta| && a < |s.procs[pid].meta|
                  && t.procs[pid].meta[a].id == s.procs[pid].meta[a].id)
  {
    hide CountsOk, SharingOk, Agree;
    SlotFits(s.procs[pid], slot);
    DropOk(s.pt, s.refs, s.free, Resident(s, pid, i));
  }

  /** A page is known by the id in its record. */
  lemma ResidentId(s: Vm, pid: nat, i: nat)
    requires Inv(s) && pid in s.procs && i < |s.procs[pid].list|
    ensures var p := s.procs[pid]; p.list[i] < |p.meta| == MAX_TOTAL_PAGES
    ensures var p := s.procs[pid]; Resident(s, pid, i) == Virt(pid, p.meta[p.list[i]].id)
  {
  }

  lemma OutMatchAt(s: Vm, pid: nat, c: Account, i: nat, slot: nat, j: nat)
    requires Matches(s, pid, c) && i < |c.frames| && LowestFree(s.procs[pid].avail, slot)
    requires Inv(OutVm(s, pid, i, slot)) && j < |c.frames| - 1
    ensures |OutVm(s, pid, i, slot).procs[pid].list| == |c.frames| - 1
    ensures MatchAt(OutVm(s, pid, i, slot), pid, Evicted(c, i), j)
  {
    hide Inv, OutVm, Resident;
    var d, j0 := Evicted(c, i), if j < i then j else j + 1;
    OutList(s, pid, i, slot);
    OutKeepsFrame(s, pid, i, slot, j);
    MatchShared(s, pid, c, i);
    assert MatchAt(s, pid, c, i) && MatchAt(s, pid, c, j0) && d.frames[j] == c.frames[j0];
    NotLast(s, pid, i, j0);
  }

  /** A frame that goes free is not that of another resident page. */
  lemma NotLast(s: Vm, pid: nat, i: nat, j: nat)
    requires Inv(s) && pid in s.procs && i < |s.procs[pid].list| && j < |s.procs[pid].list| && i != j
    ensures s.refs[FrameAt(s, pid, i)] == 1 ==> FrameAt(s, pid, j) != FrameAt(s, pid, i)
  {
    OtherResident(s, pid, i, j);
    if s.refs[FrameAt(s, pid, i)] == 1 {
      OnlyMapper(s.pt, s.refs, s.free, Resident(s, pid, i), Resident(s, pid, j));
    }
  }

  lemma OutKeepsFrame(s: Vm, pid: nat, i: nat, slot: nat, j: nat)
    requires Inv(s) && pid in s.procs && i < |s.procs[pid].list| && LowestFree(s.procs[pid].avail, slot)
    requires Inv(OutVm(s, pid, i, slot)) && j < |s.procs[pid].list| - 1
    ensures |OutVm(s, pid, i, slot).procs[pid].list| == |s.procs[pid].list| - 1
    ensures FrameAt(OutVm(s, pid, i, slot), pid, j) == FrameAt(s, pid, if j < i then j else j + 1)
  {
    hide Inv, OutVm, Resident;
    var j0 := if j < i then j else j + 1;
    OutList(s, pid, i, slot);
    OtherResident(s, pid, i, j0);
    ResidentId(s, pid, j0);
    ResidentId(OutVm(s, pid, i, slot), pid, j);
  }

  lemma NewMatches(s: Vm, pid: nat, c: Account, a: nat, page: nat)
    requires Matches(s, pid, c) && a < MAX_TOTAL_PAGES && s.procs[pid].meta[a].state == NotUsed && s.free != []
    requires Virt(pid, page) !in s.pt
    ensures Matches(NewVm(s, pid, a, page), pid, Grown(c))
  {
    NewInv(s, pid, a, page);
    var t, d := NewVm(s, pid, a, page), Grown(c);
    assert t.procs[pid].list == s.procs[pid].list + [a];
    forall j: nat | j < |d.frames| ensures MatchAt(t, pid, d, j) {
      NewMatchAt(s, pid, c, a, page, j);
    }
  }

  lemma NewMatchAt(s: Vm, pid: nat, c: Account, a: nat, page: nat, j: nat)
    requires Matches(s, pid, c) && a < MAX_TOTAL_PAGES && s.procs[pid].meta[a].state == NotUsed && s.free != []
    requires Virt(pid, page) !in s.pt && Inv(NewVm(s, pid, a, page)) && j <= |c.frames|
    ensures |NewVm(s, pid, a, page).procs[pid].list| == |c.frames| + 1
    ensures MatchAt(NewVm(s, pid, a, page), pid, Grown(c), j)
  {
    hide Inv, NewVm, Resident;
    NewList(s, pid, a, page);
    if j < |c.frames| {
      assert MatchAt(s, pid, c, j);
      NewKeepsFrame(s, pid, a, page, j);
    } else {
      ResidentId(NewVm(s, pid, a, page), pid, j);
    }
  }

  lemma NewList(s: Vm, pid: nat, a: nat, page: nat)
    requires Inv(s) && pid in s.procs && a < MAX_TOTAL_PAGES && s.free != []
    ensures var t, v := NewVm(s, pid, a, page), Virt(pid, page);
            && pid in t.procs && t.procs[pid].list == s.procs[pid].list + [a] && s.free[0] < |s.refs|
            && t.refs == s.refs[s.free[0] := 1] && t.pt == s.pt[v := Present(s.free[0], true, false)]
            && a < |t.procs[pid].meta| && t.procs[pid].meta[a].id == page
  {
  }

  lemma NewKeepsFrame(s: Vm, pid: nat, a: nat, page: nat, j: nat)
    requires Inv(s) && pid in s.procs && a < MAX_TOTAL_PAGES && s.procs[pid].meta[a].state == NotUsed && s.free != []
    requires Virt(pid, page) !in s.pt && Inv(NewVm(s, pid, a, page)) && j < |s.procs[pid].list|
    ensures FrameAt(NewVm(s, pid, a, page), pid, j) == FrameAt(s, pid, j) != s.free[0]
  {
    hide SharingOk, Agree;
    var p := s.procs[pid];
    assert EntryOk(p, p.list[j]);
    AllocOk(s.pt, s.refs, s.free, Virt(pid, page), true, false);
    assert Resident(s, pid, j) !in Mappers(s.pt, s.free[0]);
  }

  lemma TouchMatches(s: Vm, pid: nat, c: Account, file: bool, n: nat)
    requires Matches(s, pid, c) && Inv(TouchVm(s, pid, s.procs[pid].list, file, n))
    ensures Matches(TouchVm(s, pid, s.procs[pid].list, file, n), pid, c)
  {
    var t := TouchVm(s, pid, s.procs[pid].list, file, n);
    forall j: nat | j < |c.frames| ensures MatchAt(t, pid, c, j) {
      assert MatchAt(s, pid, c, j);
      assert Resident(t, pid, j) == Resident(s, pid, j);
    }
  }

  // ---------------------------------------------------------------- when a growth succeeds

  /** `n` more pages are within the limit, and there are frames for them. */
  ghost predicate Fits(s: Vm, pid: nat, choices: seq<nat>, n: nat)
    requires Inv(s) && pid in s.procs
  {
    && s.procs[pid].nram + s.procs[pid].ndisk + n <= MAX_TOTAL_PAGES
    && Needs(AccountOf(s, pid), choices, n) <= |s.free|
  }

  /** No resident page of the process is shared. */
  ghost predicate NoneShared(s: Vm, pid: nat)
    requires Inv(s) && pid in s.procs
  {
    forall i: nat | i < |s.procs[pid].list| :: s.refs[FrameAt(s, pid, i)] == 1
  }

  /** Then a growth succeeds exactly if it is within the limit and there is a frame for each page that there
      is room for in memory; the other pages get the frames of pages that go out. */
  lemma UnsharedFits(s: Vm, pid: nat, choices: seq<nat>, n: nat)
    requires Inv(s) && pid in s.procs && s.procs[pid].nram <= MAX_PSYC_PAGES && NoneShared(s, pid)
    ensures var p := s.procs[pid];
            Fits(s, pid, choices, n) <==>
            p.nram + p.ndisk + n <= MAX_TOTAL_PAGES && Min(n, MAX_PSYC_PAGES - p.nram) <= |s.free|
  {
    var c := AccountOf(s, pid);
    assert MetaOk(s.procs[pid]);
    forall i: nat ensures !SharedAt(c, i) {
      assert i < |c.frames| ==> s.refs[FrameAt(s, pid, i)] == 1;
    }
    UnsharedNeeds(c, choices, n);
  }

  /** A process without pages. */
  lemma FirstFits(s: Vm, pid: nat, choices: seq<nat>, n: nat)
    requires Inv(s) && pid in s.procs && s.procs[pid] == EmptyProc()
    ensures Fits(s, pid, choices, n) <==> n <= MAX_TOTAL_PAGES && Min(n, MAX_PSYC_PAGES) <= |s.free|
  {
    UnsharedFits(s, pid, choices, n);
  }

  lemma FitsUpTo(s: Vm, pid: nat, choices: seq<nat>, k: nat, n: nat)
    requires Inv(s) && pid in s.procs && s.procs[pid].nram <= MAX_PSYC_PAGES && k <= n
    ensures Fits(s, pid, choices, n) ==> Fits(s, pid, choices, k)
    ensures s.procs[pid].nram + s.procs[pid].ndisk + n <= MAX_TOTAL_PAGES && n <= |s.free| ==> Fits(s, pid, choices, n)
  {
    assert MetaOk(s.procs[pid]);
    NeedsUpTo(AccountOf(s, pid), choices, k, n);
    NeedsUpTo(AccountOf(s, pid), choices, 0, n);
  }
}
