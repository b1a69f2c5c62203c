/** Giving up the pages of a growth that found no frame (deallocuvm and deletePage of vm.c). deletePage leaves
    the record of its page in the list of resident pages; what else holds of the state holds to the end.
 */
module VmUnwind {
  import opened Common
  import opened Frames
  import opened SwapMeta
  import opened VmCore
  import opened VmCow
  import opened VmWorld

  ghost predicate TornEntry(p: Proc, a: nat)
    requires |p.meta| == MAX_TOTAL_PAGES && |p.avail| == SLOTS && a < MAX_TOTAL_PAGES
  {
    var e := p.meta[a];
    && (e.state == NotUsed <==> e.id == -1) && e.id >= -1
    && (e.state == InDisk ==> 0 <= e.slot < SLOTS && p.avail[e.slot] && e.slot < |p.file|)
  }

  /** The metadata without what it says of the list and the counters. */
  ghost predicate TornMeta(p: Proc) {
    && |p.meta| == MAX_TOTAL_PAGES && |p.avail| == SLOTS && |p.file| <= SLOTS
    && (forall a: nat | a < MAX_TOTAL_PAGES :: TornEntry(p, a))
    && (forall a: nat, b: nat | a < MAX_TOTAL_PAGES && b < MAX_TOTAL_PAGES :: Apart(p.meta, a, b))
  }

  /** The invariant without that. */
  ghost predicate Torn(s: Vm) {
    && |s.mem| == |s.refs| && CountsOk(s.pt, s.refs, s.free) && SharingOk(s.pt) && Agree(s)
    && forall pid: nat | pid in s.procs :: TornMeta(s.procs[pid])
  }

  /** A record that is not used is in the list of resident pages. */
  ghost predicate Stale(p: Proc) {
    exists a: nat :: a in p.list && a < |p.meta| && p.meta[a] == NoRecord()
  }

  lemma StaleBreaks(s: Vm, pid: nat)
    requires pid in s.procs && Stale(s.procs[pid])
    ensures !Inv(s)
  {
    var p := s.procs[pid];
    var a: nat :| a in p.list && a < |p.meta| && p.meta[a] == NoRecord();
    assert MetaOk(p) ==> !EntryOk(p, a);
  }

  lemma InvTorn(s: Vm)
    requires Inv(s)
    ensures Torn(s)
  {
    forall pid: nat | pid in s.procs ensures TornMeta(s.procs[pid]) {
      var p := s.procs[pid];
      forall a: nat | a < MAX_TOTAL_PAGES ensures TornEntry(p, a) {
        assert EntryOk(p, a);
      }
    }
  }

  // ---------------------------------------------------------------- one record and its entry change together

  ghost predicate EntrySame(s: Vm, t: Vm, u: Virt) {
    (u in t.pt <==> u in s.pt) && (u in s.pt ==> t.pt[u] == s.pt[u])
  }

  /** `t` differs from `s` in record `a` of a process and in the entry of its page `v`. */
  ghost predicate OneRecord(s: Vm, t: Vm, v: Virt, a: nat) {
    && v in s.pt && v.pid in s.procs && v.pid in t.procs && t.procs == s.procs[v.pid := t.procs[v.pid]]
    && a < |s.procs[v.pid].meta| && s.procs[v.pid].meta[a].id == v.page
    && |t.procs[v.pid].meta| == |s.procs[v.pid].meta|
    && t.procs[v.pid].meta == s.procs[v.pid].meta[a := t.procs[v.pid].meta[a]]
    && (forall u: Virt | u != v :: EntrySame(s, t, u))
    && (if v in t.pt then EntryFor(t.procs[v.pid], a, v.page, t.pt[v]) else t.procs[v.pid].meta[a].id == -1)
  }

  lemma OneRecorded(s: Vm, t: Vm, v: Virt, a: nat, u: Virt)
    requires OneRecord(s, t, v, a) && TornMeta(s.procs[v.pid]) && Agree(s) && u in t.pt
    ensures Recorded(t, u)
  {
    if u == v {
      assert EntryFor(t.procs[v.pid], a, v.page, t.pt[v]);
    } else {
      assert EntrySame(s, t, u) && Recorded(s, u);
      var b: nat :| EntryFor(s.procs[u.pid], b, u.page, s.pt[u]);
      assert EntryFor(t.procs[u.pid], b, u.page, t.pt[u]);
    }
  }

  lemma OneMapped(s: Vm, t: Vm, v: Virt, a: nat, q: nat, b: nat)
    requires OneRecord(s, t, v, a) && TornMeta(s.procs[v.pid]) && Agree(s) && b < MAX_TOTAL_PAGES
    ensures RecordMapped(t, q, b)
  {
    assert RecordMapped(s, q, b);
    if q in s.procs && b < |s.procs[q].meta| && s.procs[q].meta[b].id >= 0 {
      var u := Virt(q, s.procs[q].meta[b].id);
      assert EntrySame(s, t, u) || u == v;
      assert q == v.pid && b != a ==> Apart(s.procs[q].meta, a, b);
    }
  }

  lemma OneAgree(s: Vm, t: Vm, v: Virt, a: nat)
    requires OneRecord(s, t, v, a) && TornMeta(s.procs[v.pid]) && Agree(s)
    ensures Agree(t)
  {
    forall u: Virt | u in t.pt ensures Recorded(t, u) {
      OneRecorded(s, t, v, a, u);
    }
    forall q: nat, b: nat | b < MAX_TOTAL_PAGES ensures RecordMapped(t, q, b) {
      OneMapped(s, t, v, a, q, b);
    }
  }

  /** The record of a page. */
  lemma RecordOf(s: Vm, v: Virt, a: int)
    requires Torn(s) && v in s.pt && v.pid in s.procs
    requires a >= 0 ==> a < MAX_TOTAL_PAGES && s.procs[v.pid].meta[a].id == v.page
    requires a < 0 ==> forall b: nat | b < MAX_TOTAL_PAGES :: s.procs[v.pid].meta[b].id != v.page
    ensures a >= 0 && EntryFor(s.procs[v.pid], a, v.page, s.pt[v])
  {
    assert Recorded(s, v);
    var b: nat :| EntryFor(s.procs[v.pid], b, v.page, s.pt[v]);
    assert s.procs[v.pid].meta[b].id == v.page;
    assert a >= 0 ==> Apart(s.procs[v.pid].meta, a, b);
  }

  // ---------------------------------------------------------------- forgetting, deleting and loading a page

  /** Page `v` is in the swap file, with record `a`. */
  ghost predicate Filed(s: Vm, v: Virt, a: nat) {
    && Torn(s) && v in s.pt && s.pt[v].Swapped? && v.pid in s.procs
    && EntryFor(s.procs[v.pid], a, v.page, s.pt[v])
  }

  /** Page `v` is in memory, with record `a`. */
  ghost predicate Held(s: Vm, v: Virt, a: nat) {
    && Torn(s) && v in s.pt && s.pt[v].Present? && v.pid in s.procs
    && EntryFor(s.procs[v.pid], a, v.page, s.pt[v])
  }

  /** A page in the swap file is given up, with record `a`. */
  ghost function ForgetVm(s: Vm, v: Virt, a: nat): Vm
    requires Filed(s, v, a)
  {
    assert TornEntry(s.procs[v.pid], a);
    s.(pt := s.pt - {v}, procs := s.procs[v.pid := Forgotten(s.procs[v.pid], a)])
  }

  lemma ForgetTorn(s: Vm, v: Virt, a: nat)
    requires Filed(s, v, a)
    ensures Torn(ForgetVm(s, v, a))
    ensures Stale(s.procs[v.pid]) ==> Stale(ForgetVm(s, v, a).procs[v.pid])
  {
    var t, p := ForgetVm(s, v, a), s.procs[v.pid];
    assert TornEntry(p, a);
    ShareDrop(s.pt, v);
    DropSwapped(s.pt, s.refs, s.free, v);
    assert OneRecord(s, t, v, a);
    OneAgree(s, t, v, a);
    ForgottenTorn(p, a);
  }

  lemma ForgottenTorn(p: Proc, a: nat)
    requires TornMeta(p) && a < MAX_TOTAL_PAGES && p.meta[a].state == InDisk
    ensures TornEntry(p, a) && TornMeta(Forgotten(p, a)) && (Stale(p) ==> Stale(Forgotten(p, a)))
  {
    assert TornEntry(p, a);
    var q := Forgotten(p, a);
    forall b: nat | b < MAX_TOTAL_PAGES ensures TornEntry(q, b) {
      assert TornEntry(p, b) && Apart(p.meta, a, b);
    }
    forall b: nat, c: nat | b < MAX_TOTAL_PAGES && c < MAX_TOTAL_PAGES ensures Apart(q.meta, b, c) {
      assert Apart(p.meta, b, c);
    }
    if b: nat :| b in p.list && b < |p.meta| && p.meta[b] == NoRecord() {
      assert b in q.list && q.meta[b] == NoRecord();
    }
  }

  /** While the list is right, it stays right. */
  lemma ForgetInv(s: Vm, v: Virt, a: nat)
    requires Inv(s) && Filed(s, v, a)
    ensures Inv(ForgetVm(s, v, a))
  {
    ForgetTorn(s, v, a);
    ForgottenOk(s.procs[v.pid], a);
  }

  /** A page in memory is given up, with record `a`, which stays in the list. */
  ghost function DeleteVm(s: Vm, v: Virt, a: nat): Vm
    requires Held(s, v, a)
  {
    DropOk(s.pt, s.refs, s.free, v);
    DropVm(s, v).(procs := s.procs[v.pid := Deleted(s.procs[v.pid], a)])
  }

  lemma DeleteTorn(s: Vm, v: Virt, a: nat)
    requires Held(s, v, a)
    ensures Torn(DeleteVm(s, v, a))
    ensures a in s.procs[v.pid].list || Stale(s.procs[v.pid]) ==> Stale(DeleteVm(s, v, a).procs[v.pid])
  {
    hide Agree;
    var t, p := DeleteVm(s, v, a), s.procs[v.pid];
    DropOk(s.pt, s.refs, s.free, v);
    ShareDrop(s.pt, v);
    assert OneRecord(s, t, v, a);
    OneAgree(s, t, v, a);
    DeletedTorn(p, a);
  }

  lemma DeletedTorn(p: Proc, a: nat)
    requires TornMeta(p) && a < MAX_TOTAL_PAGES
    ensures TornMeta(Deleted(p, a)) && (a in p.list || Stale(p) ==> Stale(Deleted(p, a)))
  {
    var q := Deleted(p, a);
    forall b: nat | b < MAX_TOTAL_PAGES ensures TornEntry(q, b) {
      assert TornEntry(p, b);
    }
    forall b: nat, c: nat | b < MAX_TOTAL_PAGES && c < MAX_TOTAL_PAGES ensures Apart(q.meta, b, c) {
      assert Apart(p.meta, b, c);
    }
    if a in p.list {
      assert a in q.list && q.meta[a] == NoRecord();
    }
    if b: nat :| b in p.list && b < |p.meta| && p.meta[b] == NoRecord() {
      assert b in q.list && q.meta[b] == NoRecord();
    }
  }

  /** The page of a record that is in the swap file. */
  ghost function FiledPage(s: Vm, pid: nat, a: nat): (v: Virt)
    requires Torn(s) && pid in s.procs && a < MAX_TOTAL_PAGES && s.procs[pid].meta[a].state == InDisk
    ensures v.pid == pid && v in s.pt && s.pt[v].Swapped? && EntryFor(s.procs[pid], a, v.page, s.pt[v])
  {
    assert TornEntry(s.procs[pid], a) && RecordMapped(s, pid, a);
    Virt(pid, s.procs[pid].meta[a].id)
  }

  /** It is brought in. */
  ghost function LoadVm(s: Vm, pid: nat, a: nat): Vm
    requires Torn(s) && pid in s.procs && a < MAX_TOTAL_PAGES && s.procs[pid].meta[a].state == InDisk && s.free != []
  {
    var p, v, f := s.procs[pid], FiledPage(s, pid, a), s.free[0];
    assert TornEntry(p, a) && f in s.free;
    Vm(s.mem[f := p.file[p.meta[a].slot]], s.refs[f := 1], s.free[1..], s.pt[v := Present(f, true, false)],
       s.procs[pid := In(p, a)])
  }

  lemma LoadTorn(s: Vm, pid: nat, a: nat)
    requires Torn(s) && pid in s.procs && a < MAX_TOTAL_PAGES && s.procs[pid].meta[a].state == InDisk && s.free != []
    ensures Torn(LoadVm(s, pid, a))
    ensures Stale(s.procs[pid]) ==> Stale(LoadVm(s, pid, a).procs[pid])
  {
    hide Agree;
    var t, v, p := LoadVm(s, pid, a), FiledPage(s, pid, a), s.procs[pid];
    AllocOk(s.pt, s.refs, s.free, v, true, false);
    SharePrivate(s.pt, v, s.free[0]);
    assert TornEntry(p, a);
    assert OneRecord(s, t, v, a);
    OneAgree(s, t, v, a);
    InTorn(p, a);
  }

  lemma InTorn(p: Proc, a: nat)
    requires TornMeta(p) && a < MAX_TOTAL_PAGES && p.meta[a].state == InDisk
    ensures TornEntry(p, a) && TornMeta(In(p, a)) && (Stale(p) ==> Stale(In(p, a)))
  {
    assert TornEntry(p, a);
    var q := In(p, a);
    forall b: nat | b < MAX_TOTAL_PAGES ensures TornEntry(q, b) {
      assert TornEntry(p, b) && Apart(p.meta, a, b);
    }
    forall b: nat, c: nat | b < MAX_TOTAL_PAGES && c < MAX_TOTAL_PAGES ensures Apart(q.meta, b, c) {
      assert Apart(p.meta, b, c);
    }
    if b: nat :| b in p.list && b < |p.meta| && p.meta[b] == NoRecord() {
      assert b in q.list && q.meta[b] == NoRecord();
    }
  }

  // ---------------------------------------------------------------- what processes see

  lemma FileAt(s: Vm, v: Virt, a: nat)
    requires Recorded(s, v) && TornMeta(s.procs[v.pid]) && s.pt[v].Swapped?
      && EntryFor(s.procs[v.pid], a, v.page, s.pt[v])
    ensures PageAt(s, v) == InFile(s.procs[v.pid], a)
  {
    var p := s.procs[v.pid];
    forall b: nat | EntryFor(p, b, v.page, s.pt[v]) ensures b == a {
      assert Apart(p.meta, a, b);
    }
  }

  /** Other pages keep their contents if the swap file and their frames do. */
  lemma OneView(s: Vm, t: Vm, v: Virt, a: nat, u: Virt)
    requires OneRecord(s, t, v, a) && Torn(s) && Torn(t) && t.procs[v.pid].file == s.procs[v.pid].file && u != v
    requires u in s.pt && s.pt[u].Present? ==>
               var f := s.pt[u].frame; |t.mem| == |s.mem| && (f < |s.mem| ==> t.mem[f] == s.mem[f])
    ensures SameView(s, t, u)
  {
    assert EntrySame(s, t, u);
    if Recorded(s, u) {
      OneRecorded(s, t, v, a, u);
      if s.pt[u].Swapped? {
        var b: nat :| EntryFor(s.procs[u.pid], b, u.page, s.pt[u]);
        FileAt(s, u, b);
        assert EntryFor(t.procs[u.pid], b, u.page, t.pt[u]);
        FileAt(t, u, b);
      }
    }
  }

  lemma ForgetView(s: Vm, v: Virt, a: nat, u: Virt)
    requires Filed(s, v, a)
    requires u != v
    ensures SameView(s, ForgetVm(s, v, a), u)
  {
    hide CountsOk, SharingOk, Agree;
    ForgetTorn(s, v, a);
    OneView(s, ForgetVm(s, v, a), v, a, u);
  }

  lemma DeleteView(s: Vm, v: Virt, a: nat, u: Virt)
    requires Held(s, v, a)
    requires u != v
    ensures SameView(s, DeleteVm(s, v, a), u)
  {
    hide CountsOk, SharingOk, Agree;
    DeleteTorn(s, v, a);
    DropOk(s.pt, s.refs, s.free, v);
    if s.refs[s.pt[v].frame] == 1 {
      OnlyMapper(s.pt, s.refs, s.free, v, u);
    }
    OneView(s, DeleteVm(s, v, a), v, a, u);
  }

  lemma LoadView(s: Vm, pid: nat, a: nat, u: Virt)
    requires Torn(s) && pid in s.procs && a < MAX_TOTAL_PAGES && s.procs[pid].meta[a].state == InDisk && s.free != []
    ensures SameView(s, LoadVm(s, pid, a), u)
  {
    hide CountsOk, SharingOk, Agree;
    var t, v := LoadVm(s, pid, a), FiledPage(s, pid, a);
    LoadTorn(s, pid, a);
    AllocOk(s.pt, s.refs, s.free, v, true, false);
    assert u !in Mappers(s.pt, s.free[0]);
    if u == v {
      if Recorded(s, v) {
        FileAt(s, v, a);
        assert TornEntry(s.procs[pid], a);
        assert EntryFor(t.procs[pid], a, v.page, t.pt[v]);
      }
    } else {
      OneView(s, t, v, a, u);
    }
  }

  // ---------------------------------------------------------------- the loop

  /** Page `u` of `s` is still there with the same contents, or, if it is one of the pages from `lo` to `hi`
      of process `pid`, it is not. */
  ghost predicate StaysUnless(s: Vm, t: Vm, pid: nat, lo: nat, hi: nat, u: Virt) {
    if u.pid == pid && lo <= u.page < hi then u !in t.pt else (u in t.pt <==> u in s.pt) && SameView(s, t, u)
  }

  /** The pages from `lo` to `hi` of process `pid` are given up. */
  ghost predicate GivenUp(s: Vm, t: Vm, pid: nat, lo: nat, hi: nat) {
    SameShape(s, t) && forall u: Virt :: StaysUnless(s, t, pid, lo, hi, u)
  }

  lemma NothingGivenUp(s: Vm, pid: nat, lo: nat, hi: nat)
    requires lo <= hi && forall page: nat | lo <= page < hi :: Virt(pid, page) !in s.pt
    ensures GivenUp(s, s, pid, lo, hi)
  {
    forall u: Virt ensures StaysUnless(s, s, pid, lo, hi, u) {
      assert u == Virt(u.pid, u.page);
    }
  }

  lemma GiveUpNext(s: Vm, t: Vm, t': Vm, pid: nat, lo: nat, hi: nat)
    requires GivenUp(s, t, pid, lo, hi) && lo <= hi && GivenUp(t, t', pid, hi, hi + 1)
    ensures GivenUp(s, t', pid, lo, hi + 1)
  {
    var next := hi + 1;
    forall u: Virt ensures StaysUnless(s, t', pid, lo, next, u) {
      assert StaysUnless(s, t, pid, lo, hi, u) && StaysUnless(t, t', pid, hi, next, u);
    }
  }

  lemma ForgetGivesUp(s: Vm, v: Virt, a: nat)
    requires Filed(s, v, a)
    ensures GivenUp(s, ForgetVm(s, v, a), v.pid, v.page, v.page + 1)
  {
    hide Torn, Agree;
    var t, next := ForgetVm(s, v, a), v.page + 1;
    forall u: Virt ensures StaysUnless(s, t, v.pid, v.page, next, u) {
      if u != v {
        ForgetView(s, v, a, u);
      }
    }
  }

  lemma DeleteGivesUp(s: Vm, v: Virt, a: nat)
    requires Held(s, v, a)
    ensures GivenUp(s, DeleteVm(s, v, a), v.pid, v.page, v.page + 1)
  {
    hide Torn, Agree;
    var t, next := DeleteVm(s, v, a), v.page + 1;
    forall u: Virt ensures StaysUnless(s, t, v.pid, v.page, next, u) {
      if u != v {
        DeleteView(s, v, a, u);
      }
    }
  }

  lemma LoadGivesUp(s: Vm, t: Vm, v: Virt, a: nat)
    requires GivenUp(s, t, v.pid, v.page, v.page + 1)
    requires Torn(t) && v.pid in t.procs && a < MAX_TOTAL_PAGES && t.procs[v.pid].meta[a].state == InDisk
    requires t.free != []
    ensures GivenUp(s, LoadVm(t, v.pid, a), v.pid, v.page, v.page + 1)
  {
    hide Torn, Agree;
    var t', next := LoadVm(t, v.pid, a), v.page + 1;
    forall u: Virt ensures StaysUnless(s, t', v.pid, v.page, next, u) {
      assert StaysUnless(s, t, v.pid, v.page, next, u);
      LoadView(t, v.pid, a, u);
    }
  }

  // ---------------------------------------------------------------- pages that nobody else has

  /** A page in memory that nobody else has. */
  ghost predicate Own(s: Vm, v: Virt) {
    v in s.pt && s.pt[v].Present? && s.pt[v].w
  }

  ghost predicate OwnIfThere(s: Vm, pid: nat, lo: nat, v: Virt) {
    v in s.pt && v.pid == pid && v.page >= lo && s.pt[v].Present? ==> Own(s, v)
  }

  /** Of the pages from `lo` on, those that are in memory are the process's own. */
  ghost predicate OwnFrom(s: Vm, pid: nat, lo: nat) {
    forall v: Virt :: OwnIfThere(s, pid, lo, v)
  }

  /** Entries of `t` are those of `s`, or are in the swap file, or are new and writable. */
  ghost predicate OwnKept(s: Vm, t: Vm, v: Virt) {
    v in t.pt && t.pt[v].Present? ==> t.pt[v].w || (v in s.pt && t.pt[v] == s.pt[v])
  }

  lemma OwnStep(s: Vm, t: Vm, pid: nat, lo: nat)
    requires OwnFrom(s, pid, lo) && forall v: Virt :: OwnKept(s, t, v)
    ensures OwnFrom(t, pid, lo)
  {
    forall v: Virt ensures OwnIfThere(t, pid, lo, v) {
      assert OwnIfThere(s, pid, lo, v) && OwnKept(s, t, v);
    }
  }

  /** The frame of such a page is freed with it. */
  lemma OwnCount(s: Vm, v: Virt)
    requires Torn(s) && Own(s, v)
    ensures s.pt[v].frame < |s.refs| && s.refs[s.pt[v].frame] == 1
  {
    var f := s.pt[v].frame;
    assert RefOk(s.pt, s.refs, f);
    assert Mappers(s.pt, f) == {v} by {
      forall u: Virt | u in Mappers(s.pt, f) ensures u == v {
        assert Private(s.pt, v, u);
      }
    }
  }
}
