/** Copy-on-write (vm.c, trap.c): sharing pages with a child, copying one on a write, and freeing the
    pages of a process.
 */
module VmCow {
  import opened Common
  import opened Frames
  import opened SwapMeta
  import opened VmCore

  // ---------------------------------------------------------------- states in the middle of fork and exit

  /** Page tables and metadata say the same, except for process `x`, which is being made or removed. */
  ghost predicate AgreeBut(s: Vm, x: int) {
    && (forall v: Virt | v in s.pt && v.pid != x :: Recorded(s, v))
    && (forall pid: nat, a: nat | a < MAX_TOTAL_PAGES && pid != x :: RecordMapped(s, pid, a))
  }

  ghost predicate InvBut(s: Vm, x: int) {
    && |s.mem| == |s.refs| && CountsOk(s.pt, s.refs, s.free) && SharingOk(s.pt)
    && ProcsOk(s) && AgreeBut(s, x)
  }

  /** `t` has the same processes as `s`, with the same records and swap files, and every page of a process
      other than `x` is in memory or on the disk in both. */
  ghost predicate SameRecords(s: Vm, t: Vm, x: int) {
    && t.procs == s.procs
    && (forall v: Virt | v.pid != x :: SameKind(s.pt, t.pt, v))
  }

  ghost predicate SameKind(pt: PageTable, pt': PageTable, v: Virt) {
    (v in pt <==> v in pt') && (v in pt ==> pt[v].Present? == pt'[v].Present?)
  }

  lemma RecordsKept(s: Vm, t: Vm, x: int)
    requires AgreeBut(s, x) && SameRecords(s, t, x)
    ensures AgreeBut(t, x)
  {
    forall v: Virt | v in t.pt && v.pid != x ensures Recorded(t, v) {
      RecordKept(s, t, x, v);
    }
    forall pid: nat, a: nat | a < MAX_TOTAL_PAGES && pid != x ensures RecordMapped(t, pid, a) {
      assert RecordMapped(s, pid, a);
      if pid in s.procs && a < |s.procs[pid].meta| && s.procs[pid].meta[a].id >= 0 {
        assert SameKind(s.pt, t.pt, Virt(pid, s.procs[pid].meta[a].id));
      }
    }
  }

  lemma RecordKept(s: Vm, t: Vm, x: int, v: Virt)
    requires SameRecords(s, t, x) && v.pid != x && v in t.pt && (v in s.pt ==> Recorded(s, v))
    ensures Recorded(t, v) && v in s.pt
  {
    assert SameKind(s.pt, t.pt, v);
    var a: nat :| EntryFor(s.procs[v.pid], a, v.page, s.pt[v]);
    assert EntryFor(t.procs[v.pid], a, v.page, t.pt[v]);
  }

  lemma AgreeStays(s: Vm, t: Vm)
    requires Agree(s) && SameRecords(s, t, -1)
    ensures Agree(t)
  {
    RecordsKept(s, t, -1);
  }

  /** Pages in the swap file keep their contents when records and files do. */
  lemma FileViewKept(s: Vm, t: Vm, x: int, v: Virt)
    requires SameRecords(s, t, x) && v.pid != x && Recorded(s, v) && s.pt[v].Swapped? && MetaOk(s.procs[v.pid])
    ensures SameView(s, t, v)
  {
    assert SameKind(s.pt, t.pt, v);
    RecordKept(s, t, x, v);
    var a: nat :| EntryFor(s.procs[v.pid], a, v.page, s.pt[v]);
    assert EntryFor(t.procs[v.pid], a, v.page, t.pt[v]);
    PageInFile(s, v, a);
    PageInFile(t, v, a);
  }

  // ---------------------------------------------------------------- one page of fork

  function Shared(e: Pte): Pte {
    if e.Present? && e.w then e.(w := false, cow := true) else e
  }

  /** One turn of copyuvm: page `v` of the parent comes to be shared with page `u` of the child. */
  ghost function ShareVm(s: Vm, v: Virt, u: Virt): Vm
    requires v in s.pt
  {
    var e := Shared(s.pt[v]);
    s.(pt := s.pt[v := e][u := e],
       refs := if e.Present? && e.frame < |s.refs| then s.refs[e.frame := s.refs[e.frame] + 1] else s.refs)
  }

  lemma ShareCounts(s: Vm, v: Virt, u: Virt)
    requires CountsOk(s.pt, s.refs, s.free) && SharingOk(s.pt) && v in s.pt && u !in s.pt
    ensures var t := ShareVm(s, v, u); CountsOk(t.pt, t.refs, t.free) && SharingOk(t.pt)
  {
    var e := Shared(s.pt[v]);
    if e.Present? {
      var pt1 := s.pt[v := e];
      FlagsOk(s.pt, s.refs, s.free, v, e.w, e.cow);
      assert pt1 == s.pt[v := s.pt[v].(w := e.w, cow := e.cow)];
      if s.pt[v].w {
        ShareReadOnly(s.pt, v);
      } else {
        assert pt1 == s.pt;
      }
      assert Mappers(s.pt, e.frame) != {} by {
        assert v in Mappers(s.pt, e.frame);
      }
      assert RefOk(s.pt, s.refs, e.frame);
      ShareOk(pt1, s.refs, s.free, u, e.frame, e.w, e.cow);
      ShareCow(pt1, v, u);
    } else {
      assert s.pt[v := e] == s.pt;
      ShareSwapped(s.pt, s.refs, s.free, u);
    }
  }

  lemma ShareSwapped(pt: PageTable, refs: seq<nat>, free: seq<nat>, u: Virt)
    requires CountsOk(pt, refs, free) && SharingOk(pt) && u !in pt
    ensures CountsOk(pt[u := Swapped], refs, free) && SharingOk(pt[u := Swapped])
  {
    ShareDrop(pt, u);
    var pt' := pt[u := Swapped];
    forall f: nat | f < |refs| ensures RefOk(pt', refs, f) {
      assert RefOk(pt, refs, f);
      MappersAdd(pt, u, Swapped, f);
    }
  }

  lemma ShareInv(s: Vm, v: Virt, u: Virt)
    requires InvBut(s, u.pid) && v in s.pt && u !in s.pt && v.pid != u.pid
    ensures InvBut(ShareVm(s, v, u), u.pid)
  {
    var t := ShareVm(s, v, u);
    ShareCounts(s, v, u);
    assert SameRecords(s, t, u.pid);
    RecordsKept(s, t, u.pid);
  }

  /** Sharing a page changes what no process sees, and the child sees what the parent sees. */
  lemma ShareView(s: Vm, v: Virt, u: Virt, z: Virt)
    requires InvBut(s, u.pid) && v in s.pt && u !in s.pt && v.pid != u.pid && z.pid != u.pid
    ensures SameView(s, ShareVm(s, v, u), z)
  {
    var t := ShareVm(s, v, u);
    assert SameRecords(s, t, u.pid);
    if Recorded(s, z) {
      if s.pt[z].Swapped? {
        FileViewKept(s, t, u.pid, z);
      } else {
        assert SameKind(s.pt, t.pt, z);
        RecordKept(s, t, u.pid, z);
      }
    }
  }

  // ---------------------------------------------------------------- one page of freevm

  /** One turn of deallocuvm: a page in memory gives up its frame, a page in the swap file is forgotten. */
  ghost function DropVm(s: Vm, u: Virt): Vm
    requires u in s.pt && |s.mem| == |s.refs|
    requires s.pt[u].Present? ==> s.pt[u].frame < |s.refs| && s.refs[s.pt[u].frame] > 0
  {
    if s.pt[u].Swapped? then s.(pt := s.pt - {u})
    else
      var f := s.pt[u].frame;
      var n := s.refs[f] - 1;
      s.(mem := if n == 0 then s.mem[f := Junk()] else s.mem, refs := s.refs[f := n], free := Freed(s.free, f, n),
         pt := s.pt - {u})
  }

  lemma DropSwapped(pt: PageTable, refs: seq<nat>, free: seq<nat>, u: Virt)
    requires CountsOk(pt, refs, free) && u in pt && pt[u].Swapped?
    ensures CountsOk(pt - {u}, refs, free)
  {
    var pt' := pt - {u};
    forall f: nat | f < |refs| ensures RefOk(pt', refs, f) {
      assert RefOk(pt, refs, f);
      assert Mappers(pt', f) == Mappers(pt, f);
    }
  }

  lemma DropInv(s: Vm, u: Virt)
    requires InvBut(s, u.pid) && u in s.pt
    ensures s.pt[u].Present? ==> s.pt[u].frame < |s.refs| && s.refs[s.pt[u].frame] > 0
    ensures InvBut(DropVm(s, u), u.pid)
  {
    ShareDrop(s.pt, u);
    if s.pt[u].Swapped? {
      DropSwapped(s.pt, s.refs, s.free, u);
    } else {
      DropOk(s.pt, s.refs, s.free, u);
    }
    var t := DropVm(s, u);
    assert SameRecords(s, t, u.pid);
    RecordsKept(s, t, u.pid);
  }

  /** Freeing a page of one process changes what no other process sees. */
  lemma DropView(s: Vm, u: Virt, z: Virt)
    requires InvBut(s, u.pid) && u in s.pt && z.pid != u.pid
    requires s.pt[u].Present? ==> s.pt[u].frame < |s.refs| && s.refs[s.pt[u].frame] > 0
    ensures SameView(s, DropVm(s, u), z)
  {
    var t := DropVm(s, u);
    assert SameRecords(s, t, u.pid);
    if Recorded(s, z) {
      if s.pt[z].Swapped? {
        FileViewKept(s, t, u.pid, z);
      } else {
        assert SameKind(s.pt, t.pt, z);
        RecordKept(s, t, u.pid, z);
        if s.pt[u].Present? && s.refs[s.pt[u].frame] == 1 {
          OnlyMapper(s.pt, s.refs, s.free, u, z);
        }
      }
    }
  }

  // ---------------------------------------------------------------- the end of fork and of exit

  /** The entries of the child are those of its parent. */
  ghost predicate Cloned(pt: PageTable, parent: nat, child: nat, page: nat) {
    && (Virt(parent, page) in pt <==> Virt(child, page) in pt)
    && (Virt(parent, page) in pt ==> pt[Virt(parent, page)] == pt[Virt(child, page)])
  }

  ghost function BornVm(s: Vm, parent: nat, child: nat): Vm
    requires parent in s.procs
  {
    s.(procs := s.procs[child := Copied(s.procs[parent], Zeroes())])
  }

  lemma BornRecorded(s: Vm, parent: nat, child: nat, v: Virt)
    requires InvBut(s, child) && parent in s.procs && child != parent && v in s.pt
    requires forall page: nat :: Cloned(s.pt, parent, child, page)
    ensures Recorded(BornVm(s, parent, child), v)
  {
    var t := BornVm(s, parent, child);
    if v.pid == child {
      assert Cloned(s.pt, parent, child, v.page);
      assert Recorded(s, Virt(parent, v.page));
      var a: nat :| EntryFor(s.procs[parent], a, v.page, s.pt[Virt(parent, v.page)]);
      assert EntryFor(t.procs[child], a, v.page, t.pt[v]);
    } else {
      assert Recorded(s, v);
      var a: nat :| EntryFor(s.procs[v.pid], a, v.page, s.pt[v]);
      assert EntryFor(t.procs[v.pid], a, v.page, t.pt[v]);
    }
  }

  lemma BornInv(s: Vm, parent: nat, child: nat)
    requires InvBut(s, child) && parent in s.procs && child != parent
    requires forall page: nat :: Cloned(s.pt, parent, child, page)
    ensures Inv(BornVm(s, parent, child))
  {
    var t := BornVm(s, parent, child);
    CopiedOk(s.procs[parent], Zeroes());
    forall v: Virt | v in t.pt ensures Recorded(t, v) {
      BornRecorded(s, parent, child, v);
    }
    forall pid: nat, a: nat | a < MAX_TOTAL_PAGES ensures RecordMapped(t, pid, a) {
      if pid == child {
        assert RecordMapped(s, parent, a);
        if s.procs[parent].meta[a].id >= 0 {
          assert Cloned(s.pt, parent, child, s.procs[parent].meta[a].id);
        }
      } else {
        assert RecordMapped(s, pid, a);
      }
    }
  }

  /** The page of the parent that a page of the child is a copy of; any other page is its own. */
  function Origin(v: Virt, parent: nat, child: nat): Virt {
    if v.pid == child then Virt(parent, v.page) else v
  }

  lemma BornViewFile(s: Vm, parent: nat, child: nat, v: Virt, w: Virt)
    requires parent in s.procs && child != parent && v in s.pt && w == Origin(v, parent, child) && Recorded(s, w)
    requires MetaOk(s.procs[w.pid]) && s.pt[v] == s.pt[w] && s.pt[w].Swapped?
    ensures Recorded(BornVm(s, parent, child), v) && PageAt(BornVm(s, parent, child), v) == PageAt(s, w)
  {
    var t := BornVm(s, parent, child);
    CopiedOk(s.procs[w.pid], Zeroes());
    var a: nat :| EntryFor(s.procs[w.pid], a, w.page, s.pt[w]);
    assert EntryOk(s.procs[w.pid], a);
    assert EntryFor(t.procs[v.pid], a, v.page, t.pt[v]);
    PageInFile(s, w, a);
    PageInFile(t, v, a);
  }

  /** The child sees what its parent sees, and nobody else sees a change. */
  lemma BornView(s: Vm, parent: nat, child: nat, v: Virt)
    requires InvBut(s, child) && parent in s.procs && child != parent && v in s.pt
    requires forall page: nat :: Cloned(s.pt, parent, child, page)
    ensures var t, w := BornVm(s, parent, child), Origin(v, parent, child);
            Recorded(t, v) && Recorded(s, w) && PageAt(t, v) == PageAt(s, w)
  {
    var w := Origin(v, parent, child);
    BornRecorded(s, parent, child, v);
    assert Cloned(s.pt, parent, child, v.page);
    assert Recorded(s, w);
    if s.pt[w].Swapped? {
      BornViewFile(s, parent, child, v, w);
    }
  }

  ghost function GoneVm(s: Vm, pid: nat): Vm {
    s.(procs := s.procs - {pid})
  }

  /** Once all its pages are freed, a process may go. */
  lemma GoneInv(s: Vm, pid: nat)
    requires InvBut(s, pid) && forall v: Virt | v in s.pt :: v.pid != pid
    ensures Inv(GoneVm(s, pid))
  {
    var t := GoneVm(s, pid);
    forall v: Virt | v in t.pt ensures Recorded(t, v) {
      assert Recorded(s, v);
      var a: nat :| EntryFor(s.procs[v.pid], a, v.page, s.pt[v]);
      assert EntryFor(t.procs[v.pid], a, v.page, t.pt[v]);
    }
    forall q: nat, a: nat | a < MAX_TOTAL_PAGES ensures RecordMapped(t, q, a) {
      if q != pid {
        assert RecordMapped(s, q, a);
      }
    }
  }

  lemma GoneView(s: Vm, pid: nat, v: Virt)
    requires InvBut(s, pid) && v.pid != pid
    ensures SameView(s, GoneVm(s, pid), v)
  {
    if Recorded(s, v) {
      var t := GoneVm(s, pid);
      var a: nat :| EntryFor(s.procs[v.pid], a, v.page, s.pt[v]);
      assert EntryFor(t.procs[v.pid], a, v.page, t.pt[v]);
      if s.pt[v].Swapped? {
        PageInFile(s, v, a);
        PageInFile(t, v, a);
      }
    }
  }

  // ---------------------------------------------------------------- a write fault, and a store

  /** The copy-on-write branch of trap. The last owner of a frame just gets to write it. Any other gets a
      copy in a new frame, if there is one. If there is none the process is killed, but the count of the
      shared frame has been decremented all the same. */
  ghost function FaultVm(s: Vm, v: Virt): Vm
    requires Inv(s) && v in s.pt && s.pt[v].Present?
  {
    var f := s.pt[v].frame;
    if s.refs[f] == 1 then s.(pt := s.pt[v := s.pt[v].(w := true, cow := false)])
    else
      DropOk(s.pt, s.refs, s.free, v);
      if s.free == [] then s.(refs := s.refs[f := s.refs[f] - 1])
      else
        var g := s.free[0];
        s.(mem := s.mem[g := s.mem[f]], refs := s.refs[f := s.refs[f] - 1][g := 1], free := s.free[1..],
           pt := s.pt[v := Present(g, true, false)])
  }

  /** A write fault that finds the memory it needs keeps all counts exact; one that does not leaves the
      count of the shared frame too low by one. */
  lemma FaultInv(s: Vm, v: Virt)
    requires Inv(s) && v in s.pt && s.pt[v].Present?
    ensures Inv(FaultVm(s, v)) <==> s.refs[s.pt[v].frame] == 1 || s.free != []
  {
    if s.refs[s.pt[v].frame] == 1 {
      LastInv(s, v);
    } else if s.free != [] {
      CopyInv(s, v);
    } else {
      ShortCount(s, v);
    }
  }

  lemma LastInv(s: Vm, v: Virt)
    requires Inv(s) && v in s.pt && s.pt[v].Present? && s.refs[s.pt[v].frame] == 1
    ensures Inv(FaultVm(s, v))
  {
    hide CountsOk, SharingOk, Agree, MetaOk;
    FlagsOk(s.pt, s.refs, s.free, v, true, false);
    ShareLast(s.pt, s.refs, s.free, v);
    AgreeStays(s, FaultVm(s, v));
  }

  lemma CopyInv(s: Vm, v: Virt)
    requires Inv(s) && v in s.pt && s.pt[v].Present? && s.refs[s.pt[v].frame] != 1 && s.free != []
    ensures Inv(FaultVm(s, v))
  {
    hide CountsOk, SharingOk, Agree, MetaOk;
    CopyCounts(s, v);
    AgreeStays(s, FaultVm(s, v));
  }

  lemma ShortCount(s: Vm, v: Virt)
    requires Inv(s) && v in s.pt && s.pt[v].Present? && s.refs[s.pt[v].frame] != 1 && s.free == []
    ensures !Inv(FaultVm(s, v))
  {
    var t, f := FaultVm(s, v), s.pt[v].frame;
    assert RefOk(s.pt, s.refs, f);
    assert !RefOk(t.pt, t.refs, f);
  }

  lemma CopyCounts(s: Vm, v: Virt)
    requires Inv(s) && v in s.pt && s.pt[v].Present? && s.refs[s.pt[v].frame] != 1 && s.free != []
    ensures var t := FaultVm(s, v); CountsOk(t.pt, t.refs, t.free) && SharingOk(t.pt) && |t.mem| == |t.refs|
    ensures s.free[0] != s.pt[v].frame && Mappers(s.pt, s.free[0]) == {}
  {
    hide ProcsOk, Agree, SharingOk;
    var f, g := s.pt[v].frame, s.free[0];
    DropOk(s.pt, s.refs, s.free, v);
    ShareDrop(s.pt, v);
    var pt1, refs1 := s.pt - {v}, s.refs[f := s.refs[f] - 1];
    AllocOk(pt1, refs1, s.free, v, true, false);
    SharePrivate(pt1, v, g);
    assert pt1[v := Present(g, true, false)] == s.pt[v := Present(g, true, false)];
    assert g in s.free && FreeOk(s.refs, s.free, g) && RefOk(s.pt, s.refs, g) && RefOk(s.pt, s.refs, f);
    assert v in Mappers(s.pt, f);
  }

  /** After a write fault every entry still leads to the same page. */
  lemma FaultFrame(s: Vm, v: Virt, u: Virt)
    requires Inv(s) && v in s.pt && s.pt[v].Present? && (s.refs[s.pt[v].frame] == 1 || s.free != [])
    requires u in s.pt && s.pt[u].Present?
    ensures var t := FaultVm(s, v);
            && u in t.pt && t.pt[u].Present? && s.pt[u].frame < |s.mem| && t.pt[u].frame < |t.mem|
            && t.mem[t.pt[u].frame] == s.mem[s.pt[u].frame]
  {
    if s.refs[s.pt[v].frame] != 1 {
      CopyCounts(s, v);
      assert u !in Mappers(s.pt, s.free[0]);
    }
  }

  /** A write fault changes what no process sees, and the page may be written afterwards. */
  lemma FaultView(s: Vm, v: Virt, u: Virt)
    requires Inv(s) && v in s.pt && s.pt[v].Present? && (s.refs[s.pt[v].frame] == 1 || s.free != [])
    ensures SameView(s, FaultVm(s, v), u) && v in FaultVm(s, v).pt && FaultVm(s, v).pt[v].Present?
      && FaultVm(s, v).pt[v].w
  {
    hide CountsOk, SharingOk, Recorded, MetaOk, Agree;
    var t := FaultVm(s, v);
    assert SameRecords(s, t, -1);
    if Recorded(s, u) {
      RecordFacts(s, u);
      if s.pt[u].Swapped? {
        FileViewKept(s, t, -1, u);
      } else {
        FaultFrame(s, v, u);
        RecordKept(s, t, -1, u);
      }
    }
  }

  lemma RecordFacts(s: Vm, u: Virt)
    requires Recorded(s, u)
    ensures u in s.pt && u.pid in s.procs
  {
  }

  ghost function StoreVm(s: Vm, v: Virt, page: Page): Vm
    requires Inv(s) && v in s.pt && s.pt[v].Present?
  {
    s.(mem := s.mem[s.pt[v].frame := page])
  }

  /** A store through a writable entry is seen by its process and by nobody else. */
  lemma StoreView(s: Vm, v: Virt, page: Page, u: Virt)
    requires Inv(s) && v in s.pt && s.pt[v].Present? && s.pt[v].w
    ensures var t := StoreVm(s, v, page);
            Inv(t) && Recorded(t, v) && PageAt(t, v) == page && (u != v ==> SameView(s, t, u))
  {
    hide Recorded, MetaOk, Agree, RefOk, FreeOk;
    var t := StoreVm(s, v, page);
    assert SameRecords(s, t, -1);
    AgreeStays(s, t);
    PageRecorded(t, v);
    if Recorded(s, u) && u != v {
      RecordFacts(s, u);
      RecordKept(s, t, -1, u);
      if s.pt[u].Swapped? {
        FileViewKept(s, t, -1, u);
      } else {
        assert Private(s.pt, v, u);
      }
    }
  }

  lemma PageRecorded(s: Vm, v: Virt)
    requires Agree(s) && v in s.pt
    ensures Recorded(s, v)
  {
  }

  /** A frame that a page may write is counted once. */
  lemma WritableCountsOne(s: Vm, v: Virt)
    requires Inv(s) && v in s.pt && s.pt[v].Present? && s.pt[v].w
    ensures s.refs[s.pt[v].frame] == 1
  {
    var f := s.pt[v].frame;
    assert RefOk(s.pt, s.refs, f);
    assert Mappers(s.pt, f) == {v} by {
      assert v in Mappers(s.pt, f);
      forall u: Virt | u in Mappers(s.pt, f) ensures u == v {
        assert Private(s.pt, v, u);
      }
    }
  }

  /** What a write fault without memory leads to: when the killed process is then freed, the frame that it
      shared with another process is junked and put on the free list, and that process sees the junk. */
  lemma KilledSharerFreesFrame(s: Vm, v: Virt, u: Virt)
    requires Inv(s) && v != u && v in s.pt && s.pt[v].Present? && Maps(s.pt, u, s.pt[v].frame)
    requires s.refs[s.pt[v].frame] == 2 && s.free == []
    ensures var f, t := s.pt[v].frame, DropVm(FaultVm(s, v), v);
            f in t.free && Maps(t.pt, u, f) && Recorded(t, u) && PageAt(t, u) == Junk() && !InvBut(t, v.pid)
  {
    var f, t := s.pt[v].frame, DropVm(FaultVm(s, v), v);
    assert Recorded(s, u);
    var a: nat :| EntryFor(s.procs[u.pid], a, u.page, s.pt[u]);
    assert EntryFor(t.procs[u.pid], a, u.page, t.pt[u]);
    assert u in Mappers(t.pt, f) && t.refs[f] == 0;
    assert !RefOk(t.pt, t.refs, f);
  }
}
