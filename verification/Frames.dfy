/** Page frames, reference counts and page tables (kalloc.c, vm.c): what allocating, sharing and
    freeing a frame keep.
 */
module Frames {
  import opened Common

  /** A page of a process. */
  datatype Virt = Virt(pid: nat, page: nat)

  /** A page table entry: in memory, writable or shared copy-on-write, or in the swap file. */
  datatype Pte = Present(frame: nat, w: bool, cow: bool) | Swapped

  type PageTable = map<Virt, Pte>

  predicate Maps(pt: PageTable, v: Virt, f: nat) {
    v in pt && pt[v].Present? && pt[v].frame == f
  }

  /** The pages that are mapped to a frame. */
  ghost function Mappers(pt: PageTable, f: nat): set<Virt> {
    set v | v in pt && Maps(pt, v, f)
  }

  ghost predicate RefOk(pt: PageTable, refs: seq<nat>, f: nat)
    requires f < |refs|
  {
    refs[f] == |Mappers(pt, f)|
  }

  ghost predicate FreeOk(refs: seq<nat>, free: seq<nat>, f: nat)
    requires f < |refs|
  {
    f in free <==> refs[f] == 0
  }

  /** Each count is the number of page table entries for the frame, and the free list holds exactly the
      frames with count 0, each once. */
  ghost predicate CountsOk(pt: PageTable, refs: seq<nat>, free: seq<nat>) {
    && (forall v | v in pt :: pt[v].Present? ==> pt[v].frame < |refs|)
    && (forall f: nat | f < |refs| :: RefOk(pt, refs, f))
    && (forall f: nat | f < |refs| :: FreeOk(refs, free, f))
    && (forall i | 0 <= i < |free| :: free[i] < |refs|)
    && Distinct(free)
  }

  /** A frame that a page may write is mapped by no other page. */
  ghost predicate Private(pt: PageTable, v: Virt, u: Virt) {
    v in pt && pt[v].Present? && pt[v].w && Maps(pt, u, pt[v].frame) ==> u == v
  }

  ghost predicate SharingOk(pt: PageTable) {
    && (forall v | v in pt :: pt[v].Present? ==> pt[v].w != pt[v].cow)
    && (forall v: Virt, u: Virt :: Private(pt, v, u))
  }

  // ---------------------------------------------------------------- changing one entry

  lemma MappersAdd(pt: PageTable, v: Virt, e: Pte, f: nat)
    requires v !in pt || !pt[v].Present?
    ensures Mappers(pt[v := e], f) == if e.Present? && e.frame == f then Mappers(pt, f) + {v} else Mappers(pt, f)
    ensures v !in Mappers(pt, f)
  {
  }

  lemma MappersDrop(pt: PageTable, v: Virt, f: nat)
    requires v in pt && pt[v].Present?
    ensures Mappers(pt[v := Swapped], f) == Mappers(pt, f) - {v}
    ensures Mappers(pt - {v}, f) == Mappers(pt, f) - {v}
    ensures v in Mappers(pt, f) <==> f == pt[v].frame
  {
  }

  /** Taking a frame off the free list for a page that has none. */
  lemma AllocOk(pt: PageTable, refs: seq<nat>, free: seq<nat>, v: Virt, w: bool, cow: bool)
    requires CountsOk(pt, refs, free) && free != [] && (v !in pt || !pt[v].Present?)
    ensures free[0] < |refs| && Mappers(pt, free[0]) == {}
    ensures CountsOk(pt[v := Present(free[0], w, cow)], refs[free[0] := 1], free[1..])
  {
    var f := free[0];
    assert f in free && FreeOk(refs, free, f) && RefOk(pt, refs, f);
    var pt', refs', free' := pt[v := Present(f, w, cow)], refs[f := 1], free[1..];
    assert free == [f] + free';
    forall g: nat | g < |refs'| ensures RefOk(pt', refs', g) && FreeOk(refs', free', g) {
      assert RefOk(pt, refs, g) && FreeOk(refs, free, g);
      MappersAdd(pt, v, Present(f, w, cow), g);
    }
  }

  /** A page without a frame comes to share one. */
  lemma ShareOk(pt: PageTable, refs: seq<nat>, free: seq<nat>, v: Virt, f: nat, w: bool, cow: bool)
    requires CountsOk(pt, refs, free) && f < |refs| && refs[f] > 0 && (v !in pt || !pt[v].Present?)
    ensures CountsOk(pt[v := Present(f, w, cow)], refs[f := refs[f] + 1], free)
  {
    hide RefOk, FreeOk, Mappers;
    var pt', refs' := pt[v := Present(f, w, cow)], refs[f := refs[f] + 1];
    forall g: nat | g < |refs'| ensures RefOk(pt', refs', g) && FreeOk(refs', free, g) {
      ShareAt(pt, refs, free, v, f, w, cow, g);
    }
  }

  lemma ShareAt(pt: PageTable, refs: seq<nat>, free: seq<nat>, v: Virt, f: nat, w: bool, cow: bool, g: nat)
    requires g < |refs| && RefOk(pt, refs, g) && FreeOk(refs, free, g)
    requires f < |refs| && refs[f] > 0 && (v !in pt || !pt[v].Present?)
    ensures RefOk(pt[v := Present(f, w, cow)], refs[f := refs[f] + 1], g) && FreeOk(refs[f := refs[f] + 1], free, g)
  {
    MappersAdd(pt, v, Present(f, w, cow), g);
  }

  /** A mapped frame is not the next one to be taken. */
  lemma NotFree(pt: PageTable, refs: seq<nat>, free: seq<nat>, u: Virt)
    requires CountsOk(pt, refs, free) && free != [] && u in pt && pt[u].Present?
    ensures pt[u].frame != free[0] && free[0] < |refs|
  {
    assert RefOk(pt, refs, pt[u].frame) && FreeOk(refs, free, pt[u].frame);
    assert u in Mappers(pt, pt[u].frame);
  }

  /** The free list after kfree of a frame whose count becomes `n`. */
  function Freed(free: seq<nat>, f: nat, n: nat): seq<nat> {
    if n == 0 then [f] + free else free
  }

  /** A page gives up its frame: to the swap file, or altogether. */
  lemma DropOk(pt: PageTable, refs: seq<nat>, free: seq<nat>, v: Virt)
    requires CountsOk(pt, refs, free) && v in pt && pt[v].Present?
    ensures var f := pt[v].frame;
            && f < |refs| && refs[f] > 0
            && CountsOk(pt[v := Swapped], refs[f := refs[f] - 1], Freed(free, f, refs[f] - 1))
            && CountsOk(pt - {v}, refs[f := refs[f] - 1], Freed(free, f, refs[f] - 1))
  {
    var f := pt[v].frame;
    assert RefOk(pt, refs, f) && FreeOk(refs, free, f);
    MappersDrop(pt, v, f);
    var refs', free' := refs[f := refs[f] - 1], Freed(free, f, refs[f] - 1);
    var pt1, pt2 := pt[v := Swapped], pt - {v};
    forall g: nat | g < |refs'|
      ensures RefOk(pt1, refs', g) && RefOk(pt2, refs', g) && FreeOk(refs', free', g)
    {
      assert RefOk(pt, refs, g) && FreeOk(refs, free, g);
      MappersDrop(pt, v, g);
    }
  }

  /** A change of permissions changes no count. */
  lemma FlagsOk(pt: PageTable, refs: seq<nat>, free: seq<nat>, v: Virt, w: bool, cow: bool)
    requires CountsOk(pt, refs, free) && v in pt && pt[v].Present?
    ensures CountsOk(pt[v := pt[v].(w := w, cow := cow)], refs, free)
  {
    var pt' := pt[v := pt[v].(w := w, cow := cow)];
    forall g: nat | g < |refs| ensures RefOk(pt', refs, g) {
      assert RefOk(pt, refs, g);
      assert Mappers(pt', g) == Mappers(pt, g);
    }
  }

  /** A page that is the only one of its frame. */
  lemma OnlyMapper(pt: PageTable, refs: seq<nat>, free: seq<nat>, v: Virt, u: Virt)
    requires CountsOk(pt, refs, free) && v in pt && pt[v].Present? && refs[pt[v].frame] == 1
    ensures Maps(pt, u, pt[v].frame) ==> u == v
  {
    var f := pt[v].frame;
    assert RefOk(pt, refs, f);
    assert v in Mappers(pt, f);
    var rest := Mappers(pt, f) - {v};
    assert |rest| == 0;
    assert u in Mappers(pt, f) && u != v ==> u in rest;
  }

  // ---------------------------------------------------------------- sharing

  lemma SharePrivate(pt: PageTable, v: Virt, f: nat)
    requires SharingOk(pt) && Mappers(pt, f) == {}
    ensures SharingOk(pt[v := Present(f, true, false)])
  {
    var pt' := pt[v := Present(f, true, false)];
    forall x: Virt, y: Virt ensures Private(pt', x, y) {
      assert Private(pt, x, y);
      assert x !in Mappers(pt, f) && y !in Mappers(pt, f);
    }
  }

  lemma ShareDrop(pt: PageTable, v: Virt)
    requires SharingOk(pt)
    ensures SharingOk(pt[v := Swapped]) && SharingOk(pt - {v})
  {
    var pt1, pt2 := pt[v := Swapped], pt - {v};
    forall x: Virt, y: Virt ensures Private(pt1, x, y) && Private(pt2, x, y) {
      assert Private(pt, x, y);
    }
  }

  /** A page may be shared once it is copy-on-write. */
  lemma ShareCow(pt: PageTable, v: Virt, u: Virt)
    requires SharingOk(pt) && v in pt && pt[v].Present? && !pt[v].w
    ensures SharingOk(pt[u := pt[v]])
  {
    var pt' := pt[u := pt[v]];
    forall x: Virt, y: Virt ensures Private(pt', x, y) {
      assert Private(pt, x, y) && Private(pt, x, v);
    }
  }

  lemma ShareReadOnly(pt: PageTable, v: Virt)
    requires SharingOk(pt) && v in pt && pt[v].Present?
    ensures SharingOk(pt[v := pt[v].(w := false, cow := true)])
  {
    var pt' := pt[v := pt[v].(w := false, cow := true)];
    forall x: Virt, y: Virt ensures Private(pt', x, y) {
      assert Private(pt, x, y);
    }
  }

  /** The last page of a frame may write it. */
  lemma ShareLast(pt: PageTable, refs: seq<nat>, free: seq<nat>, v: Virt)
    requires CountsOk(pt, refs, free) && SharingOk(pt) && v in pt && pt[v].Present? && refs[pt[v].frame] == 1
    ensures SharingOk(pt[v := pt[v].(w := true, cow := false)])
  {
    var pt' := pt[v := pt[v].(w := true, cow := false)];
    forall x: Virt, y: Virt ensures Private(pt', x, y) {
      assert Private(pt, x, y);
      OnlyMapper(pt, refs, free, v, x);
      OnlyMapper(pt, refs, free, v, y);
    }
  }
}
