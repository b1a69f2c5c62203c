/** The paging metadata of a process (proc.h, vm.c): one record for each of its pages, the list of
    resident records, the slots of the swap file, and the swap file itself.
 */
module SwapMeta {
  import opened Common

  const SLOTS: nat := 17

  const PGSIZE: nat := 4096
  const KERN_PAGES: nat := 0x80000   // KERNBASE / PGSIZE

  type Page = p: seq<bv8> | |p| == PGSIZE witness seq(PGSIZE, i => 0)

  datatype PageState = NotUsed | InMemory | InDisk

  /** `id` is the page, or -1; `slot` is its place in the swap file, or -1. */
  datatype PageMeta = PageMeta(id: int, state: PageState, slot: int)

  /** `avail[s]` is set while slot `s` is taken, as in the source; `sz` is the size in pages. */
  datatype Proc = Proc(meta: seq<PageMeta>, avail: seq<bool>, list: seq<nat>, file: seq<Page>, hasFile: bool,
                       nram: nat, ndisk: nat, sz: nat)

  // ---------------------------------------------------------------- counting

  function Count(meta: seq<PageMeta>, st: PageState): nat {
    if meta == [] then 0 else Count(meta[1..], st) + if meta[0].state == st then 1 else 0
  }

  lemma {:induction false} CountSet(meta: seq<PageMeta>, a: nat, e: PageMeta, st: PageState)
    requires a < |meta|
    ensures Count(meta[a := e], st)
         == Count(meta, st) - (if meta[a].state == st then 1 else 0) + (if e.state == st then 1 else 0)
  {
    if a == 0 {
      assert meta[a := e][1..] == meta[1..];
    } else {
      assert meta[a := e][1..] == meta[1..][a - 1 := e];
      CountSet(meta[1..], a - 1, e, st);
    }
  }

  /** Every record is in one of the three states. */
  lemma {:induction false} CountAll(meta: seq<PageMeta>)
    ensures Count(meta, NotUsed) + Count(meta, InMemory) + Count(meta, InDisk) == |meta|
    ensures (forall a | 0 <= a < |meta| :: meta[a].state != NotUsed) ==> Count(meta, NotUsed) == 0
  {
    if meta != [] {
      CountAll(meta[1..]);
      assert (forall a | 0 <= a < |meta| :: meta[a].state != NotUsed) ==>
          forall a | 0 <= a < |meta[1..]| :: meta[1..][a].state != NotUsed;
    }
  }

  lemma {:induction false} CountSome(meta: seq<PageMeta>, a: nat)
    requires a < |meta|
    ensures Count(meta, meta[a].state) > 0
  {
    if a > 0 {
      CountSome(meta[1..], a - 1);
    }
  }

  function Taken(avail: seq<bool>): nat {
    if avail == [] then 0 else Taken(avail[1..]) + if avail[0] then 1 else 0
  }

  lemma {:induction false} TakenSet(avail: seq<bool>, s: nat, b: bool)
    requires s < |avail|
    ensures Taken(avail[s := b]) == Taken(avail) - (if avail[s] then 1 else 0) + (if b then 1 else 0)
  {
    if s == 0 {
      assert avail[s := b][1..] == avail[1..];
    } else {
      assert avail[s := b][1..] == avail[1..][s - 1 := b];
      TakenSet(avail[1..], s - 1, b);
    }
  }

  lemma {:induction false} TakenAll(avail: seq<bool>)
    requires forall s | 0 <= s < |avail| :: avail[s]
    ensures Taken(avail) == |avail|
  {
    if avail != [] {
      TakenAll(avail[1..]);
    }
  }

  // ---------------------------------------------------------------- the invariant of the metadata

  ghost predicate EntryOk(p: Proc, a: nat)
    requires |p.meta| == MAX_TOTAL_PAGES && |p.avail| == SLOTS && a < MAX_TOTAL_PAGES
  {
    var e := p.meta[a];
    && (e.state == NotUsed <==> e.id == -1) && e.id >= -1
    && (e.state == InMemory <==> a in p.list)
    && (e.state == InDisk ==> 0 <= e.slot < SLOTS && p.avail[e.slot] && e.slot < |p.file|)
  }

  /** Different records are of different pages and use different slots. */
  ghost predicate Apart(meta: seq<PageMeta>, a: nat, b: nat)
    requires a < |meta| && b < |meta|
  {
    a != b ==>
      && (meta[a].id == meta[b].id ==> meta[a].id == -1)
      && (meta[a].state == InDisk && meta[b].state == InDisk ==> meta[a].slot != meta[b].slot)
  }

  /** What holds at every point, also in the middle of a swap. */
  ghost predicate MetaOk(p: Proc) {
    && |p.meta| == MAX_TOTAL_PAGES && |p.avail| == SLOTS && |p.file| <= SLOTS
    && (forall a: nat | a < MAX_TOTAL_PAGES :: EntryOk(p, a))
    && (forall a: nat, b: nat | a < MAX_TOTAL_PAGES && b < MAX_TOTAL_PAGES :: Apart(p.meta, a, b))
    && (forall i | 0 <= i < |p.list| :: p.list[i] < MAX_TOTAL_PAGES)
    && (forall i, j | 0 <= i < j < |p.list| :: p.list[i] != p.list[j])
    && (forall s | 0 <= s < SLOTS && p.avail[s] :: s < |p.file|)
    && Count(p.meta, InMemory) == p.nram == |p.list|
    && Count(p.meta, InDisk) == p.ndisk == Taken(p.avail)
    && (p.file != [] ==> p.hasFile)
  }

  /** What holds of two records. */
  lemma TwoRecords(p: Proc, a: nat, b: nat)
    requires MetaOk(p) && a < MAX_TOTAL_PAGES && b < MAX_TOTAL_PAGES
    ensures |p.meta| == MAX_TOTAL_PAGES && |p.avail| == SLOTS && EntryOk(p, a) && EntryOk(p, b) && Apart(p.meta, a, b)
  {
  }

  lemma ListedRecord(p: Proc, i: nat)
    requires MetaOk(p) && i < |p.list|
    ensures |p.meta| == MAX_TOTAL_PAGES && p.list[i] < MAX_TOTAL_PAGES
  {
  }

  /** What holds at rest: pages go to the disk only from a full memory, and a growth that then finds no
      frame leaves one place in memory unused. */
  ghost predicate AtRest(p: Proc) {
    && p.nram <= MAX_PSYC_PAGES && p.ndisk <= MAX_TOTAL_PAGES - MAX_PSYC_PAGES
    && (p.ndisk > 0 ==> p.nram >= MAX_PSYC_PAGES - 1)
  }

  // ---------------------------------------------------------------- moving a page out and in

  /** The swap file after a page was written at a slot that is not behind its end. */
  function FileWith(file: seq<Page>, s: nat, page: Page): seq<Page>
    requires s <= |file|
  {
    if s == |file| then file + [page] else file[s := page]
  }

  /** nextAvOffset gives the lowest free slot; that is never behind the end of the file. */
  ghost predicate LowestFree(avail: seq<bool>, s: nat) {
    s < |avail| && !avail[s] && forall t | 0 <= t < s :: avail[t]
  }

  lemma SlotFits(p: Proc, s: nat)
    requires MetaOk(p) && LowestFree(p.avail, s)
    ensures s <= |p.file|
  {
    if s > 0 {
      assert p.avail[s - 1];
    }
  }

  /** movePageToFile and removePageFromList of the record at position `i` of the list. */
  function Out(p: Proc, i: nat, s: nat, page: Page): Proc
    requires i < |p.list| && p.list[i] < |p.meta| && s < |p.avail| && s <= |p.file|
  {
    var a := p.list[i];
    p.(meta := p.meta[a := PageMeta(p.meta[a].id, InDisk, s)], avail := p.avail[s := true], list := Without(p.list, i),
       file := FileWith(p.file, s, page), nram := if p.nram > 0 then p.nram - 1 else 0, ndisk := p.ndisk + 1)
  }

  lemma OutEntry(p: Proc, i: nat, s: nat, page: Page, b: nat)
    requires MetaOk(p) && i < |p.list| && LowestFree(p.avail, s) && s <= |p.file| && b < MAX_TOTAL_PAGES
    ensures EntryOk(Out(p, i, s, page), b)
  {
    assert EntryOk(p, b) && EntryOk(p, p.list[i]);
    var q := Out(p, i, s, page);
    assert forall k | 0 <= k < |q.list| :: q.list[k] == p.list[if k < i then k else k + 1];
    if b in p.list && b != p.list[i] {
      var k :| 0 <= k < |p.list| && p.list[k] == b;
      assert q.list[if k < i then k else k - 1] == b;
    }
  }

  lemma OutApart(p: Proc, i: nat, s: nat, page: Page, b: nat, c: nat)
    requires MetaOk(p) && i < |p.list| && LowestFree(p.avail, s) && s <= |p.file| && b < MAX_TOTAL_PAGES
      && c < MAX_TOTAL_PAGES
    ensures Apart(Out(p, i, s, page).meta, b, c)
  {
    assert EntryOk(p, b) && EntryOk(p, c) && EntryOk(p, p.list[i]);
    assert Apart(p.meta, b, c);
  }

  /** Moving a page out keeps the metadata, with one slot more in use. */
  lemma OutOk(p: Proc, i: nat, s: nat, page: Page)
    requires MetaOk(p) && i < |p.list| && LowestFree(p.avail, s) && s <= |p.file| && p.hasFile
    ensures MetaOk(Out(p, i, s, page))
  {
    var q, a := Out(p, i, s, page), p.list[i];
    assert EntryOk(p, a);
    forall b: nat | b < MAX_TOTAL_PAGES ensures EntryOk(q, b) {
      OutEntry(p, i, s, page, b);
    }
    forall b: nat, c: nat | b < MAX_TOTAL_PAGES && c < MAX_TOTAL_PAGES ensures Apart(q.meta, b, c) {
      OutApart(p, i, s, page, b, c);
    }
    CountSet(p.meta, a, PageMeta(p.meta[a].id, InDisk, s), InMemory);
    CountSet(p.meta, a, PageMeta(p.meta[a].id, InDisk, s), InDisk);
    TakenSet(p.avail, s, true);
    assert forall k | 0 <= k < |q.list| :: q.list[k] == p.list[if k < i then k else k + 1];
  }

  /** getPageFromFile of record `a`. */
  function In(p: Proc, a: nat): Proc
    requires a < |p.meta| && 0 <= p.meta[a].slot < |p.avail|
  {
    p.(meta := p.meta[a := PageMeta(p.meta[a].id, InMemory, -1)], avail := p.avail[p.meta[a].slot := false],
       list := p.list + [a], nram := p.nram + 1, ndisk := if p.ndisk > 0 then p.ndisk - 1 else 0)
  }

  lemma InEntry(p: Proc, a: nat, b: nat)
    requires MetaOk(p) && a < MAX_TOTAL_PAGES && p.meta[a].state == InDisk && b < MAX_TOTAL_PAGES
    ensures EntryOk(p, a) && EntryOk(In(p, a), b)
  {
    assert EntryOk(p, a) && EntryOk(p, b) && Apart(p.meta, a, b);
  }

  /** Moving a page in keeps the metadata, with one slot less in use. */
  lemma InOk(p: Proc, a: nat)
    requires MetaOk(p) && a < MAX_TOTAL_PAGES && p.meta[a].state == InDisk
    ensures EntryOk(p, a) && MetaOk(In(p, a))
  {
    assert EntryOk(p, a);
    var q, e := In(p, a), PageMeta(p.meta[a].id, InMemory, -1);
    forall b: nat | b < MAX_TOTAL_PAGES ensures EntryOk(q, b) {
      InEntry(p, a, b);
    }
    forall b: nat, c: nat | b < MAX_TOTAL_PAGES && c < MAX_TOTAL_PAGES ensures Apart(q.meta, b, c) {
      assert Apart(p.meta, b, c);
    }
    CountSet(p.meta, a, e, InMemory);
    CountSet(p.meta, a, e, InDisk);
    TakenSet(p.avail, p.meta[a].slot, false);
  }

  /** addPageToRam: a record that was not used gets a page. */
  function Added(p: Proc, a: nat, id: nat): Proc
    requires a < |p.meta|
  {
    p.(meta := p.meta[a := PageMeta(id, InMemory, -1)], list := p.list + [a], nram := p.nram + 1)
  }

  lemma AddedOk(p: Proc, a: nat, id: nat)
    requires MetaOk(p) && a < MAX_TOTAL_PAGES && p.meta[a].state == NotUsed
    requires forall b: nat | b < MAX_TOTAL_PAGES :: p.meta[b].id != id
    ensures MetaOk(Added(p, a, id))
  {
    var q, e := Added(p, a, id), PageMeta(id, InMemory, -1);
    assert EntryOk(p, a);
    forall b: nat | b < MAX_TOTAL_PAGES ensures EntryOk(q, b) {
      assert EntryOk(p, b);
    }
    forall b: nat, c: nat | b < MAX_TOTAL_PAGES && c < MAX_TOTAL_PAGES ensures Apart(q.meta, b, c) {
      assert Apart(p.meta, b, c);
    }
    CountSet(p.meta, a, e, InMemory);
    CountSet(p.meta, a, e, InDisk);
  }

  /** A record that is not used. */
  function NoRecord(): PageMeta {
    PageMeta(-1, NotUsed, -1)
  }

  /** The record of a page in the swap file is given up, with its slot. */
  function Forgotten(p: Proc, a: nat): Proc
    requires a < |p.meta| && 0 <= p.meta[a].slot < |p.avail|
  {
    p.(meta := p.meta[a := NoRecord()], avail := p.avail[p.meta[a].slot := false],
       ndisk := if p.ndisk > 0 then p.ndisk - 1 else 0)
  }

  lemma ForgottenOk(p: Proc, a: nat)
    requires MetaOk(p) && a < MAX_TOTAL_PAGES && p.meta[a].state == InDisk
    ensures EntryOk(p, a) && MetaOk(Forgotten(p, a))
  {
    assert EntryOk(p, a);
    var q := Forgotten(p, a);
    forall b: nat | b < MAX_TOTAL_PAGES ensures EntryOk(q, b) {
      assert EntryOk(p, b) && Apart(p.meta, a, b);
    }
    forall b: nat, c: nat | b < MAX_TOTAL_PAGES && c < MAX_TOTAL_PAGES ensures Apart(q.meta, b, c) {
      assert Apart(p.meta, b, c);
    }
    CountSet(p.meta, a, NoRecord(), InMemory);
    CountSet(p.meta, a, NoRecord(), InDisk);
    TakenSet(p.avail, p.meta[a].slot, false);
  }

  /** deletePage gives up the record of a page in memory, and leaves it in the list of resident pages. */
  function Deleted(p: Proc, a: nat): Proc
    requires a < |p.meta|
  {
    p.(meta := p.meta[a := NoRecord()], nram := if p.nram > 0 then p.nram - 1 else 0)
  }

  /** Records and list then no longer agree, also when a page is brought in from the swap file. */
  lemma DeletedBreaks(p: Proc, a: nat, q: Proc)
    requires MetaOk(p) && a in p.list && a in q.list && |q.meta| == |p.meta| && q.meta[a] == NoRecord()
    ensures !MetaOk(q)
  {
    assert EntryOk(p, a);
    assert |q.avail| == SLOTS && |q.meta| == MAX_TOTAL_PAGES ==> !EntryOk(q, a);
  }

  /** deepCopyProc: the child gets the records, the list and the slots, and a copy of the swap file. The
      copy loop reads at the end of the father's file once, so it appends a page of zeroes. */
  function Copied(p: Proc, zeroes: Page): Proc {
    if p.hasFile && |p.file| < SLOTS then p.(file := p.file + [zeroes]) else p
  }

  lemma CopiedOk(p: Proc, zeroes: Page)
    requires MetaOk(p)
    ensures MetaOk(Copied(p, zeroes))
  {
    var q := Copied(p, zeroes);
    forall a: nat | a < MAX_TOTAL_PAGES ensures EntryOk(q, a) {
      assert EntryOk(p, a);
    }
  }

  // ---------------------------------------------------------------- nothing is ever lacking

  /** At rest one of the 17 slots is free. */
  lemma SlotLeft(p: Proc)
    requires MetaOk(p) && AtRest(p)
    ensures exists s :: 0 <= s < SLOTS && !p.avail[s]
  {
    if forall s | 0 <= s < SLOTS :: p.avail[s] {
      TakenAll(p.avail);
      assert false;
    }
  }

  /** At rest, a process with a page on the disk has pages in memory to swap it with, and its list of
      resident pages does not become empty in between. */
  lemma VictimLeft(p: Proc, a: nat)
    requires MetaOk(p) && AtRest(p) && a < MAX_TOTAL_PAGES && p.meta[a].state == InDisk
    ensures |p.list| >= MAX_PSYC_PAGES - 1 && p.hasFile
  {
    CountSome(p.meta, a);
    assert EntryOk(p, a);
  }

  /** A process with fewer than 32 pages has a record that is not used. */
  lemma RecordLeft(p: Proc)
    requires MetaOk(p) && p.nram + p.ndisk < MAX_TOTAL_PAGES
    ensures exists a: nat :: a < MAX_TOTAL_PAGES && p.meta[a].state == NotUsed
  {
    CountAll(p.meta);
  }
}
