/** The page replacement policies of vm.c and trap.c, on the linked list of resident pages. */
module PagePolicy {
  import opened Common
  import opened PageLinks
  import opened Ageing

  // ---------------------------------------------------------------- the policies on sequences

  function Rotated(s: seq<nat>, k: nat): seq<nat>
    requires k <= |s|
  {
    s[k..] + s[..k]
  }

  lemma RotatedHead(s: seq<nat>, k: nat)
    requires k < |s|
    ensures |Rotated(s, k)| == |s| && Rotated(s, k)[0] == s[k]
  {
  }

  lemma RotatedOnce(s: seq<nat>, k: nat)
    requires k < |s|
    ensures Rotated(s, k)[0] == s[k]
    ensures Rotated(s, k)[1..] + [s[k]] == Rotated(s, if k + 1 == |s| then 0 else k + 1)
  {
  }

  ghost predicate AllUserAccessed(s: seq<nat>, user: seq<bool>, accessed: seq<bool>)
    requires InRange(|user|, s) && |user| == |accessed|
  {
    forall i | 0 <= i < |s| && user[s[i]] :: accessed[s[i]]
  }

  /** Second chance: position `k` is the first user page whose access bit is clear or, when every
      user page was accessed, the first user page. */
  ghost predicate SecondChance(s: seq<nat>, user: seq<bool>, accessed: seq<bool>, k: nat)
    requires InRange(|user|, s) && |user| == |accessed|
  {
    && k < |s| && user[s[k]]
    && if AllUserAccessed(s, user, accessed)
       then forall i | 0 <= i < k :: !user[s[i]]
       else !accessed[s[k]] && forall i | 0 <= i < k && user[s[i]] :: accessed[s[i]]
  }

  /** What second chance means for pages: those that are passed over are not user pages or were accessed, and the
      victim was accessed only if every user page was. There is exactly one such position. */
  lemma SecondChanceIs(s: seq<nat>, user: seq<bool>, accessed: seq<bool>, k: nat, j: nat)
    requires InRange(|user|, s) && |user| == |accessed| && SecondChance(s, user, accessed, k)
    ensures user[s[k]] && forall i | 0 <= i < k :: !user[s[i]] || accessed[s[i]]
    ensures accessed[s[k]] ==> forall i | 0 <= i < |s| && user[s[i]] :: accessed[s[i]]
    ensures accessed[s[k]] ==> forall i | 0 <= i < k :: !user[s[i]]
    ensures SecondChance(s, user, accessed, j) ==> j == k
  {
  }

  /** The access bits when the first `k` pages, or all of them, have been passed over. */
  ghost predicate BitsAfter(s: seq<nat>, user: seq<bool>, before: seq<bool>, after: seq<bool>, all: bool, k: nat)
    requires InRange(|user|, s) && |user| == |before|
  {
    && |after| == |before|
    && (forall i | 0 <= i < |s| :: after[s[i]] == (before[s[i]] && !(user[s[i]] && (all || i < k))))
    && (forall q | 0 <= q < |before| && q !in s :: after[q] == before[q])
  }

  /** The SCFIFO loop has passed over the first `k` pages, `again` for the second time. */
  ghost predicate Turning(s: seq<nat>, user: seq<bool>, before: seq<bool>, now: seq<bool>, again: bool, k: nat)
    requires InRange(|user|, s) && |user| == |before|
  {
    && BitsAfter(s, user, before, now, again, k)
    && k < |s|
    && (forall i | 0 <= i < k && user[s[i]] :: before[s[i]])
    && (again ==> AllUserAccessed(s, user, before) && forall i | 0 <= i < k :: !user[s[i]])
  }

  lemma TurnStart(s: seq<nat>, user: seq<bool>, before: seq<bool>)
    requires InRange(|user|, s) && |user| == |before| && s != []
    ensures Turning(s, user, before, before, false, 0) && Rotated(s, 0) == s
  {
  }

  lemma TurnBits(s: seq<nat>, user: seq<bool>, before: seq<bool>, now: seq<bool>, again: bool, k: nat)
    requires InRange(|user|, s) && |user| == |before| && Distinct(s)
    requires BitsAfter(s, user, before, now, again, k) && k < |s|
    ensures BitsAfter(s, user, before, if user[s[k]] then now[s[k] := false] else now, again, k + 1)
  {
  }

  lemma TurnSeen(s: seq<nat>, user: seq<bool>, before: seq<bool>, now: seq<bool>, again: bool, k: nat)
    requires InRange(|user|, s) && |user| == |before|
    requires BitsAfter(s, user, before, now, again, k) && k < |s| && (!user[s[k]] || now[s[k]])
    ensures user[s[k]] ==> before[s[k]] && !again
  {
  }

  lemma TurnWrap(s: seq<nat>, user: seq<bool>, before: seq<bool>, after: seq<bool>, again: bool)
    requires InRange(|user|, s) && |user| == |before| && BitsAfter(s, user, before, after, again, |s|)
    ensures BitsAfter(s, user, before, after, true, 0)
  {
  }

  lemma TurnStep(s: seq<nat>, user: seq<bool>, before: seq<bool>, now: seq<bool>, again: bool, k: nat)
    requires InRange(|user|, s) && |user| == |before| && Distinct(s)
    requires Turning(s, user, before, now, again, k)
    requires exists i :: 0 <= i < |s| && user[s[i]]
    requires !user[s[k]] || now[s[k]]
    ensures k + 1 == |s| ==> !again
    ensures Turning(s, user, before, if user[s[k]] then now[s[k] := false] else now,
                    again || k + 1 == |s|, if k + 1 == |s| then 0 else k + 1)
  {
    TurnSeen(s, user, before, now, again, k);
    TurnBits(s, user, before, now, again, k);
    hide BitsAfter;
    if k + 1 == |s| {
      TurnWrap(s, user, before, if user[s[k]] then now[s[k] := false] else now, again);
    }
  }

  lemma TurnEnds(s: seq<nat>, user: seq<bool>, before: seq<bool>, now: seq<bool>, again: bool, k: nat)
    requires InRange(|user|, s) && |user| == |before|
    requires Turning(s, user, before, now, again, k) && user[s[k]] && !now[s[k]]
    ensures SecondChance(s, user, before, k)
    ensures BitsAfter(s, user, before, now, AllUserAccessed(s, user, before), k)
  {
  }

  /** Positions `i` and `i + 1` change places: the first was accessed, the second was not. */
  predicate Advances(s: seq<nat>, accessed: seq<bool>, i: int)
    requires forall j | 0 <= j < |s| :: s[j] < |accessed|
  {
    0 <= i < |s| - 1 && accessed[s[i]] && !accessed[s[i + 1]]
  }

  /** All pairs that change places do so at once. */
  function Advanced(s: seq<nat>, accessed: seq<bool>): (r: seq<nat>)
    requires forall j | 0 <= j < |s| :: s[j] < |accessed|
    ensures |r| == |s|
  {
    seq(|s|, i requires 0 <= i < |s| =>
      if Advances(s, accessed, i) then s[i + 1] else if Advances(s, accessed, i - 1) then s[i - 1] else s[i])
  }

  /** What AQ does to each pair of neighbours: an accessed page lets the page behind it pass if that was not
      accessed, and no other page moves. */
  lemma AdvancedExactly(s: seq<nat>, accessed: seq<bool>, i: nat)
    requires (forall j | 0 <= j < |s| :: s[j] < |accessed|) && i < |s|
    ensures i + 1 < |s| && accessed[s[i]] && !accessed[s[i + 1]] ==>
              Advanced(s, accessed)[i] == s[i + 1] && Advanced(s, accessed)[i + 1] == s[i]
    ensures (i + 1 == |s| || accessed[s[i + 1]]) && accessed[s[i]] ==> Advanced(s, accessed)[i] == s[i]
    ensures (i == 0 || !accessed[s[i - 1]]) && !accessed[s[i]] ==> Advanced(s, accessed)[i] == s[i]
  {
  }

  /** SCFIFO only puts the resident pages in another order. */
  lemma RotatedReorders(s: seq<nat>, k: nat)
    requires k <= |s|
    ensures multiset(Rotated(s, k)) == multiset(s)
  {
    assert s == s[..k] + s[k..];
  }

  lemma AdvancedPair(s: seq<nat>, accessed: seq<bool>)
    requires (forall j | 0 <= j < |s| :: s[j] < |accessed|) && |s| >= 2 && Advances(s, accessed, |s| - 2)
    ensures Advanced(s, accessed) == Advanced(s[..|s| - 2], accessed) + [s[|s| - 1], s[|s| - 2]]
  {
  }

  lemma AdvancedOne(s: seq<nat>, accessed: seq<bool>)
    requires (forall j | 0 <= j < |s| :: s[j] < |accessed|) && |s| >= 1 && !Advances(s, accessed, |s| - 2)
    ensures Advanced(s, accessed) == Advanced(s[..|s| - 1], accessed) + [s[|s| - 1]]
  {
  }

  /** AQ only puts the resident pages in another order. */
  lemma {:induction false} AdvancedReorders(s: seq<nat>, accessed: seq<bool>)
    requires forall j | 0 <= j < |s| :: s[j] < |accessed|
    ensures multiset(Advanced(s, accessed)) == multiset(s)
    decreases |s|
  {
    hide Advanced;
    var n := |s|;
    if n >= 2 && Advances(s, accessed, n - 2) {
      AdvancedPair(s, accessed);
      AdvancedReorders(s[..n - 2], accessed);
      assert s == s[..n - 2] + [s[n - 2], s[n - 1]];
      SameEnds(Advanced(s[..n - 2], accessed), s[..n - 2], [s[n - 1], s[n - 2]], [s[n - 2], s[n - 1]]);
    } else if n >= 1 {
      AdvancedOne(s, accessed);
      AdvancedReorders(s[..n - 1], accessed);
      assert s == s[..n - 1] + [s[n - 1]];
      SameEnds(Advanced(s[..n - 1], accessed), s[..n - 1], [s[n - 1]], [s[n - 1]]);
    }
  }

  lemma SameEnds(s: seq<nat>, t: seq<nat>, x: seq<nat>, y: seq<nat>)
    requires multiset(s) == multiset(t) && multiset(x) == multiset(y)
    ensures multiset(s + x) == multiset(t + y)
  {
  }

  /** The access bits once those of all listed pages have been cleared. */
  function Cleared(s: seq<nat>, a: seq<bool>): (r: seq<bool>)
    ensures |r| == |a|
  {
    seq(|a|, q requires 0 <= q < |a| => a[q] && q !in s)
  }

  /** switchQueueAQ has come to position `i`; `done` says that the page there was dealt with. */
  ghost predicate QueueTurning(s: seq<nat>, a: seq<bool>, now: seq<nat>, bits: seq<bool>, i: nat, done: bool)
    requires InRange(|a|, s)
  {
    && |bits| == |a| && |now| == |s| && i < |s|
    && (forall q | 0 <= q < |a| && q !in s :: bits[q] == a[q])
    && var k := if done then i + 1 else i;
       && now == Advanced(s, a)[..k] + s[k..]
       && !Advances(s, a, k - 1)
       && (forall j | k <= j < |s| :: bits[s[j]] == a[s[j]])
       && (forall j | 0 <= j < k :: !bits[now[j]])
  }

  ghost predicate Near(s: seq<nat>, x: nat, i: int) {
    exists j :: i - 1 <= j <= i + 1 && 0 <= j < |s| && s[j] == x
  }

  /** No page moves by more than one place, so the same pages are in the queue. */
  lemma AdvancedNear(s: seq<nat>, a: seq<bool>, i: nat)
    requires InRange(|a|, s) && i < |s|
    ensures Near(Advanced(s, a), s[i], i) && Near(s, Advanced(s, a)[i], i)
  {
    var j := if Advances(s, a, i) then i + 1 else if Advances(s, a, i - 1) then i - 1 else i;
    assert Advanced(s, a)[j] == s[i];
    assert s[j] == Advanced(s, a)[i];
  }

  /** Both pages were accessed: the first loses its bit and stays. */
  lemma QueueStay(s: seq<nat>, a: seq<bool>, now: seq<nat>, bits: seq<bool>, i: nat, done: bool)
    requires InRange(|a|, s) && Distinct(s) && InRange(|a|, now) && i + 1 < |s|
    requires QueueTurning(s, a, now, bits, i, done) && bits[now[i]] && bits[now[i + 1]]
    ensures !done && QueueTurning(s, a, now, bits[now[i] := false], i, true)
  {
  }

  /** The second page was not accessed: the two change places. */
  lemma QueueSwap(s: seq<nat>, a: seq<bool>, now: seq<nat>, bits: seq<bool>, i: nat, done: bool)
    requires InRange(|a|, s) && Distinct(s) && InRange(|a|, now) && i + 1 < |s|
    requires QueueTurning(s, a, now, bits, i, done) && bits[now[i]] && !bits[now[i + 1]]
    ensures !done && QueueTurning(s, a, Swapped(now, i), bits[now[i] := false], i + 1, true)
  {
    assert Advances(s, a, i);
    var d := Advanced(s, a);
    assert Swapped(now, i) == d[..i + 2] + s[i + 2..];
  }

  lemma QueueMove(s: seq<nat>, a: seq<bool>, now: seq<nat>, bits: seq<bool>, i: nat, done: bool)
    requires InRange(|a|, s) && InRange(|a|, now) && i + 1 < |s|
    requires QueueTurning(s, a, now, bits, i, done) && !bits[now[i]]
    ensures QueueTurning(s, a, now, bits, i + 1, false)
  {
    assert now == Advanced(s, a)[..i + 1] + s[i + 1..];
  }

  lemma InRangeNow(s: seq<nat>, a: seq<bool>, now: seq<nat>, bits: seq<bool>, i: nat, done: bool)
    requires InRange(|a|, s) && QueueTurning(s, a, now, bits, i, done)
    ensures |now| == |s| && |bits| == |a|
  {
  }

  lemma QueueEnds(s: seq<nat>, a: seq<bool>, now: seq<nat>, bits: seq<bool>, i: nat, done: bool)
    requires InRange(|a|, s) && i + 1 == |s|
    requires QueueTurning(s, a, now, bits, i, done)
    ensures now == Advanced(s, a) && now[i] < |bits|
    ensures bits[now[i] := false] == Cleared(s, a)
  {
    assert now == Advanced(s, a);
    AdvancedNear(s, a, i);
    forall q | 0 <= q < |bits| && q in s ensures !bits[now[i] := false][q] {
      var k: nat :| k < |s| && s[k] == q;
      AdvancedNear(s, a, k);
      assert Near(now, q, k);
    }
  }

  /** The pages that NFUA compares: the head of the list and the user pages behind it. */
  predicate Candidate(s: seq<nat>, user: seq<bool>, i: nat)
    requires i < |s| && s[i] < |user|
  {
    i == 0 || user[s[i]]
  }

  class PageList {
    var head: int
    const next: array<int>
    const prev: array<int>
    const user: array<bool>       // PTE_U of each page
    const accessed: array<bool>   // PTE_A of each page
    const counter: array<nat>     // shiftCounter of each page
    ghost var list: seq<nat>
    ghost var history: seq<seq<bool>>   // access samples of each page, newest first

    ghost predicate Shape()
      reads this
    {
      && next.Length == prev.Length == user.Length == accessed.Length == counter.Length == MAX_TOTAL_PAGES
      && next != prev && user != accessed && |history| == MAX_TOTAL_PAGES
    }

    ghost predicate Valid()
      reads this, next, prev
    {
      Shape() && ListOk(next[..], prev[..], head, list)
    }

    /** Each counter holds the newest 32 access samples of its page. */
    ghost predicate Aged()
      reads `history, counter
    {
      && counter.Length == |history| == MAX_TOTAL_PAGES
      && (forall p | 0 <= p < MAX_TOTAL_PAGES :: counter[p] == Encode(history[p], 32))
    }

    /** init_meta_data: nothing is resident and nothing was ever sampled. */
    constructor ()
      ensures Valid() && Aged() && list == [] && fresh(next) && fresh(prev) && fresh(accessed) && fresh(counter)
    {
      head, list := NIL, [];
      next := new int[MAX_TOTAL_PAGES](i => NIL);
      prev := new int[MAX_TOTAL_PAGES](i => NIL);
      user := new bool[MAX_TOTAL_PAGES](i => false);
      accessed := new bool[MAX_TOTAL_PAGES](i => false);
      counter := new nat[MAX_TOTAL_PAGES](i => 0);
      history := seq(MAX_TOTAL_PAGES, i => []);
      EncodeNothing(32);
    }

    /** removePageFromList. */
    method RemovePageFromList(p: nat, ghost k: nat)
      requires Valid() && k < |list| && list[k] == p
      modifies `head, `list, next, prev
      ensures Valid() && list == Without(old(list), k)
    {
      ghost var n0: seq<int>, p0: seq<int> := next[..], prev[..];
      RemoveOk(n0, p0, head, list, k);
      var before, after := prev[p], next[p];
      if before == NIL {
        head := after;
        if after != NIL {
          prev[after] := NIL;
        }
      } else {
        next[before] := after;
        if after != NIL {
          prev[after] := before;
        }
      }
      prev[p] := NIL;
      next[p] := NIL;
      list := Without(list, k);
      assert next[..] == Set(n0, before, after)[p := NIL];
      assert prev[..] == Set(p0, after, before)[p := NIL];
    }

    /** The walk to the last page of the list. */
    method Last() returns (p: nat)
      requires Valid() && list != []
      ensures p == list[|list| - 1]
    {
      p := head;
      ghost var k := 0;
      assert Linked(next[..], prev[..], list, 0);
      while next[p] != NIL
        invariant k < |list| && p == list[k] && next[p] == At(list, k + 1)
        decreases |list| - k
      {
        p := next[p];
        k := k + 1;
        assert Linked(next[..], prev[..], list, k);
      }
    }

    /** addPageToList. Into an empty list it falls through to the general case, which then makes the
        page its own predecessor, so the list is well formed afterwards exactly if it was not empty. */
    method AddPageToList(p: nat)
      requires Valid() && p < MAX_TOTAL_PAGES && p !in list
      modifies `head, `list, next, prev
      ensures list == old(list) + [p] && head == list[0]
      ensures Valid() <==> old(list) != []
    {
      ghost var n0: seq<int>, p0: seq<int>, s := next[..], prev[..], list;
      if head == NIL {
        head := p;
        next[p] := NIL;
        prev[p] := NIL;
        list := [p];
      }
      var last := Last();
      next[last] := p;
      prev[p] := last;
      next[p] := NIL;
      list := s + [p];
      if s == [] {
        assert !Linked(next[..], prev[..], list, 0);
      } else {
        AppendOk(n0, p0, head, s, p);
        assert next[..] == n0[last := p][p := NIL];
        assert prev[..] == p0[p := last];
      }
    }

    /** The list and the counter in addPageToRam: a new page is put at the end of the list and starts without
        samples. Into an empty list it leaves the page's predecessor as it is. */
    method AddPageToRam(p: nat)
      requires Valid() && Aged() && p < MAX_TOTAL_PAGES && p !in list
      modifies `head, `list, `history, next, prev, counter
      ensures list == old(list) + [p] && (Valid() <==> old(list) != [] || old(prev[p]) == NIL)
      ensures Aged() && history == old(history)[p := []]
    {
      ghost var n0: seq<int>, p0: seq<int>, s := next[..], prev[..], list;
      if head == NIL {
        head := p;
      } else {
        var last := Last();
        next[last] := p;
        prev[p] := last;
      }
      next[p] := NIL;
      EncodeNothing(32);
      counter[p] := 0;
      history := history[p := []];
      list := list + [p];
      if s == [] {
        assert Valid() <==> Linked(next[..], prev[..], list, 0);
      } else {
        AppendOk(n0, p0, head, s, p);
        assert next[..] == n0[s[|s| - 1] := p][p := NIL];
        assert prev[..] == p0[p := s[|s| - 1]];
      }
    }

    /** The SCFIFO loop of choosePageToSwap. It ends within two passes over the list, the victim is
        the second-chance page, the list is rotated so that the victim is its head, and only user
        pages that were passed over lose their access bit. The list is well formed afterwards unless it
        has a single page that was accessed, which goes through an empty list. */
    method ChooseScfifo() returns (p: nat, ghost k: nat, ghost steps: nat)
      requires Valid() && exists i :: 0 <= i < |list| && user[list[i]]
      modifies `head, `list, next, prev, accessed
      ensures Valid() <==> |old(list)| > 1 || !old(accessed[..])[old(list)[0]]
      ensures SecondChance(old(list), user[..], old(accessed[..]), k) && p == old(list)[k]
      ensures list == Rotated(old(list), k)
      ensures steps < 2 * |list|
      ensures BitsAfter(old(list), user[..], old(accessed[..]), accessed[..],
                        AllUserAccessed(old(list), user[..], old(accessed[..])), k)
    {
      hide ListOk, Rotated, Turning, BitsAfter, SecondChance, AllUserAccessed;
      ghost var s, a0, u := list, accessed[..], user[..];
      ghost var again := false;
      var found := false;
      ListFacts();
      TurnStart(s, u, a0);
      p := head;
      steps, k := 0, 0;
      while !found
        invariant Shape() && k < |s| && p == s[k] && list == Rotated(s, k)
        invariant if |s| == 1 && again then !Valid() && a0[p] && user[p] && !accessed[p] else Valid()
        invariant steps == if again then k + |s| else k
        invariant Turning(s, u, a0, accessed[..], again, k)
        invariant found ==> u[s[k]] && !accessed[s[k]]
        invariant |s| == 1 ==> u[s[0]] && (!again ==> accessed[..] == a0)
        decreases 2 * |s| - steps, !found
      {
        if !user[p] || accessed[p] {
          TurnStep(s, u, a0, accessed[..], again, k);
          RotatedHead(s, k);
          RotatedOnce(s, k);
          PassOver(p);
          RotatedHead(s, if k + 1 == |s| then 0 else k + 1);
          p := head;
          steps, again, k := steps + 1, again || k + 1 == |s|, if k + 1 == |s| then 0 else k + 1;
        } else {
          found := true;
        }
      }
      RotatedHead(s, k);
      TurnEnds(s, u, a0, accessed[..], again, k);
    }

    lemma LinkAt(k: nat)
      requires Valid() && k < |list|
      ensures list[k] < MAX_TOTAL_PAGES && Linked(next[..], prev[..], list, k) && InRange(MAX_TOTAL_PAGES, list)
      ensures k + 1 < |list| ==> list[k + 1] < MAX_TOTAL_PAGES && list[k + 1] != list[k]
    {
    }

    lemma ListFacts()
      requires Valid()
      ensures InRange(MAX_TOTAL_PAGES, list) && Distinct(list) && (list != [] ==> head == list[0])
    {
    }

    /** One turn of the SCFIFO loop that does not end it: a user page loses its access bit, and the
        page goes from the front of the list to its end. */
    method PassOver(p: nat)
      requires Valid() && list != [] && list[0] == p
      modifies `head, `list, next, prev, accessed
      ensures list == old(list)[1..] + [p] && head == list[0] && (Valid() <==> |old(list)| > 1)
      ensures accessed[..] == if user[p] then old(accessed[..])[p := false] else old(accessed[..])
    {
      if user[p] {
        accessed[p] := false;
      }
      RemovePageFromList(p, 0);
      AddPageToList(p);
    }

    /** The pointer exchange in switchQueueAQ: `p` and its successor change places. */
    method Exchange(p: nat, ghost i: nat)
      requires Valid() && i + 1 < |list| && list[i] == p
      modifies `head, `list, next, prev
      ensures Valid() && list == Swapped(old(list), i)
    {
      ghost var n0: seq<int>, p0: seq<int> := next[..], prev[..];
      SwapOk(n0, p0, head, list, i);
      var q := next[p];
      var before, after := prev[p], next[q];
      if before == NIL {
        head := q;
      }
      prev[p] := q;
      next[p] := after;
      prev[q] := before;
      next[q] := p;
      if before != NIL {
        next[before] := q;
      }
      if after != NIL {
        prev[after] := p;
      }
      list := Swapped(list, i);
      assert next[..] == Set(n0[p := after][q := p], before, q);
      assert prev[..] == Set(p0[p := q][q := before], after, p);
    }

    /** One turn of the loop in switchQueueAQ at position `i`. */
    method QueueTurn(p: nat, ghost s: seq<nat>, ghost a: seq<bool>, ghost i: nat, ghost done: bool)
      returns (p': nat, ghost i': nat, ghost done': bool)
      requires Valid() && InRange(|a|, s) && Distinct(s)
      requires QueueTurning(s, a, list, accessed[..], i, done) && i + 1 < |s| && p == list[i]
      modifies `head, `list, next, prev, accessed
      ensures Valid() && QueueTurning(s, a, list, accessed[..], i', done')
      ensures i' < |list| && p' == list[i'] && next[p'] == At(list, i' + 1)
      ensures i < i' || (i == i' && done' && !done)
    {
      hide QueueTurning, ListOk;
      InRangeNow(s, a, list, accessed[..], i, done);
      LinkAt(i);
      p', i', done' := p, i, true;
      ghost var bits := accessed[..];
      if accessed[p] {
        accessed[p] := false;
        assert accessed[..] == bits[p := false];
        var q := next[p];
        if !accessed[q] {
          QueueSwap(s, a, list, bits, i, done);
          Exchange(p, i);
          i' := i + 1;
        } else {
          QueueStay(s, a, list, bits, i, done);
        }
      } else {
        QueueMove(s, a, list, bits, i, done);
        p' := next[p];
        i', done' := i + 1, false;
      }
      LinkAt(i');
    }

    /** switchQueueAQ: all pages that were accessed and whose successor was not move back one place,
        at once, and every access bit of the list is cleared. */
    method SwitchQueueAQ()
      requires Valid()
      modifies `head, `list, next, prev, accessed
      ensures Valid() && list == Advanced(old(list), old(accessed[..]))
      ensures accessed[..] == Cleared(old(list), old(accessed[..]))
    {
      ghost var s, a := list, accessed[..];
      assert s == [] ==> a == Cleared(s, a);
      if head != NIL {
        var p := head;
        ghost var i: nat, done := 0, false;
        assert Linked(next[..], prev[..], list, 0);
        while next[p] != NIL
          invariant Valid() && QueueTurning(s, a, list, accessed[..], i, done)
          invariant p == list[i] && next[p] == At(list, i + 1)
          decreases |s| - i, !done
        {
          p, i, done := QueueTurn(p, s, a, i, done);
        }
        QueueEnds(s, a, list, accessed[..], i, done);
        ClearBit(p);
      }
    }

    method ClearBit(p: nat)
      requires Valid() && p < MAX_TOTAL_PAGES
      modifies accessed
      ensures Valid() && accessed[..] == old(accessed[..])[p := false]
    {
      accessed[p] := false;
    }

    /** One turn of the loop in update_meta_data. */
    method AgePage(p: nat)
      requires Valid() && Aged() && p < MAX_TOTAL_PAGES
      modifies `history, counter, accessed
      ensures Valid() && Aged()
      ensures history == old(history)[p := [old(accessed[p])] + old(history)[p]]
      ensures accessed[..] == old(accessed[..])[p := false]
    {
      ShiftIsNewSample(history[p], accessed[p]);
      history := history[p := [accessed[p]] + history[p]];
      counter[p] := counter[p] / 2;
      if accessed[p] {
        accessed[p] := false;
        counter[p] := counter[p] + Pow2(31);
      }
    }

    /** update_meta_data for NFUA: one new sample for every resident page, and no others. */
    method UpdateCounters()
      requires Valid() && Aged()
      modifies `history, counter, accessed
      ensures Valid() && Aged()
      ensures accessed[..] == Cleared(list, old(accessed[..]))
      ensures forall p | 0 <= p < MAX_TOTAL_PAGES ::
                history[p] == if p in list then [old(accessed[p])] + old(history)[p] else old(history)[p]
    {
      var p := head;
      ghost var k, a, h := 0, accessed[..], history;
      while p != NIL
        invariant Valid() && Aged() && 0 <= k <= |list| && p == At(list, k)
        invariant forall q | 0 <= q < MAX_TOTAL_PAGES :: accessed[q] == (a[q] && q !in list[..k])
        invariant forall q | 0 <= q < MAX_TOTAL_PAGES :: history[q] == if q in list[..k] then [a[q]] + h[q] else h[q]
        decreases |list| - k
      {
        assert Linked(next[..], prev[..], list, k);
        assert list[..k + 1] == list[..k] + [list[k]];
        AgePage(p);
        p := next[p];
        k := k + 1;
      }
      assert list[..k] == list;
    }

    /** Counters of pages compare as their samples do. */
    lemma AgedOrder(q: nat, p: nat)
      requires Shape() && Aged() && q < MAX_TOTAL_PAGES && p < MAX_TOTAL_PAGES
      ensures counter[q] < counter[p] <==> LexLess(history[q], history[p], 32)
      ensures counter[p] < counter[q] <==> LexLess(history[p], history[q], 32)
    {
      CounterOrder(history[q], history[p]);
      CounterOrder(history[p], history[q]);
    }

    /** The NFUA scan of choosePageToSwap: the first page, among the head and the user pages, whose
        samples are lexicographically least, newest sample first. */
    method ChooseNfua() returns (p: nat, ghost k: nat)
      requires Valid() && Aged() && list != []
      ensures k < |list| && p == list[k] && Candidate(list, user[..], k)
      ensures forall i: nat | i < |list| && Candidate(list, user[..], i) ::
                !LexLess(history[list[i]], history[p], 32) && (i < k ==> LexLess(history[p], history[list[i]], 32))
    {
      hide LexLess, ListOk;
      ListFacts();
      LinkAt(0);
      p := head;
      k := 0;
      var q := head;
      ghost var j: nat := 0;
      while next[q] != NIL
        invariant k <= j < |list| && p == list[k] && q == list[j] && next[q] == At(list, j + 1)
        invariant Candidate(list, user[..], k)
        invariant forall i | 0 <= i <= j && Candidate(list, user[..], i) ::
                    counter[p] <= counter[list[i]] && (i < k ==> counter[p] < counter[list[i]])
        decreases |list| - j
      {
        q := next[q];
        j := j + 1;
        LinkAt(j);
        if user[q] && counter[q] < counter[p] {
          p, k := q, j;
        }
      }
      forall i: nat | i < |list| && Candidate(list, user[..], i)
        ensures !LexLess(history[list[i]], history[p], 32) && (i < k ==> LexLess(history[p], history[list[i]], 32))
      {
        AgedOrder(list[i], p);
      }
    }
  }
}
