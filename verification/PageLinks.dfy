/** The list of resident pages of vm.c: `next` and `prev` are the link fields of a process's page
    records, indexed by record, NIL is the null pointer, and `list` is the order of the records.
 */
module PageLinks {
  import opened Common

  const NIL: int := -1

  function At(list: seq<nat>, k: int): int {
    if 0 <= k < |list| then list[k] else NIL
  }

  ghost predicate Linked(next: seq<int>, prev: seq<int>, list: seq<nat>, k: nat)
    requires |next| == |prev| && InRange(|next|, list) && k < |list|
  {
    next[list[k]] == At(list, k + 1) && prev[list[k]] == At(list, k - 1)
  }

  ghost predicate ListOk(next: seq<int>, prev: seq<int>, head: int, list: seq<nat>) {
    && |next| == |prev|
    && InRange(|next|, list)
    && Distinct(list)
    && head == At(list, 0)
    && (forall k: nat | k < |list| :: Linked(next, prev, list, k))
  }

  /** `s[i := v]`, or `s` when `i` is NIL. */
  function Set(s: seq<int>, i: int, v: int): seq<int>
    requires NIL <= i < |s|
  {
    if i == NIL then s else s[i := v]
  }

  /** The pointers after removePageFromList of position `i`. */
  lemma RemoveOk(next: seq<int>, prev: seq<int>, head: int, list: seq<nat>, i: nat)
    requires ListOk(next, prev, head, list) && i < |list|
    ensures var p := list[i];
            && p < |next| && NIL <= next[p] < |next| && NIL <= prev[p] < |next|
            && (prev[p] == NIL <==> i == 0)
            && ListOk(Set(next, prev[p], next[p])[p := NIL], Set(prev, next[p], prev[p])[p := NIL],
                      if i == 0 then next[p] else head, Without(list, i))
  {
    var p := list[i];
    assert Linked(next, prev, list, i);
    var next' := Set(next, prev[p], next[p])[p := NIL];
    var prev' := Set(prev, next[p], prev[p])[p := NIL];
    var list' := Without(list, i);
    forall k: nat | k < |list'| ensures Linked(next', prev', list', k) {
      assert Linked(next, prev, list, if k < i then k else k + 1);
    }
  }

  /** The pointers after a record that is not in the list was linked in behind the last one. */
  lemma AppendOk(next: seq<int>, prev: seq<int>, head: int, list: seq<nat>, p: nat)
    requires ListOk(next, prev, head, list) && list != [] && p < |next| && p !in list
    ensures var last := list[|list| - 1];
            ListOk(next[last := p][p := NIL], prev[p := last], head, list + [p])
  {
    var last := list[|list| - 1];
    var next', prev', list' := next[last := p][p := NIL], prev[p := last], list + [p];
    forall k: nat | k < |list'| ensures Linked(next', prev', list', k) {
      if k < |list| {
        assert Linked(next, prev, list, k);
      }
    }
  }

  /** The list with positions `i` and `i + 1` exchanged. */
  function Swapped(list: seq<nat>, i: nat): seq<nat>
    requires i + 1 < |list|
  {
    list[i := list[i + 1]][i + 1 := list[i]]
  }

  /** The pointers after the exchange in switchQueueAQ. */
  lemma SwapOk(next: seq<int>, prev: seq<int>, head: int, list: seq<nat>, i: nat)
    requires ListOk(next, prev, head, list) && i + 1 < |list|
    ensures var p, q := list[i], list[i + 1];
            && p < |next| && q < |next| && p != q && next[p] == q && prev[q] == p
            && NIL <= prev[p] < |next| && NIL <= next[q] < |next|
            && (prev[p] == NIL <==> i == 0)
            && ListOk(Set(next[p := next[q]][q := p], prev[p], q), Set(prev[p := q][q := prev[p]], next[q], p),
                      if i == 0 then q else head, Swapped(list, i))
  {
    var p, q := list[i], list[i + 1];
    assert Linked(next, prev, list, i) && Linked(next, prev, list, i + 1);
    var next' := Set(next[p := next[q]][q := p], prev[p], q);
    var prev' := Set(prev[p := q][q := prev[p]], next[q], p);
    var list' := Swapped(list, i);
    forall k: nat | k < |list'| ensures Linked(next', prev', list', k) {
      assert Linked(next, prev, list, k);
    }
  }
}
