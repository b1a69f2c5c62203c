/** The ageing counters of NFUA: what the 32-bit counter of a page says about the access samples
    that were taken of it, and what comparing two counters says about two histories.
 */
module Ageing {

  function Pow2(n: nat): (r: nat)
    ensures r >= 1
  {
    if n == 0 then 1 else 2 * Pow2(n - 1)
  }

  /** Sample `j` of a history that is listed newest first; before the first sample there was no access. */
  predicate Sample(h: seq<bool>, j: nat) {
    j < |h| && h[j]
  }

  /** The `w` most recent samples read as a binary number, newest first. */
  function Encode(h: seq<bool>, w: nat): (r: nat)
    ensures r < Pow2(w)
  {
    if w == 0 then 0
    else (if Sample(h, 0) then Pow2(w - 1) else 0) + Encode(if h == [] then [] else h[1..], w - 1)
  }

  /** One update: shift right, then set the top bit if the page was accessed. */
  function Shift(counter: nat, accessed: bool): nat {
    counter / 2 + if accessed then Pow2(31) else 0
  }

  lemma {:induction false} EncodeNothing(w: nat)
    ensures Encode([], w) == 0
  {
    if w > 0 {
      EncodeNothing(w - 1);
    }
  }

  lemma {:induction false} EncodeLast(h: seq<bool>, w: nat)
    requires w > 0
    ensures Encode(h, w) == 2 * Encode(h, w - 1) + if Sample(h, w - 1) then 1 else 0
  {
    if w > 1 {
      var t := if h == [] then [] else h[1..];
      EncodeLast(t, w - 1);
      assert Sample(t, w - 2) == Sample(h, w - 1);
    }
  }

  /** An update makes the counter of a history the counter of the history with the new sample. */
  lemma ShiftIsNewSample(h: seq<bool>, accessed: bool)
    ensures Shift(Encode(h, 32), accessed) == Encode([accessed] + h, 32)
  {
    EncodeLast(h, 32);
    assert ([accessed] + h)[1..] == h;
  }

  /** History `h` is lexicographically less than `g` in the `w` newest samples, first differing at `j`. */
  ghost predicate DiffersAt(h: seq<bool>, g: seq<bool>, w: nat, j: nat) {
    j < w && !Sample(h, j) && Sample(g, j) && forall i: nat | i < j :: Sample(h, i) == Sample(g, i)
  }

  ghost predicate LexLess(h: seq<bool>, g: seq<bool>, w: nat) {
    exists j: nat :: DiffersAt(h, g, w, j)
  }

  lemma {:induction false} LessDiffers(h: seq<bool>, g: seq<bool>, w: nat) returns (j: nat)
    requires Encode(h, w) < Encode(g, w)
    ensures DiffersAt(h, g, w, j)
    decreases w
  {
    var h', g' := if h == [] then [] else h[1..], if g == [] then [] else g[1..];
    if Sample(h, 0) == Sample(g, 0) {
      j := LessDiffers(h', g', w - 1);
      assert forall i: nat :: Sample(h, i + 1) == Sample(h', i) && Sample(g, i + 1) == Sample(g', i);
      j := j + 1;
      forall i: nat | i < j ensures Sample(h, i) == Sample(g, i) {
        if i > 0 {
          assert Sample(h', i - 1) == Sample(g', i - 1);
        }
      }
    } else {
      j := 0;
    }
  }

  lemma {:induction false} DiffersLess(h: seq<bool>, g: seq<bool>, w: nat, j: nat)
    requires DiffersAt(h, g, w, j)
    ensures Encode(h, w) < Encode(g, w)
    decreases w
  {
    var h', g' := if h == [] then [] else h[1..], if g == [] then [] else g[1..];
    if j > 0 {
      assert Sample(h, 0) == Sample(g, 0);
      assert forall i: nat :: Sample(h, i + 1) == Sample(h', i) && Sample(g, i + 1) == Sample(g', i);
      assert Sample(h, j - 1 + 1) == Sample(h', j - 1);
      DiffersLess(h', g', w - 1, j - 1);
    }
  }

  /** Comparing counters is comparing histories, newest sample first. */
  lemma CounterOrder(h: seq<bool>, g: seq<bool>)
    ensures Encode(h, 32) < Encode(g, 32) <==> LexLess(h, g, 32)
  {
    if Encode(h, 32) < Encode(g, 32) {
      var j := LessDiffers(h, g, 32);
    }
    if j: nat :| DiffersAt(h, g, 32, j) {
      DiffersLess(h, g, 32, j);
    }
  }
}
