/** Constants of param.h and its neighbours, and notions that several components share. */
module Common {

  const MAXOPBLOCKS: nat := 10      // blocks that one operation may log
  const LOGSIZE: nat := 30          // MAXOPBLOCKS * 3
  const NBUF: nat := 30             // MAXOPBLOCKS * 3
  const PIPESIZE: nat := 512
  const MAX_PSYC_PAGES: nat := 16
  const MAX_TOTAL_PAGES: nat := 32
  const UINT: nat := 0x1_0000_0000

  datatype Option<T> = None | Some(value: T)

  ghost predicate Distinct(s: seq<nat>) {
    forall i, j | 0 <= i < j < |s| :: s[i] != s[j]
  }

  ghost predicate InRange(n: nat, s: seq<nat>) {
    forall i | 0 <= i < |s| :: s[i] < n
  }

  function Min(a: nat, b: nat): nat {
    if a < b then a else b
  }

  /** The sequence without its element `i`. */
  function Without(s: seq<nat>, i: nat): seq<nat>
    requires i < |s|
  {
    s[..i] + s[i + 1..]
  }

  lemma SubsetCard(a: set<nat>, b: set<nat>)
    requires a <= b
    ensures |a| <= |b|
  {
    assert b == a + (b - a);
  }

  lemma {:induction false} CardBelow(s: set<nat>, n: nat)
    requires forall x | x in s :: x < n
    ensures |s| <= n
  {
    if n > 0 {
      CardBelow(s - {n - 1}, n - 1);
    } else {
      assert s == {};
    }
  }
}
