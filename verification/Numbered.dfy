/** Lists whose elements carry numbers that are never used again. */
module Numbered {
  /** The first place of a number. */
  function Index(ids: seq<nat>, id: nat): (k: nat)
    requires id in ids
    ensures k < |ids| && ids[k] == id
  {
    if ids[0] == id then 0 else 1 + Index(ids[1..], id)
  }

  /** Every number of `ids'` was there before or is new, at least `n`. */
  ghost predicate OnlyNew(ids: seq<nat>, ids': seq<nat>, n: nat) {
    forall id :: id in ids' ==> id in ids || id >= n
  }

  lemma NewTwice(a: seq<nat>, b: seq<nat>, c: seq<nat>, n: nat, m: nat)
    requires OnlyNew(a, b, n) && OnlyNew(b, c, m) && n <= m
    ensures OnlyNew(a, c, n)
  {
  }
}
