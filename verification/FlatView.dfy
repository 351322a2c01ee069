/**
  Address ranges and flattened memory views (memory.c).

  A flat view is a sorted list of non-overlapping ranges.  Its meaning is
  pointwise: `Owner(view, a)` says which region answers address `a`, at which
  offset and with which attributes.  Int128 is modelled as `int`.
 */
module FlatViews {
  import opened Options

  /** Right-biased fallback: `x` where it is defined, `y` elsewhere. */
  function OrElse<T>(x: Option<T>, y: Option<T>): Option<T> {
    if x.Some? then x else y
  }

  // ----- address ranges -----

  datatype AddrRange = AddrRange(start: int, size: int) {
    function End(): int { start + size }

    predicate Contains(a: int) { start <= a < End() }

    predicate Intersects(r: AddrRange) {
      Contains(r.start) || r.Contains(start)
    }

    function Intersection(r: AddrRange): AddrRange {
      var s := if start >= r.start then start else r.start;
      var e := if End() <= r.End() then End() else r.End();
      AddrRange(s, e - s)
    }
  }

  /** For ranges of non-negative size, a common address implies `Intersects`, and the
      intersection has exactly the common addresses. */
  lemma IntersectionIsPointwise(r1: AddrRange, r2: AddrRange, a: int)
    requires r1.size >= 0 && r2.size >= 0
    ensures r1.Contains(a) && r2.Contains(a) ==> r1.Intersects(r2)
    ensures r1.Intersection(r2).Contains(a) <==> r1.Contains(a) && r2.Contains(a)
    ensures r1.Intersects(r2) ==> r1.Intersection(r2).size >= 0
  {
  }

  // ----- flat ranges -----

  /** Identifies a MemoryRegion. */
  type RegionId = nat

  datatype FlatRange = FlatRange(
    mr: RegionId, offset: int, addr: AddrRange, dirtyLogMask: nat, readable: bool, readonly: bool)

  /** What an address resolves to. */
  datatype Cell = Cell(
    mr: RegionId, offset: int, dirtyLogMask: nat, readable: bool, readonly: bool)

  function CellAt(fr: FlatRange, a: int): Cell {
    Cell(fr.mr, fr.offset + (a - fr.addr.start), fr.dirtyLogMask, fr.readable, fr.readonly)
  }

  /** flatrange_equal: the dirty log mask does not take part. */
  predicate FlatRangeEqual(a: FlatRange, b: FlatRange) {
    a.mr == b.mr && a.addr == b.addr && a.offset == b.offset
    && a.readable == b.readable && a.readonly == b.readonly
  }

  predicate CanMerge(r1: FlatRange, r2: FlatRange) {
    r1.addr.End() == r2.addr.start
    && r1.mr == r2.mr
    && r1.offset + r1.addr.size == r2.offset
    && r1.dirtyLogMask == r2.dirtyLogMask
    && r1.readable == r2.readable
    && r1.readonly == r2.readonly
  }

  /** Sorted, pairwise disjoint, every range non-empty. */
  ghost predicate Sorted(view: seq<FlatRange>) {
    && (forall i :: 0 <= i < |view| ==> view[i].addr.size > 0)
    && (forall i, j :: 0 <= i < j < |view| ==> view[i].addr.End() <= view[j].addr.start)
  }

  /** The range that answers `a`: the first that contains it. */
  ghost function Owner(view: seq<FlatRange>, a: int): Option<Cell> {
    if view == [] then None
    else if view[0].addr.Contains(a) then Some(CellAt(view[0], a))
    else Owner(view[1..], a)
  }

  /** No two neighbours can be merged. */
  ghost predicate Maximal(view: seq<FlatRange>) {
    forall i :: 0 < i < |view| ==> !CanMerge(view[i - 1], view[i])
  }

  // ----- reading Owner through an index -----

  lemma {:induction false} OwnerIs(view: seq<FlatRange>, i: nat, a: int)
    requires Sorted(view) && i < |view| && view[i].addr.Contains(a)
    ensures Owner(view, a) == Some(CellAt(view[i], a))
  {
    if i > 0 {
      assert view[0].addr.End() <= view[i].addr.start;
      assert view[1..][i - 1] == view[i];
      OwnerIs(view[1..], i - 1, a);
    }
  }

  lemma {:induction false} OwnerNone(view: seq<FlatRange>, a: int)
    requires forall i :: 0 <= i < |view| ==> !view[i].addr.Contains(a)
    ensures Owner(view, a) == None
  {
    if view != [] {
      forall i | 0 <= i < |view[1..]| ensures !view[1..][i].addr.Contains(a) {
        assert view[1..][i] == view[i + 1];
      }
      OwnerNone(view[1..], a);
    }
  }

  lemma {:induction false} OwnerIndex(view: seq<FlatRange>, a: int) returns (i: nat)
    requires Owner(view, a).Some?
    ensures i < |view| && view[i].addr.Contains(a)
    ensures Owner(view, a) == Some(CellAt(view[i], a))
  {
    if view[0].addr.Contains(a) {
      i := 0;
    } else {
      var k := OwnerIndex(view[1..], a);
      i := k + 1;
    }
  }

  /** Owner depends only on the ranges, not on their order, when they are sorted:
      a prefix/suffix split reads either half. */
  lemma {:induction false} OwnerConcat(v: seq<FlatRange>, w: seq<FlatRange>, a: int)
    ensures Owner(v + w, a) == OrElse(Owner(v, a), Owner(w, a))
  {
    if v == [] {
      assert v + w == w;
    } else {
      assert (v + w)[1..] == v[1..] + w;
      OwnerConcat(v[1..], w, a);
    }
  }

  // ----- inserting a range -----

  ghost function InsertAt(view: seq<FlatRange>, pos: nat, fr: FlatRange): seq<FlatRange>
    requires pos <= |view|
  {
    view[..pos] + [fr] + view[pos..]
  }

  /** `fr` fits, without overlap, just before position `pos`. */
  ghost predicate FitsAt(view: seq<FlatRange>, pos: nat, fr: FlatRange) {
    && pos <= |view| && fr.addr.size > 0
    && (forall i :: 0 <= i < pos ==> view[i].addr.End() <= fr.addr.start)
    && (forall i :: pos <= i < |view| ==> fr.addr.End() <= view[i].addr.start)
  }

  lemma InsertSorted(view: seq<FlatRange>, pos: nat, fr: FlatRange)
    requires Sorted(view) && FitsAt(view, pos, fr)
    ensures Sorted(InsertAt(view, pos, fr))
  {
    var v := InsertAt(view, pos, fr);
    forall i, j | 0 <= i < j < |v|
      ensures v[i].addr.End() <= v[j].addr.start
    {
      if i < pos < j {
        assert view[i].addr.End() <= view[j - 1].addr.start;
      }
    }
  }

  /** Insertion changes ownership exactly on the addresses of the new range, none of which
      was owned before. */
  lemma InsertOwner(view: seq<FlatRange>, pos: nat, fr: FlatRange, a: int)
    requires FitsAt(view, pos, fr)
    ensures Owner(InsertAt(view, pos, fr), a) == if fr.addr.Contains(a) then Some(CellAt(fr, a)) else Owner(view, a)
    ensures fr.addr.Contains(a) ==> Owner(view, a) == None
  {
    var left, right := view[..pos], view[pos..];
    assert view == left + right;
    assert InsertAt(view, pos, fr) == left + ([fr] + right);
    OwnerConcat(left, right, a);
    OwnerConcat(left, [fr] + right, a);
    OwnerConcat([fr], right, a);
    assert [fr][1..] == [];
    if fr.addr.Contains(a) {
      OwnerNone(view, a);
    }
  }

  // ----- the canonical form -----

  ghost predicate SameOwners(v: seq<FlatRange>, w: seq<FlatRange>) {
    forall a :: Owner(v, a) == Owner(w, a)
  }

  lemma HeadStartsFirst(v: seq<FlatRange>, a: int)
    requires Sorted(v) && v != []
    ensures a < v[0].addr.start ==> Owner(v, a) == None
    ensures Owner(v, v[0].addr.start).Some?
  {
    if a < v[0].addr.start {
      OwnerNone(v, a);
    }
    OwnerIs(v, 0, v[0].addr.start);
  }

  /** If the address just after the first range is owned, the second range starts there. */
  lemma NextAdjoins(v: seq<FlatRange>)
    requires Sorted(v) && v != [] && Owner(v, v[0].addr.End()).Some?
    ensures |v| > 1 && v[1].addr.start == v[0].addr.End()
    ensures Owner(v, v[0].addr.End()) == Some(CellAt(v[1], v[1].addr.start))
  {
    var i := OwnerIndex(v, v[0].addr.End());
    assert i >= 1;
    assert forall k :: 0 <= k < i ==> v[k].addr.End() <= v[i].addr.start;
  }

  lemma NonEmptyOwners(v: seq<FlatRange>, w: seq<FlatRange>)
    requires Sorted(v) && SameOwners(v, w) && v != []
    ensures w != [] && Owner(w, v[0].addr.start).Some?
  {
    HeadStartsFirst(v, v[0].addr.start);
    assert Owner(v, v[0].addr.start) == Owner(w, v[0].addr.start);
  }

  /** In a maximal view the first range is as long as ownership allows. */
  lemma HeadNotShorter(v: seq<FlatRange>, w: seq<FlatRange>)
    requires Sorted(v) && Sorted(w) && v != [] && w != []
    requires Maximal(v)
    requires SameOwners(v, w)
    requires v[0].addr.start == w[0].addr.start
    ensures v[0].addr.size >= w[0].addr.size
    ensures CellAt(v[0], v[0].addr.start) == CellAt(w[0], v[0].addr.start)
  {
    var s := v[0].addr.start;
    assert Owner(v, s) == Owner(w, s);
    if v[0].addr.size < w[0].addr.size {
      var e := v[0].addr.End();
      assert Owner(v, e) == Owner(w, e) == Some(CellAt(w[0], e));
      NextAdjoins(v);
      assert CanMerge(v[0], v[1]);
      assert false;
    }
  }

  lemma TailOwner(v: seq<FlatRange>, a: int)
    requires Sorted(v) && v != []
    ensures Owner(v[1..], a) == if v[0].addr.Contains(a) then None else Owner(v, a)
  {
    if v[0].addr.Contains(a) {
      forall i | 0 <= i < |v[1..]| ensures !v[1..][i].addr.Contains(a) {
        assert v[1..][i] == v[i + 1];
      }
      OwnerNone(v[1..], a);
    }
  }

  lemma TailWellFormed(v: seq<FlatRange>)
    requires Sorted(v) && Maximal(v) && v != []
    ensures Sorted(v[1..]) && Maximal(v[1..])
  {
    var t := v[1..];
    assert forall i :: 0 <= i < |t| ==> t[i] == v[i + 1];
    forall i | 0 < i < |t| ensures !CanMerge(t[i - 1], t[i]) {
      assert t[i - 1] == v[i] && t[i] == v[i + 1];
    }
  }

  /** The maximal form of a view is determined by its owners. */
  lemma {:induction false} MaximalIsUnique(v: seq<FlatRange>, w: seq<FlatRange>)
    requires Sorted(v) && Maximal(v) && Sorted(w) && Maximal(w)
    requires SameOwners(v, w)
    ensures v == w
    decreases |v|
  {
    if v == [] {
      if w != [] {
        NonEmptyOwners(w, v);
      }
    } else {
      NonEmptyOwners(v, w);
      NonEmptyOwners(w, v);
      HeadStartsFirst(w, v[0].addr.start);
      HeadStartsFirst(v, w[0].addr.start);
      HeadNotShorter(v, w);
      HeadNotShorter(w, v);
      assert v[0] == w[0];
      TailWellFormed(v);
      TailWellFormed(w);
      forall a ensures Owner(v[1..], a) == Owner(w[1..], a) {
        TailOwner(v, a);
        TailOwner(w, a);
        assert Owner(v, a) == Owner(w, a);
      }
      MaximalIsUnique(v[1..], w[1..]);
      assert v == [v[0]] + v[1..] && w == [w[0]] + w[1..];
    }
  }

  // ----- merging one run of neighbours -----

  function Widen(fr: FlatRange, extra: int): FlatRange {
    fr.(addr := AddrRange(fr.addr.start, fr.addr.size + extra))
  }

  /** `m` stands for the run v[i..j]: same start, same end, same owners. */
  ghost predicate StandsFor(m: FlatRange, v: seq<FlatRange>, i: nat, j: nat)
    requires i < j <= |v|
  {
    && m == Widen(v[i], v[j - 1].addr.End() - v[i].addr.End())
    && m.addr.size > 0
    && m.mr == v[j - 1].mr && m.dirtyLogMask == v[j - 1].dirtyLogMask
    && m.readable == v[j - 1].readable && m.readonly == v[j - 1].readonly
    && m.offset - m.addr.start == v[j - 1].offset - v[j - 1].addr.start
    && SameOwners([m], v[i..j])
  }

  lemma OwnerOne(fr: FlatRange, a: int)
    ensures Owner([fr], a) == if fr.addr.Contains(a) then Some(CellAt(fr, a)) else None
  {
    assert [fr][1..] == [];
  }

  lemma ExtendRun(m: FlatRange, v: seq<FlatRange>, i: nat, j: nat)
    requires i < j < |v| && Sorted(v) && StandsFor(m, v, i, j)
    requires CanMerge(v[j - 1], v[j])
    ensures StandsFor(Widen(m, v[j].addr.size), v, i, j + 1)
  {
    var m' := Widen(m, v[j].addr.size);
    forall a ensures Owner([m'], a) == Owner(v[i..j + 1], a) {
      assert v[i..j + 1] == v[i..j] + [v[j]];
      OwnerConcat(v[i..j], [v[j]], a);
      assert Owner([m], a) == Owner(v[i..j], a);
      OwnerOne(m, a);
      OwnerOne(m', a);
      OwnerOne(v[j], a);
    }
  }

  function ReplaceRun(v: seq<FlatRange>, i: nat, j: nat, m: FlatRange): seq<FlatRange>
    requires i < j <= |v|
  {
    v[..i] + [m] + v[j..]
  }

  lemma ReplaceRunKeepsOwners(v: seq<FlatRange>, i: nat, j: nat, m: FlatRange, a: int)
    requires i < j <= |v| && StandsFor(m, v, i, j)
    ensures Owner(ReplaceRun(v, i, j, m), a) == Owner(v, a)
  {
    assert v == v[..i] + (v[i..j] + v[j..]);
    assert ReplaceRun(v, i, j, m) == v[..i] + ([m] + v[j..]);
    OwnerConcat(v[..i], v[i..j] + v[j..], a);
    OwnerConcat(v[i..j], v[j..], a);
    OwnerConcat(v[..i], [m] + v[j..], a);
    OwnerConcat([m], v[j..], a);
    assert Owner([m], a) == Owner(v[i..j], a);
  }

  lemma ReplaceRunSorted(v: seq<FlatRange>, i: nat, j: nat, m: FlatRange)
    requires i < j <= |v| && Sorted(v) && StandsFor(m, v, i, j)
    ensures Sorted(ReplaceRun(v, i, j, m))
  {
    var w := ReplaceRun(v, i, j, m);
    assert forall k :: 0 <= k < |w| ==> w[k] == if k < i then v[k] else if k == i then m else v[k + (j - i - 1)];
    assert m.addr.End() == v[j - 1].addr.End();
    forall k, l | 0 <= k < l < |w|
      ensures w[k].addr.End() <= w[l].addr.start
    {
      if k == i {
        assert v[j - 1].addr.End() <= v[l + (j - i - 1)].addr.start;
      } else if l == i {
        assert v[k].addr.End() <= v[i].addr.start;
      }
    }
  }

  ghost predicate MaximalUpTo(v: seq<FlatRange>, i: nat) {
    forall k :: 0 < k < |v| && k <= i ==> !CanMerge(v[k - 1], v[k])
  }

  /** One outer step of the simplification. */
  lemma FinishRun(v: seq<FlatRange>, i: nat, j: nat, m: FlatRange, orig: seq<FlatRange>)
    requires i < j <= |v| && Sorted(v) && StandsFor(m, v, i, j)
    requires SameOwners(v, orig) && MaximalUpTo(v, i)
    requires j < |v| ==> !CanMerge(v[j - 1], v[j])
    ensures var w := ReplaceRun(v, i, j, m);
      Sorted(w) && SameOwners(w, orig) && MaximalUpTo(w, i + 1)
  {
    var w := ReplaceRun(v, i, j, m);
    ReplaceRunSorted(v, i, j, m);
    forall a ensures Owner(w, a) == Owner(orig, a) {
      ReplaceRunKeepsOwners(v, i, j, m, a);
      assert Owner(v, a) == Owner(orig, a);
    }
    forall k | 0 < k < |w| && k <= i + 1
      ensures !CanMerge(w[k - 1], w[k])
    {
      assert w[k - 1] == if k == i + 1 then m else v[k - 1];
      assert w[k] == if k == i + 1 then v[j] else if k == i then m else v[k];
    }
  }

  // ----- the mutable view -----

  class FlatView {
    var ranges: seq<FlatRange>

    constructor ()
      ensures ranges == []
    {
      ranges := [];
    }

    /** flatview_insert */
    method Insert(pos: nat, range: FlatRange)
      requires pos <= |ranges|
      modifies this
      ensures ranges == InsertAt(old(ranges), pos, range)
    {
      ranges := ranges[..pos] + [range] + ranges[pos..];
    }

    /** Inner loop of flatview_simplify: widen range `i` over the run that starts there. */
    method MergeRun(i: nat) returns (j: nat)
      requires i < |ranges| && Sorted(ranges)
      modifies this
      ensures i < j <= |ranges| == |old(ranges)|
      ensures StandsFor(ranges[i], old(ranges), i, j)
      ensures ranges == old(ranges)[i := ranges[i]]
      ensures j < |ranges| ==> !CanMerge(old(ranges)[j - 1], old(ranges)[j])
    {
      ghost var v := ranges;
      j := i + 1;
      assert [v[i]] == v[i..j];
      while j < |ranges| && CanMerge(ranges[j - 1], ranges[j])
        invariant i < j <= |v|
        invariant |ranges| == |v|
        invariant StandsFor(ranges[i], v, i, j)
        invariant ranges == v[i := ranges[i]]
        invariant j == i + 1 ==> ranges[i] == v[i]
        decreases |v| - j
      {
        ExtendRun(ranges[i], v, i, j);
        ranges := ranges[i := Widen(ranges[i], ranges[j].addr.size)];
        j := j + 1;
      }
    }

    /** flatview_simplify: merge each run of mergeable neighbours into its first range. */
    method Simplify()
      requires Sorted(ranges)
      modifies this
      ensures Sorted(ranges) && Maximal(ranges)
      ensures SameOwners(ranges, old(ranges))
      ensures old(Maximal(ranges)) ==> ranges == old(ranges)
    {
      var i := 0;
      while i < |ranges|
        invariant i <= |ranges|
        invariant Sorted(ranges)
        invariant SameOwners(ranges, old(ranges))
        invariant MaximalUpTo(ranges, i)
        decreases |ranges| - i
      {
        ghost var v := ranges;
        var j := MergeRun(i);
        ghost var m := ranges[i];
        i := i + 1;
        ranges := ranges[..i] + ranges[j..];
        assert ranges == ReplaceRun(v, i - 1, j, m);
        FinishRun(v, i - 1, j, m, old(ranges));
      }
      if old(Maximal(ranges)) {
        MaximalIsUnique(ranges, old(ranges));
      }
    }
  }
}
