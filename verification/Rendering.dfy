/**
  Rendering a graph of memory regions into a flat view (memory.c).

  The visibility rules of docs/memory.txt are `At`: which region shows at an offset of a region,
  each offset counted from the region it is in.  `Resolve` follows one absolute address down the
  region graph, with no ranges, clips or views, and gives the same.  `RenderRegion` is the
  range-based algorithm; it agrees with `Resolve` at every address that no earlier range already
  owns.
 */
module Rendering {
  import opened Options
  import opened FlatViews
  import opened Units

  datatype Region = Region(
    parent: Option<RegionId>,
    size: int,
    addr: int,
    enabled: bool,
    terminates: bool,
    readable: bool,
    readonly: bool,
    alias: Option<RegionId>,
    aliasOffset: int,
    priority: nat,
    mayOverlap: bool,
    subregions: seq<RegionId>,
    dirtyLogMask: nat)

  type Heap = map<RegionId, Region>

  /** A witness that the graph of subregions and alias targets is acyclic. */
  type Rank = map<RegionId, nat>

  ghost predicate Edge(h: Heap, rank: Rank, from: RegionId, to: RegionId)
    requires from in rank
  {
    to in h && to in rank && rank[to] < rank[from]
  }

  ghost predicate RegionOk(h: Heap, rank: Rank, r: RegionId)
    requires r in h
  {
    && r in rank
    && h[r].size >= 0
    && (h[r].alias.Some? ==> Edge(h, rank, r, h[r].alias.value))
    && (forall i :: 0 <= i < |h[r].subregions| ==> Edge(h, rank, r, h[r].subregions[i]))
  }

  ghost predicate WellFormed(h: Heap, rank: Rank) {
    forall r {:trigger RegionOk(h, rank, r)} :: r in h ==> RegionOk(h, rank, r)
  }

  function OwnCell(h: Heap, id: RegionId, origin: int, readonly: bool, a: int): Cell
    requires id in h
  {
    Cell(id, a - origin, h[id].dirtyLogMask, h[id].readable, readonly || h[id].readonly)
  }

  /** Which cell answers address `a` in region `id` placed at absolute address `origin`:
      disabled regions and addresses outside the region answer nothing, an alias forwards
      to its target, subregions are asked in list order, and a terminating region answers
      what its subregions leave. */
  ghost function Resolve(h: Heap, rank: Rank, id: RegionId, origin: int, readonly: bool, a: int): Option<Cell>
    requires WellFormed(h, rank) && id in h
    decreases assert RegionOk(h, rank, id); rank[id], |h[id].subregions| + 1
  {
    assert RegionOk(h, rank, id);
    var r := h[id];
    if !r.enabled || !AddrRange(origin, r.size).Contains(a) then None
    else if r.alias.Some? then
      assert Edge(h, rank, id, r.alias.value);
      Resolve(h, rank, r.alias.value, origin - r.aliasOffset, readonly || r.readonly, a)
    else
      OrElse(ResolveSubs(h, rank, id, 0, origin, readonly || r.readonly, a),
             if r.terminates then Some(OwnCell(h, id, origin, readonly, a)) else None)
  }

  /** The first answer among the subregions of `id` from position `k` on. */
  ghost function ResolveSubs(h: Heap, rank: Rank, id: RegionId, k: nat, origin: int, readonly: bool,
                             a: int): Option<Cell>
    requires WellFormed(h, rank) && id in h && k <= |h[id].subregions|
    decreases assert RegionOk(h, rank, id); rank[id], |h[id].subregions| - k
  {
    assert RegionOk(h, rank, id);
    if k == |h[id].subregions| then None
    else
      var sub := h[id].subregions[k];
      assert Edge(h, rank, id, sub);
      OrElse(Resolve(h, rank, sub, origin + h[sub].addr, readonly, a),
             ResolveSubs(h, rank, id, k + 1, origin, readonly, a))
  }

  /** What an address space rooted at `root` answers; addresses are 64 bits wide. */
  ghost function ResolveRoot(h: Heap, rank: Rank, root: Option<RegionId>, a: int): Option<Cell>
    requires WellFormed(h, rank) && (root.Some? ==> root.value in h)
  {
    if root.None? || !(0 <= a < TWO_TO_THE_64) then None
    else Resolve(h, rank, root.value, h[root.value].addr, false, a)
  }

  // ----- the visibility rules, region by region -----

  /** A byte of a region, and whether a read-only region was passed on the way to it. */
  datatype Spot = Spot(mr: RegionId, offset: int, readonly: bool)

  function Through(r: Region, s: Option<Spot>): Option<Spot> {
    if s.Some? then Some(s.value.(readonly := s.value.readonly || r.readonly)) else None
  }

  /** What shows at offset `x` of region `id`.  Nothing outside the region or if it is disabled; an alias shows its
      target from its alias offset on; the first listed child that shows anything wins, asked at the distance from
      where it is placed; then comes the region itself. */
  ghost function At(h: Heap, rank: Rank, id: RegionId, x: int): Option<Spot>
    requires WellFormed(h, rank) && id in h
    decreases assert RegionOk(h, rank, id); rank[id], |h[id].subregions| + 1
  {
    assert RegionOk(h, rank, id);
    var r := h[id];
    if !r.enabled || x < 0 || r.size <= x then None
    else if r.alias.Some? then
      assert Edge(h, rank, id, r.alias.value);
      Through(r, At(h, rank, r.alias.value, r.aliasOffset + x))
    else
      var child := FirstChild(h, rank, id, x, 0);
      if child < |r.subregions| then
        assert Edge(h, rank, id, r.subregions[child]);
        Through(r, At(h, rank, r.subregions[child], x - h[r.subregions[child]].addr))
      else if r.terminates then Some(Spot(id, x, r.readonly))
      else None
  }

  /** The first child, from position `k` on, that shows anything at offset `x`. */
  ghost function FirstChild(h: Heap, rank: Rank, id: RegionId, x: int, k: nat): (child: nat)
    requires WellFormed(h, rank) && id in h && k <= |h[id].subregions|
    ensures k <= child <= |h[id].subregions|
    decreases assert RegionOk(h, rank, id); rank[id], |h[id].subregions| - k
  {
    assert RegionOk(h, rank, id);
    if k == |h[id].subregions| then k
    else
      var sub := h[id].subregions[k];
      assert Edge(h, rank, id, sub);
      if At(h, rank, sub, x - h[sub].addr).Some? then k else FirstChild(h, rank, id, x, k + 1)
  }

  /** The spot as a view shows it. */
  function CellOf(h: Heap, s: Option<Spot>, readonly: bool): Option<Cell>
    requires s.Some? ==> s.value.mr in h
  {
    if s.None? then None
    else
      var m := h[s.value.mr];
      Some(Cell(s.value.mr, s.value.offset, m.dirtyLogMask, m.readable, readonly || s.value.readonly))
  }

  /** Following an absolute address gives what the rules give for its distance from the region's place. */
  lemma {:induction false} ResolveIsAt(h: Heap, rank: Rank, id: RegionId, origin: int, ro: bool, a: int)
    requires WellFormed(h, rank) && id in h
    ensures var s := At(h, rank, id, a - origin);
      (s.Some? ==> s.value.mr in h) && Resolve(h, rank, id, origin, ro, a) == CellOf(h, s, ro)
    decreases assert RegionOk(h, rank, id); rank[id], |h[id].subregions| + 1
  {
    assert RegionOk(h, rank, id);
    var r := h[id];
    if r.enabled && AddrRange(origin, r.size).Contains(a) {
      if r.alias.Some? {
        assert Edge(h, rank, id, r.alias.value);
        ResolveIsAt(h, rank, r.alias.value, origin - r.aliasOffset, ro || r.readonly, a);
        assert a - (origin - r.aliasOffset) == r.aliasOffset + (a - origin);
      } else {
        SubsAreChildren(h, rank, id, 0, origin, ro || r.readonly, a);
      }
    }
  }

  lemma {:induction false} SubsAreChildren(h: Heap, rank: Rank, id: RegionId, k: nat, origin: int, ro: bool, a: int)
    requires WellFormed(h, rank) && id in h && k <= |h[id].subregions|
    ensures var child := FirstChild(h, rank, id, a - origin, k);
      if child == |h[id].subregions| then ResolveSubs(h, rank, id, k, origin, ro, a) == None
      else
        var sub := h[id].subregions[child];
        && sub in h && At(h, rank, sub, a - origin - h[sub].addr).Some?
        && At(h, rank, sub, a - origin - h[sub].addr).value.mr in h
        && ResolveSubs(h, rank, id, k, origin, ro, a) == CellOf(h, At(h, rank, sub, a - origin - h[sub].addr), ro)
    decreases assert RegionOk(h, rank, id); rank[id], |h[id].subregions| - k
  {
    assert RegionOk(h, rank, id);
    if k < |h[id].subregions| {
      var sub := h[id].subregions[k];
      assert Edge(h, rank, id, sub);
      ResolveIsAt(h, rank, sub, origin + h[sub].addr, ro, a);
      assert a - (origin + h[sub].addr) == a - origin - h[sub].addr;
      SubsAreChildren(h, rank, id, k + 1, origin, ro, a);
    }
  }

  /** What shows at address `a` of an address space. */
  ghost function Visible(h: Heap, rank: Rank, root: Option<RegionId>, a: int): Option<Spot>
    requires WellFormed(h, rank) && (root.Some? ==> root.value in h)
  {
    if root.None? || !(0 <= a < TWO_TO_THE_64) then None else At(h, rank, root.value, a - h[root.value].addr)
  }

  lemma ResolveIsVisible(h: Heap, rank: Rank, root: Option<RegionId>, a: int)
    requires WellFormed(h, rank) && (root.Some? ==> root.value in h)
    ensures var s := Visible(h, rank, root, a);
      (s.Some? ==> s.value.mr in h) && ResolveRoot(h, rank, root, a) == CellOf(h, s, false)
  {
    if root.Some? {
      ResolveIsAt(h, rank, root.value, h[root.value].addr, false, a);
    }
  }

  /** The owner of `a` in the view is what shows there. */
  ghost predicate ShowsAt(h: Heap, rank: Rank, root: Option<RegionId>, ranges: seq<FlatRange>, a: int)
    requires WellFormed(h, rank) && (root.Some? ==> root.value in h)
  {
    var s := Visible(h, rank, root, a);
    (s.Some? ==> s.value.mr in h) && Owner(ranges, a) == CellOf(h, s, false)
  }

  /** Child number `i` of `id`, where offset `x` of `id` falls in it. */
  ghost function ChildAt(h: Heap, rank: Rank, id: RegionId, i: nat, x: int): Option<Spot>
    requires WellFormed(h, rank) && id in h && i < |h[id].subregions|
  {
    assert RegionOk(h, rank, id);
    assert Edge(h, rank, id, h[id].subregions[i]);
    At(h, rank, h[id].subregions[i], x - h[h[id].subregions[i]].addr)
  }

  /** The first child that shows anything is found. */
  lemma {:induction false} FirstChildIs(h: Heap, rank: Rank, id: RegionId, x: int, k: nat, j: nat)
    requires WellFormed(h, rank) && id in h && k <= j < |h[id].subregions| && ChildAt(h, rank, id, j, x).Some?
    ensures FirstChild(h, rank, id, x, k) <= j && ChildAt(h, rank, id, FirstChild(h, rank, id, x, k), x).Some?
    ensures (forall i: nat :: k <= i < j ==> ChildAt(h, rank, id, i, x).None?) ==> FirstChild(h, rank, id, x, k) == j
    decreases j - k
  {
    assert RegionOk(h, rank, id);
    assert Edge(h, rank, id, h[id].subregions[k]);
    assert ChildAt(h, rank, id, k, x) == At(h, rank, h[id].subregions[k], x - h[h[id].subregions[k]].addr);
    if k < j {
      FirstChildIs(h, rank, id, x, k + 1, j);
    }
  }

  /** A region without alias shows the first child that shows anything. */
  lemma ShowsFirst(h: Heap, rank: Rank, id: RegionId, x: int, j: nat)
    requires WellFormed(h, rank) && id in h && h[id].enabled && h[id].alias.None? && 0 <= x < h[id].size
    requires j < |h[id].subregions| && ChildAt(h, rank, id, j, x).Some?
    requires forall i: nat :: i < j ==> ChildAt(h, rank, id, i, x).None?
    ensures At(h, rank, id, x) == Through(h[id], ChildAt(h, rank, id, j, x))
  {
    FirstChildIs(h, rank, id, x, 0, j);
  }

  /** An alias of plain memory: offset `x` of the alias is offset `aliasOffset + x` of the memory. */
  lemma AliasShows(h: Heap, rank: Rank, id: RegionId, x: int)
    requires WellFormed(h, rank) && id in h && h[id].enabled && 0 <= x < h[id].size && h[id].alias.Some?
    requires var m := h[id].alias.value; m in h && h[m].enabled && h[m].alias.None? && h[m].subregions == []
    ensures var m := h[id].alias.value;
      At(h, rank, id, x) ==
        if h[m].terminates && 0 <= h[id].aliasOffset + x < h[m].size
        then Some(Spot(m, h[id].aliasOffset + x, h[m].readonly || h[id].readonly)) else None
  {
    assert RegionOk(h, rank, id) && RegionOk(h, rank, h[id].alias.value);
  }

  /** `ranges` is the flat view of `root`: canonical, and right at every address. */
  ghost predicate IsRendering(h: Heap, rank: Rank, root: Option<RegionId>, ranges: seq<FlatRange>)
    requires WellFormed(h, rank) && (root.Some? ==> root.value in h)
  {
    && Sorted(ranges) && Maximal(ranges)
    && forall a :: Owner(ranges, a) == ResolveRoot(h, rank, root, a)
  }

  lemma RenderingIsUnique(h: Heap, rank: Rank, root: Option<RegionId>, v: seq<FlatRange>, w: seq<FlatRange>)
    requires WellFormed(h, rank) && (root.Some? ==> root.value in h)
    requires IsRendering(h, rank, root, v) && IsRendering(h, rank, root, w)
    ensures v == w
  {
    forall a ensures Owner(v, a) == Owner(w, a) {
      assert Owner(v, a) == ResolveRoot(h, rank, root, a);
      assert Owner(w, a) == ResolveRoot(h, rank, root, a);
    }
    MaximalIsUnique(v, w);
  }

  // ----- filling the gaps with the region itself -----

  function Piece(h: Heap, id: RegionId, offset: int, start: int, size: int, readonly: bool): FlatRange
    requires id in h
  {
    FlatRange(id, offset, AddrRange(start, size), h[id].dirtyLogMask, h[id].readable, readonly)
  }

  /** `now` owns what `before` owned, and the region's own cells on the gaps of [lo, hi). */
  ghost predicate Filled(now: seq<FlatRange>, before: seq<FlatRange>, h: Heap, id: RegionId,
                         origin: int, readonly: bool, lo: int, hi: int)
    requires id in h
  {
    forall a :: Owner(now, a) ==
      OrElse(Owner(before, a), if lo <= a < hi then
        Some(Cell(id, a - origin, h[id].dirtyLogMask, h[id].readable, readonly)) else None)
  }

  lemma FillGap(now: seq<FlatRange>, before: seq<FlatRange>, h: Heap, id: RegionId,
                origin: int, readonly: bool, lo: int, base: int, i: nat, size: int)
    requires id in h && lo <= base
    requires Filled(now, before, h, id, origin, readonly, lo, base)
    requires FitsAt(now, i, Piece(h, id, base - origin, base, size, readonly))
    ensures Filled(InsertAt(now, i, Piece(h, id, base - origin, base, size, readonly)),
                   before, h, id, origin, readonly, lo, base + size)
  {
    var fr := Piece(h, id, base - origin, base, size, readonly);
    var next := InsertAt(now, i, fr);
    forall a ensures Owner(next, a) ==
      OrElse(Owner(before, a), if lo <= a < base + size then
        Some(Cell(id, a - origin, h[id].dirtyLogMask, h[id].readable, readonly)) else None)
    {
      InsertOwner(now, i, fr, a);
      assert Owner(now, a) ==
        OrElse(Owner(before, a), if lo <= a < base then
          Some(Cell(id, a - origin, h[id].dirtyLogMask, h[id].readable, readonly)) else None);
    }
  }

  /** Addresses inside an existing range need no new cell. */
  lemma SkipRange(now: seq<FlatRange>, before: seq<FlatRange>, h: Heap, id: RegionId,
                  origin: int, readonly: bool, lo: int, base: int, i: nat, base': int)
    requires id in h && lo <= base <= base' && Sorted(now) && i < |now|
    requires base < base' ==> now[i].addr.start <= base && base' <= now[i].addr.End()
    requires Filled(now, before, h, id, origin, readonly, lo, base)
    ensures Filled(now, before, h, id, origin, readonly, lo, base')
  {
    forall a ensures Owner(now, a) ==
      OrElse(Owner(before, a), if lo <= a < base' then
        Some(Cell(id, a - origin, h[id].dirtyLogMask, h[id].readable, readonly)) else None)
    {
      assert Owner(now, a) ==
        OrElse(Owner(before, a), if lo <= a < base then
          Some(Cell(id, a - origin, h[id].dirtyLogMask, h[id].readable, readonly)) else None);
      if base <= a < base' {
        OwnerIs(now, i, a);
      }
    }
  }

  lemma FitsBetween(v: seq<FlatRange>, i: nat, fr: FlatRange)
    requires Sorted(v) && i <= |v| && fr.addr.size > 0
    requires i > 0 ==> v[i - 1].addr.End() <= fr.addr.start
    requires i < |v| ==> fr.addr.End() <= v[i].addr.start
    ensures FitsAt(v, i, fr)
  {
    forall k | 0 <= k < i ensures v[k].addr.End() <= fr.addr.start {
      assert k == i - 1 || v[k].addr.End() <= v[i - 1].addr.start;
    }
    forall k | i <= k < |v| ensures fr.addr.End() <= v[k].addr.start {
      assert k == i || v[i].addr.End() <= v[k].addr.start;
    }
  }

  /** Insert the piece [base, base + size) of the region at position `i`. */
  method InsertPiece(h: Heap, view: FlatView, ghost before: seq<FlatRange>, mr: RegionId, ghost origin: int,
                     readonly: bool, ghost lo: int, base: int, offset: int, i: nat, size: int)
    requires mr in h && lo <= base && size > 0 && offset == base - origin
    requires Sorted(view.ranges) && i <= |view.ranges|
    requires i > 0 ==> view.ranges[i - 1].addr.End() <= base
    requires i < |view.ranges| ==> base + size <= view.ranges[i].addr.start
    requires Filled(view.ranges, before, h, mr, origin, readonly, lo, base)
    modifies view
    ensures |view.ranges| == |old(view.ranges)| + 1 && Sorted(view.ranges)
    ensures view.ranges[i].addr == AddrRange(base, size)
    ensures i + 1 < |view.ranges| ==> view.ranges[i + 1] == old(view.ranges)[i]
    ensures Filled(view.ranges, before, h, mr, origin, readonly, lo, base + size)
  {
    var fr := Piece(h, mr, offset, base, size, readonly);
    FitsBetween(view.ranges, i, fr);
    FillGap(view.ranges, before, h, mr, origin, readonly, lo, base, i, size);
    InsertSorted(view.ranges, i, fr);
    view.Insert(i, fr);
  }

  /** One iteration of the gap-filling loop of render_memory_region: leave the scan in front
      of a range that ends at or before `base`, otherwise fill the gap before the range and
      step over it. */
  method FillOne(h: Heap, view: FlatView, ghost before: seq<FlatRange>, mr: RegionId, ghost origin: int, readonly: bool,
                 ghost lo: int, base0: int, offset0: int, remain0: int, i0: nat)
    returns (base: int, offset: int, remain: int, i: nat)
    requires mr in h && lo <= base0 && remain0 > 0 && offset0 == base0 - origin
    requires Sorted(view.ranges) && i0 < |view.ranges|
    requires i0 > 0 ==> view.ranges[i0 - 1].addr.End() <= base0
    requires Filled(view.ranges, before, h, mr, origin, readonly, lo, base0)
    modifies view
    ensures Sorted(view.ranges) && i <= |view.ranges|
    ensures base + remain == base0 + remain0 && base >= base0 && offset == base - origin && remain >= 0
    ensures remain != 0 && i > 0 ==> view.ranges[i - 1].addr.End() <= base
    ensures Filled(view.ranges, before, h, mr, origin, readonly, lo, base)
    ensures remain < remain0 || (remain == remain0 && |view.ranges| - i < old(|view.ranges|) - i0)
  {
    base, offset, remain, i := base0, offset0, remain0, i0;
    var r := view.ranges[i].addr;
    if base >= r.End() {
      i := i + 1;
      return;
    }
    if base < r.start {
      var now := if remain <= r.start - base then remain else r.start - base;
      InsertPiece(h, view, before, mr, origin, readonly, lo, base, offset, i, now);
      i := i + 1;
      base := base + now;
      offset := offset + now;
      remain := remain - now;
    }
    var now := (if base + remain <= r.End() then base + remain else r.End()) - base;
    SkipRange(view.ranges, before, h, mr, origin, readonly, lo, base, i, base + now);
    base := base + now;
    offset := offset + now;
    remain := remain - now;
    i := i + 1;
  }

  /** The region itself, rendered into the gaps left inside `clip`. */
  method RenderSelf(h: Heap, view: FlatView, mr: RegionId, origin: int, clip: AddrRange, readonly: bool)
    requires mr in h && clip.size >= 0
    requires Sorted(view.ranges)
    modifies view
    ensures Sorted(view.ranges)
    ensures Filled(view.ranges, old(view.ranges), h, mr, origin, readonly, clip.start, clip.End())
  {
    var offset := clip.start - origin;
    var base := clip.start;
    var remain := clip.size;
    var i := 0;
    ghost var before := view.ranges;
    while i < |view.ranges| && remain != 0
      invariant 0 <= i <= |view.ranges|
      invariant remain >= 0 && clip.start <= base && base + remain == clip.End()
      invariant offset == base - origin
      invariant Sorted(view.ranges)
      invariant remain != 0 && i > 0 ==> view.ranges[i - 1].addr.End() <= base
      invariant Filled(view.ranges, before, h, mr, origin, readonly, clip.start, base)
      decreases remain, |view.ranges| - i
    {
      base, offset, remain, i := FillOne(h, view, before, mr, origin, readonly, clip.start, base, offset, remain, i);
    }
    if remain != 0 {
      InsertPiece(h, view, before, mr, origin, readonly, clip.start, base, offset, i, remain);
    }
  }

  // ----- the recursion -----

  lemma CommonAddresses(r: AddrRange, clip: AddrRange)
    requires r.size >= 0 && clip.size >= 0
    ensures forall a :: r.Contains(a) && clip.Contains(a) <==> r.Intersects(clip) && r.Intersection(clip).Contains(a)
    ensures r.Intersects(clip) ==> r.Intersection(clip).size >= 0
  {
    forall a ensures r.Contains(a) && clip.Contains(a) <==> r.Intersects(clip) && r.Intersection(clip).Contains(a) {
      IntersectionIsPointwise(r, clip, a);
    }
  }

  /** render_memory_region: ranges already in `view` win; elsewhere inside `clip` the view
      gains exactly what `Resolve` answers. */
  method RenderRegion(h: Heap, ghost rank: Rank, view: FlatView, mr: RegionId, base: int, clip: AddrRange,
                      readonly: bool)
    requires WellFormed(h, rank) && mr in h && clip.size >= 0
    requires Sorted(view.ranges)
    modifies view
    ensures Sorted(view.ranges)
    ensures forall a ::
      Owner(view.ranges, a) == OrElse(Owner(old(view.ranges), a),
        if clip.Contains(a) then Resolve(h, rank, mr, base + h[mr].addr, readonly, a) else None)
    decreases assert RegionOk(h, rank, mr); rank[mr]
  {
    assert RegionOk(h, rank, mr);
    var r := h[mr];
    if !r.enabled {
      return;
    }
    var origin := base + r.addr;
    var ro := readonly || r.readonly;
    var tmp := AddrRange(origin, r.size);
    CommonAddresses(tmp, clip);
    if !tmp.Intersects(clip) {
      return;
    }
    var inner := tmp.Intersection(clip);

    if r.alias.Some? {
      var target := r.alias.value;
      assert Edge(h, rank, mr, target);
      RenderRegion(h, rank, view, target, origin - h[target].addr - r.aliasOffset, inner, ro);
      return;
    }

    ghost var before := view.ranges;
    var k := 0;
    while k < |r.subregions|
      invariant 0 <= k <= |r.subregions|
      invariant Sorted(view.ranges)
      invariant forall a ::
        OrElse(Owner(view.ranges, a), if inner.Contains(a) then ResolveSubs(h, rank, mr, k, origin, ro, a) else None)
        == OrElse(Owner(before, a), if inner.Contains(a) then ResolveSubs(h, rank, mr, 0, origin, ro, a) else None)
    {
      var sub := r.subregions[k];
      assert Edge(h, rank, mr, sub);
      RenderRegion(h, rank, view, sub, origin, inner, ro);
      k := k + 1;
    }
    if r.terminates {
      RenderSelf(h, view, mr, origin, inner, ro);
    }
  }

  /** generate_memory_topology: the canonical flat view of a root region. */
  method GenerateTopology(h: Heap, ghost rank: Rank, root: Option<RegionId>) returns (ranges: seq<FlatRange>)
    requires WellFormed(h, rank) && (root.Some? ==> root.value in h)
    ensures IsRendering(h, rank, root, ranges)
    ensures forall a :: ShowsAt(h, rank, root, ranges, a)
  {
    var view := new FlatView();
    if root.Some? {
      RenderRegion(h, rank, view, root.value, 0, AddrRange(0, TWO_TO_THE_64), false);
    }
    ghost var raw := view.ranges;
    view.Simplify();
    ranges := view.ranges;
    forall a ensures Owner(ranges, a) == ResolveRoot(h, rank, root, a) {
      assert Owner(ranges, a) == Owner(raw, a);
    }
    forall a ensures ShowsAt(h, rank, root, ranges, a) {
      ResolveIsVisible(h, rank, root, a);
    }
  }
}
