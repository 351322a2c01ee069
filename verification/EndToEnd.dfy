/**
  The memory core, the dispatch structures and the KVM slot table put together: what a guest access
  reaches is what the region tree says, and what KVM maps is the RAM the flat view shows.
 */
module EndToEnd {
  import opened Options
  import opened FlatViews
  import opened Units
  import Rendering
  import Topology
  import D = Dispatch
  import P = PhysMaps
  import K = KvmSlots

  // ----- from the region tree to an access -----

  /** The view lies in the address space of a radix tree of `levels` levels. */
  predicate FitsSpace(view: seq<FlatRange>, levels: nat) {
    forall i :: 0 <= i < |view| ==> 0 <= view[i].addr.start && view[i].addr.End() <= P.Step(levels) * PAGE_SIZE
  }

  /** In a view without mergeable neighbours no range goes on beyond its ends. */
  lemma RangeEnds(view: seq<FlatRange>, i: nat)
    requires Sorted(view) && Maximal(view) && i < |view|
    ensures Owner(view, view[i].addr.End()) != Some(CellAt(view[i], view[i].addr.End()))
    ensures Owner(view, view[i].addr.start - 1) != Some(CellAt(view[i], view[i].addr.start - 1))
  {
    var end, below := view[i].addr.End(), view[i].addr.start - 1;
    if Owner(view, end).Some? {
      var j := OwnerIndex(view, end);
      assert i + 1 < |view| && view[i + 1].addr.size > 0;
      assert !CanMerge(view[i], view[i + 1]);
    }
    if Owner(view, below).Some? {
      var j := OwnerIndex(view, below);
      assert 0 < i && view[i - 1].addr.size > 0;
      assert !CanMerge(view[i - 1], view[i]);
    }
  }

  /** So an address that continues the range of `a` without a break is in the same range. */
  lemma RunIsInRange(view: seq<FlatRange>, i: nat, a: int, b: int)
    requires Sorted(view) && Maximal(view) && i < |view| && view[i].addr.Contains(a)
    requires forall c :: a <= c <= b || b <= c <= a ==> Owner(view, c) == Some(CellAt(view[i], c))
    ensures view[i].addr.Contains(b)
  {
    RangeEnds(view, i);
  }

  function PageOf(a: int): int { a - a % PAGE_SIZE }

  /** The whole page of `a` resolves to one stretch of the region of `c`, at a page boundary of it. */
  ghost predicate PageResolvesTo(h: Rendering.Heap, rank: Rendering.Rank, root: Option<RegionId>, a: int, c: Cell)
    requires Rendering.WellFormed(h, rank) && (root.Some? ==> root.value in h)
  {
    && (c.offset - a) % PAGE_SIZE == 0
    && forall b :: PageOf(a) <= b < PageOf(a) + PAGE_SIZE ==>
      Rendering.ResolveRoot(h, rank, root, b) == Some(c.(offset := c.offset + (b - a)))
  }

  /** A page is filed whole exactly if the tree resolves it as one aligned stretch. */
  lemma WholePageIsPointwise(h: Rendering.Heap, rank: Rendering.Rank, root: Option<RegionId>, view: seq<FlatRange>,
                             i: nat, a: int)
    requires Rendering.WellFormed(h, rank) && (root.Some? ==> root.value in h)
    requires Rendering.IsRendering(h, rank, root, view) && i < |view| && view[i].addr.Contains(a)
    ensures D.WholePage(D.SectionOf(view[i]), a) <==> PageResolvesTo(h, rank, root, a, CellAt(view[i], a))
  {
    var page := PageOf(a);
    var last := page + PAGE_SIZE - 1;
    var c := CellAt(view[i], a);
    if D.WholePage(D.SectionOf(view[i]), a) {
      forall b | page <= b < page + PAGE_SIZE
        ensures Rendering.ResolveRoot(h, rank, root, b) == Some(c.(offset := c.offset + (b - a)))
      {
        OwnerIs(view, i, b);
      }
    }
    if PageResolvesTo(h, rank, root, a, c) {
      forall b | page <= b < page + PAGE_SIZE ensures Owner(view, b) == Some(CellAt(view[i], b)) {
        assert Rendering.ResolveRoot(h, rank, root, b) == Some(c.(offset := c.offset + (b - a)));
      }
      RunIsInRange(view, i, a, page);
      RunIsInRange(view, i, a, last);
    }
  }

  /** Where an access must end up: the region and the offset that the visibility rules give, and unassigned
      memory where they give none.  RAM is reached through the sub-page stand-in exactly if its page does
      not resolve as one aligned stretch. */
  ghost predicate HitResolves(h: Rendering.Heap, rank: Rendering.Rank, root: Option<RegionId>, ram: set<RegionId>,
                              a: int, hit: D.Hit)
    requires Rendering.WellFormed(h, rank) && (root.Some? ==> root.value in h)
  {
    var c := Rendering.ResolveRoot(h, rank, root, a);
    if c.None? then hit == D.Hit(D.Unassigned, a)
    else
      var standIn := c.value.mr in ram && !PageResolvesTo(h, rank, root, a, c.value);
      hit == D.Hit(if standIn then D.SubpageRam else D.Region(c.value.mr), c.value.offset)
  }

  /** Render the tree, file every range, then access an address.  There is a result unless the nodes of the radix
      tree run out. */
  method AccessResolves(h: Rendering.Heap, ghost rank: Rendering.Rank, root: Option<RegionId>, levels: nat,
                        ram: set<RegionId>, a: nat)
    returns (hit: Option<D.Hit>)
    requires Rendering.WellFormed(h, rank) && (root.Some? ==> root.value in h)
    requires levels > 0 && a < P.Step(levels) * PAGE_SIZE
    requires forall v :: Rendering.IsRendering(h, rank, root, v) ==> FitsSpace(v, levels)
    ensures hit.Some? ==> HitResolves(h, rank, root, ram, a, hit.value)
    ensures (forall v :: Rendering.IsRendering(h, rank, root, v) ==> D.TotalCost(2 * levels - 1, v) <= P.NODE_NIL) ==>
      hit.Some?
  {
    var view := Rendering.GenerateTopology(h, rank, root);
    assert Owner(view, a) == Rendering.ResolveRoot(h, rank, root, a);
    hit := D.BuildAndAccess(levels, ram, view, a);
    if Owner(view, a).Some? {
      ghost var i := OwnerIndex(view, a);
      WholePageIsPointwise(h, rank, root, view, i, a);
    }
  }

  // ----- from the flat view to KVM -----

  /** The section a listener is given for a range; `hosts` says where the memory of each RAM region is. */
  function SectionFor(hosts: map<RegionId, int>, fr: FlatRange): K.MemSection {
    var host := if fr.mr in hosts then hosts[fr.mr] else 0;
    K.MemSection(fr.addr.start, fr.addr.size, host + fr.offset, fr.mr in hosts, fr.dirtyLogMask != 0)
  }

  /** The range maps address `a` for KVM: it is RAM and `a` is in its whole pages. */
  predicate Maps(hosts: map<RegionId, int>, fr: FlatRange, a: int) {
    var e := K.Effective(SectionFor(hosts, fr));
    fr.mr in hosts && e.Some? && e.value.Contains(a)
  }

  function HostAt(hosts: map<RegionId, int>, fr: FlatRange, a: int): int
    requires fr.mr in hosts
  {
    hosts[fr.mr] + fr.offset + (a - fr.addr.start)
  }

  /** RAM does not reach the last byte of the address space. */
  predicate InLimits(hosts: map<RegionId, int>, fr: FlatRange) {
    0 <= fr.addr.start && 0 < fr.addr.size && (fr.mr in hosts ==> fr.addr.End() < TWO_TO_THE_64)
  }

  /** The slots map exactly what the held ranges map. */
  ghost predicate Mirrors(slots: seq<K.Slot>, hosts: map<RegionId, int>, held: set<FlatRange>) {
    && (forall fr, a :: fr in held && Maps(hosts, fr, a) ==> K.Host(slots, a) == Some(HostAt(hosts, fr, a)))
    && (forall a :: (forall fr :: fr in held ==> !Maps(hosts, fr, a)) ==> K.Host(slots, a) == None)
  }

  /** Logging does not change what a range maps. */
  lemma MapsKey(hosts: map<RegionId, int>, fr: FlatRange, a: int)
    ensures Maps(hosts, fr, a) == Maps(hosts, Topology.Key(fr), a)
    ensures Maps(hosts, fr, a) ==> HostAt(hosts, fr, a) == HostAt(hosts, Topology.Key(fr), a)
  {
  }

  lemma MapsInside(hosts: map<RegionId, int>, fr: FlatRange, a: int)
    requires InLimits(hosts, fr) && Maps(hosts, fr, a)
    ensures fr.addr.Contains(a)
  {
    K.EffectiveInside(SectionFor(hosts, fr));
  }

  /** Ranges that do not meet map no address twice. */
  lemma MapsOnce(hosts: map<RegionId, int>, x: FlatRange, y: FlatRange, a: int)
    requires InLimits(hosts, x) && InLimits(hosts, y) && !x.addr.Intersects(y.addr)
    ensures !(Maps(hosts, x, a) && Maps(hosts, y, a))
  {
    if Maps(hosts, x, a) && Maps(hosts, y, a) {
      MapsInside(hosts, x, a);
      MapsInside(hosts, y, a);
    }
  }

  /** What kvm_region_add or kvm_region_del makes of the map. */
  ghost predicate Changed(was: seq<K.Slot>, slots: seq<K.Slot>, hosts: map<RegionId, int>, fr: FlatRange, add: bool) {
    forall a :: K.Host(slots, a) ==
      if !Maps(hosts, fr, a) then K.Host(was, a) else if add then Some(HostAt(hosts, fr, a)) else None
  }

  lemma MirrorsDel(was: seq<K.Slot>, slots: seq<K.Slot>, hosts: map<RegionId, int>, held: set<FlatRange>, fr: FlatRange)
    requires Mirrors(was, hosts, held) && Changed(was, slots, hosts, fr, false) && Topology.Key(fr) in held
    requires Topology.NoOverlap(held) && forall x :: x in held ==> InLimits(hosts, x)
    ensures Mirrors(slots, hosts, held - {Topology.Key(fr)})
  {
    var k := Topology.Key(fr);
    forall x, a | x in held - {k} && Maps(hosts, x, a) ensures K.Host(slots, a) == Some(HostAt(hosts, x, a)) {
      MapsOnce(hosts, x, k, a);
      MapsKey(hosts, fr, a);
    }
    forall a | forall x :: x in held - {k} ==> !Maps(hosts, x, a) ensures K.Host(slots, a) == None {
      MapsKey(hosts, fr, a);
      if !Maps(hosts, k, a) {
        assert forall x :: x in held ==> !Maps(hosts, x, a);
      }
    }
  }

  lemma MirrorsAdd(was: seq<K.Slot>, slots: seq<K.Slot>, hosts: map<RegionId, int>, held: set<FlatRange>, fr: FlatRange)
    requires Mirrors(was, hosts, held) && Changed(was, slots, hosts, fr, true) && InLimits(hosts, fr)
    requires (forall x :: x in held ==> InLimits(hosts, x) && !x.addr.Intersects(fr.addr))
    ensures Mirrors(slots, hosts, held + {Topology.Key(fr)})
  {
    var k := Topology.Key(fr);
    forall x, a | x in held + {k} && Maps(hosts, x, a) ensures K.Host(slots, a) == Some(HostAt(hosts, x, a)) {
      MapsKey(hosts, fr, a);
      if x != k {
        MapsOnce(hosts, x, fr, a);
      }
    }
    forall a | forall x :: x in held + {k} ==> !Maps(hosts, x, a) ensures K.Host(slots, a) == None {
      MapsKey(hosts, fr, a);
      assert !Maps(hosts, k, a);
      assert forall x :: x in held ==> !Maps(hosts, x, a);
    }
  }

  /** kvm_region_add and kvm_region_del; they fail only when KVM needs a slot and none is free. */
  method SetRange(kvm: K.KvmState, hosts: map<RegionId, int>, fr: FlatRange, add: bool) returns (ok: bool)
    requires kvm.Valid() && InLimits(hosts, fr)
    modifies kvm, kvm.slots
    ensures kvm.Valid() && (ok ==> Changed(old(kvm.slots[..]), kvm.slots[..], hosts, fr, add))
    ensures ok && add ==> forall s, a ::
      s in kvm.slots[..] && s.Contains(a) && Maps(hosts, fr, a) ==> s.log == (fr.dirtyLogMask != 0)
    ensures !ok ==> K.LiveCount(kvm.slots[..]) == K.SLOT_COUNT
    ensures old(K.LiveCount(kvm.slots[..])) + (if add then 2 else 1) <= K.SLOT_COUNT ==> ok
  {
    ok := kvm.SetPhysMem(SectionFor(hosts, fr), add);
  }

  /** Free slots that suffice for an event. */
  function SlotsFor(e: Topology.Event): nat { if e.RegionAdd? then 2 else if e.RegionDel? then 1 else 0 }

  /** One event of the topology update, as KVM hears it.  Nothing is mapped anew for a range that stays. */
  method HearEvent(kvm: K.KvmState, hosts: map<RegionId, int>, e: Topology.Event, ghost l: Topology.Listener)
    returns (ok: bool)
    requires kvm.Valid() && Mirrors(kvm.slots[..], hosts, l.held) && Topology.NoOverlap(l.held)
    requires Topology.Hear(l, e).Some?
    requires (forall x :: x in l.held ==> InLimits(hosts, x)) && InLimits(hosts, e.fr)
    modifies kvm, kvm.slots
    ensures kvm.Valid() && (ok ==> Mirrors(kvm.slots[..], hosts, Topology.Hear(l, e).value.held))
    ensures Topology.NoOverlap(Topology.Hear(l, e).value.held)
    ensures forall x :: x in Topology.Hear(l, e).value.held ==> InLimits(hosts, x)
    ensures !ok ==> K.LiveCount(kvm.slots[..]) == K.SLOT_COUNT
    ensures old(K.LiveCount(kvm.slots[..])) + SlotsFor(e) <= K.SLOT_COUNT ==> ok
  {
    ghost var was := kvm.slots[..];
    K.CountBound(was, 0, TWO_TO_THE_64);
    ok := true;
    match e
    case RegionDel(fr) =>
      ok := SetRange(kvm, hosts, fr, false);
      if ok {
        MirrorsDel(was, kvm.slots[..], hosts, l.held, fr);
      }
    case RegionAdd(fr) =>
      ok := SetRange(kvm, hosts, fr, true);
      if ok {
        MirrorsAdd(was, kvm.slots[..], hosts, l.held, fr);
      }
    case RegionNop(_) =>
    case LogStart(_) =>
    case LogStop(_) =>
  }

  predicate AllInLimits(hosts: map<RegionId, int>, view: seq<FlatRange>) {
    forall i :: 0 <= i < |view| ==> InLimits(hosts, view[i])
  }

  lemma {:induction false} DelsInLimits(hosts: map<RegionId, int>, before: seq<FlatRange>, after: seq<FlatRange>)
    requires AllInLimits(hosts, before)
    ensures forall i :: 0 <= i < |Topology.Dels(before, after)| ==> InLimits(hosts, Topology.Dels(before, after)[i].fr)
  {
    if before != [] {
      DelsInLimits(hosts, before[1..], after);
    }
  }

  lemma {:induction false} AddsInLimits(hosts: map<RegionId, int>, before: seq<FlatRange>, after: seq<FlatRange>)
    requires AllInLimits(hosts, after)
    ensures forall i :: 0 <= i < |Topology.Adds(before, after)| ==> InLimits(hosts, Topology.Adds(before, after)[i].fr)
  {
    if after != [] {
      AddsInLimits(hosts, before, after[1..]);
    }
  }

  /** What the slots say about an address, in terms of the view itself. */
  lemma MirrorsView(slots: seq<K.Slot>, hosts: map<RegionId, int>, view: seq<FlatRange>, i: nat, a: int)
    requires Sorted(view) && AllInLimits(hosts, view) && Mirrors(slots, hosts, Topology.Keys(view)) && i < |view|
    requires view[i].addr.Contains(a)
    ensures K.Host(slots, a) == if Maps(hosts, view[i], a) then Some(HostAt(hosts, view[i], a)) else None
  {
    MapsKey(hosts, view[i], a);
    if Maps(hosts, view[i], a) {
      assert Topology.Key(view[i]) in Topology.Keys(view);
    } else {
      forall x | x in Topology.Keys(view) ensures !Maps(hosts, x, a) {
        var j :| 0 <= j < |view| && Topology.Key(view[j]) == x;
        MapsKey(hosts, view[j], a);
        if j != i {
          Topology.KeysDistinct(view, i, j);
          if Maps(hosts, view[j], a) {
            MapsInside(hosts, view[j], a);
          }
        }
      }
    }
  }

  /** Any topology update, as KVM follows it: when it is over, the slots map exactly the RAM of the new view.
      It fails only when KVM needs a slot and every slot is in use, where the source aborts. */
  method FollowUpdate(kvm: K.KvmState, hosts: map<RegionId, int>, before: seq<FlatRange>, after: seq<FlatRange>)
    returns (ok: bool)
    requires kvm.Valid() && Sorted(before) && Sorted(after) && AllInLimits(hosts, before) && AllInLimits(hosts, after)
    requires Mirrors(kvm.slots[..], hosts, Topology.Keys(before))
    modifies kvm, kvm.slots
    ensures kvm.Valid()
    ensures ok ==> Mirrors(kvm.slots[..], hosts, Topology.Keys(after))
    ensures !ok ==> K.LiveCount(kvm.slots[..]) == K.SLOT_COUNT
  {
    var events := Topology.UpdateTopology(before, after);
    ghost var l, end := Topology.Listener(Topology.Keys(before), Topology.Logged(before)),
      Topology.Listener(Topology.Keys(after), Topology.Logged(after));
    DelsInLimits(hosts, before, after);
    AddsInLimits(hosts, before, after);
    Topology.SortedKeysDontOverlap(before);
    var i := 0;
    assert events[0..] == events;
    while i < |events|
      invariant 0 <= i <= |events| && kvm.Valid() && Mirrors(kvm.slots[..], hosts, l.held) && Topology.NoOverlap(l.held)
      invariant Topology.HearAll(l, events[i..]) == Some(end) && forall x :: x in l.held ==> InLimits(hosts, x)
    {
      assert events[i..][0] == events[i] && events[i..][1..] == events[i + 1..];
      ok := HearEvent(kvm, hosts, events[i], l);
      if !ok {
        return;
      }
      l := Topology.Hear(l, events[i]).value;
      i := i + 1;
    }
    ok := true;
  }
}
