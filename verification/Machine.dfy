/**
  A machine: the memory core with the two listeners of its first address space, the dispatch tables and KVM.
  Whatever edits are made to the region graph, accesses and slots follow it.
 */
module Machines {
  import opened Options
  import opened FlatViews
  import opened Units
  import opened EndToEnd
  import Rendering
  import Topology
  import Transactions
  import D = Dispatch
  import P = PhysMaps
  import K = KvmSlots

  /** The operations on the region graph.  `rank` witnesses that a new link closes no cycle. */
  datatype Edit =
    | InitRegion(id: RegionId, region: Rendering.Region)
    | InitSpace(root: RegionId)
    | Begin
    | Commit
    | SetLog(mr: RegionId, on: bool, client: nat)
    | SetReadonly(mr: RegionId, on: bool)
    | SetReadable(mr: RegionId, on: bool)
    | SetEnabled(mr: RegionId, on: bool)
    | SetAliasOffset(mr: RegionId, offset: int)
    | Add(mr: RegionId, offset: int, sub: RegionId, rank: Rendering.Rank)
    | AddOverlap(mr: RegionId, offset: int, sub: RegionId, priority: nat, rank: Rendering.Rank)
    | Del(mr: RegionId, sub: RegionId)
    | SetAddress(mr: RegionId, offset: int)

  /** What the source asserts or takes for granted. */
  ghost predicate Allowed(h: Rendering.Heap, depth: nat, e: Edit) {
    match e
    case InitRegion(id, r) => id !in h && Transactions.IsNew(h, r)
    case InitSpace(root) => root in h
    case Begin => true
    case Commit => depth > 0
    case SetLog(mr, _, client) => mr in h && client < 8
    case SetAliasOffset(mr, _) => mr in h && h[mr].alias.Some?
    case Add(mr, offset, sub, rank) => MayAdd(h, mr, offset, sub, rank)
    case AddOverlap(mr, offset, sub, _, rank) => MayAdd(h, mr, offset, sub, rank)
    case Del(mr, sub) => mr in h && sub in h && h[sub].parent == Some(mr)
    case SetAddress(mr, offset) => mr in h && 0 <= offset
    case _ => e.mr in h
  }

  ghost predicate MayAdd(h: Rendering.Heap, mr: RegionId, offset: int, sub: RegionId, rank: Rendering.Rank) {
    && mr in h && sub in h && h[sub].parent.None? && 0 <= offset
    && Rendering.WellFormed(h, rank) && mr in rank && Rendering.Edge(h, rank, mr, sub)
  }

  /** What an edit makes of the graph. */
  ghost predicate IsEdited(h: Rendering.Heap, h': Rendering.Heap, e: Edit)
    requires exists depth :: Allowed(h, depth, e)
  {
    match e
    case InitRegion(id, r) => h' == h[id := r]
    case InitSpace(_) => h' == h
    case Begin => h' == h
    case Commit => h' == h
    case SetLog(mr, on, client) =>
      h' == h[mr := h[mr].(dirtyLogMask := Transactions.WithBit(h[mr].dirtyLogMask, client, on))]
    case SetReadonly(mr, on) => h' == h[mr := h[mr].(readonly := on)]
    case SetReadable(mr, on) => h' == h[mr := h[mr].(readable := on)]
    case SetEnabled(mr, on) => h' == h[mr := h[mr].(enabled := on)]
    case SetAliasOffset(mr, offset) => h' == h[mr := h[mr].(aliasOffset := offset)]
    case Add(mr, offset, sub, _) => IsAttached(h, h', mr, offset, sub, 0, false)
    case AddOverlap(mr, offset, sub, priority, _) => IsAttached(h, h', mr, offset, sub, priority, true)
    case Del(mr, sub) => mr != sub && h' == Transactions.Detach(h, mr, sub)
    case SetAddress(mr, offset) =>
      var r := h[mr];
      if offset == r.addr || r.parent.None? then h' == Transactions.Moved(h, mr, offset)
      else r.parent.value in h && r.parent.value != mr && Transactions.IsReinserted(h, h', r.parent.value, mr, offset)
  }

  ghost predicate IsAttached(h: Rendering.Heap, h': Rendering.Heap, mr: RegionId, offset: int, sub: RegionId,
                             priority: nat, overlap: bool)
    requires mr in h && sub in h
  {
    && mr != sub && (forall i :: 0 <= i < |h[mr].subregions| ==> h[mr].subregions[i] in h)
    && h' == Transactions.Attach(h, mr, offset, sub, priority, overlap)
  }

  function DepthAfter(depth: nat, e: Edit): int {
    if e.Begin? then depth + 1 else if e.Commit? then depth - 1 else depth
  }

  /** Each edit is allowed when its turn comes. */
  ghost predicate AllAllowed(h: Rendering.Heap, depth: nat, edits: seq<Edit>)
    decreases |edits|
  {
    edits == [] ||
    (&& Allowed(h, depth, edits[0])
     && forall m :: IsEdited(h, m, edits[0]) ==> AllAllowed(m, DepthAfter(depth, edits[0]), edits[1..]))
  }

  /** What the edits together make of the graph. */
  ghost predicate AllEdited(h: Rendering.Heap, depth: nat, edits: seq<Edit>, h': Rendering.Heap, depth': nat)
    decreases |edits|
  {
    if edits == [] then h' == h && depth' == depth
    else
      && Allowed(h, depth, edits[0])
      && exists m ::
        IsEdited(h, m, edits[0]) && AllEdited(m, DepthAfter(depth, edits[0]), edits[1..], h', depth')
  }

  /** The region that an edit puts somewhere. */
  function Placing(e: Edit): Option<RegionId> {
    match e
    case Add(_, _, sub, _) => Some(sub)
    case AddOverlap(_, _, sub, _, _) => Some(sub)
    case SetAddress(mr, _) => Some(mr)
    case _ => None
  }

  /** What KVM may map at an address: the host memory of the RAM that the address resolves to, and nothing
      where it resolves to anything else. */
  ghost predicate HostResolves(h: Rendering.Heap, rank: Rendering.Rank, root: Option<RegionId>,
                               hosts: map<RegionId, int>, a: int, host: Option<int>)
    requires Rendering.WellFormed(h, rank) && (root.Some? ==> root.value in h)
  {
    var c := Rendering.ResolveRoot(h, rank, root, a);
    host.Some? ==> c.Some? && c.value.mr in hosts && host.value == hosts[c.value.mr] + c.value.offset
  }

  /** Of each range of RAM in the graph's view KVM maps exactly the registered addresses. */
  ghost predicate HostComplete(h: Rendering.Heap, rank: Rendering.Rank, root: Option<RegionId>,
                               hosts: map<RegionId, int>, a: int, host: Option<int>)
    requires Rendering.WellFormed(h, rank) && (root.Some? ==> root.value in h)
  {
    forall view, fr: FlatRange :: Rendering.IsRendering(h, rank, root, view) && fr in view && fr.addr.Contains(a) ==>
      (host.Some? <==> fr.mr in hosts && Registered(fr, a))
  }

  lemma WantedResolves(h: Rendering.Heap, rank: Rendering.Rank, root: Option<RegionId>, view: seq<FlatRange>,
                       d: D.AddressSpaceDispatch, a: int)
    requires Rendering.WellFormed(h, rank) && (root.Some? ==> root.value in h)
    requires Rendering.IsRendering(h, rank, root, view)
    ensures HitResolves(h, rank, root, d.ram, a, d.Wanted(view, a))
  {
    assert Owner(view, a) == Rendering.ResolveRoot(h, rank, root, a);
    d.WantedIsOwner(view, a);
    if Owner(view, a).Some? {
      var i := OwnerIndex(view, a);
      WholePageIsPointwise(h, rank, root, view, i, a);
    }
  }

  /** The page of `a` is in the range, and start and size of the range are as far past a page boundary.  So a range
      of whole pages is registered, all of it. */
  predicate Registered(fr: FlatRange, a: int) {
    && fr.addr.start % PAGE_SIZE == fr.addr.size % PAGE_SIZE
    && fr.addr.start <= PageOf(a) && PageOf(a) + PAGE_SIZE <= fr.addr.End()
  }

  /** Slots that mirror the view map only what the tree resolves to, and of each range of RAM exactly the registered
      addresses. */
  lemma SlotsResolve(h: Rendering.Heap, rank: Rendering.Rank, root: Option<RegionId>, view: seq<FlatRange>,
                     hosts: map<RegionId, int>, slots: seq<K.Slot>, a: int)
    requires Rendering.WellFormed(h, rank) && (root.Some? ==> root.value in h)
    requires Rendering.IsRendering(h, rank, root, view)
    requires AllInLimits(hosts, view) && Mirrors(slots, hosts, Topology.Keys(view))
    ensures HostResolves(h, rank, root, hosts, a, K.Host(slots, a))
    ensures forall i :: 0 <= i < |view| && view[i].addr.Contains(a) ==>
      (K.Host(slots, a).Some? <==> view[i].mr in hosts && Registered(view[i], a))
  {
    assert Owner(view, a) == Rendering.ResolveRoot(h, rank, root, a);
    if Owner(view, a).None? {
      forall x | x in Topology.Keys(view) ensures !Maps(hosts, x, a) {
        var j :| 0 <= j < |view| && Topology.Key(view[j]) == x;
        NotMapped(view, hosts, j, a);
      }
      forall i | 0 <= i < |view| ensures !view[i].addr.Contains(a) {
        if view[i].addr.Contains(a) {
          OwnerIs(view, i, a);
        }
      }
    } else {
      var i := OwnerIndex(view, a);
      MirrorsView(slots, hosts, view, i, a);
      forall j | 0 <= j < |view| && view[j].addr.Contains(a)
        ensures K.Host(slots, a).Some? <==> view[j].mr in hosts && Registered(view[j], a)
      {
        MirrorsView(slots, hosts, view, j, a);
        K.EffectiveIff(SectionFor(hosts, view[j]), a);
      }
    }
  }

  lemma SlotsComplete(h: Rendering.Heap, rank: Rendering.Rank, root: Option<RegionId>, view: seq<FlatRange>,
                      hosts: map<RegionId, int>, slots: seq<K.Slot>, a: int)
    requires Rendering.WellFormed(h, rank) && (root.Some? ==> root.value in h)
    requires Rendering.IsRendering(h, rank, root, view)
    requires AllInLimits(hosts, view) && Mirrors(slots, hosts, Topology.Keys(view))
    ensures HostComplete(h, rank, root, hosts, a, K.Host(slots, a))
  {
    SlotsResolve(h, rank, root, view, hosts, slots, a);
    forall v, fr: FlatRange | Rendering.IsRendering(h, rank, root, v) && fr in v && fr.addr.Contains(a)
      ensures K.Host(slots, a).Some? <==> fr.mr in hosts && Registered(fr, a)
    {
      Rendering.RenderingIsUnique(h, rank, root, v, view);
    }
  }

  lemma NotMapped(view: seq<FlatRange>, hosts: map<RegionId, int>, j: nat, a: int)
    requires Sorted(view) && AllInLimits(hosts, view) && j < |view| && Owner(view, a).None?
    ensures !Maps(hosts, Topology.Key(view[j]), a)
  {
    MapsKey(hosts, view[j], a);
    if Maps(hosts, view[j], a) {
      MapsInside(hosts, view[j], a);
      OwnerIs(view, j, a);
    }
  }

  /** A container without content shows nothing. */
  lemma EmptyContainer(h: Rendering.Heap, rank: Rendering.Rank, id: RegionId, a: int)
    requires Rendering.WellFormed(h, rank) && id in h
    requires !h[id].terminates && h[id].alias.None? && h[id].subregions == []
    ensures Rendering.ResolveRoot(h, rank, Some(id), a) == None
  {
    assert Rendering.ResolveSubs(h, rank, id, 0, h[id].addr, h[id].readonly, a) == None;
  }

  /** The system memory and its address space. */
  method NewCore(root: Rendering.Region) returns (core: Transactions.MemoryCore)
    requires Transactions.IsNew(map[], root)
    ensures fresh(core) && core.Valid() && core.depth == 0 && core.h == map[0 := root]
    ensures core.spaces == [Transactions.AddressSpace(Some(0), [])]
    ensures !root.terminates && root.alias.None? ==> core.missed == {}
  {
    core := new Transactions.MemoryCore();
    core.InitRegion(0, root);
    if !root.terminates && root.alias.None? {
      forall a ensures Rendering.ResolveRoot(core.h, core.rank, Some(0), a) == None {
        EmptyContainer(core.h, core.rank, 0, a);
      }
    }
    core.InitSpace(0);
  }

  /** The range ends above the dispatch tree, or it is RAM up to the very last byte of the address space. */
  predicate OutOfReach(hosts: map<RegionId, int>, levels: nat, fr: FlatRange) {
    || fr.addr.start < 0
    || fr.addr.End() > P.Step(levels) * PAGE_SIZE
    || (fr.mr in hosts && fr.addr.End() >= TWO_TO_THE_64)
  }

  lemma InReach(view: seq<FlatRange>, hosts: map<RegionId, int>, levels: nat)
    requires Sorted(view)
    ensures (forall fr :: fr in view ==> !OutOfReach(hosts, levels, fr)) <==>
      FitsSpace(view, levels) && AllInLimits(hosts, view)
  {
    if forall fr :: fr in view ==> !OutOfReach(hosts, levels, fr) {
      forall i | 0 <= i < |view|
        ensures view[i].addr.End() <= P.Step(levels) * PAGE_SIZE && InLimits(hosts, view[i])
      {
        assert !OutOfReach(hosts, levels, view[i]);
      }
    }
  }

  class Machine {
    const core: Transactions.MemoryCore
    const kvm: K.KvmState
    /** Where the host keeps the memory of each RAM region. */
    const hosts: map<RegionId, int>
    const levels: nat
    var tables: D.AddressSpaceDispatch
    /** The source has not aborted for want of slots or radix tree nodes, no range has left the address space of
        the tree, and no RAM has reached the last byte of the 64-bit space. */
    var alive: bool

    /** Accesses end where the view says. */
    ghost predicate TablesShow(view: seq<FlatRange>)
      reads this, tables, tables.pages
    {
      && tables.Valid() && tables.ram == hosts.Keys && |tables.hits| == P.Step(levels) * PAGE_SIZE
      && forall a :: 0 <= a < |tables.hits| ==> tables.hits[a] == tables.Wanted(view, a)
    }

    /** The listeners know the view. */
    ghost predicate InStep(view: seq<FlatRange>)
      reads this, kvm, kvm.slots, tables, tables.pages
    {
      && TablesShow(view)
      && kvm.Valid() && Sorted(view) && AllInLimits(hosts, view) && Mirrors(kvm.slots[..], hosts, Topology.Keys(view))
    }

    ghost predicate Valid()
      reads this, core, kvm, kvm.slots, tables, tables.pages
    {
      && levels > 0 && core.Valid() && |core.spaces| > 0 && core.spaces[0].root == Some(0)
      && (alive ==> InStep(core.spaces[0].currentMap))
    }

    /** The reasons to give up. */
    ghost predicate RanOut()
      reads this, core, kvm, kvm.slots, tables, tables.pages
      requires |core.spaces| > 0
    {
      || K.LiveCount(kvm.slots[..]) == K.SLOT_COUNT
      || |tables.pages.nodes| == P.NODE_NIL
      || exists fr :: fr in core.spaces[0].currentMap && OutOfReach(hosts, levels, fr)
    }

    /** memory_map_init: one container as the root of the system memory. */
    constructor (hosts: map<RegionId, int>, levels: nat, root: Rendering.Region)
      requires levels > 0 && Transactions.IsNew(map[], root)
      ensures Valid() && alive && core.depth == 0 && core.h == map[0 := root]
      ensures !root.terminates && root.alias.None? ==> Settled()
      ensures fresh(core) && fresh(kvm) && fresh(kvm.slots)
    {
      var c := NewCore(root);
      core := c;
      kvm := new K.KvmState();
      this.hosts, this.levels, alive := hosts, levels, true;
      tables := new D.AddressSpaceDispatch(levels, hosts.Keys);
    }

    /** The edit moves the root of the system memory without asking for an update that its view needs. */
    ghost predicate MissesIt(e: Edit)
      reads core
      requires core.Valid() && Allowed(core.h, core.depth, e)
    {
      match e
      case Add(mr, offset, sub, _) =>
        !(core.h[mr].enabled && core.h[sub].enabled) && 0 in core.MissedBy(sub, offset)
      case AddOverlap(mr, offset, sub, _, _) =>
        !(core.h[mr].enabled && core.h[sub].enabled) && 0 in core.MissedBy(sub, offset)
      case SetAddress(mr, offset) => !core.MoveSeen(mr, offset) && 0 in core.MissedBy(mr, offset)
      case _ => false
    }

    method Edit(e: Edit)
      requires core.Valid() && |core.spaces| > 0 && Allowed(core.h, core.depth, e)
      modifies core
      ensures core.Valid() && |core.spaces| > 0 && core.spaces[0].root == old(core.spaces[0].root)
      ensures IsEdited(old(core.h), core.h, e) && core.depth == DepthAfter(old(core.depth), e)
      ensures old(0 !in core.missed && !MissesIt(e)) ==> 0 !in core.missed
    {
      match e
      case InitRegion(id, r) => core.InitRegion(id, r);
      case InitSpace(root) => core.InitSpace(root);
      case Begin => core.Begin();
      case Commit => core.Commit();
      case SetLog(mr, on, client) => core.SetLog(mr, on, client);
      case SetReadonly(mr, on) => core.SetReadonly(mr, on);
      case SetReadable(mr, on) => core.RomDeviceSetReadable(mr, on);
      case SetEnabled(mr, on) => core.SetEnabled(mr, on);
      case SetAliasOffset(mr, offset) => core.SetAliasOffset(mr, offset);
      case Add(mr, offset, sub, rank) => core.AddSubregion(mr, offset, sub, rank);
      case AddOverlap(mr, offset, sub, priority, rank) => core.AddSubregionOverlap(mr, offset, sub, priority, rank);
      case Del(mr, sub) => core.DelSubregion(mr, sub);
      case SetAddress(mr, offset) => core.SetAddress(mr, offset);
    }

    /** mem_begin and one mem_add per range of the new view. */
    method Rebuild(view: seq<FlatRange>) returns (ok: bool)
      requires levels > 0 && Sorted(view) && FitsSpace(view, levels)
      modifies this`tables
      ensures fresh(tables) && fresh(tables.pages)
      ensures if ok then TablesShow(view) else |tables.pages.nodes| == P.NODE_NIL
    {
      tables := new D.AddressSpaceDispatch(levels, hosts.Keys);
      ok := tables.AddView(view);
    }

    /** The listeners hear of a new view. */
    method Listen(before: seq<FlatRange>)
      requires levels > 0 && core.Valid() && |core.spaces| > 0 && core.spaces[0].root == Some(0)
      requires alive ==> InStep(before)
      modifies this, kvm, kvm.slots
      ensures Valid() && (old(alive) && !alive ==> RanOut())
    {
      var view := core.spaces[0].currentMap;
      if !alive || view == before {
        return;
      }
      InReach(view, hosts, levels);
      alive := FitsSpace(view, levels) && AllInLimits(hosts, view);
      if alive {
        alive := Rebuild(view);
      }
      if alive {
        alive := FollowUpdate(kvm, hosts, before, view);
      }
    }

    /** Any edit, as the whole machine follows it. */
    method Apply(e: Edit)
      requires Valid() && Allowed(core.h, core.depth, e)
      modifies this, core, kvm, kvm.slots
      ensures Valid() && (old(alive) && !alive ==> RanOut())
      ensures IsEdited(old(core.h), core.h, e) && core.depth == DepthAfter(old(core.depth), e)
      ensures old(0 !in core.missed && !MissesIt(e)) ==> 0 !in core.missed
    {
      var before := core.spaces[0].currentMap;
      Edit(e);
      Listen(before);
    }

    /** The view of the system memory is the rendering of its root: no transaction has an update pending,
        and no move was missed. */
    ghost predicate Settled()
      reads core
    {
      !core.pending && 0 !in core.missed
    }

    /** An access, at any time: it ends where the view of the system memory says, and if the view is settled, where
        the region graph says. */
    method Access(a: nat) returns (hit: D.Hit)
      requires Valid() && alive && a < P.Step(levels) * PAGE_SIZE
      ensures hit == tables.Wanted(core.spaces[0].currentMap, a)
      ensures Settled() ==> HitResolves(core.h, core.rank, Some(0), hosts.Keys, a, hit)
    {
      if Settled() {
        WantedResolves(core.h, core.rank, Some(0), core.spaces[0].currentMap, tables, a);
      }
      hit := tables.Access(a);
    }

    /** What the guest reaches through KVM: the memory the region graph says, or an exit to the access above. */
    lemma Guest(a: int)
      requires Valid() && alive && Settled()
      ensures HostResolves(core.h, core.rank, Some(0), hosts, a, K.Host(kvm.slots[..], a))
      ensures HostComplete(core.h, core.rank, Some(0), hosts, a, K.Host(kvm.slots[..], a))
    {
      SlotsResolve(core.h, core.rank, Some(0), core.spaces[0].currentMap, hosts, kvm.slots[..], a);
      SlotsComplete(core.h, core.rank, Some(0), core.spaces[0].currentMap, hosts, kvm.slots[..], a);
    }

    /** Only an edit that places the root region can be missed. */
    lemma OnlyTheRootIsMissed(e: Edit)
      requires Valid() && Allowed(core.h, core.depth, e) && MissesIt(e)
      ensures Placing(e) == Some(0)
    {
    }

    /** Any run of edits, then an access.  Outside transactions and as long as the machine lives the access ends
        where the graph that the edits made says, and KVM maps what it says, if no edit placed the root region. */
    method Run(edits: seq<Edit>, a: nat) returns (hit: Option<D.Hit>)
      requires Valid() && AllAllowed(core.h, core.depth, edits) && a < P.Step(levels) * PAGE_SIZE
      modifies this, core, kvm, kvm.slots
      ensures Valid() && AllEdited(old(core.h), old(core.depth), edits, core.h, core.depth)
      ensures hit.Some? <==> alive && core.depth == 0
      ensures hit.Some? && old(0 !in core.missed) && (forall e :: e in edits ==> Placing(e) != Some(0)) ==>
        && HitResolves(core.h, core.rank, Some(0), hosts.Keys, a, hit.value)
        && HostResolves(core.h, core.rank, Some(0), hosts, a, K.Host(kvm.slots[..], a))
        && HostComplete(core.h, core.rank, Some(0), hosts, a, K.Host(kvm.slots[..], a))
      decreases |edits|
    {
      if edits == [] {
        hit := None;
        if alive && core.depth == 0 {
          var there := Access(a);
          hit := Some(there);
          if Settled() {
            Guest(a);
          }
        }
      } else {
        if MissesIt(edits[0]) {
          OnlyTheRootIsMissed(edits[0]);
        }
        Apply(edits[0]);
        hit := Run(edits[1..], a);
      }
    }
  }
}
