/**
  Editing the region graph inside nested transactions (memory.c).

  Every edit opens a transaction, changes the graph, and asks for an update only when the
  change can be seen: edits of a disabled region, or below one, skip it.  The invariant
  `MemoryCore.Valid` says that nothing is lost by this: outside transactions every address
  space holds exactly the rendering of its root.
 */
module Transactions {
  import opened Options
  import opened FlatViews
  import opened Rendering
  import opened Units

  // ----- what a change must touch to be visible -----

  /** The enabled entries of a subregion list, with their offsets. */
  ghost function VisibleSubs(h: Heap, subs: seq<RegionId>): seq<(RegionId, int)> {
    if subs == [] then []
    else (if subs[0] in h && h[subs[0]].enabled then [(subs[0], h[subs[0]].addr)] else []) + VisibleSubs(h, subs[1..])
  }

  ghost predicate SameOwnFields(r: Region, r': Region) {
    && r.size == r'.size && r.terminates == r'.terminates && r.readable == r'.readable
    && r.readonly == r'.readonly && r.alias == r'.alias && r.aliasOffset == r'.aliasOffset
    && r.dirtyLogMask == r'.dirtyLogMask
  }

  /** Region `r` looks the same in both graphs: disabled in both, or enabled in both with the
      same fields and the same visible subregions. */
  ghost predicate SimilarAt(h: Heap, h': Heap, r: RegionId)
    requires r in h && r in h'
  {
    && h[r].enabled == h'[r].enabled
    && (h[r].enabled ==>
        SameOwnFields(h[r], h'[r]) && VisibleSubs(h, h[r].subregions) == VisibleSubs(h', h'[r].subregions))
  }

  /** `h'` may have more regions; those of `h` look the same. */
  ghost predicate Similar(h: Heap, h': Heap) {
    h.Keys <= h'.Keys && forall r {:trigger SimilarAt(h, h', r)} :: r in h ==> SimilarAt(h, h', r)
  }

  /** Similar graphs resolve every address alike; in particular the choice of rank is
      irrelevant. */
  lemma {:induction false} SimilarResolve(h: Heap, rank: Rank, h': Heap, rank': Rank, id: RegionId, origin: int,
                                          ro: bool, a: int)
    requires WellFormed(h, rank) && WellFormed(h', rank') && Similar(h, h')
    requires id in h
    ensures Resolve(h, rank, id, origin, ro, a) == Resolve(h', rank', id, origin, ro, a)
    decreases assert RegionOk(h, rank, id); rank[id], |h[id].subregions| + |h'[id].subregions| + 1
  {
    assert RegionOk(h, rank, id) && RegionOk(h', rank', id);
    assert SimilarAt(h, h', id);
    var r := h[id];
    if r.enabled && AddrRange(origin, r.size).Contains(a) {
      if r.alias.Some? {
        assert Edge(h, rank, id, r.alias.value);
        SimilarResolve(h, rank, h', rank', r.alias.value, origin - r.aliasOffset, ro || r.readonly, a);
      } else {
        assert r.subregions[0..] == r.subregions && h'[id].subregions[0..] == h'[id].subregions;
        SimilarSubs(h, rank, h', rank', id, 0, 0, origin, ro || r.readonly, a);
      }
    }
  }

  lemma {:induction false} SimilarSubs(h: Heap, rank: Rank, h': Heap, rank': Rank, id: RegionId, k: nat, k': nat,
                                       origin: int, ro: bool, a: int)
    requires WellFormed(h, rank) && WellFormed(h', rank') && Similar(h, h')
    requires id in h && k <= |h[id].subregions| && k' <= |h'[id].subregions|
    requires VisibleSubs(h, h[id].subregions[k..]) == VisibleSubs(h', h'[id].subregions[k'..])
    ensures ResolveSubs(h, rank, id, k, origin, ro, a) == ResolveSubs(h', rank', id, k', origin, ro, a)
    decreases assert RegionOk(h, rank, id); rank[id], |h[id].subregions| - k + |h'[id].subregions| - k'
  {
    assert RegionOk(h, rank, id) && RegionOk(h', rank', id);
    var subs, subs' := h[id].subregions, h'[id].subregions;
    if k < |subs| && !h[subs[k]].enabled {
      assert Edge(h, rank, id, subs[k]);
      assert subs[k..][1..] == subs[k + 1..];
      SimilarSubs(h, rank, h', rank', id, k + 1, k', origin, ro, a);
    } else if k' < |subs'| && !h'[subs'[k']].enabled {
      assert Edge(h', rank', id, subs'[k']);
      assert subs'[k'..][1..] == subs'[k' + 1..];
      SimilarSubs(h, rank, h', rank', id, k, k' + 1, origin, ro, a);
    } else if k < |subs| && k' < |subs'| {
      assert Edge(h, rank, id, subs[k]) && Edge(h', rank', id, subs'[k']);
      assert subs[k..][1..] == subs[k + 1..] && subs'[k'..][1..] == subs'[k' + 1..];
      var v, v' := VisibleSubs(h, subs[k..]), VisibleSubs(h', subs'[k'..]);
      assert v[0] == (subs[k], h[subs[k]].addr) && v'[0] == (subs'[k'], h'[subs'[k']].addr);
      assert v[1..] == VisibleSubs(h, subs[k + 1..]) && v'[1..] == VisibleSubs(h', subs'[k' + 1..]);
      SimilarResolve(h, rank, h', rank', subs[k], origin + h[subs[k]].addr, ro, a);
      SimilarSubs(h, rank, h', rank', id, k + 1, k' + 1, origin, ro, a);
    }
  }

  lemma {:induction false} VisibleConcat(h: Heap, s: seq<RegionId>, t: seq<RegionId>)
    ensures VisibleSubs(h, s + t) == VisibleSubs(h, s) + VisibleSubs(h, t)
  {
    if s == [] {
      assert s + t == t;
    } else {
      assert (s + t)[1..] == s[1..] + t;
      VisibleConcat(h, s[1..], t);
    }
  }

  /** Only the enabled flags and, where enabled, the offsets of the listed regions count. */
  lemma {:induction false} VisibleAgree(h: Heap, h': Heap, s: seq<RegionId>)
    requires forall i :: 0 <= i < |s| ==> s[i] in h && s[i] in h'
    requires forall i :: 0 <= i < |s| ==>
      h[s[i]].enabled == h'[s[i]].enabled && (h[s[i]].enabled ==> h[s[i]].addr == h'[s[i]].addr)
    ensures VisibleSubs(h, s) == VisibleSubs(h', s)
  {
    if s != [] {
      VisibleAgree(h, h', s[1..]);
    }
  }

  // ----- the graph as a forest of priority lists -----

  /** Region `r` and its neighbours agree on who contains whom. */
  ghost predicate LinkedAt(h: Heap, r: RegionId)
    requires r in h
  {
    && ListOk(h, h[r].subregions)
    && (forall i :: 0 <= i < |h[r].subregions| ==> h[h[r].subregions[i]].parent == Some(r))
    && (h[r].parent.Some? ==> h[r].parent.value in h && r in h[h[r].parent.value].subregions)
  }

  ghost predicate Linked(h: Heap) {
    forall r {:trigger LinkedAt(h, r)} :: r in h ==> LinkedAt(h, r)
  }

  /** No repetitions, highest priority first. */
  ghost predicate ListOk(h: Heap, subs: seq<RegionId>) {
    && (forall i :: 0 <= i < |subs| ==> subs[i] in h)
    && (forall i, j :: 0 <= i < j < |subs| ==> subs[i] != subs[j])
    && (forall i, j :: 0 <= i < j < |subs| ==> h[subs[i]].priority >= h[subs[j]].priority)
  }

  /** Where a region of the given priority goes: before the first that does not beat it. */
  function Slot(h: Heap, subs: seq<RegionId>, priority: nat): (p: nat)
    requires forall i :: 0 <= i < |subs| ==> subs[i] in h
    ensures p <= |subs|
    ensures forall i :: 0 <= i < p ==> h[subs[i]].priority > priority
    ensures p < |subs| ==> priority >= h[subs[p]].priority
  {
    if subs == [] || priority >= h[subs[0]].priority then 0
    else 1 + Slot(h, subs[1..], priority)
  }

  function Attach(h: Heap, mr: RegionId, offset: int, sub: RegionId, priority: nat, overlap: bool): Heap
    requires mr in h && sub in h && mr != sub
    requires forall i :: 0 <= i < |h[mr].subregions| ==> h[mr].subregions[i] in h
  {
    var p := Slot(h, h[mr].subregions, priority);
    var subs := h[mr].subregions[..p] + [sub] + h[mr].subregions[p..];
    h[sub := h[sub].(parent := Some(mr), addr := offset, priority := priority, mayOverlap := overlap)]
     [mr := h[mr].(subregions := subs)]
  }

  function Without(subs: seq<RegionId>, sub: RegionId): seq<RegionId> {
    if subs == [] then []
    else if subs[0] == sub then subs[1..]
    else [subs[0]] + Without(subs[1..], sub)
  }

  function Detach(h: Heap, mr: RegionId, sub: RegionId): Heap
    requires mr in h && sub in h && mr != sub
  {
    h[sub := h[sub].(parent := None)][mr := h[mr].(subregions := Without(h[mr].subregions, sub))]
  }

  /** `h'` is `h` with `sub` taken out of `mr` and put back at `addr`: its priority is kept if it may overlap,
      and is zero otherwise. */
  ghost predicate IsReinserted(h: Heap, h': Heap, mr: RegionId, sub: RegionId, addr: int)
    requires mr in h && sub in h && mr != sub
  {
    var out := Detach(h, mr, sub);
    && (forall i :: 0 <= i < |out[mr].subregions| ==> out[mr].subregions[i] in out)
    && h' == Attach(out, mr, addr, sub, if h[sub].mayOverlap then h[sub].priority else 0, h[sub].mayOverlap)
  }

  lemma {:induction false} WithoutIs(subs: seq<RegionId>, sub: RegionId) returns (p: nat)
    requires sub in subs
    ensures p < |subs| && subs[p] == sub && Without(subs, sub) == subs[..p] + subs[p + 1..]
  {
    if subs[0] == sub {
      p := 0;
    } else {
      var q := WithoutIs(subs[1..], sub);
      p := q + 1;
      assert subs[..p] == [subs[0]] + subs[1..][..q];
      assert subs[p + 1..] == subs[1..][q + 1..];
    }
  }

  lemma WithoutSplit(subs: seq<RegionId>, sub: RegionId) returns (s: seq<RegionId>, t: seq<RegionId>)
    requires sub in subs
    ensures subs == s + [sub] + t && Without(subs, sub) == s + t && forall x :: x in s + t ==> x in subs
  {
    var p := WithoutIs(subs, sub);
    s, t := subs[..p], subs[p + 1..];
    assert subs == s + [sub] + t;
  }

  /** A region without a parent is in no list. */
  lemma NotListed(h: Heap, sub: RegionId, r: RegionId)
    requires Linked(h) && sub in h && r in h && h[sub].parent != Some(r)
    ensures sub !in h[r].subregions
  {
    assert LinkedAt(h, r);
  }

  lemma ListOkFrame(h: Heap, h': Heap, subs: seq<RegionId>)
    requires ListOk(h, subs)
    requires forall x :: x in subs ==> x in h' && h'[x].priority == h[x].priority
    ensures ListOk(h', subs)
  {
    forall i, j | 0 <= i < j < |subs| ensures h'[subs[i]].priority >= h'[subs[j]].priority {
      assert subs[i] in subs && subs[j] in subs;
      assert h[subs[i]].priority >= h[subs[j]].priority;
    }
  }

  lemma InsertOk(h: Heap, s: seq<RegionId>, sub: RegionId, t: seq<RegionId>)
    requires ListOk(h, s + t) && sub in h && sub !in s + t
    requires forall i :: 0 <= i < |s| ==> s[i] in h && h[s[i]].priority >= h[sub].priority
    requires forall i :: 0 <= i < |t| ==> t[i] in h && h[sub].priority >= h[t[i]].priority
    ensures ListOk(h, s + [sub] + t)
  {
    var u, v := s + t, s + [sub] + t;
    assert forall i :: 0 <= i < |s| ==> u[i] == s[i] && v[i] == s[i];
    assert forall i :: |s| < i < |v| ==> v[i] == t[i - |s| - 1] && u[i - 1] == t[i - |s| - 1];
    assert v[|s|] == sub;
    forall i, j | 0 <= i < j < |v| ensures v[i] != v[j] && h[v[i]].priority >= h[v[j]].priority {
      if i != |s| && j != |s| {
        var i', j' := if i < |s| then i else i - 1, if j < |s| then j else j - 1;
        assert v[i] == u[i'] && v[j] == u[j'];
      } else {
        assert u[if i == |s| then j - 1 else i] in u;
      }
    }
  }

  lemma RemoveOk(h: Heap, s: seq<RegionId>, sub: RegionId, t: seq<RegionId>)
    requires ListOk(h, s + [sub] + t)
    ensures ListOk(h, s + t) && forall x :: x in s + t <==> x != sub && x in s + [sub] + t
  {
    var u, v := s + t, s + [sub] + t;
    assert v[|s|] == sub;
    assert forall i :: 0 <= i < |u| ==> u[i] == v[if i < |s| then i else i + 1];
    forall x | x in v && x != sub ensures x in u {
      assert x in s || x in t;
    }
  }

  lemma WithoutOk(h: Heap, subs: seq<RegionId>, sub: RegionId)
    requires ListOk(h, subs) && sub in subs
    ensures ListOk(h, Without(subs, sub)) && forall x :: x in Without(subs, sub) <==> x != sub && x in subs
  {
    var p := WithoutIs(subs, sub);
    assert subs == subs[..p] + [sub] + subs[p + 1..];
    RemoveOk(h, subs[..p], sub, subs[p + 1..]);
  }

  lemma AttachList(h: Heap, mr: RegionId, offset: int, sub: RegionId, priority: nat, overlap: bool)
    requires mr in h && sub in h && mr != sub && sub !in h[mr].subregions && ListOk(h, h[mr].subregions)
    ensures var h' := Attach(h, mr, offset, sub, priority, overlap);
      && ListOk(h', h'[mr].subregions)
      && (forall x :: x in h'[mr].subregions <==> x == sub || x in h[mr].subregions)
  {
    var subs := h[mr].subregions;
    var p := Slot(h, subs, priority);
    var h' := Attach(h, mr, offset, sub, priority, overlap);
    ListOkFrame(h, h', subs);
    SlotOk(h', subs, sub, p);
  }

  /** A list stays in order when a region is put before the first that does not beat it. */
  lemma SlotOk(h: Heap, subs: seq<RegionId>, sub: RegionId, p: nat)
    requires ListOk(h, subs) && sub in h && sub !in subs && p <= |subs|
    requires forall i :: 0 <= i < p ==> h[subs[i]].priority > h[sub].priority
    requires p < |subs| ==> h[sub].priority >= h[subs[p]].priority
    ensures ListOk(h, subs[..p] + [sub] + subs[p..])
    ensures forall x :: x in subs[..p] + [sub] + subs[p..] <==> x == sub || x in subs
  {
    var s, t := subs[..p], subs[p..];
    assert subs == s + t;
    forall i | 0 <= i < |t| ensures h[sub].priority >= h[t[i]].priority {
      assert t[i] == subs[p + i] && h[subs[p]].priority >= h[subs[p + i]].priority;
    }
    InsertOk(h, s, sub, t);
  }

  /** Changing only the list of `mr` and the parent of `sub`, consistently, keeps every link. */
  lemma RelinkAt(h: Heap, h': Heap, mr: RegionId, sub: RegionId, r: RegionId)
    requires Linked(h) && h'.Keys == h.Keys && mr in h && sub in h && r in h
    requires forall x :: x in h && x != mr ==> h'[x].subregions == h[x].subregions
    requires r != mr ==> sub !in h[r].subregions
    requires ListOk(h', h'[mr].subregions)
    requires forall x :: x in h && x != sub ==> h'[x].parent == h[x].parent && h'[x].priority == h[x].priority
    requires forall x ::
      x in h'[mr].subregions <==> (if x == sub then h'[sub].parent == Some(mr) else x in h[mr].subregions)
    requires h'[sub].parent == Some(mr) || h'[sub].parent == None
    ensures LinkedAt(h', r)
  {
    assert LinkedAt(h, r);
    if r != mr {
      ListOkFrame(h, h', h[r].subregions);
    }
    forall i | 0 <= i < |h'[r].subregions| ensures h'[h'[r].subregions[i]].parent == Some(r) {
      assert h'[r].subregions[i] in h'[r].subregions;
    }
  }

  lemma AttachLinked(h: Heap, mr: RegionId, offset: int, sub: RegionId, priority: nat, overlap: bool)
    requires Linked(h) && mr in h && sub in h && mr != sub && h[sub].parent.None?
    requires LinkedAt(h, mr)
    ensures Linked(Attach(h, mr, offset, sub, priority, overlap))
  {
    var h' := Attach(h, mr, offset, sub, priority, overlap);
    NotListed(h, sub, mr);
    AttachList(h, mr, offset, sub, priority, overlap);
    forall r | r in h' ensures LinkedAt(h', r) {
      NotListed(h, sub, r);
      RelinkAt(h, h', mr, sub, r);
    }
  }

  lemma DetachList(h: Heap, mr: RegionId, sub: RegionId)
    requires mr in h && sub in h && mr != sub && sub in h[mr].subregions && ListOk(h, h[mr].subregions)
    ensures var h' := Detach(h, mr, sub);
      && ListOk(h', h'[mr].subregions)
      && (forall x :: x in h'[mr].subregions <==> x != sub && x in h[mr].subregions)
  {
    var subs := h[mr].subregions;
    var h' := Detach(h, mr, sub);
    ListOkFrame(h, h', subs);
    WithoutOk(h', subs, sub);
  }

  lemma DetachLinked(h: Heap, mr: RegionId, sub: RegionId)
    requires Linked(h) && mr in h && sub in h && mr != sub && h[sub].parent == Some(mr)
    ensures Linked(Detach(h, mr, sub))
  {
    var h' := Detach(h, mr, sub);
    assert LinkedAt(h, sub) && LinkedAt(h, mr);
    DetachList(h, mr, sub);
    forall r | r in h' ensures LinkedAt(h', r) {
      if r != mr {
        NotListed(h, sub, r);
      }
      RelinkAt(h, h', mr, sub, r);
    }
  }

  // ----- who wins where regions overlap -----

  /** Of the children that show anything at an offset, one of the highest priority is seen. */
  lemma HighestWins(h: Heap, rank: Rank, id: RegionId, x: int, j: nat) returns (c: nat)
    requires WellFormed(h, rank) && Linked(h) && id in h && h[id].enabled && h[id].alias.None? && 0 <= x < h[id].size
    requires j < |h[id].subregions| && ChildAt(h, rank, id, j, x).Some?
    ensures c < |h[id].subregions| && h[id].subregions[c] in h && h[id].subregions[j] in h
    ensures ChildAt(h, rank, id, c, x).Some? && At(h, rank, id, x) == Through(h[id], ChildAt(h, rank, id, c, x))
    ensures h[h[id].subregions[c]].priority >= h[h[id].subregions[j]].priority
  {
    assert LinkedAt(h, id);
    FirstChildIs(h, rank, id, x, 0, j);
    c := FirstChild(h, rank, id, x, 0);
  }

  /** The new child is listed at its offset, and those before it have a higher priority. */
  lemma AttachPlaces(h: Heap, mr: RegionId, offset: int, sub: RegionId, priority: nat, overlap: bool, h': Heap)
    returns (p: nat)
    requires mr in h && sub in h && mr != sub && h[sub].parent.None? && LinkedAt(h, mr)
    requires h' == Attach(h, mr, offset, sub, priority, overlap)
    ensures p < |h'[mr].subregions| && h'[mr].subregions[p] == sub && h'[sub].addr == offset
    ensures forall i :: 0 <= i < p ==> h'[mr].subregions[i] in h' && h'[h'[mr].subregions[i]].priority > priority
    ensures h'[mr] == h[mr].(subregions := h'[mr].subregions)
  {
    p := Slot(h, h[mr].subregions, priority);
    forall i | 0 <= i < p ensures h'[mr].subregions[i] in h' && h'[h'[mr].subregions[i]].priority > priority {
      var c := h[mr].subregions[i];
      assert h'[mr].subregions[i] == c && h[c].priority > priority && h[c].parent == Some(mr) && c != sub;
    }
  }

  /** A region that is added shows at the offset it was added at, unless a sibling of higher priority does: among
      siblings of the same priority the one added last wins. */
  lemma AttachShows(h: Heap, newRank: Rank, mr: RegionId, offset: int, sub: RegionId, priority: nat, overlap: bool,
                    h': Heap, x: int)
    requires mr in h && sub in h && mr != sub && h[sub].parent.None? && LinkedAt(h, mr)
    requires h' == Attach(h, mr, offset, sub, priority, overlap) && WellFormed(h', newRank) && Linked(h')
    requires h[mr].enabled && h[mr].alias.None? && 0 <= x < h[mr].size && At(h', newRank, sub, x - offset).Some?
    requires forall i: nat ::
      i < |h'[mr].subregions| && h'[mr].subregions[i] in h' && h'[h'[mr].subregions[i]].priority > priority ==>
      ChildAt(h', newRank, mr, i, x).None?
    ensures At(h', newRank, mr, x) == Through(h[mr], At(h', newRank, sub, x - offset))
  {
    var p := AttachPlaces(h, mr, offset, sub, priority, overlap, h');
    ShowsFirst(h', newRank, mr, x, p);
  }

  /** A region added with a priority keeps it when it is moved; one added without is moved with priority zero. */
  lemma MoveKeepsPriority(h: Heap, mr: RegionId, offset: int, sub: RegionId, priority: nat, overlap: bool, h': Heap,
                          h'': Heap, addr: int)
    requires mr in h && sub in h && mr != sub && LinkedAt(h, mr)
    requires h' == Attach(h, mr, offset, sub, priority, overlap) && IsReinserted(h', h'', mr, sub, addr)
    ensures h''[sub].addr == addr && h''[sub].priority == if overlap then priority else 0
    ensures h''[sub].parent == Some(mr) && h''[sub].mayOverlap == overlap
  {
  }

  // ----- edits that may skip the update -----

  /** A disabled entry can be added to a list or removed from it without being seen. */
  lemma HiddenEntry(h: Heap, s: seq<RegionId>, sub: RegionId, t: seq<RegionId>)
    requires sub in h && !h[sub].enabled
    ensures VisibleSubs(h, s + [sub] + t) == VisibleSubs(h, s + t)
  {
    assert s + [sub] + t == s + ([sub] + t);
    VisibleConcat(h, s, [sub] + t);
    VisibleConcat(h, [sub], t);
    VisibleConcat(h, s, t);
    assert [sub][1..] == [];
  }

  /** A region none of whose listed subregions changed its offset or enabled flag. */
  lemma SimilarElsewhere(h: Heap, h': Heap, r: RegionId)
    requires r in h && r in h'
    requires h[r].enabled == h'[r].enabled
    requires h[r].enabled ==> SameOwnFields(h[r], h'[r]) && h'[r].subregions == h[r].subregions
    requires forall x :: x in h[r].subregions ==>
      x in h && x in h' && h[x].enabled == h'[x].enabled && (h[x].enabled ==> h[x].addr == h'[x].addr)
    ensures SimilarAt(h, h', r)
  {
    VisibleAgree(h, h', h[r].subregions);
  }

  lemma SimilarParent(h: Heap, h': Heap, mr: RegionId, sub: RegionId, s: seq<RegionId>, t: seq<RegionId>,
                      more: seq<RegionId>, less: seq<RegionId>)
    requires mr in h && mr in h' && h[mr].enabled == h'[mr].enabled && SameOwnFields(h[mr], h'[mr])
    requires more == s + [sub] + t && less == s + t
    requires
      || (h[mr].subregions, h'[mr].subregions) == (more, less)
      || (h[mr].subregions, h'[mr].subregions) == (less, more)
    requires sub in h && sub in h' && (h[mr].enabled ==> !h[sub].enabled && !h'[sub].enabled)
    requires forall x :: x in less ==>
      x in h && x in h' && h[x].enabled == h'[x].enabled && (h[x].enabled ==> h[x].addr == h'[x].addr)
    ensures SimilarAt(h, h', mr)
  {
    if h[mr].enabled {
      HiddenEntry(h, s, sub, t);
      HiddenEntry(h', s, sub, t);
      VisibleAgree(h, h', less);
    }
  }

  /** Everywhere but at `mr`: `sub` may change its links, and its offset if nothing lists it. */
  lemma SimilarAway(h: Heap, h': Heap, mr: RegionId, sub: RegionId, r: RegionId)
    requires Linked(h) && h'.Keys == h.Keys && r in h && r != mr && sub in h && sub != mr
    requires forall x :: x in h && x != mr && x != sub ==> h'[x] == h[x]
    requires h'[sub].enabled == h[sub].enabled && SameOwnFields(h[sub], h'[sub])
    requires h'[sub].subregions == h[sub].subregions
    requires mr in h && h'[mr].enabled == h[mr].enabled && h'[mr].addr == h[mr].addr
    requires h'[sub].addr == h[sub].addr || sub !in h[r].subregions
    ensures SimilarAt(h, h', r)
  {
    assert LinkedAt(h, r);
    SimilarElsewhere(h, h', r);
  }

  /** Attaching below a disabled region, or attaching a disabled region, changes nothing visible. */
  lemma AttachInvisible(h: Heap, mr: RegionId, offset: int, sub: RegionId, priority: nat, overlap: bool)
    requires Linked(h) && mr in h && sub in h && mr != sub && h[sub].parent.None?
    requires LinkedAt(h, mr)
    requires !(h[mr].enabled && h[sub].enabled)
    ensures Similar(h, Attach(h, mr, offset, sub, priority, overlap))
  {
    var h' := Attach(h, mr, offset, sub, priority, overlap);
    AttachSimilarAtParent(h, mr, offset, sub, priority, overlap);
    forall r | r in h ensures SimilarAt(h, h', r) {
      NotListed(h, sub, r);
      if r != mr {
        SimilarAway(h, h', mr, sub, r);
      }
    }
  }

  lemma AttachSimilarAtParent(h: Heap, mr: RegionId, offset: int, sub: RegionId, priority: nat, overlap: bool)
    requires mr in h && sub in h && mr != sub && LinkedAt(h, mr) && h[sub].parent.None?
    requires !(h[mr].enabled && h[sub].enabled)
    ensures SimilarAt(h, Attach(h, mr, offset, sub, priority, overlap), mr)
  {
    var h' := Attach(h, mr, offset, sub, priority, overlap);
    var subs := h[mr].subregions;
    var p := Slot(h, subs, priority);
    assert subs == subs[..p] + subs[p..];
    SimilarParent(h, h', mr, sub, subs[..p], subs[p..], h'[mr].subregions, subs);
  }

  lemma DetachSimilarAtParent(h: Heap, mr: RegionId, sub: RegionId)
    requires mr in h && sub in h && mr != sub && LinkedAt(h, mr) && sub in h[mr].subregions
    requires !(h[mr].enabled && h[sub].enabled)
    ensures SimilarAt(h, Detach(h, mr, sub), mr)
  {
    var h' := Detach(h, mr, sub);
    var s, t := WithoutSplit(h[mr].subregions, sub);
    SimilarParent(h, h', mr, sub, s, t, h[mr].subregions, Without(h[mr].subregions, sub));
  }

  lemma DetachInvisible(h: Heap, mr: RegionId, sub: RegionId)
    requires Linked(h) && mr in h && sub in h && mr != sub && h[sub].parent == Some(mr)
    requires !(h[mr].enabled && h[sub].enabled)
    ensures Similar(h, Detach(h, mr, sub))
  {
    var h' := Detach(h, mr, sub);
    assert LinkedAt(h, sub) && LinkedAt(h, mr);
    DetachSimilarAtParent(h, mr, sub);
    forall r | r in h ensures SimilarAt(h, h', r) {
      if r != mr {
        SimilarAway(h, h', mr, sub, r);
      }
    }
  }

  /** Any change of the own fields of a disabled region is invisible. */
  lemma DisabledInvisible(h: Heap, mr: RegionId, r': Region)
    requires Linked(h) && mr in h && !h[mr].enabled && !r'.enabled
    ensures Similar(h, h[mr := r'])
  {
    var h' := h[mr := r'];
    forall r | r in h ensures SimilarAt(h, h', r) {
      assert LinkedAt(h, r);
      SimilarElsewhere(h, h', r);
    }
  }

  // ----- from similar graphs to equal renderings -----

  lemma SimilarRendering(h: Heap, rank: Rank, h': Heap, rank': Rank, root: Option<RegionId>, ranges: seq<FlatRange>)
    requires WellFormed(h, rank) && WellFormed(h', rank') && Similar(h, h')
    requires root.Some? ==> root.value in h && (h[root.value].enabled ==> h'[root.value].addr == h[root.value].addr)
    requires IsRendering(h, rank, root, ranges)
    ensures IsRendering(h', rank', root, ranges)
  {
    forall a ensures Owner(ranges, a) == ResolveRoot(h', rank', root, a) {
      assert Owner(ranges, a) == ResolveRoot(h, rank, root, a);
      if root.Some? {
        assert SimilarAt(h, h', root.value);
        SimilarResolve(h, rank, h', rank', root.value, h[root.value].addr, false, a);
      }
    }
  }

  lemma AttachWellFormed(h: Heap, rank: Rank, mr: RegionId, offset: int, sub: RegionId, priority: nat, overlap: bool)
    requires WellFormed(h, rank) && mr in h && sub in h && mr != sub
    requires forall i :: 0 <= i < |h[mr].subregions| ==> h[mr].subregions[i] in h
    requires mr in rank && Edge(h, rank, mr, sub)
    ensures WellFormed(Attach(h, mr, offset, sub, priority, overlap), rank)
  {
    var h' := Attach(h, mr, offset, sub, priority, overlap);
    forall r | r in h' ensures RegionOk(h', rank, r) {
      assert RegionOk(h, rank, r);
      forall i | 0 <= i < |h'[r].subregions| ensures Edge(h', rank, r, h'[r].subregions[i]) {
        assert h'[r].subregions[i] == sub || h'[r].subregions[i] in h[r].subregions;
      }
    }
  }

  lemma DetachWellFormed(h: Heap, rank: Rank, mr: RegionId, sub: RegionId)
    requires WellFormed(h, rank) && mr in h && sub in h && mr != sub && sub in h[mr].subregions
    ensures WellFormed(Detach(h, mr, sub), rank)
  {
    var h' := Detach(h, mr, sub);
    var p := WithoutIs(h[mr].subregions, sub);
    forall r | r in h' ensures RegionOk(h', rank, r) {
      assert RegionOk(h, rank, r);
      forall i | 0 <= i < |h'[r].subregions| ensures Edge(h', rank, r, h'[r].subregions[i]) {
        assert h'[r].subregions[i] in h[r].subregions;
      }
    }
  }

  /** A region whose links, size and alias target are kept. */
  ghost predicate KeepsLinks(r: Region, r': Region) {
    r'.parent == r.parent && r'.subregions == r.subregions && r'.alias == r.alias && r'.priority == r.priority
    && r'.size == r.size
  }

  lemma UpdateWellFormed(h: Heap, rank: Rank, mr: RegionId, r': Region)
    requires WellFormed(h, rank) && Linked(h) && mr in h && KeepsLinks(h[mr], r')
    ensures WellFormed(h[mr := r'], rank) && Linked(h[mr := r'])
  {
    var h' := h[mr := r'];
    forall r | r in h' ensures LinkedAt(h', r) && RegionOk(h', rank, r) {
      assert LinkedAt(h, r) && RegionOk(h, rank, r);
      ListOkFrame(h, h', h[r].subregions);
      assert forall i :: 0 <= i < |h[r].subregions| ==> Edge(h, rank, r, h[r].subregions[i]);
    }
  }

  predicate Bit(mask: nat, k: nat) { (mask / Pow2(k)) % 2 == 1 }

  /** The log mask with one client's bit set or cleared. */
  function WithBit(mask: nat, client: nat, on: bool): nat {
    if Bit(mask, client) == on then mask
    else if on then mask + Pow2(client)
    else
      BitFits(mask, Pow2(client));
      mask - Pow2(client)
  }

  /** memory_region_set_log changes the one client's bit and no other. */
  lemma {:induction false} WithBitIs(mask: nat, client: nat, on: bool, k: nat)
    ensures Bit(WithBit(mask, client, on), k) <==> if k == client then on else Bit(mask, k)
    decreases client
  {
    if client == 0 {
      LowBit(mask, on);
    } else {
      WithBitHalves(mask, client, on);
    }
    if k > 0 {
      BitHalves(mask, k);
      BitHalves(WithBit(mask, client, on), k);
      if client > 0 {
        WithBitIs(mask / 2, client - 1, on, k - 1);
      }
    } else {
      BitZero(mask);
      BitZero(WithBit(mask, client, on));
    }
  }

  lemma BitZero(mask: nat)
    ensures Bit(mask, 0) <==> mask % 2 == 1
  {
    assert Pow2(0) == 1;
  }

  lemma LowBit(mask: nat, on: bool)
    ensures WithBit(mask, 0, on) / 2 == mask / 2 && (WithBit(mask, 0, on) % 2 == 1 <==> on)
  {
    BitZero(mask);
    assert Pow2(0) == 1;
  }

  lemma WithBitHalves(mask: nat, client: nat, on: bool)
    requires client > 0
    ensures WithBit(mask, client, on) % 2 == mask % 2
    ensures WithBit(mask, client, on) / 2 == WithBit(mask / 2, client - 1, on)
  {
    BitHalves(mask, client);
    var b := Pow2(client - 1);
    assert Bit(mask, client) <==> Bit(mask / 2, client - 1);
    assert (mask + 2 * b) / 2 == mask / 2 + b && (mask + 2 * b) % 2 == mask % 2;
    if mask >= 2 * b {
      assert (mask - 2 * b) / 2 == mask / 2 - b && (mask - 2 * b) % 2 == mask % 2;
    }
  }

  lemma BitHalves(mask: nat, k: nat)
    requires k > 0
    ensures Bit(mask, k) <==> Bit(mask / 2, k - 1)
  {
    HalfFirst(mask, Pow2(k - 1));
  }

  lemma HalfFirst(mask: nat, b: nat)
    requires b > 0
    ensures mask / (2 * b) == (mask / 2) / b
  {
    var q, r := (mask / 2) / b, (mask / 2) % b;
    assert mask == 2 * (b * q + r) + mask % 2;
    assert mask == (2 * b) * q + (2 * r + mask % 2);
    Quotient(mask, 2 * b, q, 2 * r + mask % 2);
  }

  lemma Quotient(x: int, b: int, q: int, r: int)
    requires b > 0 && x == b * q + r && 0 <= r < b
    ensures x / b == q
  {
    var d := x / b - q;
    assert b * d == r - x % b;
    assert d >= 1 ==> b * d >= b;
    assert d <= -1 ==> b * d <= -b;
  }

  lemma BitFits(mask: nat, b: nat)
    requires b > 0 && (mask / b) % 2 == 1
    ensures mask >= b
  {
    assert mask / b >= 1;
    assert mask == b * (mask / b) + mask % b;
  }

  // ----- a region that moves while nobody looks -----

  /** Resolution only looks at the distance from where a region is placed. */
  lemma {:induction false} ResolveShift(h: Heap, rank: Rank, id: RegionId, origin: int, d: int, ro: bool, a: int)
    requires WellFormed(h, rank) && id in h
    ensures Resolve(h, rank, id, origin + d, ro, a + d) == Resolve(h, rank, id, origin, ro, a)
    decreases assert RegionOk(h, rank, id); rank[id], |h[id].subregions| + 1
  {
    assert RegionOk(h, rank, id);
    var r := h[id];
    if r.enabled && AddrRange(origin, r.size).Contains(a) {
      if r.alias.Some? {
        assert Edge(h, rank, id, r.alias.value);
        ResolveShift(h, rank, r.alias.value, origin - r.aliasOffset, d, ro || r.readonly, a);
        assert origin + d - r.aliasOffset == origin - r.aliasOffset + d;
      } else {
        ResolveSubsShift(h, rank, id, 0, origin, d, ro || r.readonly, a);
      }
    }
  }

  lemma {:induction false} ResolveSubsShift(h: Heap, rank: Rank, id: RegionId, k: nat, origin: int, d: int, ro: bool,
                                            a: int)
    requires WellFormed(h, rank) && id in h && k <= |h[id].subregions|
    ensures ResolveSubs(h, rank, id, k, origin + d, ro, a + d) == ResolveSubs(h, rank, id, k, origin, ro, a)
    decreases assert RegionOk(h, rank, id); rank[id], |h[id].subregions| - k
  {
    assert RegionOk(h, rank, id);
    if k < |h[id].subregions| {
      var sub := h[id].subregions[k];
      assert Edge(h, rank, id, sub);
      ResolveShift(h, rank, sub, origin + h[sub].addr, d, ro, a);
      assert origin + d + h[sub].addr == origin + h[sub].addr + d;
      ResolveSubsShift(h, rank, id, k + 1, origin, d, ro, a);
    }
  }

  /** A region at another place in a similar graph shows what it showed, as far away. */
  lemma MovedResolve(h: Heap, rank: Rank, h': Heap, rank': Rank, mr: RegionId, a: int)
    requires WellFormed(h, rank) && WellFormed(h', rank') && Similar(h, h') && mr in h
    ensures Resolve(h', rank', mr, h'[mr].addr, false, a)
      == Resolve(h, rank, mr, h[mr].addr, false, a - (h'[mr].addr - h[mr].addr))
  {
    var d := h'[mr].addr - h[mr].addr;
    SimilarResolve(h, rank, h', rank', mr, h'[mr].addr, false, a);
    ResolveShift(h, rank, mr, h[mr].addr, d, false, a - d);
  }

  /** If a root shows anything, its view is wrong after any move. */
  lemma MoveBreaks(h: Heap, rank: Rank, h': Heap, rank': Rank, mr: RegionId, view: seq<FlatRange>)
    requires WellFormed(h, rank) && WellFormed(h', rank') && Similar(h, h') && mr in h
    requires 0 <= h[mr].addr && 0 <= h'[mr].addr && h'[mr].addr != h[mr].addr
    requires IsRendering(h, rank, Some(mr), view) && view != []
    ensures !IsRendering(h', rank', Some(mr), view)
  {
    var d, m := h'[mr].addr - h[mr].addr, view[0].addr.start;
    HeadStartsFirst(view, m - d);
    HeadStartsFirst(view, m + d);
    assert Owner(view, m) == ResolveRoot(h, rank, Some(mr), m);
    assert RegionOk(h, rank, mr);
    var a := if d > 0 then m else m + d;
    MovedResolve(h, rank, h', rank', mr, a);
    assert Owner(view, m - d) == ResolveRoot(h, rank, Some(mr), m - d);
    assert Owner(view, a) != ResolveRoot(h', rank', Some(mr), a);
  }

  /** Moved to `addr`, the region would show nothing in the 64-bit address space. */
  ghost predicate ShowsNothingAt(h: Heap, rank: Rank, mr: RegionId, addr: int)
    requires WellFormed(h, rank) && mr in h
  {
    forall b :: 0 <= b + (addr - h[mr].addr) < TWO_TO_THE_64 ==> Resolve(h, rank, mr, h[mr].addr, false, b) == None
  }

  /** The view of an address space rooted at `mr` need not be made again when `mr` moves to `addr`: it does
      not really move, or it shows nothing before and after. */
  ghost predicate ViewKept(h: Heap, rank: Rank, mr: RegionId, addr: int, view: seq<FlatRange>)
    requires WellFormed(h, rank) && mr in h
  {
    addr == h[mr].addr || (view == [] && ShowsNothingAt(h, rank, mr, addr))
  }

  /** In a similar graph where the root is elsewhere, its view is still right if and only if it is kept. */
  lemma ViewKeptIff(h: Heap, rank: Rank, h': Heap, rank': Rank, mr: RegionId, view: seq<FlatRange>)
    requires WellFormed(h, rank) && WellFormed(h', rank') && Similar(h, h') && mr in h
    requires 0 <= h[mr].addr && 0 <= h'[mr].addr && IsRendering(h, rank, Some(mr), view)
    ensures IsRendering(h', rank', Some(mr), view) <==> ViewKept(h, rank, mr, h'[mr].addr, view)
  {
    var d := h'[mr].addr - h[mr].addr;
    if d == 0 {
      SimilarRendering(h, rank, h', rank', Some(mr), view);
    } else if view != [] {
      MoveBreaks(h, rank, h', rank', mr, view);
    } else {
      forall a ensures ResolveRoot(h', rank', Some(mr), a) ==
        if 0 <= a < TWO_TO_THE_64 then Resolve(h, rank, mr, h[mr].addr, false, a - d) else None
      {
        MovedResolve(h, rank, h', rank', mr, a);
      }
      forall b | 0 <= b + d < TWO_TO_THE_64
        ensures ResolveRoot(h', rank', Some(mr), b + d) == Resolve(h, rank, mr, h[mr].addr, false, b)
      {
        MovedResolve(h, rank, h', rank', mr, b + d);
      }
    }
  }

  function Moved(h: Heap, mr: RegionId, addr: int): Heap
    requires mr in h
  {
    h[mr := h[mr].(addr := addr)]
  }

  lemma MoveAloneAt(h: Heap, mr: RegionId, addr: int, r: RegionId)
    requires Linked(h) && mr in h && r in h
    requires addr == h[mr].addr || h[mr].parent.None?
    ensures SimilarAt(h, Moved(h, mr, addr), r)
  {
    assert LinkedAt(h, r);
    if addr != h[mr].addr {
      NotListed(h, mr, r);
    }
    SimilarElsewhere(h, Moved(h, mr, addr), r);
  }

  /** Changing the offset of a region that no list holds. */
  lemma MoveAlone(h: Heap, rank: Rank, mr: RegionId, addr: int)
    requires WellFormed(h, rank) && Linked(h) && mr in h
    requires addr == h[mr].addr || h[mr].parent.None?
    ensures WellFormed(Moved(h, mr, addr), rank) && Linked(Moved(h, mr, addr)) && Similar(h, Moved(h, mr, addr))
  {
    UpdateWellFormed(h, rank, mr, Moved(h, mr, addr)[mr]);
    forall r | r in h ensures SimilarAt(h, Moved(h, mr, addr), r) {
      MoveAloneAt(h, mr, addr, r);
    }
  }

  /** memory_region_set_address asks for no update when a parentless region moves. */
  lemma RootMoveIff(h: Heap, rank: Rank, mr: RegionId, addr: int, view: seq<FlatRange>)
    requires WellFormed(h, rank) && Linked(h) && mr in h && h[mr].parent.None? && 0 <= h[mr].addr && 0 <= addr
    requires IsRendering(h, rank, Some(mr), view)
    ensures WellFormed(Moved(h, mr, addr), rank)
    ensures IsRendering(Moved(h, mr, addr), rank, Some(mr), view) <==> ViewKept(h, rank, mr, addr, view)
  {
    MoveAlone(h, rank, mr, addr);
    ViewKeptIff(h, rank, Moved(h, mr, addr), rank, mr, view);
  }

  /** Nor does memory_region_add_subregion when the parent is disabled. */
  lemma RootAttachIff(h: Heap, rank: Rank, newRank: Rank, mr: RegionId, offset: int, sub: RegionId, priority: nat,
                      overlap: bool, view: seq<FlatRange>)
    requires WellFormed(h, rank) && Linked(h) && mr in h && sub in h && mr != sub && h[sub].parent.None?
    requires LinkedAt(h, mr)
    requires WellFormed(h, newRank) && mr in newRank && Edge(h, newRank, mr, sub)
    requires !(h[mr].enabled && h[sub].enabled) && 0 <= h[sub].addr && 0 <= offset
    requires IsRendering(h, rank, Some(sub), view)
    ensures WellFormed(Attach(h, mr, offset, sub, priority, overlap), newRank)
    ensures IsRendering(Attach(h, mr, offset, sub, priority, overlap), newRank, Some(sub), view)
      <==> ViewKept(h, rank, sub, offset, view)
  {
    AttachWellFormed(h, newRank, mr, offset, sub, priority, overlap);
    AttachInvisible(h, mr, offset, sub, priority, overlap);
    ViewKeptIff(h, rank, Attach(h, mr, offset, sub, priority, overlap), newRank, sub, view);
  }

  function RamAt(addr: int): Region {
    Region(None, 0x1000, addr, true, true, true, false, None, 0, 0, false, [], 0)
  }

  /** The heap of the two witnesses: region 0 is RAM and the root of an address space, region 1 a disabled
      container. */
  function Witness(): Heap {
    map[0 := RamAt(0), 1 := Region(None, 0x10000, 0, false, false, true, false, None, 0, 0, false, [], 0)]
  }

  function WitnessRank(): Rank { map[0 := 0, 1 := 1] }

  function WitnessView(): seq<FlatRange> { [FlatRange(0, 0, AddrRange(0, 0x1000), 0, true, false)] }

  lemma WitnessRendered()
    ensures WellFormed(Witness(), WitnessRank()) && Linked(Witness())
    ensures IsRendering(Witness(), WitnessRank(), Some(0), WitnessView())
  {
    var h, rank, view := Witness(), WitnessRank(), WitnessView();
    forall r | r in h ensures RegionOk(h, rank, r) && LinkedAt(h, r) {
    }
    forall a ensures Owner(view, a) == ResolveRoot(h, rank, Some(0), a) {
      OwnerOne(view[0], a);
      assert RegionOk(h, rank, 0);
    }
  }

  /** Moving the parentless root of an address space: the view that was right before is wrong after. */
  lemma RootMoveIsMissed()
    ensures WellFormed(Moved(Witness(), 0, 0x1000), WitnessRank())
    ensures !IsRendering(Moved(Witness(), 0, 0x1000), WitnessRank(), Some(0), WitnessView())
  {
    WitnessRendered();
    RootMoveIff(Witness(), WitnessRank(), 0, 0x1000, WitnessView());
  }

  /** Adding the root of an address space below a disabled parent: likewise. */
  lemma RootAttachIsMissed()
    ensures var h' := Attach(Witness(), 1, 0x1000, 0, 0, false);
      WellFormed(h', WitnessRank()) && !IsRendering(h', WitnessRank(), Some(0), WitnessView())
  {
    WitnessRendered();
    assert LinkedAt(Witness(), 1);
    RootAttachIff(Witness(), WitnessRank(), WitnessRank(), 1, 0x1000, 0, 0, false, WitnessView());
  }

  /** address_space_init asks for no update either: the new view is empty, the tree below its root is not. */
  lemma InitSpaceIsMissed()
    ensures WellFormed(Witness(), WitnessRank()) && !IsRendering(Witness(), WitnessRank(), Some(0), [])
    ensures ResolveRoot(Witness(), WitnessRank(), Some(0), 0).Some?
  {
    WitnessRendered();
    OwnerOne(WitnessView()[0], 0);
    assert Owner(WitnessView(), 0) == ResolveRoot(Witness(), WitnessRank(), Some(0), 0);
  }

  // ----- transactions -----

  datatype AddressSpace = AddressSpace(root: Option<RegionId>, currentMap: seq<FlatRange>)

  ghost predicate RootsIn(h: Heap, spaces: seq<AddressSpace>) {
    forall i :: 0 <= i < |spaces| ==> (spaces[i].root.Some? ==> spaces[i].root.value in h)
  }

  /** Addresses are unsigned. */
  ghost predicate Placed(h: Heap) { forall r :: r in h ==> 0 <= h[r].addr }

  /** Every address space but those in `missed` holds the rendering of its root. */
  ghost predicate RenderedExcept(h: Heap, rank: Rank, spaces: seq<AddressSpace>, missed: set<nat>)
    requires WellFormed(h, rank) && RootsIn(h, spaces)
  {
    forall i :: 0 <= i < |spaces| ==> i in missed || IsRendering(h, rank, spaces[i].root, spaces[i].currentMap)
  }

  ghost predicate AllRendered(h: Heap, rank: Rank, spaces: seq<AddressSpace>)
    requires WellFormed(h, rank) && RootsIn(h, spaces)
  {
    RenderedExcept(h, rank, spaces, {})
  }

  /** The address spaces whose view goes stale when `sub` moves to `offset` without an update. */
  ghost function Missed(h: Heap, rank: Rank, spaces: seq<AddressSpace>, sub: RegionId, offset: int): set<nat>
    requires WellFormed(h, rank) && sub in h
  {
    set i: nat |
      0 <= i < |spaces| && spaces[i].root == Some(sub) && !ViewKept(h, rank, sub, offset, spaces[i].currentMap)
  }

  /** Between similar graphs only the views of the region that moved can go stale, and exactly the missed
      ones do. */
  lemma SimilarStep(h: Heap, rank: Rank, h': Heap, rank': Rank, spaces: seq<AddressSpace>, sub: RegionId,
                    missed: set<nat>)
    requires WellFormed(h, rank) && WellFormed(h', rank') && Similar(h, h') && RootsIn(h, spaces) && sub in h
    requires Placed(h) && Placed(h') && forall r :: r in h && r != sub ==> h'[r].addr == h[r].addr
    ensures var out := Missed(h, rank, spaces, sub, h'[sub].addr);
      && (RenderedExcept(h, rank, spaces, missed) ==> RenderedExcept(h', rank', spaces, missed + out))
      && (AllRendered(h, rank, spaces) ==> (AllRendered(h', rank', spaces) <==> out == {}))
  {
    var out := Missed(h, rank, spaces, sub, h'[sub].addr);
    forall i: nat | i < |spaces| && IsRendering(h, rank, spaces[i].root, spaces[i].currentMap)
      ensures IsRendering(h', rank', spaces[i].root, spaces[i].currentMap) <==> i !in out
    {
      if spaces[i].root == Some(sub) {
        ViewKeptIff(h, rank, h', rank', sub, spaces[i].currentMap);
      } else {
        SimilarRendering(h, rank, h', rank', spaces[i].root, spaces[i].currentMap);
      }
    }
    if AllRendered(h, rank, spaces) && out != {} {
      var i :| i in out;
      assert IsRendering(h, rank, spaces[i].root, spaces[i].currentMap);
    }
  }

  lemma NoneMissed(h: Heap, rank: Rank, spaces: seq<AddressSpace>, sub: RegionId)
    requires WellFormed(h, rank) && sub in h
    ensures Missed(h, rank, spaces, sub, h[sub].addr) == {}
  {
  }

  /** What is missed does not depend on changes that cannot be seen. */
  lemma SameMissed(h: Heap, rank: Rank, h': Heap, rank': Rank, spaces: seq<AddressSpace>, sub: RegionId, offset: int)
    requires WellFormed(h, rank) && WellFormed(h', rank') && Similar(h, h') && sub in h && h'[sub].addr == h[sub].addr
    ensures Missed(h, rank, spaces, sub, offset) == Missed(h', rank', spaces, sub, offset)
  {
    forall b ensures Resolve(h', rank', sub, h'[sub].addr, false, b) == Resolve(h, rank, sub, h[sub].addr, false, b) {
      SimilarResolve(h, rank, h', rank', sub, h[sub].addr, false, b);
    }
    assert ShowsNothingAt(h, rank, sub, offset) <==> ShowsNothingAt(h', rank', sub, offset);
    assert forall i: nat :: i < |spaces| ==>
      ViewKept(h, rank, sub, offset, spaces[i].currentMap) == ViewKept(h', rank', sub, offset, spaces[i].currentMap);
  }

  /** Everything a subregion list insertion must re-establish. */
  /** Without an update exactly the views in `out` go stale. */
  ghost predicate GoStale(h: Heap, rank: Rank, h': Heap, rank': Rank, spaces: seq<AddressSpace>, missed: set<nat>,
                          out: set<nat>)
    requires WellFormed(h, rank) && RootsIn(h, spaces) && WellFormed(h', rank') && RootsIn(h', spaces)
  {
    && (RenderedExcept(h, rank, spaces, missed) ==> RenderedExcept(h', rank', spaces, missed + out))
    && (AllRendered(h, rank, spaces) ==> (AllRendered(h', rank', spaces) <==> out == {}))
  }

  lemma AttachStep(h: Heap, rank: Rank, newRank: Rank, spaces: seq<AddressSpace>, missed: set<nat>,
                   mr: RegionId, offset: int, sub: RegionId, priority: nat, overlap: bool, h': Heap)
    requires WellFormed(h, rank) && Linked(h) && RootsIn(h, spaces) && Placed(h) && 0 <= offset
    requires mr in h && sub in h && mr != sub && h[sub].parent.None? && LinkedAt(h, mr)
    requires WellFormed(h, newRank) && mr in newRank && Edge(h, newRank, mr, sub)
    requires h' == Attach(h, mr, offset, sub, priority, overlap)
    ensures WellFormed(h', newRank) && Linked(h') && RootsIn(h', spaces) && Placed(h')
    ensures !(h[mr].enabled && h[sub].enabled) ==>
      GoStale(h, rank, h', newRank, spaces, missed, Missed(h, rank, spaces, sub, offset))
  {
    AttachLinked(h, mr, offset, sub, priority, overlap);
    AttachWellFormed(h, newRank, mr, offset, sub, priority, overlap);
    if !(h[mr].enabled && h[sub].enabled) {
      AttachInvisible(h, mr, offset, sub, priority, overlap);
      SimilarStep(h, rank, h', newRank, spaces, sub, missed);
    }
  }

  lemma DetachStep(h: Heap, rank: Rank, spaces: seq<AddressSpace>, missed: set<nat>, mr: RegionId, sub: RegionId)
    requires WellFormed(h, rank) && Linked(h) && RootsIn(h, spaces) && Placed(h)
    requires mr in h && sub in h && h[sub].parent == Some(mr)
    ensures mr != sub && mr in rank && Edge(h, rank, mr, sub)
    ensures var h' := Detach(h, mr, sub);
      && WellFormed(h', rank) && Linked(h') && RootsIn(h', spaces) && Placed(h')
      && (!(h[mr].enabled && h[sub].enabled) ==> Similar(h, h'))
      && (!(h[mr].enabled && h[sub].enabled) && RenderedExcept(h, rank, spaces, missed) ==>
          RenderedExcept(h', rank, spaces, missed))
  {
    assert LinkedAt(h, sub) && LinkedAt(h, mr);
    assert RegionOk(h, rank, mr);
    DetachLinked(h, mr, sub);
    DetachWellFormed(h, rank, mr, sub);
    if !(h[mr].enabled && h[sub].enabled) {
      DetachInvisible(h, mr, sub);
      NoneMissed(h, rank, spaces, sub);
      SimilarStep(h, rank, Detach(h, mr, sub), rank, spaces, sub, missed);
      assert missed + {} == missed;
    }
  }

  // ----- new regions -----

  /** A region that nothing refers to yet: no parent, no subregions, placed at zero. */
  ghost predicate IsNew(h: Heap, r: Region) {
    && r.parent.None? && r.subregions == [] && r.size >= 0 && r.addr == 0
    && (r.alias.Some? ==> r.alias.value in h)
  }

  ghost function RankWith(h: Heap, rank: Rank, id: RegionId, r: Region): Rank
    requires WellFormed(h, rank) && IsNew(h, r)
  {
    assert r.alias.Some? ==> RegionOk(h, rank, r.alias.value);
    rank[id := if r.alias.Some? then rank[r.alias.value] + 1 else 0]
  }

  /** Adding a region changes nothing that can be seen. */
  lemma NewInvisible(h: Heap, rank: Rank, id: RegionId, r: Region)
    requires WellFormed(h, rank) && Linked(h) && id !in h && IsNew(h, r)
    ensures WellFormed(h[id := r], RankWith(h, rank, id, r)) && Linked(h[id := r]) && Similar(h, h[id := r])
  {
    var h', rank' := h[id := r], RankWith(h, rank, id, r);
    assert r.alias.Some? ==> RegionOk(h, rank, r.alias.value);
    forall x | x in h' ensures RegionOk(h', rank', x) && LinkedAt(h', x) {
      if x != id {
        assert RegionOk(h, rank, x) && LinkedAt(h, x);
        ListOkFrame(h, h', h[x].subregions);
        assert forall i :: 0 <= i < |h[x].subregions| ==> Edge(h, rank, x, h[x].subregions[i]);
      }
    }
    forall x | x in h ensures SimilarAt(h, h', x) {
      assert RegionOk(h, rank, x) && LinkedAt(h, x);
      assert forall i :: 0 <= i < |h[x].subregions| ==> Edge(h, rank, x, h[x].subregions[i]);
      SimilarElsewhere(h, h', x);
    }
  }

  /** The search of memory_region_add_subregion_common. */
  method FindSlot(h: Heap, subs: seq<RegionId>, priority: nat) returns (p: nat)
    requires forall i :: 0 <= i < |subs| ==> subs[i] in h
    ensures p == Slot(h, subs, priority)
  {
    p := 0;
    while p < |subs| && !(priority >= h[subs[p]].priority)
      invariant 0 <= p <= |subs|
      invariant forall i :: 0 <= i < p ==> h[subs[i]].priority > priority
    {
      p := p + 1;
    }
  }

  /** The insertion of memory_region_add_subregion_common. */
  method PutInto(h: Heap, mr: RegionId, offset: int, sub: RegionId, priority: nat, overlap: bool) returns (h': Heap)
    requires mr in h && sub in h && mr != sub
    requires forall i :: 0 <= i < |h[mr].subregions| ==> h[mr].subregions[i] in h
    ensures h' == Attach(h, mr, offset, sub, priority, overlap)
  {
    var subs := h[mr].subregions;
    var p := FindSlot(h, subs, priority);
    h' := h[sub := h[sub].(parent := Some(mr), addr := offset, priority := priority, mayOverlap := overlap)];
    h' := h'[mr := h'[mr].(subregions := subs[..p] + [sub] + subs[p..])];
  }

  class MemoryCore {
    var h: Heap
    ghost var rank: Rank
    var spaces: seq<AddressSpace>
    var depth: nat
    var pending: bool
    /** The address spaces that went stale without an update being asked for. */
    ghost var missed: set<nat>

    ghost predicate Graph()
      reads this
    {
      && WellFormed(h, rank) && Linked(h) && Placed(h)
      && RootsIn(h, spaces) && forall i :: 0 <= i < |spaces| ==> Sorted(spaces[i].currentMap)
    }

    /** Every address space holds the rendering of its root: what updating eagerly after each
        edit would leave. */
    ghost predicate UpToDate()
      reads this
      requires Graph()
    {
      AllRendered(h, rank, spaces)
    }

    /** An update is pending whenever some view but a missed one may be stale; none is pending outside a
        transaction. */
    ghost predicate Valid()
      reads this
    {
      Graph() && (!pending ==> RenderedExcept(h, rank, spaces, missed)) && (depth == 0 ==> !pending)
    }

    /** The address spaces that miss the move of `sub` to `offset` if no update is asked for. */
    ghost function MissedBy(sub: RegionId, offset: int): set<nat>
      reads this
      requires Graph() && sub in h
    {
      Missed(h, rank, spaces, sub, offset)
    }

    /** Same address spaces, up to their current maps. */
    static ghost predicate SameRoots(s: seq<AddressSpace>, t: seq<AddressSpace>) {
      |s| == |t| && forall i :: 0 <= i < |s| ==> s[i].root == t[i].root
    }

    constructor ()
      ensures Valid() && UpToDate() && h == map[] && spaces == [] && depth == 0 && missed == {}
    {
      h, rank, spaces, depth, pending, missed := map[], map[], [], 0, false, {};
    }

    /** memory_region_init and its variants. */
    method InitRegion(id: RegionId, r: Region)
      requires Valid() && id !in h && IsNew(h, r)
      modifies this
      ensures Valid() && h == old(h)[id := r] && spaces == old(spaces) && depth == old(depth)
      ensures pending == old(pending) && missed == old(missed)
    {
      NewInvisible(h, rank, id, r);
      if !pending {
        forall i | 0 <= i < |spaces| && i !in missed
          ensures IsRendering(h[id := r], RankWith(h, rank, id, r), spaces[i].root, spaces[i].currentMap)
        {
          SimilarRendering(h, rank, h[id := r], RankWith(h, rank, id, r), spaces[i].root, spaces[i].currentMap);
        }
      }
      rank := RankWith(h, rank, id, r);
      h := h[id := r];
    }

    /** address_space_init: the view starts out empty, and no update is asked for.  It is right at once if
        and only if the root shows nothing. */
    method InitSpace(root: RegionId)
      requires Valid() && root in h
      modifies this
      ensures Valid() && h == old(h) && rank == old(rank) && spaces == old(spaces) + [AddressSpace(Some(root), [])]
      ensures depth == old(depth) && pending == old(pending)
      ensures missed ==
        old(missed) + if forall a :: ResolveRoot(h, rank, Some(root), a) == None then {} else {|old(spaces)|}
      ensures old(UpToDate()) ==> (UpToDate() <==> forall a :: ResolveRoot(h, rank, Some(root), a) == None)
    {
      Begin();
      ghost var n := |spaces|;
      ghost var was := spaces;
      ghost var hidden := forall a :: ResolveRoot(h, rank, Some(root), a) == None;
      spaces := spaces + [AddressSpace(Some(root), [])];
      assert hidden <==> IsRendering(h, rank, Some(root), []);
      missed := missed + if hidden then {} else {n};
      assert forall i :: 0 <= i < n ==> spaces[i] == was[i];
      assert spaces[n] == AddressSpace(Some(root), []);
      Commit();
    }

    method Begin()
      requires Valid()
      modifies this
      ensures Valid() && depth == old(depth) + 1
      ensures h == old(h) && rank == old(rank) && spaces == old(spaces) && pending == old(pending)
      ensures missed == old(missed)
    {
      depth := depth + 1;
    }

    /** memory_region_transaction_commit; leaving the outermost transaction with an update pending brings
        every view up to date, the missed ones included. */
    method Commit()
      requires Valid() && depth > 0
      modifies this
      ensures Valid() && depth == old(depth) - 1
      ensures h == old(h) && rank == old(rank) && SameRoots(spaces, old(spaces))
      ensures depth == 0 && old(pending) ==> UpToDate() && missed == {}
      ensures depth > 0 || !old(pending) ==> pending == old(pending) && spaces == old(spaces) && missed == old(missed)
    {
      depth := depth - 1;
      if depth == 0 && pending {
        pending := false;
        missed := {};
        var i := 0;
        while i < |spaces|
          invariant 0 <= i <= |spaces|
          invariant h == old(h) && rank == old(rank) && depth == 0 && !pending && Graph() && missed == {}
          invariant SameRoots(spaces, old(spaces))
          invariant forall k :: 0 <= k < i ==> IsRendering(h, rank, spaces[k].root, spaces[k].currentMap)
        {
          var view := GenerateTopology(h, rank, spaces[i].root);
          spaces := spaces[i := AddressSpace(spaces[i].root, view)];
          i := i + 1;
        }
      }
    }

    /** The common shape of the attribute setters. */
    method EditRegion(mr: RegionId, r: Region, update: bool)
      requires Valid() && mr in h && KeepsLinks(h[mr], r) && r.addr == h[mr].addr
      requires !update ==> !h[mr].enabled && !r.enabled
      modifies this
      ensures Valid() && depth == old(depth)
      ensures h == old(h)[mr := r] && SameRoots(spaces, old(spaces))
      ensures missed == if depth == 0 && update then {} else old(missed)
    {
      Begin();
      UpdateWellFormed(h, rank, mr, r);
      if !update && !pending {
        DisabledInvisible(h, mr, r);
        NoneMissed(h, rank, spaces, mr);
        SimilarStep(h, rank, h[mr := r], rank, spaces, mr, missed);
        assert missed + {} == missed;
      }
      h := h[mr := r];
      pending := pending || update;
      Commit();
    }

    method SetLog(mr: RegionId, log: bool, client: nat)
      requires Valid() && mr in h && client < 8
      modifies this
      ensures Valid() && depth == old(depth) && SameRoots(spaces, old(spaces)) && missed <= old(missed)
      ensures h == old(h)[mr := old(h)[mr].(dirtyLogMask := WithBit(old(h)[mr].dirtyLogMask, client, log))]
    {
      EditRegion(mr, h[mr].(dirtyLogMask := WithBit(h[mr].dirtyLogMask, client, log)), h[mr].enabled);
    }

    method SetReadonly(mr: RegionId, readonly: bool)
      requires Valid() && mr in h
      modifies this
      ensures Valid() && depth == old(depth) && SameRoots(spaces, old(spaces)) && missed <= old(missed)
      ensures h == old(h)[mr := old(h)[mr].(readonly := readonly)]
    {
      if h[mr].readonly != readonly {
        EditRegion(mr, h[mr].(readonly := readonly), h[mr].enabled);
      }
    }

    method RomDeviceSetReadable(mr: RegionId, readable: bool)
      requires Valid() && mr in h
      modifies this
      ensures Valid() && depth == old(depth) && SameRoots(spaces, old(spaces)) && missed <= old(missed)
      ensures h == old(h)[mr := old(h)[mr].(readable := readable)]
    {
      if h[mr].readable != readable {
        EditRegion(mr, h[mr].(readable := readable), h[mr].enabled);
      }
    }

    method SetEnabled(mr: RegionId, enabled: bool)
      requires Valid() && mr in h
      modifies this
      ensures Valid() && depth == old(depth) && SameRoots(spaces, old(spaces)) && missed <= old(missed)
      ensures h == old(h)[mr := old(h)[mr].(enabled := enabled)]
    {
      if enabled != h[mr].enabled {
        EditRegion(mr, h[mr].(enabled := enabled), true);
      }
    }

    method SetAliasOffset(mr: RegionId, offset: int)
      requires Valid() && mr in h && h[mr].alias.Some?
      modifies this
      ensures Valid() && depth == old(depth) && SameRoots(spaces, old(spaces)) && missed <= old(missed)
      ensures h == old(h)[mr := old(h)[mr].(aliasOffset := offset)]
    {
      if offset != h[mr].aliasOffset {
        EditRegion(mr, h[mr].(aliasOffset := offset), h[mr].enabled);
      }
    }

    /** memory_region_add_subregion_common.  `newRank` witnesses that the new edge closes no
        cycle.  If the addition is not seen, exactly the spaces that miss the move go stale. */
    method AddSubregionCommon(mr: RegionId, offset: int, sub: RegionId, priority: nat, overlap: bool,
                              ghost newRank: Rank)
      requires Valid() && mr in h && sub in h && h[sub].parent.None? && 0 <= offset
      requires WellFormed(h, newRank) && mr in newRank && Edge(h, newRank, mr, sub)
      modifies this
      ensures Valid() && depth == old(depth) && SameRoots(spaces, old(spaces)) && rank == newRank
      ensures mr != sub && LinkedAt(old(h), mr) && h == Attach(old(h), mr, offset, sub, priority, overlap)
      ensures var seen := old(h[mr].enabled && h[sub].enabled);
        && (pending <==> depth > 0 && (old(pending) || seen))
        && (depth > 0 || !seen ==> spaces == old(spaces))
        && missed == (if seen then if depth == 0 then {} else old(missed) else old(missed + MissedBy(sub, offset)))
        && (!seen && old(!pending && UpToDate()) ==> (UpToDate() <==> old(MissedBy(sub, offset)) == {}))
    {
      Begin();
      Link(mr, offset, sub, priority, overlap, newRank);
      Commit();
    }

    /** Inside the transaction: the child is linked, and an update asked for if both are enabled. */
    method Link(mr: RegionId, offset: int, sub: RegionId, priority: nat, overlap: bool, ghost newRank: Rank)
      requires Valid() && depth > 0 && mr in h && sub in h && h[sub].parent.None? && 0 <= offset
      requires WellFormed(h, newRank) && mr in newRank && Edge(h, newRank, mr, sub)
      modifies `h, `rank, `pending, `missed
      ensures Valid() && rank == newRank
      ensures mr != sub && LinkedAt(old(h), mr) && h == Attach(old(h), mr, offset, sub, priority, overlap)
      ensures var seen := old(h[mr].enabled && h[sub].enabled);
        && pending == (old(pending) || seen)
        && missed == (if seen then old(missed) else old(missed + MissedBy(sub, offset)))
        && (!seen && old(!pending && UpToDate()) ==> (UpToDate() <==> old(MissedBy(sub, offset)) == {}))
    {
      assert LinkedAt(h, mr);
      var linked := PutInto(h, mr, offset, sub, priority, overlap);
      AttachStep(h, rank, newRank, spaces, missed, mr, offset, sub, priority, overlap, linked);
      Adopt(linked, newRank, h[mr].enabled && h[sub].enabled, MissedBy(sub, offset));
    }

    /** The graph becomes `linked`; if that is not seen, the spaces in `out` miss it. */
    method Adopt(linked: Heap, ghost newRank: Rank, seen: bool, ghost out: set<nat>)
      requires Valid() && depth > 0
      requires WellFormed(linked, newRank) && Linked(linked) && RootsIn(linked, spaces) && Placed(linked)
      requires !seen ==> GoStale(h, rank, linked, newRank, spaces, missed, out)
      modifies `h, `rank, `pending, `missed
      ensures Valid() && h == linked && rank == newRank
      ensures pending == (old(pending) || seen) && missed == if seen then old(missed) else old(missed) + out
      ensures !seen && old(!pending && UpToDate()) ==> (UpToDate() <==> out == {})
    {
      missed := missed + if seen then {} else out;
      h, rank := linked, newRank;
      pending := pending || seen;
    }

    method DelSubregion(mr: RegionId, sub: RegionId)
      requires Valid() && mr in h && sub in h && h[sub].parent == Some(mr)
      modifies this
      ensures Valid() && depth == old(depth) && SameRoots(spaces, old(spaces)) && rank == old(rank)
      ensures mr != sub && h == Detach(old(h), mr, sub)
      ensures var seen := old(h[mr].enabled && h[sub].enabled);
        && (pending <==> depth > 0 && (old(pending) || seen))
        && (depth > 0 || !seen ==> spaces == old(spaces))
        && missed == if seen && depth == 0 then {} else old(missed)
    {
      Begin();
      DetachStep(h, rank, spaces, missed, mr, sub);
      var seen := h[mr].enabled && h[sub].enabled;
      h := h[sub := h[sub].(parent := None)][mr := h[mr].(subregions := Without(h[mr].subregions, sub))];
      pending := pending || seen;
      Commit();
    }

    method AddSubregion(mr: RegionId, offset: int, sub: RegionId, ghost newRank: Rank)
      requires Valid() && mr in h && sub in h && h[sub].parent.None? && 0 <= offset
      requires WellFormed(h, newRank) && mr in newRank && Edge(h, newRank, mr, sub)
      modifies this
      ensures Valid() && depth == old(depth) && SameRoots(spaces, old(spaces)) && rank == newRank
      ensures mr != sub && LinkedAt(old(h), mr) && h == Attach(old(h), mr, offset, sub, 0, false)
      ensures missed <= old(missed) + if old(h[mr].enabled && h[sub].enabled) then {} else old(MissedBy(sub, offset))
      ensures !old(h[mr].enabled && h[sub].enabled) && old(!pending && UpToDate()) ==>
        (UpToDate() <==> old(MissedBy(sub, offset)) == {})
    {
      AddSubregionCommon(mr, offset, sub, 0, false, newRank);
    }

    method AddSubregionOverlap(mr: RegionId, offset: int, sub: RegionId, priority: nat, ghost newRank: Rank)
      requires Valid() && mr in h && sub in h && h[sub].parent.None? && 0 <= offset
      requires WellFormed(h, newRank) && mr in newRank && Edge(h, newRank, mr, sub)
      modifies this
      ensures Valid() && depth == old(depth) && SameRoots(spaces, old(spaces)) && rank == newRank
      ensures mr != sub && LinkedAt(old(h), mr) && h == Attach(old(h), mr, offset, sub, priority, true)
      ensures missed <= old(missed) + if old(h[mr].enabled && h[sub].enabled) then {} else old(MissedBy(sub, offset))
      ensures !old(h[mr].enabled && h[sub].enabled) && old(!pending && UpToDate()) ==>
        (UpToDate() <==> old(MissedBy(sub, offset)) == {})
    {
      AddSubregionCommon(mr, offset, sub, priority, true, newRank);
    }

    /** The move of `mr` asks for an update: it is listed below an enabled parent. */
    ghost predicate MoveSeen(mr: RegionId, addr: int)
      reads this
      requires mr in h
    {
      && addr != h[mr].addr && h[mr].enabled
      && h[mr].parent.Some? && h[mr].parent.value in h && h[h[mr].parent.value].enabled
    }

    /** memory_region_set_address: a parented region is taken out and put back at the front of
        its priority class; a region without parent just changes its field. */
    method SetAddress(mr: RegionId, addr: int)
      requires Valid() && mr in h && 0 <= addr
      modifies this
      ensures Valid() && depth == old(depth) && SameRoots(spaces, old(spaces))
      ensures var r := old(h)[mr];
        if addr == r.addr || r.parent.None? then h == old(h)[mr := r.(addr := addr)]
        else r.parent.value in old(h) && r.parent.value != mr && IsReinserted(old(h), h, r.parent.value, mr, addr)
      ensures !old(MoveSeen(mr, addr)) ==> missed == old(missed + MissedBy(mr, addr))
      ensures old(MoveSeen(mr, addr)) ==> missed == if depth == 0 then {} else old(missed)
      ensures !old(MoveSeen(mr, addr)) && old(!pending && UpToDate()) ==>
        (UpToDate() <==> old(MissedBy(mr, addr)) == {})
    {
      assert LinkedAt(h, mr);
      var parent, priority, overlap := h[mr].parent, h[mr].priority, h[mr].mayOverlap;
      if addr == h[mr].addr || parent.None? {
        MoveField(mr, addr);
      } else {
        Reinsert(parent.value, mr, addr, priority, overlap);
      }
    }

    /** Move a region that no list holds, or not at all. */
    method MoveField(mr: RegionId, addr: int)
      requires Valid() && mr in h && 0 <= addr && (addr == h[mr].addr || h[mr].parent.None?)
      modifies this
      ensures Valid() && depth == old(depth) && spaces == old(spaces) && h == Moved(old(h), mr, addr)
      ensures missed == old(missed + MissedBy(mr, addr))
      ensures old(!pending && UpToDate()) ==> (UpToDate() <==> old(MissedBy(mr, addr)) == {})
    {
      MoveAlone(h, rank, mr, addr);
      SimilarStep(h, rank, Moved(h, mr, addr), rank, spaces, mr, missed);
      missed := missed + MissedBy(mr, addr);
      h := Moved(h, mr, addr);
    }

    /** Take `mr` out of its parent and put it back at `addr`, in one transaction. */
    method Reinsert(parent: RegionId, mr: RegionId, addr: int, priority: nat, overlap: bool)
      requires Valid() && mr in h && parent in h && h[mr].parent == Some(parent) && 0 <= addr
      requires priority == h[mr].priority && overlap == h[mr].mayOverlap
      modifies this
      ensures Valid() && depth == old(depth) && SameRoots(spaces, old(spaces))
      ensures mr != parent && IsReinserted(old(h), h, parent, mr, addr)
      ensures var seen := old(h[parent].enabled && h[mr].enabled);
        && missed == (if seen then if depth == 0 then {} else old(missed) else old(missed + MissedBy(mr, addr)))
        && (!seen && old(!pending && UpToDate()) ==> (UpToDate() <==> old(MissedBy(mr, addr)) == {}))
    {
      Begin();
      DetachStep(h, rank, spaces, missed, parent, mr);
      DetachStep(h, rank, spaces, {}, parent, mr);
      ghost var was, seen := h, h[parent].enabled && h[mr].enabled;
      DelSubregion(parent, mr);
      if !seen {
        SameMissed(was, rank, h, rank, spaces, mr, addr);
      }
      // add_subregion_overlap keeps the priority, add_subregion resets it
      AddSubregionCommon(parent, addr, mr, if overlap then priority else 0, overlap, rank);
      Commit();
    }
  }
}
