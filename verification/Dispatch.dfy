/**
  Address dispatch (exec.c): sections, sub-page tables, and mem_add, which files one flat
  range after another in the radix tree.

  `Lookup` is what an access does: phys_page_find, then the sub-page table if the page has
  one.  The end-to-end result is that it agrees with the flat view at every address.
 */
module Dispatch {
  import opened Options
  import opened FlatViews
  import opened PhysMaps
  import opened Units

  /** A MemoryRegion as dispatch sees it: a guest region or one of the built-in ones. */
  datatype Target =
    | Region(id: RegionId)
    | Unassigned
    | NotDirty
    | Rom
    | Watch
    | SubpageRam
    | Subpage(index: nat)

  datatype Section = Section(mr: Target, offsetInRegion: int, size: int, offsetInSpace: int)

  /** The table of one page that several sections share; entries are section numbers. */
  datatype SubpageTable = SubpageTable(base: int, sub: seq<nat>)

  /** Where an access ends up. */
  datatype Hit = Hit(mr: Target, offset: int)

  function SectionHit(s: Section, a: int): Hit {
    Hit(s.mr, a - s.offsetInSpace + s.offsetInRegion)
  }

  ghost predicate TablesOk(sections: seq<Section>, subpages: seq<SubpageTable>) {
    && |sections| > 0 && sections[UNASSIGNED].mr == Unassigned
    && sections[UNASSIGNED].offsetInRegion == sections[UNASSIGNED].offsetInSpace == 0
    && (forall k :: 0 <= k < |subpages| ==> |subpages[k].sub| == PAGE_SIZE)
    && (forall k, j :: 0 <= k < |subpages| && 0 <= j < PAGE_SIZE && j < |subpages[k].sub| ==>
      subpages[k].sub[j] < |sections| && !sections[subpages[k].sub[j]].mr.Subpage?)
  }

  /** Page `p` is filed under section `s`; a sub-page table belongs to one page only. */
  ghost predicate FiledOk(sections: seq<Section>, subpages: seq<SubpageTable>, p: nat, s: nat) {
    && s < |sections|
    && (sections[s].mr.Subpage? ==>
      sections[s].mr.index < |subpages| && subpages[sections[s].mr.index].base == p * PAGE_SIZE
      && sections[s].offsetInSpace == p * PAGE_SIZE && sections[s].offsetInRegion == 0)
  }

  /** The outcome of an access at `a` whose page is filed under section `s`. */
  ghost function Outcome(sections: seq<Section>, subpages: seq<SubpageTable>, s: nat, a: nat): Hit
    requires TablesOk(sections, subpages) && FiledOk(sections, subpages, a / PAGE_SIZE, s)
  {
    if sections[s].mr.Subpage? then
      var table := subpages[sections[s].mr.index];
      // subpage_read gets the offset inside the page and adds the page base back
      var addr := SectionHit(sections[s], a).offset + table.base;
      SectionHit(sections[table.sub[a % PAGE_SIZE]], addr)
    else SectionHit(sections[s], a)
  }

  /** Unsigned 32-bit view of an integer. */
  function ToU32(x: int): nat { x % 0x1_0000_0000 }

  ghost function FillSub(sub: seq<nat>, start: nat, end: nat, id: nat): seq<nat> {
    seq(|sub|, j requires 0 <= j < |sub| => if start <= j < end then id else sub[j])
  }

  /** Changing one page's table changes accesses to that page only, on the filled entries. */
  lemma FilledOutcome(sections: seq<Section>, subpages: seq<SubpageTable>, k: nat, start: nat, end: nat, id: nat,
                      s: nat, a: nat)
    requires TablesOk(sections, subpages) && k < |subpages| && id < |sections| && !sections[id].mr.Subpage?
    requires FiledOk(sections, subpages, a / PAGE_SIZE, s)
    ensures var subpages' := subpages[k := subpages[k].(sub := FillSub(subpages[k].sub, start, end, id))];
      && TablesOk(sections, subpages') && FiledOk(sections, subpages', a / PAGE_SIZE, s)
      && Outcome(sections, subpages', s, a) ==
        if sections[s].mr == Subpage(k) && start <= a % PAGE_SIZE < end then SectionHit(sections[id], a)
        else Outcome(sections, subpages, s, a)
  {
    assert a == (a / PAGE_SIZE) * PAGE_SIZE + a % PAGE_SIZE;
  }

  /** What is left of a section once its first `n` bytes are filed. */
  function Advance(s: Section, n: int): Section {
    s.(offsetInRegion := s.offsetInRegion + n, size := s.size - n, offsetInSpace := s.offsetInSpace + n)
  }

  predicate Covers(s: Section, a: int) { s.offsetInSpace <= a < s.offsetInSpace + s.size }

  /** The page of `a` lies wholly inside the section and at a page boundary of the region. */
  predicate WholePage(s: Section, a: int) {
    var page := a - a % PAGE_SIZE;
    s.offsetInSpace <= page && page + PAGE_SIZE <= s.offsetInSpace + s.size
    && (s.offsetInRegion + (page - s.offsetInSpace)) % PAGE_SIZE == 0
  }

  /** In the page loop every page is inside the section, so it is whole exactly when the region
      offset is aligned. */
  lemma LoopPage(s: Section, remain: Section, size: int, a: int)
    requires s.offsetInSpace >= 0 && s.offsetInSpace <= remain.offsetInSpace
    requires remain == Advance(s, remain.offsetInSpace - s.offsetInSpace) && remain.offsetInSpace % PAGE_SIZE == 0
    requires size % PAGE_SIZE == 0 && 0 <= size <= remain.size
    requires remain.offsetInSpace <= a < remain.offsetInSpace + size
    ensures WholePage(s, a) <==> remain.offsetInRegion % PAGE_SIZE == 0
    ensures SectionHit(remain.(size := size), a) == SectionHit(s, a)
  {
    var page := a - a % PAGE_SIZE;
    assert page % PAGE_SIZE == 0;
    var k := (page - remain.offsetInSpace) / PAGE_SIZE;
    assert page == remain.offsetInSpace + k * PAGE_SIZE;
    assert s.offsetInRegion + (page - s.offsetInSpace) == remain.offsetInRegion + k * PAGE_SIZE;
    assert (remain.offsetInRegion + k * PAGE_SIZE) % PAGE_SIZE == remain.offsetInRegion % PAGE_SIZE;
  }

  /** The head lies in one page, which is not wholly the section's. */
  lemma HeadIsPart(s: Section, now: Section)
    requires s.offsetInSpace >= 0 && (s.offsetInSpace % PAGE_SIZE != 0 || s.size < PAGE_SIZE) && 0 <= now.size <= s.size
    requires now == s.(size := now.size) && s.offsetInSpace % PAGE_SIZE + now.size <= PAGE_SIZE
    ensures forall a :: Covers(now, a) ==> !WholePage(s, a)
  {
    forall a | Covers(now, a) ensures !WholePage(s, a) {
      assert a - a % PAGE_SIZE == s.offsetInSpace - s.offsetInSpace % PAGE_SIZE;
    }
  }

  /** The section's pages start at page boundaries of its region. */
  predicate PageAligned(s: Section) { (s.offsetInRegion - s.offsetInSpace) % PAGE_SIZE == 0 }

  /** Nodes that the page loop and the tail may allocate for `size` bytes, at `c` nodes per piece: all
      whole pages are one piece if the section is page-aligned, otherwise each page is one. */
  function RestCost(c: nat, aligned: bool, size: int): nat
    decreases if size < 0 then 0 else size
  {
    if size < PAGE_SIZE then c else if aligned then 2 * c else c + RestCost(c, aligned, size - PAGE_SIZE)
  }

  /** Nodes that filing a section may allocate: the head is one more piece. */
  function Cost(c: nat, s: Section): nat {
    c + RestCost(c, PageAligned(s), s.size)
  }

  lemma {:induction false} CostMono(c: nat, aligned: bool, size: int, size': int)
    requires size <= size'
    ensures c <= RestCost(c, aligned, size) <= RestCost(c, aligned, size')
    decreases if size' < 0 then 0 else size'
  {
    if size' >= PAGE_SIZE {
      CostMono(c, aligned, size - PAGE_SIZE, size' - PAGE_SIZE);
    }
  }

  /** One turn of the page loop pays for one piece. */
  lemma TurnCost(c: nat, aligned: bool, size: int, rest: int)
    requires PAGE_SIZE <= size && rest <= size - PAGE_SIZE && (aligned ==> rest < PAGE_SIZE)
    ensures c <= RestCost(c, aligned, rest) <= RestCost(c, aligned, size) - c
  {
    CostMono(c, aligned, rest, size - PAGE_SIZE);
  }

  /** The section a listener is handed for a flat range. */
  function SectionOf(fr: FlatRange): Section {
    Section(Region(fr.mr), fr.offset, fr.addr.size, fr.addr.start)
  }

  function TotalCost(c: nat, view: seq<FlatRange>): nat {
    if view == [] then 0 else Cost(c, SectionOf(view[0])) + TotalCost(c, view[1..])
  }

  /** Ranges whose pages are page-aligned cost three pieces each, however long they are. */
  lemma {:induction false} AlignedCost(c: nat, view: seq<FlatRange>)
    requires forall i :: 0 <= i < |view| ==> PageAligned(SectionOf(view[i]))
    ensures TotalCost(c, view) <= 3 * c * |view|
  {
    if view != [] {
      AlignedCost(c, view[1..]);
      calc {
        3 * c * |view|;
        3 * c * (|view[1..]| + 1);
        3 * c * |view[1..]| + 3 * c;
      }
    }
  }

  /** How an access sees a section once mem_add has filed it: RAM in pages that are not whole
      goes through the sub-page stand-in. */
  ghost function RangeHit(ram: set<RegionId>, s: Section, a: int): Hit
    requires s.mr.Region?
  {
    if WholePage(s, a) then SectionHit(s, a) else Piece(ram, s, a)
  }

  /** How an access sees a section filed through a sub-page table. */
  ghost function Piece(ram: set<RegionId>, s: Section, a: int): Hit {
    Hit(if s.mr.Region? && s.mr.id in ram then SubpageRam else s.mr, SectionHit(s, a).offset)
  }

  /** A page is unassigned, has a sub-page table, or belongs to one section. */
  datatype PageUse = Free | Shared | Taken

  class AddressSpaceDispatch {
    const pages: PhysMap
    const ram: set<RegionId>
    var sections: seq<Section>
    var subpages: seq<SubpageTable>
    ghost var hits: seq<Hit>
    ghost var uses: seq<PageUse>

    /** The state of the tables themselves. */
    ghost predicate Core()
      reads this, pages
    {
      && pages.Valid() && TablesOk(sections, subpages)
      && forall p: nat :: p < Step(pages.levels) ==> FiledOk(sections, subpages, p, pages.Map(p))
    }

    ghost predicate InSpace(a: int)
    {
      0 <= a < Step(pages.levels) * PAGE_SIZE
    }

    ghost function Lookup(a: nat): Hit
      requires Core() && InSpace(a)
      reads this, pages
    {
      Outcome(sections, subpages, pages.Map(a / PAGE_SIZE), a)
    }

    ghost function UseOf(p: nat): PageUse
      requires Core() && p < Step(pages.levels)
      reads this, pages
    {
      if pages.Map(p) == UNASSIGNED then Free
      else if sections[pages.Map(p)].mr.Subpage? then Shared
      else Taken
    }

    /** `hits` and `uses` record the outcome of every access and the use of every page. */
    ghost predicate Valid()
      reads this, pages
    {
      && Core()
      && |uses| == Step(pages.levels) && |hits| == Step(pages.levels) * PAGE_SIZE
      && (forall p: nat {:trigger UseOf(p)} :: p < Step(pages.levels) ==> uses[p] == UseOf(p))
      && (forall a: nat {:trigger Lookup(a)} :: InSpace(a) ==> hits[a] == Lookup(a))
    }

    /** core_begin and mem_begin: only the four fixed sections, no page filed. */
    constructor (levels: nat, ram: set<RegionId>)
      requires levels > 0
      ensures Valid() && fresh(pages) && pages.levels == levels && this.ram == ram
      ensures |pages.nodes| == 0
      ensures forall p: nat :: p < |uses| ==> uses[p] == Free
      ensures forall a: nat :: a < |hits| ==> hits[a] == Hit(Unassigned, a)
    {
      this.ram := ram;
      pages := new PhysMap(levels);
      sections := [Section(Unassigned, 0, 0xFFFF_FFFF_FFFF_FFFF, 0), Section(NotDirty, 0, 0xFFFF_FFFF_FFFF_FFFF, 0),
                   Section(Rom, 0, 0xFFFF_FFFF_FFFF_FFFF, 0), Section(Watch, 0, 0xFFFF_FFFF_FFFF_FFFF, 0)];
      subpages := [];
      hits := seq(Step(levels) * PAGE_SIZE, a => Hit(Unassigned, a));
      uses := seq(Step(levels), p => Free);
      new;
      forall p: nat | p < Step(levels) ensures uses[p] == UseOf(p) {
        assert pages.Map(p) == UNASSIGNED;
      }
      forall a: nat | InSpace(a) ensures hits[a] == Lookup(a) {
        assert pages.Map(a / PAGE_SIZE) == UNASSIGNED;
      }
    }

    /** phys_section_add */
    method SectionAdd(s: Section) returns (id: nat)
      requires Core()
      modifies this`sections
      ensures Core() && id == |old(sections)| && sections == old(sections) + [s]
      ensures forall a: nat :: InSpace(a) ==> Lookup(a) == old(Lookup(a))
    {
      id := |sections|;
      sections := sections + [s];
    }

    /** subpage_register: point the entries [start, end] of table `k` at `section`; a RAM section
        is replaced by its sub-page stand-in.  The bounds arrive as unsigned 32-bit numbers. */
    method SubpageRegister(k: nat, start: nat, end: nat, section: nat)
      requires Core() && k < |subpages| && section < |sections| && !sections[section].mr.Subpage?
      modifies this`sections, this`subpages
      ensures Core() && |old(sections)| <= |sections| && sections[..|old(sections)|] == old(sections)
      ensures |subpages| == |old(subpages)|
      ensures !(sections[section].mr.Region? && sections[section].mr.id in ram) && start <= end < PAGE_SIZE ==>
        && sections == old(sections)
        && (var table := old(subpages)[k];
            subpages == old(subpages)[k := table.(sub := FillSub(table.sub, start, end + 1, section))])
      ensures forall p: nat :: p < Step(pages.levels) ==> sections[pages.Map(p)] == old(sections[pages.Map(p)])
      ensures start >= PAGE_SIZE || end >= PAGE_SIZE ==> subpages == old(subpages)
      ensures forall a: nat :: InSpace(a) ==>
        Lookup(a) ==
          if start < PAGE_SIZE && end < PAGE_SIZE && old(sections[pages.Map(a / PAGE_SIZE)]).mr == Subpage(k)
             && start <= a % PAGE_SIZE <= end
          then Piece(ram, old(sections)[section], a) else old(Lookup(a))
    {
      if start >= PAGE_SIZE || end >= PAGE_SIZE {
        return;
      }
      var id := section;
      if sections[section].mr.Region? && sections[section].mr.id in ram {
        id := SectionAdd(sections[section].(mr := SubpageRam));
      }
      FillTable(k, start, end, id);
    }

    /** The loop of subpage_register. */
    method FillTable(k: nat, start: nat, end: nat, id: nat)
      requires Core() && k < |subpages| && start < PAGE_SIZE && end < PAGE_SIZE
      requires id < |sections| && !sections[id].mr.Subpage?
      modifies this`subpages
      ensures Core() && |subpages| == |old(subpages)|
      ensures start <= end ==>
        subpages == old(subpages)[k := old(subpages)[k].(sub := FillSub(old(subpages)[k].sub, start, end + 1, id))]
      ensures forall a: nat :: InSpace(a) ==>
        Lookup(a) ==
          if sections[pages.Map(a / PAGE_SIZE)].mr == Subpage(k) && start <= a % PAGE_SIZE <= end
          then SectionHit(sections[id], a) else old(Lookup(a))
    {
      ghost var subpages0 := subpages;
      var sub := subpages[k].sub;
      var idx := start;
      while idx <= end
        invariant start <= idx && (start <= end ==> idx <= end + 1) && (end < start ==> idx == start)
        invariant sub == FillSub(subpages[k].sub, start, idx, id)
      {
        sub := sub[idx := id];
        idx := idx + 1;
      }
      subpages := subpages[k := subpages[k].(sub := sub)];
      forall p: nat | p < Step(pages.levels) ensures FiledOk(sections, subpages, p, pages.Map(p)) {
        FilledOutcome(sections, subpages0, k, start, idx, id, pages.Map(p), p * PAGE_SIZE);
      }
      forall a: nat | InSpace(a) ensures Outcome(sections, subpages, pages.Map(a / PAGE_SIZE), a) ==
        if sections[pages.Map(a / PAGE_SIZE)].mr == Subpage(k) && start <= a % PAGE_SIZE < idx
        then SectionHit(sections[id], a)
        else Outcome(sections, subpages0, pages.Map(a / PAGE_SIZE), a)
      {
        FilledOutcome(sections, subpages0, k, start, idx, id, pages.Map(a / PAGE_SIZE), a);
      }
    }

    /** Nodes that one phys_page_set may allocate. */
    function NodesPerSet(): nat { if pages.levels == 0 then 0 else 2 * pages.levels - 1 }

    /** subpage_init: a table whose entries are all unassigned. */
    method SubpageInit(base: int) returns (k: nat)
      requires Core()
      modifies this`sections, this`subpages
      ensures Core() && k == |old(subpages)| && sections == old(sections)
      ensures subpages == old(subpages) + [SubpageTable(base, seq(PAGE_SIZE, j => UNASSIGNED))]
      ensures forall a: nat :: InSpace(a) ==> Lookup(a) == old(Lookup(a))
    {
      k := |subpages|;
      subpages := subpages + [SubpageTable(base, seq(PAGE_SIZE, j => 0))];
      forall a: nat | InSpace(a) ensures sections[pages.Map(a / PAGE_SIZE)].mr != Subpage(k) {
        assert FiledOk(old(sections), old(subpages), a / PAGE_SIZE, pages.Map(a / PAGE_SIZE));
      }
      ghost var subpages1 := subpages;
      SubpageRegister(k, 0, PAGE_SIZE - 1, UNASSIGNED);
      assert FillSub(subpages1[k].sub, 0, PAGE_SIZE, UNASSIGNED) == subpages1[k].sub;
    }

    /** The sub-page table of page `p`, created on first use. */
    method EnsureSubpage(p: nat) returns (ok: bool, k: nat)
      requires Core() && p < Step(pages.levels) && UseOf(p) != Taken
      modifies this`sections, this`subpages, pages
      ensures ok ==> Core() && k < |subpages| && sections[pages.Map(p)].mr == Subpage(k)
      ensures ok ==> forall q: nat :: q < Step(pages.levels) && q != p ==>
        pages.Map(q) == old(pages.Map(q)) && sections[pages.Map(q)] == old(sections[pages.Map(q)])
      ensures ok ==> forall a: nat :: InSpace(a) ==> Lookup(a) == old(Lookup(a))
      ensures Counted(ok, old(|pages.nodes|), |pages.nodes|, 2 * pages.levels - 1)
    {
      var existing := pages.PageFind(p);
      if sections[existing].mr.Subpage? {
        ok, k := true, sections[existing].mr.index;
        assert FiledOk(sections, subpages, p, existing);
        return;
      }
      k := SubpageInit(p * PAGE_SIZE);
      var id := SectionAdd(Section(Subpage(k), 0, PAGE_SIZE, p * PAGE_SIZE));
      pages.FreeIsSettable(p, p + 1);
      ok := pages.PageSet(p, 1, id);
    }

    /** The bounds handed to subpage_register select exactly the piece, also when it is empty and the upper
        bound wraps. */
    lemma PieceBounds(s: Section, p: nat, start: nat, end: nat)
      requires s.offsetInSpace >= 0 && s.size >= 0 && p == s.offsetInSpace / PAGE_SIZE
      requires start == s.offsetInSpace % PAGE_SIZE
      requires start + s.size <= PAGE_SIZE && end == ToU32(start + s.size - 1)
      ensures forall a: nat :: Covers(s, a) <==> end < PAGE_SIZE && a / PAGE_SIZE == p && start <= a % PAGE_SIZE <= end
    {
      if start + s.size == 0 {
        assert end == 0xFFFF_FFFF;
      } else {
        assert end == start + s.size - 1;
      }
      forall a: nat ensures Covers(s, a) <==> end < PAGE_SIZE && a / PAGE_SIZE == p && start <= a % PAGE_SIZE <= end {
        assert a == a / PAGE_SIZE * PAGE_SIZE + a % PAGE_SIZE;
      }
    }

    /** register_subpage: file a piece that lies inside one page. */
    method FileSubpage(s: Section) returns (ok: bool)
      requires Core() && s.mr.Region? && s.offsetInSpace >= 0 && s.size >= 0
      requires var p := s.offsetInSpace / PAGE_SIZE; p < Step(pages.levels) && UseOf(p) != Taken
      requires s.offsetInSpace % PAGE_SIZE + s.size <= PAGE_SIZE
      modifies this`sections, this`subpages, pages
      ensures ok ==> Core()
      ensures ok ==> forall a: nat :: InSpace(a) ==>
        Lookup(a) == if Covers(s, a) then Piece(ram, s, a) else old(Lookup(a))
      ensures ok ==> forall q: nat :: q < Step(pages.levels) ==>
        UseOf(q) == if q == s.offsetInSpace / PAGE_SIZE then Shared else old(UseOf(q))
      ensures Counted(ok, old(|pages.nodes|), |pages.nodes|, 2 * pages.levels - 1)
    {
      var p: nat := s.offsetInSpace / PAGE_SIZE;
      var k;
      ok, k := EnsureSubpage(p);
      if !ok {
        return;
      }
      var start := s.offsetInSpace % PAGE_SIZE;
      var end := ToU32(start + s.size - 1);
      var id := SectionAdd(s);
      TableOfOnePage(p, k);
      PieceBounds(s, p, start, end);
      SubpageRegister(k, start, end, id);
    }

    lemma TableOfOnePage(p: nat, k: nat)
      requires Core() && p < Step(pages.levels) && sections[pages.Map(p)].mr == Subpage(k)
      ensures forall a: nat :: InSpace(a) ==>
        (sections[pages.Map(a / PAGE_SIZE)].mr == Subpage(k) <==> a / PAGE_SIZE == p)
    {
      assert FiledOk(sections, subpages, p, pages.Map(p));
      forall a: nat | InSpace(a) ensures sections[pages.Map(a / PAGE_SIZE)].mr == Subpage(k) <==> a / PAGE_SIZE == p {
        assert FiledOk(sections, subpages, a / PAGE_SIZE, pages.Map(a / PAGE_SIZE));
      }
    }

    /** register_multipage: whole pages, filed directly in the tree. */
    method FileMultipage(s: Section) returns (ok: bool)
      requires Core() && s.mr.Region? && s.offsetInSpace >= 0 && s.size > 0
      requires s.offsetInSpace % PAGE_SIZE == 0 && s.size % PAGE_SIZE == 0
      requires s.offsetInSpace + s.size <= Step(pages.levels) * PAGE_SIZE
      requires forall p: nat :: Covers(s, p * PAGE_SIZE) && p < Step(pages.levels) ==> pages.Map(p) == UNASSIGNED
      modifies this`sections, this`subpages, pages
      ensures ok ==> Core()
      ensures ok ==> forall a: nat :: InSpace(a) ==>
        Lookup(a) == if Covers(s, a) then SectionHit(s, a) else old(Lookup(a))
      ensures ok ==> forall q: nat :: q < Step(pages.levels) ==>
        UseOf(q) == if Covers(s, q * PAGE_SIZE) then Taken else old(UseOf(q))
      ensures Counted(ok, old(|pages.nodes|), |pages.nodes|, 2 * pages.levels - 1)
    {
      var id := SectionAdd(s);
      var index, nb := s.offsetInSpace / PAGE_SIZE, s.size / PAGE_SIZE;
      pages.FreeIsSettable(index, index + nb);
      ok := pages.PageSet(index, nb, id);
    }

    // ----- filing ranges: from here on only `hits` and `uses` matter -----

    /** Accesses covered by `s` now end in it; all others are as before. */
    ghost predicate HitsSet(before: seq<Hit>, from: int, to: int, s: Section)
      requires s.mr.Region?
      reads this
    {
      HitsFrom(before, hits, from, to, s)
    }

    ghost predicate HitsFrom(before: seq<Hit>, after: seq<Hit>, from: int, to: int, s: Section)
      requires s.mr.Region?
    {
      |after| == |before| && forall a :: 0 <= a < |after| ==>
        after[a] == if from <= a < to then RangeHit(ram, s, a) else before[a]
    }

    lemma HitsJoin(before: seq<Hit>, mid: seq<Hit>, after: seq<Hit>, from: int, m: int, to: int, s: Section)
      requires s.mr.Region? && from <= m <= to && HitsFrom(before, mid, from, m, s) && HitsFrom(mid, after, m, to, s)
      ensures HitsFrom(before, after, from, to, s)
    {
    }

    /** register_subpage for a piece of `s`; an empty piece changes no access. */
    method RegisterSubpage(now: Section, ghost s: Section) returns (ok: bool)
      requires Valid() && s.mr.Region? && s.offsetInSpace >= 0
      requires now == Advance(s, now.offsetInSpace - s.offsetInSpace).(size := now.size)
      requires now.offsetInSpace >= s.offsetInSpace
      requires 0 <= now.size && now.offsetInSpace % PAGE_SIZE + now.size <= PAGE_SIZE
      requires forall a :: Covers(now, a) ==> !WholePage(s, a)
      requires now.offsetInSpace / PAGE_SIZE < |uses| && uses[now.offsetInSpace / PAGE_SIZE] != Taken
      modifies this, pages
      ensures ok ==> Valid()
      ensures ok ==> uses == old(uses)[now.offsetInSpace / PAGE_SIZE := Shared]
      ensures ok ==> HitsSet(old(hits), now.offsetInSpace, now.offsetInSpace + now.size, s)
      ensures Counted(ok, old(|pages.nodes|), |pages.nodes|, NodesPerSet())
    {
      ok := RecordSubpage(now);
      forall a | Covers(now, a) ensures Piece(ram, now, a) == RangeHit(ram, s, a) {
      }
    }

    /** FileSubpage, recorded in `hits` and `uses`. */
    method RecordSubpage(now: Section) returns (ok: bool)
      requires Valid() && now.mr.Region? && now.offsetInSpace >= 0
      requires 0 <= now.size && now.offsetInSpace % PAGE_SIZE + now.size <= PAGE_SIZE
      requires now.offsetInSpace / PAGE_SIZE < |uses| && uses[now.offsetInSpace / PAGE_SIZE] != Taken
      modifies this, pages
      ensures ok ==> Valid()
      ensures ok ==> uses == old(uses)[now.offsetInSpace / PAGE_SIZE := Shared]
      ensures ok ==> |hits| == |old(hits)|
      ensures ok ==> forall a :: 0 <= a < |hits| ==>
        hits[a] == if Covers(now, a) then Piece(ram, now, a) else old(hits)[a]
      ensures Counted(ok, old(|pages.nodes|), |pages.nodes|, NodesPerSet())
    {
      ghost var was := hits;
      assert UseOf(now.offsetInSpace / PAGE_SIZE) != Taken;
      ok := FileSubpage(now);
      if !ok {
        return;
      }
      uses := uses[now.offsetInSpace / PAGE_SIZE := Shared];
      hits := seq(|was|, a requires 0 <= a < |was| => if Covers(now, a) then Piece(ram, now, a) else was[a]);
      forall p: nat | p < Step(pages.levels) ensures uses[p] == UseOf(p) {
        assert old(uses[p] == UseOf(p));
      }
      forall a: nat | InSpace(a) ensures hits[a] == Lookup(a) {
        assert old(hits[a] == Lookup(a));
      }
    }

    /** register_multipage for a piece of `s` made of whole pages. */
    method RegisterMultipage(now: Section, ghost s: Section) returns (ok: bool)
      requires Valid() && s.mr.Region? && s.offsetInSpace >= 0
      requires now == Advance(s, now.offsetInSpace - s.offsetInSpace).(size := now.size)
      requires now.offsetInSpace >= s.offsetInSpace
      requires now.size > 0 && now.offsetInSpace % PAGE_SIZE == 0 && now.size % PAGE_SIZE == 0
      requires now.offsetInSpace + now.size <= |hits|
      requires forall p :: 0 <= p < |uses| && p * PAGE_SIZE >= now.offsetInSpace ==> uses[p] == Free
      requires forall a :: Covers(now, a) ==> WholePage(s, a)
      modifies this, pages
      ensures ok ==> Valid() && |uses| == |old(uses)|
      ensures ok ==> forall p :: 0 <= p < |uses| ==>
        uses[p] == if Covers(now, p * PAGE_SIZE) then Taken else old(uses)[p]
      ensures ok ==> HitsSet(old(hits), now.offsetInSpace, now.offsetInSpace + now.size, s)
      ensures Counted(ok, old(|pages.nodes|), |pages.nodes|, NodesPerSet())
    {
      ghost var was, used := hits, uses;
      forall p: nat | now.offsetInSpace <= p * PAGE_SIZE < now.offsetInSpace + now.size && p < Step(pages.levels)
        ensures pages.Map(p) == UNASSIGNED
      {
        assert uses[p] == UseOf(p);
      }
      ok := FileMultipage(now);
      if !ok {
        return;
      }
      uses := seq(|used|, p requires 0 <= p < |used| => if Covers(now, p * PAGE_SIZE) then Taken else used[p]);
      hits := seq(|was|, a requires 0 <= a < |was| => if Covers(now, a) then RangeHit(ram, s, a) else was[a]);
      forall p: nat | p < Step(pages.levels) ensures uses[p] == UseOf(p) {
        assert old(uses[p] == UseOf(p));
      }
      forall a: nat | InSpace(a) ensures hits[a] == Lookup(a) {
        assert old(hits[a] == Lookup(a));
      }
    }

    /** All pages from `cur` on are free. */
    ghost predicate CleanFrom(cur: int)
      reads this
    {
      forall p :: 0 <= p < |uses| && p * PAGE_SIZE >= cur ==> uses[p] == Free
    }

    /** The next range may start at `cur`. */
    ghost predicate NextOk(cur: int)
      reads this
    {
      CleanFrom(cur) && (0 <= cur && cur % PAGE_SIZE != 0 && cur / PAGE_SIZE < |uses| ==>
        uses[cur / PAGE_SIZE] != Taken)
    }

    lemma NextOkLater(cur: nat, later: nat)
      requires NextOk(cur) && cur <= later
      ensures NextOk(later)
    {
      if later % PAGE_SIZE != 0 && later / PAGE_SIZE < |uses| {
        var p := later / PAGE_SIZE;
        assert p * PAGE_SIZE < cur ==> cur / PAGE_SIZE == p && cur % PAGE_SIZE != 0;
      }
    }

    /** `remain` is what mem_add still has to file of `s`: it starts at a page boundary, and nothing
        is filed in the pages after its first. */
    ghost predicate StillToAdd(s: Section, remain: Section)
      reads this
    {
      && remain == Advance(s, remain.offsetInSpace - s.offsetInSpace) && 0 <= remain.size <= s.size
      && (remain.size >= PAGE_SIZE ==> CleanFrom(remain.offsetInSpace))
      && (remain.size > 0 ==> remain.offsetInSpace % PAGE_SIZE == 0)
      && (remain.size > 0 ==>
          0 <= remain.offsetInSpace / PAGE_SIZE < |uses| && uses[remain.offsetInSpace / PAGE_SIZE] != Taken)
      && CleanFrom(remain.offsetInSpace + PAGE_SIZE)
      && (remain.size == 0 ==> NextOk(remain.offsetInSpace))
    }

    /** The head of mem_add: up to the first page boundary, or nothing. */
    method AddHead(s: Section) returns (ok: bool, rest: Section)
      requires Valid() && s.mr.Region? && s.offsetInSpace >= 0 && s.size > 0
      requires s.offsetInSpace + s.size <= |hits| && NextOk(s.offsetInSpace)
      modifies this, pages
      ensures ok ==> Valid() && |hits| == |old(hits)| && StillToAdd(s, rest)
      ensures ok ==> HitsSet(old(hits), s.offsetInSpace, rest.offsetInSpace, s)
      ensures Counted(ok, old(|pages.nodes|), |pages.nodes|, NodesPerSet())
    {
      ok, rest := true, s;
      if s.offsetInSpace % PAGE_SIZE != 0 || s.size < PAGE_SIZE {
        var toBoundary := (PAGE_SIZE - s.offsetInSpace % PAGE_SIZE) % PAGE_SIZE;
        var now := s.(size := if toBoundary <= s.size then toBoundary else s.size);
        HeadIsPart(s, now);
        ok := RegisterSubpage(now, s);
        rest := Advance(s, now.size);
      }
    }

    /** One turn of the page loop of mem_add at an unaligned region offset: a single page. */
    method AddOnePage(s: Section, remain: Section) returns (ok: bool, rest: Section)
      requires Valid() && s.mr.Region? && s.offsetInSpace >= 0 && s.offsetInSpace + s.size <= |hits|
      requires StillToAdd(s, remain) && remain.size >= PAGE_SIZE && remain.offsetInRegion % PAGE_SIZE != 0
      modifies this, pages
      ensures ok ==> Valid() && |hits| == |old(hits)|
      ensures ok ==> StillToAdd(s, rest) && rest.size == remain.size - PAGE_SIZE
      ensures ok ==> HitsSet(old(hits), remain.offsetInSpace, rest.offsetInSpace, s)
      ensures Counted(ok, old(|pages.nodes|), |pages.nodes|, NodesPerSet())
    {
      var now := remain.(size := PAGE_SIZE);
      forall a | Covers(now, a) ensures !WholePage(s, a) {
        LoopPage(s, remain, now.size, a);
      }
      ok := RegisterSubpage(now, s);
      rest := Advance(remain, now.size);
    }

    /** The other turn: all whole pages at once. */
    method AddWholePages(s: Section, remain: Section) returns (ok: bool, rest: Section)
      requires Valid() && s.mr.Region? && s.offsetInSpace >= 0 && s.offsetInSpace + s.size <= |hits|
      requires StillToAdd(s, remain) && remain.size >= PAGE_SIZE && remain.offsetInRegion % PAGE_SIZE == 0
      modifies this, pages
      ensures ok ==> Valid() && |hits| == |old(hits)|
      ensures ok ==> StillToAdd(s, rest) && rest.size <= remain.size - PAGE_SIZE && rest.size < PAGE_SIZE
      ensures ok ==> HitsSet(old(hits), remain.offsetInSpace, rest.offsetInSpace, s)
      ensures Counted(ok, old(|pages.nodes|), |pages.nodes|, NodesPerSet())
    {
      var now := remain.(size := remain.size - remain.size % PAGE_SIZE);
      forall a | Covers(now, a) ensures WholePage(s, a) {
        LoopPage(s, remain, now.size, a);
      }
      ok := RegisterMultipage(now, s);
      rest := Advance(remain, now.size);
    }

    /** One turn of the page loop of mem_add. */
    method AddPages(s: Section, remain: Section) returns (ok: bool, rest: Section)
      requires Valid() && s.mr.Region? && s.offsetInSpace >= 0 && s.offsetInSpace + s.size <= |hits|
      requires StillToAdd(s, remain) && remain.size >= PAGE_SIZE
      modifies this, pages
      ensures ok ==> Valid() && |hits| == |old(hits)|
      ensures ok ==> StillToAdd(s, rest) && rest.size <= remain.size - PAGE_SIZE
      ensures ok ==> PageAligned(s) ==> rest.size < PAGE_SIZE
      ensures ok ==> HitsSet(old(hits), remain.offsetInSpace, rest.offsetInSpace, s)
      ensures Counted(ok, old(|pages.nodes|), |pages.nodes|, NodesPerSet())
    {
      assert PageAligned(s) ==> remain.offsetInRegion % PAGE_SIZE == 0;
      if remain.offsetInRegion % PAGE_SIZE != 0 {
        ok, rest := AddOnePage(s, remain);
      } else {
        ok, rest := AddWholePages(s, remain);
      }
    }

    /** The tail of mem_add: less than a page. */
    method AddTail(s: Section, remain: Section) returns (ok: bool)
      requires Valid() && s.mr.Region? && s.offsetInSpace >= 0 && s.size > 0 && s.offsetInSpace + s.size <= |hits|
      requires StillToAdd(s, remain) && remain.size < PAGE_SIZE
      modifies this, pages
      ensures ok ==> Valid() && |hits| == |old(hits)| && NextOk(s.offsetInSpace + s.size)
      ensures ok ==> HitsSet(old(hits), remain.offsetInSpace, s.offsetInSpace + s.size, s)
      ensures Counted(ok, old(|pages.nodes|), |pages.nodes|, NodesPerSet())
    {
      ok := true;
      if remain.size > 0 {
        ok := RegisterSubpage(remain, s);
      }
    }

    /** The page loop of mem_add. */
    method AddAllPages(s: Section, first: Section) returns (ok: bool, remain: Section)
      requires Valid() && s.mr.Region? && s.offsetInSpace >= 0 && s.offsetInSpace + s.size <= |hits|
      requires StillToAdd(s, first)
      modifies this, pages
      ensures ok ==> Valid() && |hits| == |old(hits)| && StillToAdd(s, remain) && remain.size < PAGE_SIZE
      ensures ok ==> remain.offsetInSpace >= first.offsetInSpace
      ensures ok ==> HitsSet(old(hits), first.offsetInSpace, remain.offsetInSpace, s)
      ensures Counted(ok, old(|pages.nodes|), |pages.nodes|, RestCost(NodesPerSet(), PageAligned(s), first.size)
                        - if ok then RestCost(NodesPerSet(), PageAligned(s), remain.size) else 0)
    {
      ok, remain := true, first;
      ghost var c, aligned := NodesPerSet(), PageAligned(s);
      while remain.size >= PAGE_SIZE
        invariant Valid() && |hits| == |old(hits)| && StillToAdd(s, remain)
        invariant remain.offsetInSpace >= first.offsetInSpace
        invariant HitsSet(old(hits), first.offsetInSpace, remain.offsetInSpace, s)
        invariant |pages.nodes| + RestCost(c, aligned, remain.size)
          <= |old(pages.nodes)| + RestCost(c, aligned, first.size)
        decreases remain.size
      {
        ghost var was, mid := remain, hits;
        CostMono(c, aligned, 0, remain.size);
        ok, remain := AddPages(s, remain);
        if !ok {
          return;
        }
        TurnCost(c, aligned, was.size, remain.size);
        HitsJoin(old(hits), mid, hits, first.offsetInSpace, was.offsetInSpace, remain.offsetInSpace, s);
      }
    }

    /** mem_add up to the tail. */
    method AddBody(s: Section) returns (ok: bool, remain: Section)
      requires Valid() && s.mr.Region? && s.offsetInSpace >= 0 && s.size > 0
      requires s.offsetInSpace + s.size <= |hits| && NextOk(s.offsetInSpace)
      modifies this, pages
      ensures ok ==> Valid() && |hits| == |old(hits)| && StillToAdd(s, remain) && remain.size < PAGE_SIZE
      ensures ok ==> s.offsetInSpace <= remain.offsetInSpace
      ensures ok ==> HitsSet(old(hits), s.offsetInSpace, remain.offsetInSpace, s)
      ensures Counted(ok, old(|pages.nodes|), |pages.nodes|, Cost(NodesPerSet(), s) - if ok then NodesPerSet() else 0)
    {
      CostMono(NodesPerSet(), PageAligned(s), 0, s.size);
      ok, remain := AddHead(s);
      if !ok {
        return;
      }
      CostMono(NodesPerSet(), PageAligned(s), remain.size, s.size);
      ghost var mid, from := hits, remain.offsetInSpace;
      ok, remain := AddAllPages(s, remain);
      if !ok {
        return;
      }
      CostMono(NodesPerSet(), PageAligned(s), 0, remain.size);
      HitsJoin(old(hits), mid, hits, s.offsetInSpace, from, remain.offsetInSpace, s);
    }

    /** mem_add */
    method MemAdd(s: Section) returns (ok: bool)
      requires Valid() && s.mr.Region? && s.offsetInSpace >= 0 && s.size > 0
      requires s.offsetInSpace + s.size <= |hits| && NextOk(s.offsetInSpace)
      modifies this, pages
      ensures ok ==> Valid() && |hits| == |old(hits)| && NextOk(s.offsetInSpace + s.size)
      ensures ok ==> HitsSet(old(hits), s.offsetInSpace, s.offsetInSpace + s.size, s)
      ensures Counted(ok, old(|pages.nodes|), |pages.nodes|, Cost(NodesPerSet(), s))
    {
      var remain;
      ok, remain := AddBody(s);
      if !ok {
        return;
      }
      ghost var mid := hits;
      ok := AddTail(s, remain);
      if !ok {
        return;
      }
      HitsJoin(old(hits), mid, hits, s.offsetInSpace, remain.offsetInSpace, s.offsetInSpace + s.size, s);
    }

    // ----- a whole flat view -----

    /** What the ranges of `view`, filed in order, make of an access at `a`. */
    ghost function Wanted(view: seq<FlatRange>, a: int): Hit {
      if view == [] then Hit(Unassigned, a)
      else
        var s := SectionOf(view[|view| - 1]);
        if Covers(s, a) then RangeHit(ram, s, a) else Wanted(view[..|view| - 1], a)
    }

    lemma {:induction false} WantedIs(view: seq<FlatRange>, i: nat, a: int)
      requires Sorted(view) && i < |view| && view[i].addr.Contains(a)
      ensures Wanted(view, a) == RangeHit(ram, SectionOf(view[i]), a)
    {
      var n := |view| - 1;
      if i < n {
        assert view[i].addr.End() <= view[n].addr.start && view[..n][i] == view[i];
        WantedIs(view[..n], i, a);
      }
    }

    lemma {:induction false} WantedNone(view: seq<FlatRange>, a: int)
      requires forall i :: 0 <= i < |view| ==> !view[i].addr.Contains(a)
      ensures Wanted(view, a) == Hit(Unassigned, a)
    {
      if view != [] {
        var n := |view| - 1;
        assert !view[n].addr.Contains(a) && forall i :: 0 <= i < n ==> view[..n][i] == view[i];
        WantedNone(view[..n], a);
      }
    }

    /** ... which is what the view itself says: same region, same offset, unassigned elsewhere;
        only RAM in a page that is not wholly the range's goes through the stand-in. */
    lemma WantedIsOwner(view: seq<FlatRange>, a: int)
      requires Sorted(view)
      ensures Owner(view, a).None? ==> Wanted(view, a) == Hit(Unassigned, a)
      ensures Owner(view, a).Some? ==>
        && Wanted(view, a).offset == Owner(view, a).value.offset
        && (Wanted(view, a).mr == Region(Owner(view, a).value.mr)
          || (Owner(view, a).value.mr in ram && Wanted(view, a).mr == SubpageRam))
      ensures forall i :: 0 <= i < |view| && view[i].addr.Contains(a) ==>
        Wanted(view, a) == RangeHit(ram, SectionOf(view[i]), a)
    {
      forall i: nat | i < |view| && view[i].addr.Contains(a)
        ensures Wanted(view, a) == RangeHit(ram, SectionOf(view[i]), a) && Owner(view, a) == Some(CellAt(view[i], a))
      {
        WantedIs(view, i, a);
        OwnerIs(view, i, a);
      }
      if Owner(view, a).None? {
        WantedNone(view, a);
      } else {
        var i := OwnerIndex(view, a);
      }
    }

    /** One mem_add per range of a sorted view: afterwards every access agrees with the view. */
    method AddView(view: seq<FlatRange>) returns (ok: bool)
      requires Valid() && Sorted(view)
      requires forall p :: 0 <= p < |uses| ==> uses[p] == Free
      requires forall a :: 0 <= a < |hits| ==> hits[a] == Hit(Unassigned, a)
      requires forall i :: 0 <= i < |view| ==> 0 <= view[i].addr.start && view[i].addr.End() <= |hits|
      modifies this, pages
      ensures ok ==> Valid() && |hits| == |old(hits)|
      ensures ok ==> forall a :: 0 <= a < |hits| ==> hits[a] == Wanted(view, a)
      ensures Counted(ok, old(|pages.nodes|), |pages.nodes|, TotalCost(NodesPerSet(), view))
    {
      ok := true;
      var k := 0;
      ghost var cur: nat := 0;
      assert view[..0] == [];
      while k < |view|
        invariant 0 <= k <= |view|
        invariant Valid() && |hits| == |old(hits)|
        invariant NextOk(cur) && forall i :: k <= i < |view| ==> cur <= view[i].addr.start
        invariant forall a :: 0 <= a < |hits| ==> hits[a] == Wanted(view[..k], a)
        invariant |pages.nodes| + TotalCost(NodesPerSet(), view[k..])
          <= |old(pages.nodes)| + TotalCost(NodesPerSet(), view)
      {
        NextOkLater(cur, view[k].addr.start);
        assert view[k..][1..] == view[k + 1..];
        ok := AddRange(view[k], view[..k]);
        if !ok {
          return;
        }
        assert view[..k + 1] == view[..k] + [view[k]];
        cur := view[k].addr.End();
        k := k + 1;
      }
      assert view[..k] == view;
    }

    method AddRange(fr: FlatRange, ghost before: seq<FlatRange>) returns (ok: bool)
      requires Valid() && fr.addr.start >= 0 && fr.addr.size > 0 && fr.addr.End() <= |hits| && NextOk(fr.addr.start)
      requires forall a :: 0 <= a < |hits| ==> hits[a] == Wanted(before, a)
      modifies this, pages
      ensures ok ==> Valid() && |hits| == |old(hits)| && NextOk(fr.addr.End())
      ensures ok ==> forall a :: 0 <= a < |hits| ==> hits[a] == Wanted(before + [fr], a)
      ensures Counted(ok, old(|pages.nodes|), |pages.nodes|, Cost(NodesPerSet(), SectionOf(fr)))
    {
      ok := MemAdd(SectionOf(fr));
      assert (before + [fr])[..|before|] == before;
    }

    /** What an access does: find the page's section, then go through the sub-page table if there
        is one. */
    method Access(a: nat) returns (hit: Hit)
      requires Valid() && a < |hits|
      ensures hit == hits[a]
    {
      var s := pages.PageFind(a / PAGE_SIZE);
      assert hits[a] == Lookup(a);
      assert FiledOk(sections, subpages, a / PAGE_SIZE, s);
      if sections[s].mr.Subpage? {
        var table := subpages[sections[s].mr.index];
        var addr := SectionHit(sections[s], a).offset;
        hit := SectionHit(sections[table.sub[addr % PAGE_SIZE]], addr + table.base);
      } else {
        hit := SectionHit(sections[s], a);
      }
    }
  }

  /** mem_begin, one mem_add per range, then an access anywhere: it ends where the view says, unless the nodes run
      out on the way. */
  method BuildAndAccess(levels: nat, ram: set<RegionId>, view: seq<FlatRange>, a: nat) returns (hit: Option<Hit>)
    requires levels > 0 && Sorted(view) && a < Step(levels) * PAGE_SIZE
    requires forall i :: 0 <= i < |view| ==> 0 <= view[i].addr.start && view[i].addr.End() <= Step(levels) * PAGE_SIZE
    ensures TotalCost(2 * levels - 1, view) <= NODE_NIL ==> hit.Some?
    ensures hit.Some? && Owner(view, a).None? ==> hit.value == Hit(Unassigned, a)
    ensures hit.Some? && Owner(view, a).Some? ==>
      && hit.value.offset == Owner(view, a).value.offset
      && (hit.value.mr == Region(Owner(view, a).value.mr)
        || (Owner(view, a).value.mr in ram && hit.value.mr == SubpageRam))
    ensures forall i :: 0 <= i < |view| && view[i].addr.Contains(a) && hit.Some? ==>
      hit.value == RangeHit(ram, SectionOf(view[i]), a)
  {
    var d := new AddressSpaceDispatch(levels, ram);
    var ok := d.AddView(view);
    if !ok {
      return None;
    }
    d.WantedIsOwner(view, a);
    var h := d.Access(a);
    return Some(h);
  }
}
