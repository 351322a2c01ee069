/**
  The KVM slot table (kvm-all.c).

  A fixed array of slots stands for a partial map from guest physical to host addresses.
  kvm_set_phys_mem overrides or removes one range of that map by splitting the slots it meets.
  The kernel's copy of the table is kept beside it, with the rules the kernel imposes on every
  change: a slot is created only where no other lies, and is deleted before it changes shape.
 */
module KvmSlots {
  import opened Options
  import opened Units

  const SLOT_COUNT: nat := 32

  /** A slot of size zero is free. */
  datatype Slot = Slot(start: int, size: int, ram: int, log: bool) {
    function End(): int { start + size }

    predicate Contains(a: int) { start <= a < End() }

    predicate Overlaps(lo: int, hi: int) { size != 0 && hi > start && lo < End() }
  }

  ghost predicate Disjoint(s: Slot, t: Slot) {
    s.size == 0 || t.size == 0 || s.End() <= t.start || t.End() <= s.start
  }

  ghost predicate SlotOk(s: Slot) { s.size >= 0 && (s.size > 0 ==> 0 <= s.start && s.End() < TWO_TO_THE_64) }

  ghost predicate SlotsOk(slots: seq<Slot>) {
    && (forall i :: 0 <= i < |slots| ==> SlotOk(slots[i]))
    && (forall i, j :: 0 <= i < |slots| && 0 <= j < |slots| && i != j ==> Disjoint(slots[i], slots[j]))
  }

  /** The guest-to-host map. */
  ghost function Host(slots: seq<Slot>, a: int): Option<int> {
    if slots == [] then None
    else if slots[0].Contains(a) then Some(slots[0].ram + (a - slots[0].start))
    else Host(slots[1..], a)
  }

  lemma {:induction false} HostIs(slots: seq<Slot>, i: nat, a: int)
    requires SlotsOk(slots) && i < |slots| && slots[i].Contains(a)
    ensures Host(slots, a) == Some(slots[i].ram + (a - slots[i].start))
  {
    if i > 0 {
      assert Disjoint(slots[0], slots[i]);
      assert slots[1..][i - 1] == slots[i];
      HostIs(slots[1..], i - 1, a);
    }
  }

  lemma {:induction false} HostNone(slots: seq<Slot>, a: int)
    requires forall i :: 0 <= i < |slots| ==> !slots[i].Contains(a)
    ensures Host(slots, a) == None
  {
    if slots != [] {
      assert forall i :: 0 <= i < |slots[1..]| ==> slots[1..][i] == slots[i + 1];
      HostNone(slots[1..], a);
    }
  }

  lemma {:induction false} HostSlot(slots: seq<Slot>, a: int) returns (i: nat)
    requires Host(slots, a).Some?
    ensures i < |slots| && slots[i].Contains(a) && Host(slots, a) == Some(slots[i].ram + (a - slots[i].start))
  {
    if slots[0].Contains(a) {
      i := 0;
    } else {
      var k := HostSlot(slots[1..], a);
      i := k + 1;
    }
  }

  lemma HostIsForAll(slots: seq<Slot>, i: nat)
    requires SlotsOk(slots) && i < |slots|
    ensures forall a :: slots[i].Contains(a) ==> Host(slots, a) == Some(slots[i].ram + (a - slots[i].start))
  {
    forall a | slots[i].Contains(a) ensures Host(slots, a) == Some(slots[i].ram + (a - slots[i].start)) {
      HostIs(slots, i, a);
    }
  }

  /** Rewriting one slot: its old range is unmapped, its new range mapped. */
  lemma HostUpdate(slots: seq<Slot>, i: nat, s: Slot, a: int)
    requires SlotsOk(slots) && i < |slots| && SlotsOk(slots[i := s])
    ensures Host(slots[i := s], a) ==
      if s.Contains(a) then Some(s.ram + (a - s.start))
      else if slots[i].Contains(a) then None
      else Host(slots, a)
  {
    var slots' := slots[i := s];
    if s.Contains(a) {
      HostIs(slots', i, a);
    } else if slots[i].Contains(a) {
      forall j | 0 <= j < |slots'| ensures !slots'[j].Contains(a) {
        assert j == i || Disjoint(slots[i], slots[j]);
      }
      HostNone(slots', a);
    } else if Host(slots, a).Some? {
      var j := HostSlot(slots, a);
      assert slots'[j] == slots[j];
      HostIs(slots', j, a);
    } else {
      forall j | 0 <= j < |slots'| ensures !slots'[j].Contains(a) {
        if j != i && slots[j].Contains(a) { HostIs(slots, j, a); }
      }
      HostNone(slots', a);
    }
  }

  // ----- counting slots -----

  ghost function OverlapCount(slots: seq<Slot>, lo: int, hi: int): nat {
    if slots == [] then 0
    else (if slots[0].Overlaps(lo, hi) then 1 else 0) + OverlapCount(slots[1..], lo, hi)
  }

  ghost function LiveCount(slots: seq<Slot>): nat { OverlapCount(slots, 0, TWO_TO_THE_64) }

  lemma {:induction false} CountUpdate(slots: seq<Slot>, i: nat, s: Slot, lo: int, hi: int)
    requires i < |slots|
    ensures OverlapCount(slots[i := s], lo, hi) + (if slots[i].Overlaps(lo, hi) then 1 else 0)
      == OverlapCount(slots, lo, hi) + (if s.Overlaps(lo, hi) then 1 else 0)
  {
    if i == 0 {
      assert slots[i := s][1..] == slots[1..];
    } else {
      assert slots[i := s][1..] == slots[1..][i - 1 := s];
      CountUpdate(slots[1..], i - 1, s, lo, hi);
    }
  }

  lemma {:induction false} CountBound(slots: seq<Slot>, lo: int, hi: int)
    ensures OverlapCount(slots, lo, hi) <= |slots|
    ensures (forall i :: 0 <= i < |slots| ==> slots[i].Overlaps(lo, hi)) ==> OverlapCount(slots, lo, hi) == |slots|
    ensures (exists i :: 0 <= i < |slots| && slots[i].Overlaps(lo, hi)) ==> OverlapCount(slots, lo, hi) > 0
  {
    if slots != [] {
      assert forall i :: 0 <= i < |slots[1..]| ==> slots[1..][i] == slots[i + 1];
      CountBound(slots[1..], lo, hi);
      if exists i :: 0 <= i < |slots| && slots[i].Overlaps(lo, hi) {
        var i :| 0 <= i < |slots| && slots[i].Overlaps(lo, hi);
        assert i == 0 || slots[1..][i - 1].Overlaps(lo, hi);
      }
    }
  }

  lemma {:induction false} CountFree(slots: seq<Slot>, i: nat, lo: int, hi: int)
    requires i < |slots| && !slots[i].Overlaps(lo, hi)
    ensures OverlapCount(slots, lo, hi) < |slots|
  {
    CountBound(slots[1..], lo, hi);
    if i > 0 {
      CountFree(slots[1..], i - 1, lo, hi);
    }
  }

  // ----- the range a section stands for -----

  /** A MemoryRegionSection; `ram` is the host address of its first byte. */
  datatype MemSection = MemSection(start: int, size: int, ram: int, isRam: bool, log: bool)

  function AlignUp(x: int): int { (x + PAGE_SIZE - 1) / PAGE_SIZE * PAGE_SIZE }

  /** The rounding at the head of kvm_set_phys_mem. */
  function Effective(sec: MemSection): Option<Slot> {
    var delta := AlignUp(sec.size) - sec.size;
    if delta > sec.size then None
    else
      var start := sec.start + delta;
      var size := (sec.size - delta) / PAGE_SIZE * PAGE_SIZE;
      if size == 0 || start % PAGE_SIZE != 0 then None
      else Some(Slot(start, size, sec.ram + delta, sec.log))
  }

  /** Whatever the section, what is registered is page-aligned, lies inside it and maps each
      address as the section does. */
  lemma EffectiveInside(sec: MemSection)
    requires sec.size >= 0 && Effective(sec).Some?
    ensures var e := Effective(sec).value;
      && e.size > 0 && e.start % PAGE_SIZE == 0 && e.size % PAGE_SIZE == 0
      && sec.start <= e.start && e.End() <= sec.start + sec.size
      && e.ram - e.start == sec.ram - sec.start
  {
  }

  /** The section is taken as it is exactly when it is made of whole pages. */
  lemma EffectiveIsWhole(sec: MemSection)
    requires sec.size >= 0
    ensures Effective(sec) == Some(Slot(sec.start, sec.size, sec.ram, sec.log))
      <==> sec.size > 0 && sec.size % PAGE_SIZE == 0 && sec.start % PAGE_SIZE == 0
  {
    var q := sec.size / PAGE_SIZE;
    if sec.size % PAGE_SIZE == 0 {
      assert AlignUp(sec.size) == sec.size;
    } else {
      assert AlignUp(sec.size) > sec.size;
    }
  }

  /** The page of `a` lies in the section. */
  predicate HasPage(sec: MemSection, a: int) {
    sec.start <= a - a % PAGE_SIZE && a - a % PAGE_SIZE + PAGE_SIZE <= sec.start + sec.size
  }

  /** What is registered are exactly the whole pages of the section, if its start and its size are as far past a page
      boundary, and nothing otherwise. */
  lemma EffectiveIff(sec: MemSection, a: int)
    requires sec.size >= 0
    ensures Effective(sec).Some? && Effective(sec).value.Contains(a) <==>
      sec.start % PAGE_SIZE == sec.size % PAGE_SIZE && HasPage(sec, a)
  {
    AlignUpIs(sec.size);
    var k, n := sec.start / PAGE_SIZE, sec.start % PAGE_SIZE;
    var q, m := sec.size / PAGE_SIZE, sec.size % PAGE_SIZE;
    PagesBetween(k, n, q, m, a / PAGE_SIZE, a % PAGE_SIZE, a);
  }

  lemma AlignUpIs(x: int)
    ensures AlignUp(x) == x + if x % PAGE_SIZE == 0 then 0 else PAGE_SIZE - x % PAGE_SIZE
  {
    var q, m := x / PAGE_SIZE, x % PAGE_SIZE;
    assert (q * PAGE_SIZE + m + PAGE_SIZE - 1) / PAGE_SIZE == q + if m == 0 then 0 else 1;
  }

  /** The pages between the first boundary at or after k * PAGE_SIZE + n and the end q * PAGE_SIZE + m further on. */
  lemma PagesBetween(k: int, n: int, q: int, m: int, p: int, r: int, a: int)
    requires 0 <= n < PAGE_SIZE && 0 <= m < PAGE_SIZE && 0 <= r < PAGE_SIZE && a == p * PAGE_SIZE + r && q >= 0
    ensures var delta := if m == 0 then 0 else PAGE_SIZE - m;
      var start := k * PAGE_SIZE + n + delta;
      var size := (q * PAGE_SIZE + m - delta) / PAGE_SIZE * PAGE_SIZE;
      && (start % PAGE_SIZE == 0 <==> n == m)
      && (n == m && delta <= q * PAGE_SIZE + m ==>
        (start <= a < start + size <==>
          k * PAGE_SIZE + n <= p * PAGE_SIZE && (p + 1) * PAGE_SIZE <= k * PAGE_SIZE + n + q * PAGE_SIZE + m))
      && (delta > q * PAGE_SIZE + m && n == m ==>
        !(k * PAGE_SIZE + n <= p * PAGE_SIZE && (p + 1) * PAGE_SIZE <= k * PAGE_SIZE + n + q * PAGE_SIZE + m))
  {
    var delta := if m == 0 then 0 else PAGE_SIZE - m;
    var rest := q * PAGE_SIZE + m - delta;
    var pages := if m == 0 then q else if 2 * m >= PAGE_SIZE then q else q - 1;
    assert rest / PAGE_SIZE == pages;
    assert (k * PAGE_SIZE + n + delta) % PAGE_SIZE == (n + delta) % PAGE_SIZE;
  }

  /** A section with a whole page in it, none of which is registered. */
  lemma PageDropped(ram: int)
    ensures var sec := MemSection(0x800, 0x2000, ram, true, false); HasPage(sec, 0x1000) && Effective(sec) == None
  {
    assert AlignUp(0x2000) == 0x2000;
  }

  // ----- the table -----

  /** The part of a slot that the kernel keeps. */
  ghost predicate SameShape(s: Slot, t: Slot) {
    s.size == t.size && (s.size != 0 ==> s.start == t.start && s.ram == t.ram)
  }

  /** What the kernel accepts for slot `i`: deleting it; keeping its shape; or creating it where
      nothing else lies. */
  ghost predicate KernelAccepts(kernel: seq<Slot>, i: nat, s: Slot)
    requires i < |kernel|
  {
    || s.size == 0
    || SameShape(s, kernel[i])
    || (kernel[i].size == 0 && forall j :: 0 <= j < |kernel| && j != i ==> Disjoint(s, kernel[j]))
  }

  /** A slot number whose slot is not in use. */
  ghost predicate FreeAt(slots: seq<Slot>, i: nat) { i < |slots| && slots[i].size == 0 }

  function Wrap(x: int): int { x % TWO_TO_THE_64 }

  /** The test of kvm_lookup_overlapping_slot on 64-bit addresses, where an end of 2^64 is zero: it is the overlap
      of the two ranges exactly if neither of them holds the last byte. */
  lemma OverlapTestIff(s: Slot, lo: int, hi: int)
    requires 0 <= lo < hi <= TWO_TO_THE_64 && 0 <= s.start && 0 < s.size && s.End() <= TWO_TO_THE_64
    ensures Wrap(hi) > s.start && lo < Wrap(s.End()) <==>
      s.Overlaps(lo, hi) && hi != TWO_TO_THE_64 && s.End() != TWO_TO_THE_64
  {
    assert hi < TWO_TO_THE_64 ==> Wrap(hi) == hi;
    assert s.End() < TWO_TO_THE_64 ==> Wrap(s.End()) == s.End();
  }

  /** Every slot that meets [lo, hi) was there before. */
  ghost predicate NoNewOverlap(before: seq<Slot>, after: seq<Slot>, lo: int, hi: int) {
    |after| == |before| && forall j :: 0 <= j < |after| && after[j].Overlaps(lo, hi) ==> after[j] == before[j]
  }

  // ----- which slots log -----

  /** Between `before` and `after` a range [lo, hi) was dealt with: slots that do not meet it are still there, and a
      slot that was not there logs as `log` says. */
  ghost predicate Relogged(before: seq<Slot>, after: seq<Slot>, lo: int, hi: int, log: bool) {
    && (forall s :: s in before && s.size > 0 && !s.Overlaps(lo, hi) ==> s in after)
    && (forall s :: s in after && s.size > 0 ==> s in before || s.log == log)
  }

  lemma ReloggedUpdate(before: seq<Slot>, slots: seq<Slot>, lo: int, hi: int, log: bool, i: nat, s: Slot)
    requires Relogged(before, slots, lo, hi, log) && i < |slots|
    requires (slots[i].size == 0 || slots[i].Overlaps(lo, hi)) && (s.size == 0 || s.log == log)
    ensures Relogged(before, slots[i := s], lo, hi, log)
  {
    var after := slots[i := s];
    forall x | x in before && x.size > 0 && !x.Overlaps(lo, hi) ensures x in after {
      var k :| 0 <= k < |slots| && slots[k] == x;
      assert k != i && after[k] == x;
    }
    forall x | x in after && x.size > 0 ensures x in before || x.log == log {
      var k :| 0 <= k < |after| && after[k] == x;
      assert k != i ==> slots[k] in slots;
    }
  }

  /** No slot meets [from, to). */
  ghost predicate FreeOf(slots: seq<Slot>, from: int, to: int) {
    forall s :: s in slots ==> s.size == 0 || s.End() <= from || to <= s.start
  }

  lemma NoNewTwice(a: seq<Slot>, b: seq<Slot>, c: seq<Slot>, lo: int, hi: int)
    requires NoNewOverlap(a, b, lo, hi) && NoNewOverlap(b, c, lo, hi)
    ensures NoNewOverlap(a, c, lo, hi)
  {
  }

  /** A range inside a slot meets no other. */
  lemma OnlyOverlap(slots: seq<Slot>, i: nat, e: Slot)
    requires SlotsOk(slots) && i < |slots| && slots[i].start <= e.start && e.End() <= slots[i].End() && e.size > 0
    ensures slots[i].Overlaps(e.start, e.End())
    ensures forall j :: 0 <= j < |slots| && j != i ==> !slots[j].Overlaps(e.start, e.End())
    ensures forall s :: s in slots && s.Overlaps(e.start, e.End()) ==> s == slots[i]
  {
    forall j | 0 <= j < |slots| && j != i ensures !slots[j].Overlaps(e.start, e.End()) {
      assert SlotOk(slots[j]) && Disjoint(slots[i], slots[j]);
    }
  }

  /** Slot `i` already maps the range. */
  predicate Maps(slots: seq<Slot>, i: nat, e: Slot) {
    && i < |slots| && slots[i].start <= e.start && e.End() <= slots[i].End()
    && e.ram - e.start == slots[i].ram - slots[i].start
  }

  /** The table with the log flag of slot `i` set. */
  function Relog(slots: seq<Slot>, i: nat, log: bool): seq<Slot>
    requires i < |slots|
  {
    slots[i := slots[i].(log := log)]
  }

  /** If a slot already maps the range, nothing but its log flag changes. */
  ghost predicate OnlyRelogged(before: seq<Slot>, after: seq<Slot>, e: Slot) {
    forall i: nat :: Maps(before, i, e) ==> after == Relog(before, i, e.log)
  }

  class KvmState {
    const slots: array<Slot>
    ghost var kernel: seq<Slot>

    ghost predicate Valid()
      reads this, slots
    {
      && slots.Length == SLOT_COUNT == |kernel|
      && SlotsOk(slots[..])
      && forall i :: 0 <= i < SLOT_COUNT ==> SameShape(slots[i], kernel[i])
    }

    constructor ()
      ensures Valid() && fresh(slots)
      ensures forall a :: Host(slots[..], a) == None
    {
      slots := new Slot[SLOT_COUNT](i => Slot(0, 0, 0, false));
      kernel := seq(SLOT_COUNT, i => Slot(0, 0, 0, false));
      new;
      forall a ensures Host(slots[..], a) == None {
        HostNone(slots[..], a);
      }
    }

    /** kvm_alloc_slot: the first free slot.  It aborts when there is none; here and below `ok` says that
        it has not. */
    method AllocSlot() returns (ok: bool, i: nat)
      requires Valid()
      ensures ok <==> LiveCount(slots[..]) < SLOT_COUNT
      ensures ok ==> FreeAt(slots[..], i) && forall j :: 0 <= j < i ==> !FreeAt(slots[..], j)
    {
      ok, i := true, 0;
      while i < slots.Length
        invariant 0 <= i <= slots.Length
        invariant forall j :: 0 <= j < i ==> slots[j].size != 0
      {
        if slots[i].size == 0 {
          CountFree(slots[..], i, 0, TWO_TO_THE_64);
          return;
        }
        i := i + 1;
      }
      forall j | 0 <= j < SLOT_COUNT ensures slots[..][j].Overlaps(0, TWO_TO_THE_64) {
        assert SlotOk(slots[..][j]);
      }
      CountBound(slots[..], 0, TWO_TO_THE_64);
      ok := false;
    }

    /** kvm_lookup_overlapping_slot: the overlapping slot with the lowest start, if any. */
    method LookupOverlapping(lo: int, hi: int) returns (found: int)
      requires Valid()
      ensures -1 <= found < SLOT_COUNT
      ensures found == -1 <==> forall i :: 0 <= i < SLOT_COUNT ==> !slots[i].Overlaps(lo, hi)
      ensures found >= 0 ==> slots[found].Overlaps(lo, hi)
      ensures found >= 0 ==> forall i :: 0 <= i < SLOT_COUNT && slots[i].Overlaps(lo, hi) ==>
        slots[found].start <= slots[i].start
    {
      found := -1;
      var i := 0;
      while i < slots.Length
        invariant 0 <= i <= slots.Length
        invariant -1 <= found < i
        invariant found == -1 ==> forall j :: 0 <= j < i ==> !slots[j].Overlaps(lo, hi)
        invariant found >= 0 ==> slots[found].Overlaps(lo, hi)
        invariant found >= 0 ==> forall j :: 0 <= j < i && slots[j].Overlaps(lo, hi) ==>
          slots[found].start <= slots[j].start
      {
        if slots[i].size == 0 || (found >= 0 && slots[found].start < slots[i].start) {
        } else if hi > slots[i].start && lo < slots[i].End() {
          found := i;
        }
        i := i + 1;
      }
    }

    /** Writing a slot and telling the kernel (kvm_set_user_memory_region). */
    method SetSlot(i: nat, s: Slot)
      requires Valid() && i < SLOT_COUNT && SlotOk(s)
      requires KernelAccepts(kernel, i, s)
      requires forall j :: 0 <= j < SLOT_COUNT && j != i ==> Disjoint(s, slots[j])
      modifies this, slots
      ensures Valid() && slots[..] == old(slots[..])[i := s] && kernel == old(kernel)[i := s]
      ensures forall a ::
        Host(slots[..], a) ==
          if s.Contains(a) then Some(s.ram + (a - s.start))
          else if old(slots[i]).Contains(a) then None
          else old(Host(slots[..], a))
      ensures LiveCount(slots[..]) + (if old(slots[i]).size != 0 then 1 else 0)
        == old(LiveCount(slots[..])) + (if s.size != 0 then 1 else 0)
    {
      ghost var was := slots[..];
      slots[i] := s;
      kernel := kernel[i := s];
      assert slots[..] == was[i := s];
      assert SlotOk(was[i]);
      CountUpdate(was, i, s, 0, TWO_TO_THE_64);
      forall a ensures Host(slots[..], a) ==
        if s.Contains(a) then Some(s.ram + (a - s.start)) else if was[i].Contains(a) then None else Host(was, a)
      {
        HostUpdate(was, i, s, a);
      }
    }

    /** Register the part [from, to) of the mapping of `mem` in a free slot. */
    method RegisterPart(mem: Slot, from: int, to: int, log: bool, ghost lo: int, ghost hi: int)
      returns (ok: bool, i: nat)
      requires Valid() && SlotOk(mem) && mem.start <= from < to <= mem.End()
      requires to <= lo || hi <= from
      requires forall j :: 0 <= j < SLOT_COUNT ==> Disjoint(Slot(from, to - from, 0, log), slots[j])
      modifies this, slots
      ensures Valid() && (ok <==> old(LiveCount(slots[..])) < SLOT_COUNT)
      ensures !ok ==> slots[..] == old(slots[..])
      ensures ok ==>
        && FreeAt(old(slots[..]), i)
        && slots[..] == old(slots[..])[i := Slot(from, to - from, mem.ram + (from - mem.start), log)]
      ensures ok ==> forall a ::
        Host(slots[..], a) == if from <= a < to then Some(mem.ram + (a - mem.start)) else old(Host(slots[..], a))
      ensures NoNewOverlap(old(slots[..]), slots[..], lo, hi)
      ensures OverlapCount(slots[..], lo, hi) == old(OverlapCount(slots[..], lo, hi))
      ensures LiveCount(slots[..]) == old(LiveCount(slots[..])) + if ok then 1 else 0
    {
      ok, i := AllocSlot();
      if !ok {
        return;
      }
      var s := Slot(from, to - from, mem.ram + (from - mem.start), log);
      CountUpdate(slots[..], i, s, lo, hi);
      forall j | 0 <= j < SLOT_COUNT && j != i ensures Disjoint(s, slots[j]) && Disjoint(s, kernel[j]) {
        assert Disjoint(Slot(from, to - from, 0, log), slots[j]);
        assert SameShape(slots[j], kernel[j]);
      }
      assert SameShape(slots[i], kernel[i]);
      SetSlot(i, s);
    }

    /** The same for what sticks out of [lo, hi). */
    method RegisterRest(mem: Slot, from: int, to: int, log: bool, ghost lo: int, ghost hi: int,
                        ghost before: seq<Slot>)
      returns (ok: bool)
      requires Valid() && SlotOk(mem) && mem.start <= from < to <= mem.End() && (to <= lo || hi <= from)
      requires FreeOf(slots[..], from, to) && Relogged(before, slots[..], lo, hi, log)
      modifies this, slots
      ensures Valid() && (ok <==> old(LiveCount(slots[..])) < SLOT_COUNT)
      ensures Relogged(before, slots[..], lo, hi, log) && NoNewOverlap(old(slots[..]), slots[..], lo, hi)
      ensures !ok ==> slots[..] == old(slots[..])
      ensures forall s :: s in slots[..] ==> s in old(slots[..]) || (s.start == from && s.End() == to)
      ensures ok ==> forall a ::
        Host(slots[..], a) == if from <= a < to then Some(mem.ram + (a - mem.start)) else old(Host(slots[..], a))
      ensures OverlapCount(slots[..], lo, hi) == old(OverlapCount(slots[..], lo, hi))
      ensures LiveCount(slots[..]) == old(LiveCount(slots[..])) + if ok then 1 else 0
    {
      ghost var was := slots[..];
      forall j | 0 <= j < SLOT_COUNT ensures Disjoint(Slot(from, to - from, 0, log), slots[j]) {
        assert was[j] in was;
      }
      var i;
      ok, i := RegisterPart(mem, from, to, log, lo, hi);
      if ok {
        ReloggedUpdate(before, was, lo, hi, log, i, slots[i]);
      }
    }

    /** What sticks out below, if anything. */
    method RegisterBelow(mem: Slot, lo: int, hi: int, log: bool, ghost before: seq<Slot>) returns (ok: bool)
      requires Valid() && SlotOk(mem) && mem.Overlaps(lo, hi) && lo < hi && LiveCount(slots[..]) < SLOT_COUNT
      requires FreeOf(slots[..], mem.start, mem.End()) && Relogged(before, slots[..], lo, hi, log)
      modifies this, slots
      ensures Valid() && ok && (mem.End() > hi ==> FreeOf(slots[..], hi, mem.End()))
      ensures Relogged(before, slots[..], lo, hi, log) && NoNewOverlap(old(slots[..]), slots[..], lo, hi)
      ensures forall a ::
        Host(slots[..], a) == if mem.start <= a < lo then Some(mem.ram + (a - mem.start)) else old(Host(slots[..], a))
      ensures OverlapCount(slots[..], lo, hi) == old(OverlapCount(slots[..], lo, hi))
      ensures LiveCount(slots[..]) == old(LiveCount(slots[..])) + if mem.start < lo then 1 else 0
    {
      ok := true;
      if mem.start < lo {
        ok := RegisterRest(mem, mem.start, lo, log, lo, hi, before);
      }
    }

    method Unregister(i: nat, ghost lo: int, ghost hi: int) returns (mem: Slot)
      requires Valid() && i < SLOT_COUNT && slots[i].Overlaps(lo, hi)
      modifies this, slots
      ensures Valid() && mem == old(slots[i]) && SlotOk(mem) && slots[..] == old(slots[..])[i := mem.(size := 0)]
      ensures forall j :: 0 <= j < SLOT_COUNT ==> Disjoint(mem, slots[j])
      ensures forall a ::
        if mem.Contains(a) then Host(slots[..], a) == None && old(Host(slots[..], a)) == Some(mem.ram + (a - mem.start))
        else Host(slots[..], a) == old(Host(slots[..], a))
      ensures OverlapCount(slots[..], lo, hi) == old(OverlapCount(slots[..], lo, hi)) - 1
      ensures LiveCount(slots[..]) == old(LiveCount(slots[..])) - 1
    {
      mem := slots[i];
      assert SlotOk(slots[..][i]);
      assert forall j :: 0 <= j < SLOT_COUNT && j != i ==> Disjoint(slots[..][i], slots[..][j]);
      CountUpdate(slots[..], i, mem.(size := 0), lo, hi);
      HostIsForAll(slots[..], i);
      SetSlot(i, mem.(size := 0));
    }

    /** Unregister slot `i`, then register what sticks out of [lo, hi) below and above. */
    method SplitSlot(i: nat, lo: int, hi: int, log: bool, ghost before: seq<Slot>) returns (ok: bool)
      requires Valid() && i < SLOT_COUNT && lo < hi && slots[i].Overlaps(lo, hi)
      requires Relogged(before, slots[..], lo, hi, log)
      modifies this, slots
      ensures Valid() && Relogged(before, slots[..], lo, hi, log)
      ensures !ok <==> old(LiveCount(slots[..])) == SLOT_COUNT && old(slots[i]).start < lo && old(slots[i]).End() > hi
      ensures !ok ==> LiveCount(slots[..]) == SLOT_COUNT
      ensures ok ==> forall a ::
        Host(slots[..], a) == if old(slots[i]).Contains(a) && lo <= a < hi then None else old(Host(slots[..], a))
      ensures OverlapCount(slots[..], lo, hi) == old(OverlapCount(slots[..], lo, hi)) - 1
      ensures LiveCount(slots[..]) <= old(LiveCount(slots[..])) + if old(slots[i]).End() > hi then 1 else 0
      ensures NoNewOverlap(old(slots[..]), slots[..], lo, hi) && !slots[i].Overlaps(lo, hi)
    {
      CountBound(slots[..], 0, TWO_TO_THE_64);
      var mem := CutBelow(i, lo, hi, log, before);
      ghost var below := slots[..];
      ok := RegisterAbove(mem, lo, hi, log, before);
      NoNewTwice(old(slots[..]), below, slots[..], lo, hi);
    }

    /** What sticks out above, if anything. */
    method RegisterAbove(mem: Slot, lo: int, hi: int, log: bool, ghost before: seq<Slot>) returns (ok: bool)
      requires Valid() && SlotOk(mem) && mem.Overlaps(lo, hi)
      requires (mem.End() > hi ==> FreeOf(slots[..], hi, mem.End())) && Relogged(before, slots[..], lo, hi, log)
      modifies this, slots
      ensures Valid() && (ok <==> old(LiveCount(slots[..])) < SLOT_COUNT || mem.End() <= hi)
      ensures Relogged(before, slots[..], lo, hi, log) && NoNewOverlap(old(slots[..]), slots[..], lo, hi)
      ensures ok ==> forall a ::
        Host(slots[..], a) == if hi <= a < mem.End() then Some(mem.ram + (a - mem.start)) else old(Host(slots[..], a))
      ensures OverlapCount(slots[..], lo, hi) == old(OverlapCount(slots[..], lo, hi))
      ensures LiveCount(slots[..]) == old(LiveCount(slots[..])) + if ok && mem.End() > hi then 1 else 0
    {
      ok := true;
      if mem.End() > hi {
        ok := RegisterRest(mem, hi, mem.End(), log, lo, hi, before);
      }
    }

    /** Unregister slot `i`, and register what sticks out below. */
    method CutBelow(i: nat, lo: int, hi: int, log: bool, ghost before: seq<Slot>) returns (mem: Slot)
      requires Valid() && i < SLOT_COUNT && lo < hi && slots[i].Overlaps(lo, hi)
      requires Relogged(before, slots[..], lo, hi, log)
      modifies this, slots
      ensures Valid() && Relogged(before, slots[..], lo, hi, log) && mem == old(slots[i]) && SlotOk(mem)
      ensures mem.End() > hi ==> FreeOf(slots[..], hi, mem.End())
      ensures forall a :: Host(slots[..], a) == if mem.Contains(a) && lo <= a then None else old(Host(slots[..], a))
      ensures forall a :: mem.Contains(a) ==> old(Host(slots[..], a)) == Some(mem.ram + (a - mem.start))
      ensures OverlapCount(slots[..], lo, hi) == old(OverlapCount(slots[..], lo, hi)) - 1
      ensures LiveCount(slots[..]) == old(LiveCount(slots[..])) - if mem.start < lo then 0 else 1
      ensures LiveCount(slots[..]) <= SLOT_COUNT
      ensures NoNewOverlap(old(slots[..]), slots[..], lo, hi) && !slots[i].Overlaps(lo, hi)
    {
      CountBound(slots[..], 0, TWO_TO_THE_64);
      ReloggedUpdate(before, slots[..], lo, hi, log, i, slots[i].(size := 0));
      mem := Unregister(i, lo, hi);
      ghost var freed := slots[..];
      assert FreeOf(freed, mem.start, mem.End());
      var ok := RegisterBelow(mem, lo, hi, log, before);
    }

    /** The lowest overlapping slot: once it sticks out above the range, nothing else overlaps. */
    lemma LastOverlap(i: nat, lo: int, hi: int)
      requires Valid() && i < SLOT_COUNT && slots[i].Overlaps(lo, hi) && slots[i].End() > hi
      requires forall j :: 0 <= j < SLOT_COUNT && slots[j].Overlaps(lo, hi) ==> slots[i].start <= slots[j].start
      ensures forall j :: 0 <= j < SLOT_COUNT && slots[j].Overlaps(lo, hi) ==> j == i
    {
      assert forall k :: 0 <= k < SLOT_COUNT ==> SlotOk(slots[..][k]);
      assert forall k :: 0 <= k < SLOT_COUNT && k != i ==> Disjoint(slots[..][i], slots[..][k]);
    }

    /** The loop of kvm_set_phys_mem.  `done` when an existing slot already maps the whole range the
        same way; otherwise the range ends up unmapped. */
    method ClearRange(e: Slot, add: bool) returns (ok: bool, done: bool)
      requires Valid() && SlotOk(e) && e.size > 0
      modifies this, slots
      ensures Valid() && (done ==> add && ok)
      ensures !ok ==> old(LiveCount(slots[..])) == LiveCount(slots[..]) == SLOT_COUNT
      ensures ok ==> forall a :: !e.Contains(a) ==> Host(slots[..], a) == old(Host(slots[..], a))
      ensures ok ==> forall a :: e.Contains(a) ==>
        Host(slots[..], a) == if done then Some(e.ram + (a - e.start)) else None
      ensures ok && !done ==> forall j :: 0 <= j < SLOT_COUNT ==> !slots[j].Overlaps(e.start, e.End())
      ensures LiveCount(slots[..]) <= old(LiveCount(slots[..])) + if done then 0 else 1
      ensures Relogged(old(slots[..]), slots[..], e.start, e.End(), e.log)
      ensures done ==> forall s :: s in slots[..] && s.Overlaps(e.start, e.End()) ==> s.log == e.log
      ensures add ==> OnlyRelogged(old(slots[..]), slots[..], e)
      ensures add && !done ==> forall i: nat :: !Maps(old(slots[..]), i, e)
    {
      while true
        invariant Valid() && Relogged(old(slots[..]), slots[..], e.start, e.End(), e.log)
        invariant forall a :: !e.Contains(a) ==> Host(slots[..], a) == old(Host(slots[..], a))
        invariant LiveCount(slots[..]) <= old(LiveCount(slots[..])) + 1
        invariant AnyOverlap(e) ==> LiveCount(slots[..]) <= old(LiveCount(slots[..]))
        invariant add ==> forall j: nat :: Maps(old(slots[..]), j, e) ==> slots[..] == old(slots[..])
        decreases OverlapCount(slots[..], e.start, e.End())
      {
        var i := LookupOverlapping(e.start, e.End());
        forall j: nat | add && Maps(old(slots[..]), j, e) ensures i == j {
          OnlyOverlap(slots[..], j, e);
        }
        if i == -1 {
          NoOverlapUnmapped(e);
          return true, false;
        }
        assert AnyOverlap(e);
        CountBound(old(slots[..]), 0, TWO_TO_THE_64);
        ok, done := ClearOne(i, e, add, old(slots[..]));
        if !ok || done {
          return;
        }
      }
    }

    ghost predicate AnyOverlap(e: Slot)
      reads this, slots
      requires slots.Length == SLOT_COUNT
    {
      exists j :: 0 <= j < SLOT_COUNT && slots[j].Overlaps(e.start, e.End())
    }

    /** One turn of that loop, at the lowest slot that overlaps. */
    method ClearOne(i: nat, e: Slot, add: bool, ghost before: seq<Slot>) returns (ok: bool, done: bool)
      requires Valid() && SlotOk(e) && e.size > 0 && i < SLOT_COUNT && slots[i].Overlaps(e.start, e.End())
      requires forall j :: 0 <= j < SLOT_COUNT && slots[j].Overlaps(e.start, e.End()) ==>
        slots[i].start <= slots[j].start
      requires Relogged(before, slots[..], e.start, e.End(), e.log)
      modifies this, slots
      ensures Valid() && Relogged(before, slots[..], e.start, e.End(), e.log) && (done ==> add && ok)
      ensures !ok ==> old(LiveCount(slots[..])) == LiveCount(slots[..]) == SLOT_COUNT
      ensures ok ==> forall a :: !e.Contains(a) ==> Host(slots[..], a) == old(Host(slots[..], a))
      ensures done ==> forall a :: e.Contains(a) ==> Host(slots[..], a) == Some(e.ram + (a - e.start))
      ensures done ==> forall s :: s in slots[..] && s.Overlaps(e.start, e.End()) ==> s.log == e.log
      ensures done <==> add && Maps(old(slots[..]), i, e)
      ensures done ==> slots[..] == Relog(old(slots[..]), i, e.log)
      ensures ok && !done ==> OverlapCount(slots[..], e.start, e.End()) < old(OverlapCount(slots[..], e.start, e.End()))
      ensures LiveCount(slots[..]) <= old(LiveCount(slots[..])) + if done then 0 else 1
      ensures AnyOverlap(e) ==> LiveCount(slots[..]) <= old(LiveCount(slots[..]))
    {
      var mem := slots[i];
      if add && e.start >= mem.start && e.End() <= mem.End() && e.ram - e.start == mem.ram - mem.start {
        SetLog(i, e, before);
        return true, true;
      }
      CountBound(slots[..], e.start, e.End());
      assert slots[..][i].Overlaps(e.start, e.End());
      if mem.End() > e.End() {
        LastOverlap(i, e.start, e.End());
      }
      CountBound(slots[..], 0, TWO_TO_THE_64);
      ok := SplitSlot(i, e.start, e.End(), e.log, before);
      done := false;
    }

    /** kvm_slot_dirty_pages_log_change, for a slot that already maps the range. */
    method SetLog(i: nat, e: Slot, ghost before: seq<Slot>)
      requires Valid() && SlotOk(e) && e.size > 0 && i < SLOT_COUNT && slots[i].Overlaps(e.start, e.End())
      requires e.start >= slots[i].start && e.End() <= slots[i].End()
      requires e.ram - e.start == slots[i].ram - slots[i].start
      requires Relogged(before, slots[..], e.start, e.End(), e.log)
      modifies this, slots
      ensures Valid() && Relogged(before, slots[..], e.start, e.End(), e.log)
      ensures forall a :: Host(slots[..], a) == old(Host(slots[..], a))
      ensures forall a :: e.Contains(a) ==> Host(slots[..], a) == Some(e.ram + (a - e.start))
      ensures forall s :: s in slots[..] && s.Overlaps(e.start, e.End()) ==> s.log == e.log
      ensures LiveCount(slots[..]) == old(LiveCount(slots[..])) && slots[..] == Relog(old(slots[..]), i, e.log)
    {
      var mem := slots[i];
      HostIsForAll(slots[..], i);
      assert SlotOk(slots[..][i]) && forall j :: 0 <= j < SLOT_COUNT && j != i ==> Disjoint(slots[..][i], slots[..][j]);
      ReloggedUpdate(before, slots[..], e.start, e.End(), e.log, i, mem.(log := e.log));
      SetSlot(i, mem.(log := e.log));
      OnlyOverlap(slots[..], i, e);
    }

    lemma NoOverlapUnmapped(e: Slot)
      requires Valid() && SlotOk(e) && e.size > 0
      requires forall j :: 0 <= j < SLOT_COUNT ==> !slots[j].Overlaps(e.start, e.End())
      ensures forall a :: e.Contains(a) ==> Host(slots[..], a) == None
    {
      forall a | e.Contains(a) ensures Host(slots[..], a) == None {
        forall j | 0 <= j < SLOT_COUNT ensures !slots[..][j].Contains(a) {
          assert SlotOk(slots[..][j]) && !slots[j].Overlaps(e.start, e.End());
        }
        HostNone(slots[..], a);
      }
    }

    /** kvm_set_phys_mem: the map changes by exactly the override (add) or the removal (del) of the
        section's effective range, with at most two more slots in use.  It fails only when every slot
        is in use. */
    method SetPhysMem(sec: MemSection, add: bool) returns (ok: bool)
      requires Valid() && sec.start >= 0 && sec.size >= 0 && (sec.isRam ==> sec.start + sec.size < TWO_TO_THE_64)
      modifies this, slots
      ensures Valid()
      ensures !sec.isRam || Effective(sec).None? ==> ok && slots[..] == old(slots[..])
      ensures !ok ==> LiveCount(slots[..]) == SLOT_COUNT
      ensures old(LiveCount(slots[..])) + (if add then 2 else 1) <= SLOT_COUNT ==> ok
      ensures ok && sec.isRam && Effective(sec).Some? ==>
        forall a ::
          Host(slots[..], a) ==
            if !Effective(sec).value.Contains(a) then old(Host(slots[..], a))
            else if add then Some(sec.ram + (a - sec.start))
            else None
      ensures LiveCount(slots[..]) <= old(LiveCount(slots[..])) + if add then 2 else 1
      ensures ok && sec.isRam && Effective(sec).Some? ==>
        var e := Effective(sec).value;
        && Relogged(old(slots[..]), slots[..], e.start, e.End(), sec.log)
        && (forall s :: s in slots[..] && s.Overlaps(e.start, e.End()) ==> s.log == sec.log)
        && (add ==> OnlyRelogged(old(slots[..]), slots[..], e))
    {
      var eff := Effective(sec);
      if eff.None? || !sec.isRam {
        return true;
      }
      EffectiveInside(sec);
      var e := eff.value;
      var done;
      ok, done := ClearRange(e, add);
      if ok && !done && add {
        ok := RegisterWhole(e, old(slots[..]));
      }
    }

    /** The new slot, once its range is free. */
    method RegisterWhole(e: Slot, ghost before: seq<Slot>) returns (ok: bool)
      requires Valid() && SlotOk(e) && e.size > 0 && Relogged(before, slots[..], e.start, e.End(), e.log)
      requires forall j :: 0 <= j < SLOT_COUNT ==> !slots[j].Overlaps(e.start, e.End())
      modifies this, slots
      ensures Valid() && (ok <==> old(LiveCount(slots[..])) < SLOT_COUNT)
      ensures LiveCount(slots[..]) == old(LiveCount(slots[..])) + if ok then 1 else 0
      ensures !ok ==> LiveCount(slots[..]) == SLOT_COUNT
      ensures ok ==> forall a ::
        Host(slots[..], a) == if e.Contains(a) then Some(e.ram + (a - e.start)) else old(Host(slots[..], a))
      ensures Relogged(before, slots[..], e.start, e.End(), e.log)
      ensures forall s :: s in slots[..] && s.Overlaps(e.start, e.End()) ==> s.log == e.log
    {
      forall j | 0 <= j < SLOT_COUNT ensures Disjoint(Slot(e.start, e.End() - e.start, 0, e.log), slots[j]) {
        assert !slots[j].Overlaps(e.start, e.End());
      }
      CountBound(slots[..], 0, TWO_TO_THE_64);
      var i;
      ghost var was := slots[..];
      assert forall s :: s in was ==> !s.Overlaps(e.start, e.End());
      ok, i := RegisterPart(e, e.start, e.End(), e.log, e.End(), e.End());
      if ok {
        ReloggedUpdate(before, was, e.start, e.End(), e.log, i, slots[i]);
      }
    }
  }
}
