/**
  The software TLB (cputlb.c): direct-mapped tables of page entries, one per MMU mode, and one region of
  addresses that stands for all large pages entered since the last full flush.

  Addresses are 64-bit.  A mask of ones from bit k upwards is held as k, the number of low bits it clears.
 */
module Tlbs {
  import opened Units

  const PAGE_BITS: nat := 12
  const TLB_SIZE: nat := 256
  const TLB_INVALID: nat := 8
  const TLB_NOTDIRTY: nat := 16
  const TLB_MMIO: nat := 32
  const NO_ADDR: nat := 0xFFFF_FFFF_FFFF_FFFF

  // ----- masks -----

  /** x & mask, for the mask that clears `bits` low bits. */
  function Clear(x: nat, bits: nat): nat
    decreases bits
  {
    if bits == 0 then x else 2 * Clear(x / 2, bits - 1)
  }

  /** Clearing as many bits as there are leaves nothing. */
  lemma {:induction false} ClearAll(x: nat, bits: nat)
    requires x < Pow2(bits)
    ensures Clear(x, bits) == 0
    decreases bits
  {
    if bits > 0 {
      ClearAll(x / 2, bits - 1);
    }
  }

  /** Addresses that agree under a mask agree under every wider one. */
  lemma {:induction false} AgreeWider(x: nat, y: nat, k: nat, j: nat)
    requires k <= j && Clear(x, k) == Clear(y, k)
    ensures Clear(x, j) == Clear(y, j)
    decreases k
  {
    if k > 0 {
      AgreeWider(x / 2, y / 2, k - 1, j - 1);
    }
  }

  lemma {:induction false} ClearBelow(x: nat, bits: nat)
    ensures Clear(x, bits) <= x
    decreases bits
  {
    if bits > 0 {
      ClearBelow(x / 2, bits - 1);
    }
  }

  lemma {:induction false} ClearTwice(x: nat, k: nat, j: nat)
    requires k <= j
    ensures Clear(Clear(x, k), j) == Clear(x, j)
    decreases k
  {
    if k > 0 {
      ClearTwice(x / 2, k - 1, j - 1);
      assert Clear(x, k) / 2 == Clear(x / 2, k - 1);
    }
  }

  /** A masked address is never the mark for "no region". */
  lemma ClearIsAddress(x: nat, bits: nat)
    requires bits > 0
    ensures Clear(x, bits) != NO_ADDR
  {
    assert Clear(x, bits) % 2 == 0;
  }

  lemma {:induction false} Pow2Sixtyfour()
    ensures Pow2(64) == TWO_TO_THE_64
  {
    assert Pow2(4) == 16;
    Pow2Add(4, 4);
    Pow2Add(8, 8);
    Pow2Add(16, 16);
    Pow2Add(32, 32);
  }

  lemma {:induction false} Pow2Add(a: nat, b: nat)
    ensures Pow2(a + b) == Pow2(a) * Pow2(b)
    decreases b
  {
    if b > 0 {
      calc {
        Pow2(a + b);
        2 * Pow2(a + (b - 1));
        { Pow2Add(a, b - 1); }
        2 * (Pow2(a) * Pow2(b - 1));
        { Twice(Pow2(a), Pow2(b - 1)); }
        Pow2(a) * Pow2(b);
      }
    }
  }

  lemma Twice(x: nat, y: nat)
    ensures 2 * (x * y) == x * (2 * y)
  {
  }

  /** The loop of tlb_add_large_page: the fewest bits, from `from` on, without which the addresses agree. */
  method Widen(f: nat, v: nat, from: nat) returns (bits: nat)
    requires f < TWO_TO_THE_64 && v < TWO_TO_THE_64 && from <= 64
    ensures from <= bits <= 64 && Clear(f, bits) == Clear(v, bits)
    ensures forall j :: from <= j < bits ==> Clear(f, j) != Clear(v, j)
  {
    Pow2Sixtyfour();
    ClearAll(f, 64);
    ClearAll(v, 64);
    bits := from;
    while Clear(f, bits) != Clear(v, bits)
      invariant from <= bits <= 64
      invariant forall j :: from <= j < bits ==> Clear(f, j) != Clear(v, j)
      decreases 64 - bits
    {
      bits := bits + 1;
    }
  }

  // ----- entries -----

  /** The address fields of a CPUTLBEntry. */
  datatype Entry = Entry(read: nat, write: nat, code: nat)

  const EMPTY: Entry := Entry(NO_ADDR, NO_ADDR, NO_ADDR)

  predicate HasBit(field: nat, bit: nat)
    requires bit > 0
  {
    field / bit % 2 == 1
  }

  /** field | bit */
  function SetBit(field: nat, bit: nat): nat
    requires bit > 0
  {
    if HasBit(field, bit) then field else field + bit
  }

  function PageOf(x: nat): nat { x / PAGE_SIZE * PAGE_SIZE }

  /** The page a field is for, with the invalid bit: what an access compares its own page with. */
  function Tag(field: nat): nat { PageOf(field) + if HasBit(field, TLB_INVALID) then TLB_INVALID else 0 }

  predicate Hits(field: nat, x: nat) { PageOf(x) == Tag(field) }

  /** The entry serves some kind of access to `x`. */
  predicate Translates(e: Entry, x: nat) { Hits(e.read, x) || Hits(e.write, x) || Hits(e.code, x) }

  function Index(x: nat): (i: nat)
    ensures i < TLB_SIZE
  {
    x / PAGE_SIZE % TLB_SIZE
  }

  lemma EmptyHits(x: nat)
    ensures !Hits(NO_ADDR, x)
  {
    assert HasBit(NO_ADDR, TLB_INVALID);
  }

  lemma SamePageIndex(x: nat, y: nat)
    requires PageOf(x) == PageOf(y)
    ensures Index(x) == Index(y)
  {
  }

  lemma PageIndex(x: nat)
    ensures PageOf(PageOf(x)) == PageOf(x) && Index(PageOf(x)) == Index(x)
  {
    var q := x / PAGE_SIZE;
    assert (q * PAGE_SIZE) / PAGE_SIZE == q;
  }

  /** A field made of a page address and flags is for exactly that page. */
  lemma FieldHits(vaddr: nat, flags: nat, x: nat)
    requires PageOf(vaddr) == vaddr && flags in {0, TLB_NOTDIRTY, TLB_MMIO, TLB_NOTDIRTY + TLB_MMIO}
    ensures Hits(vaddr + flags, x) <==> PageOf(x) == vaddr
  {
    assert (vaddr + flags) / PAGE_SIZE == vaddr / PAGE_SIZE;
  }

  lemma LowBits(q: nat, flags: nat)
    requires flags < PAGE_SIZE
    ensures HasBit(4096 * q + flags, 32) <==> HasBit(flags, 32)
    ensures HasBit(4096 * q + flags, 16) <==> HasBit(flags, 16)
  {
    Shifted(128 * q, flags, 32);
    Shifted(256 * q, flags, 16);
    Parity(64 * q, flags / 32);
    Parity(128 * q, flags / 16);
  }

  lemma Shifted(p: nat, flags: nat, bit: nat)
    requires bit == 16 || bit == 32
    ensures (bit * p + flags) / bit == p + flags / bit
  {
  }

  lemma Parity(p: nat, r: nat)
    ensures (2 * p + r) % 2 == r % 2
  {
  }

  lemma FieldFlags(vaddr: nat, flags: nat)
    requires PageOf(vaddr) == vaddr && flags in {0, TLB_NOTDIRTY, TLB_MMIO, TLB_NOTDIRTY + TLB_MMIO}
    ensures HasBit(vaddr + flags, TLB_MMIO) <==> HasBit(flags, TLB_MMIO)
    ensures HasBit(vaddr + flags, TLB_NOTDIRTY) <==> HasBit(flags, TLB_NOTDIRTY)
  {
    LowBits(vaddr / PAGE_SIZE, flags);
  }

  /** An entry serves only addresses that are looked up where it is. */
  ghost predicate BelongsAt(e: Entry, i: nat) {
    forall x: nat :: Translates(e, x) ==> Index(x) == i
  }

  lemma EmptyBelongs(i: nat)
    ensures BelongsAt(EMPTY, i) && forall x: nat :: !Translates(EMPTY, x)
  {
    forall x: nat ensures !Translates(EMPTY, x) {
      EmptyHits(x);
    }
  }

  /** tlb_flush_entry */
  function AfterFlush(e: Entry, addr: nat): Entry {
    if addr == Tag(e.read) || addr == Tag(e.write) || addr == Tag(e.code) then EMPTY else e
  }

  lemma AfterFlushMisses(e: Entry, i: nat, addr: nat, x: nat)
    requires BelongsAt(e, i) && PageOf(addr) == PageOf(x)
    ensures BelongsAt(AfterFlush(e, PageOf(addr)), i)
    ensures i == Index(addr) ==> !Translates(AfterFlush(e, PageOf(addr)), x)
    ensures i != Index(addr) ==> !Translates(e, x)
  {
    EmptyBelongs(i);
    SamePageIndex(addr, x);
  }

  // ----- tables -----

  /** One table per MMU mode. */
  type Tables = seq<seq<Entry>>

  ghost predicate Shaped(t: Tables, modes: nat) {
    |t| == modes && forall mode :: 0 <= mode < modes ==> |t[mode]| == TLB_SIZE
  }

  ghost predicate Placed(t: Tables) {
    forall mode: nat, i: nat {:trigger t[mode][i]} :: mode < |t| && i < |t[mode]| ==> BelongsAt(t[mode][i], i)
  }

  /** No access to `x` is served without a new page walk. */
  ghost predicate Misses(t: Tables, x: nat) {
    forall mode: nat, i: nat {:trigger t[mode][i]} :: mode < |t| && i < |t[mode]| ==> !Translates(t[mode][i], x)
  }

  ghost predicate AllEmpty(t: Tables) {
    forall mode: nat, i: nat {:trigger t[mode][i]} :: mode < |t| && i < |t[mode]| ==> t[mode][i] == EMPTY
  }

  /** The tables differ only in entries for one page, which are gone. */
  ghost predicate OnlyPageLost(t: Tables, t': Tables, page: nat) {
    && |t'| == |t| && (forall mode :: 0 <= mode < |t| ==> |t'[mode]| == |t[mode]|)
    && forall mode: nat, i: nat {:trigger t[mode][i]} {:trigger t'[mode][i]} :: mode < |t| && i < |t[mode]| ==>
      t'[mode][i] == t[mode][i] || (t'[mode][i] == EMPTY && Translates(t[mode][i], page))
  }

  /** In every table the entry of the page of `addr` is flushed and no other is touched. */
  ghost predicate FlushedAt(was: Tables, t: Tables, modes: nat, addr: nat)
    requires Shaped(was, modes) && Shaped(t, modes)
  {
    forall m: nat, j: nat {:trigger t[m][j]} :: m < modes && j < TLB_SIZE ==>
      t[m][j] == if j == Index(addr) then AfterFlush(was[m][j], PageOf(addr)) else was[m][j]
  }

  lemma FlushedEntry(was: Tables, t: Tables, modes: nat, addr: nat, x: nat, m: nat, j: nat)
    requires Shaped(was, modes) && Shaped(t, modes) && Placed(was) && FlushedAt(was, t, modes, addr)
    requires PageOf(x) == PageOf(addr) && m < modes && j < TLB_SIZE
    ensures BelongsAt(t[m][j], j) && !Translates(t[m][j], x)
  {
    assert t[m][j] == if j == Index(addr) then AfterFlush(was[m][j], PageOf(addr)) else was[m][j];
    assert BelongsAt(was[m][j], j);
    AfterFlushMisses(was[m][j], j, addr, x);
  }

  lemma FlushedMisses(was: Tables, t: Tables, modes: nat, addr: nat, x: nat)
    requires Shaped(was, modes) && Shaped(t, modes) && Placed(was) && FlushedAt(was, t, modes, addr)
    requires PageOf(x) == PageOf(addr)
    ensures Misses(t, x)
  {
    forall m: nat, j: nat | m < |t| && j < |t[m]| ensures !Translates(t[m][j], x) {
      FlushedEntry(was, t, modes, addr, x, m, j);
    }
  }

  lemma FlushedLost(was: Tables, t: Tables, modes: nat, addr: nat)
    requires Shaped(was, modes) && Shaped(t, modes) && FlushedAt(was, t, modes, addr)
    ensures OnlyPageLost(was, t, PageOf(addr))
  {
    forall m: nat, j: nat | m < |was| && j < |was[m]|
      ensures t[m][j] == was[m][j] || (t[m][j] == EMPTY && Translates(was[m][j], PageOf(addr)))
    {
      assert t[m][j] == if j == Index(addr) then AfterFlush(was[m][j], PageOf(addr)) else was[m][j];
    }
  }

  lemma FlushedTables(was: Tables, t: Tables, modes: nat, addr: nat)
    requires Shaped(was, modes) && Shaped(t, modes) && Placed(was) && FlushedAt(was, t, modes, addr)
    ensures Placed(t) && OnlyPageLost(was, t, PageOf(addr))
    ensures forall x: nat :: PageOf(x) == PageOf(addr) ==> Misses(t, x)
  {
    forall m: nat, j: nat | m < |t| && j < |t[m]| ensures BelongsAt(t[m][j], j) {
      FlushedEntry(was, t, modes, addr, addr, m, j);
    }
    forall x: nat | PageOf(x) == PageOf(addr) ensures Misses(t, x) {
      FlushedMisses(was, t, modes, addr, x);
    }
    FlushedLost(was, t, modes, addr);
  }

  // ----- large pages -----

  /** A large page: an address in it and the bits of the offset. */
  datatype Large = Large(vaddr: nat, bits: nat)

  predicate InLarge(l: Large, x: nat) { Clear(x, l.bits) == Clear(l.vaddr, l.bits) }

  /** The large page lies in the flush region. */
  predicate LargeCovered(l: Large, flushAddr: nat, flushBits: nat) {
    0 < l.bits <= flushBits && Clear(l.vaddr, flushBits) == flushAddr
  }

  lemma LargeInRegion(l: Large, flushAddr: nat, flushBits: nat, x: nat)
    requires LargeCovered(l, flushAddr, flushBits) && InLarge(l, x)
    ensures Clear(x, flushBits) == flushAddr
  {
    AgreeWider(x, l.vaddr, l.bits, flushBits);
  }

  lemma OutsideRegion(larges: set<Large>, flushAddr: nat, flushBits: nat, x: nat)
    requires (forall l :: l in larges ==> LargeCovered(l, flushAddr, flushBits)) && Clear(x, flushBits) != flushAddr
    ensures forall l :: l in larges ==> !InLarge(l, x)
  {
    forall l | l in larges ensures !InLarge(l, x) {
      if InLarge(l, x) {
        LargeInRegion(l, flushAddr, flushBits, x);
      }
    }
  }

  lemma CoveredWider(l: Large, flushAddr: nat, flushBits: nat, bits: nat)
    requires LargeCovered(l, flushAddr, flushBits) && flushBits <= bits
    ensures LargeCovered(l, Clear(flushAddr, bits), bits)
  {
    ClearTwice(l.vaddr, flushBits, bits);
  }

  /** What kind of memory a page is mapped to. */
  datatype Memory = Memory(ram: bool, romd: bool, readonly: bool, dirty: bool, watched: bool)

  datatype Prot = Prot(read: bool, write: bool, exec: bool)

  /** The entry serves exactly the accesses that are allowed, to exactly this page; accesses that must not
      go straight to RAM have a flag set. */
  ghost predicate Serves(e: Entry, vaddr: nat, memory: Memory, prot: Prot) {
    && (forall x: nat :: Hits(e.read, x) <==> prot.read && PageOf(x) == vaddr)
    && (forall x: nat :: Hits(e.write, x) <==> prot.write && PageOf(x) == vaddr)
    && (forall x: nat :: Hits(e.code, x) <==> prot.exec && PageOf(x) == vaddr)
    && (prot.read ==> (HasBit(e.read, TLB_MMIO) <==> memory.watched || !(memory.ram || memory.romd)))
    && (prot.exec ==> (HasBit(e.code, TLB_MMIO) <==> !(memory.ram || memory.romd)))
    && (prot.write ==> (HasBit(e.write, TLB_MMIO) <==> memory.watched || memory.romd || !memory.ram || memory.readonly))
    && (prot.write && memory.ram && !memory.readonly && !memory.romd ==>
        (HasBit(e.write, TLB_NOTDIRTY) <==> !memory.dirty))
  }

  lemma ServesBelongs(e: Entry, vaddr: nat, memory: Memory, prot: Prot)
    requires Serves(e, vaddr, memory, prot) && PageOf(vaddr) == vaddr
    ensures BelongsAt(e, Index(vaddr))
  {
    forall x: nat | Translates(e, x) ensures Index(x) == Index(vaddr) {
      SamePageIndex(x, vaddr);
    }
  }

  /** One field of a new entry. */
  method MakeField(vaddr: nat, flags: nat, allowed: bool) returns (field: nat)
    requires PageOf(vaddr) == vaddr && flags in {0, TLB_NOTDIRTY, TLB_MMIO, TLB_NOTDIRTY + TLB_MMIO}
    ensures forall x: nat :: Hits(field, x) <==> allowed && PageOf(x) == vaddr
    ensures allowed ==> (HasBit(field, TLB_MMIO) <==> HasBit(flags, TLB_MMIO))
    ensures allowed ==> (HasBit(field, TLB_NOTDIRTY) <==> HasBit(flags, TLB_NOTDIRTY))
  {
    field := if allowed then vaddr + flags else NO_ADDR;
    FieldFlags(vaddr, flags);
    forall x: nat ensures Hits(field, x) <==> allowed && PageOf(x) == vaddr {
      if allowed {
        FieldHits(vaddr, flags, x);
      } else {
        EmptyHits(x);
      }
    }
  }

  /** The entry of tlb_set_page. */
  method MakeEntry(vaddr: nat, memory: Memory, prot: Prot) returns (e: Entry)
    requires PageOf(vaddr) == vaddr
    ensures Serves(e, vaddr, memory, prot)
  {
    var base := if memory.ram || memory.romd then 0 else TLB_MMIO;
    var flags := if memory.watched then SetBit(base, TLB_MMIO) else base;
    var forWrite :=
      if (memory.ram && memory.readonly) || memory.romd then SetBit(flags, TLB_MMIO)
      else if memory.ram && !memory.dirty then SetBit(flags, TLB_NOTDIRTY)
      else flags;
    var read := MakeField(vaddr, flags, prot.read);
    var write := MakeField(vaddr, forWrite, prot.write);
    var code := MakeField(vaddr, base, prot.exec);
    e := Entry(read, write, code);
  }

  // ----- the TLB -----

  class Tlb {
    const modes: nat
    var tables: Tables
    var flushAddr: nat
    var flushBits: nat
    /** The large pages entered since the last full flush. */
    ghost var larges: set<Large>

    /** The flush region holds every large page. */
    ghost predicate Covered() reads this {
      && (flushAddr == NO_ADDR <==> larges == {})
      && 0 < flushBits <= 64 && flushAddr < TWO_TO_THE_64
      && forall l :: l in larges ==> LargeCovered(l, flushAddr, flushBits)
    }

    ghost predicate Valid() reads this { Shaped(tables, modes) && Placed(tables) && Covered() }

    constructor (modes: nat)
      ensures Valid() && AllEmpty(tables) && larges == {} && this.modes == modes
    {
      this.modes := modes;
      tables := seq(modes, m => seq(TLB_SIZE, i => EMPTY));
      flushAddr, flushBits, larges := NO_ADDR, 64, {};
      new;
      forall i: nat ensures BelongsAt(EMPTY, i) {
        EmptyBelongs(i);
      }
    }

    /** tlb_flush */
    method Flush()
      requires Shaped(tables, modes)
      modifies this
      ensures Valid() && AllEmpty(tables) && larges == {}
    {
      var i := 0;
      while i < TLB_SIZE
        invariant 0 <= i <= TLB_SIZE && Shaped(tables, modes)
        invariant forall m: nat, j: nat {:trigger tables[m][j]} :: m < modes && j < i ==> tables[m][j] == EMPTY
      {
        FlushColumn(i);
        i := i + 1;
      }
      flushAddr, flushBits, larges := NO_ADDR, 64, {};
      forall j: nat ensures BelongsAt(EMPTY, j) {
        EmptyBelongs(j);
      }
    }

    /** The inner loop of tlb_flush. */
    method FlushColumn(i: nat)
      requires Shaped(tables, modes) && i < TLB_SIZE
      modifies `tables
      ensures Shaped(tables, modes)
      ensures forall m: nat, j: nat {:trigger tables[m][j]} :: m < modes && j < TLB_SIZE ==>
        tables[m][j] == if j == i then EMPTY else old(tables)[m][j]
    {
      var mode := 0;
      while mode < modes
        invariant 0 <= mode <= modes && Shaped(tables, modes)
        invariant forall m: nat, j: nat {:trigger tables[m][j]} :: m < modes && j < TLB_SIZE ==>
          tables[m][j] == if j == i && m < mode then EMPTY else old(tables)[m][j]
      {
        SetEntry(mode, i, EMPTY);
        mode := mode + 1;
      }
    }

    method SetEntry(mode: nat, i: nat, e: Entry)
      requires Shaped(tables, modes) && mode < modes && i < TLB_SIZE
      modifies `tables
      ensures Shaped(tables, modes)
      ensures forall m: nat, j: nat {:trigger tables[m][j]} :: m < modes && j < TLB_SIZE ==>
        tables[m][j] == if m == mode && j == i then e else old(tables)[m][j]
    {
      tables := tables[mode := tables[mode][i := e]];
    }

    /** The loop of tlb_flush_page. */
    method FlushModes(page: nat, i: nat)
      requires Shaped(tables, modes) && i < TLB_SIZE
      modifies `tables
      ensures Shaped(tables, modes)
      ensures forall m: nat, j: nat {:trigger tables[m][j]} :: m < modes && j < TLB_SIZE ==>
        tables[m][j] == if j == i then AfterFlush(old(tables)[m][j], page) else old(tables)[m][j]
    {
      var mode := 0;
      while mode < modes
        invariant 0 <= mode <= modes && Shaped(tables, modes)
        invariant forall m: nat, j: nat {:trigger tables[m][j]} :: m < modes && j < TLB_SIZE ==>
          tables[m][j] == if j == i && m < mode then AfterFlush(old(tables)[m][j], page) else old(tables)[m][j]
      {
        SetEntry(mode, i, AfterFlush(tables[mode][i], page));
        mode := mode + 1;
      }
    }

    /** tlb_flush_page: nothing serves the page any more, in any mode; and if it lies in a large page entered
        since the last full flush, nothing serves any page any more. */
    method FlushPage(addr: nat)
      requires Valid() && addr < TWO_TO_THE_64
      modifies this
      ensures Valid()
      ensures forall x: nat :: PageOf(x) == PageOf(addr) ==> Misses(tables, x)
      ensures (exists l :: l in old(larges) && InLarge(l, addr)) ==> AllEmpty(tables)
      ensures if Clear(addr, old(flushBits)) == old(flushAddr) then AllEmpty(tables) && larges == {}
        else larges == old(larges) && OnlyPageLost(old(tables), tables, PageOf(addr))
      ensures old(larges) == {} ==> larges == {} && OnlyPageLost(old(tables), tables, PageOf(addr))
    {
      ghost var was := tables;
      if Clear(addr, flushBits) == flushAddr {
        Flush();
        EmptyBelongs(0);
        return;
      }
      OutsideRegion(larges, flushAddr, flushBits, addr);
      var page := PageOf(addr);
      PageIndex(addr);
      FlushModes(page, Index(page));
      FlushedTables(was, tables, modes, addr);
    }

    /** tlb_add_large_page: the flush region grows, to the smallest that holds it and the new page. */
    method AddLargePage(vaddr: nat, bits: nat)
      requires Covered() && vaddr < TWO_TO_THE_64 && PAGE_BITS <= bits < 64
      modifies `flushAddr, `flushBits, `larges
      ensures Covered() && larges == old(larges) + {Large(vaddr, bits)}
      ensures flushAddr == Clear(if old(flushAddr) == NO_ADDR then vaddr else old(flushAddr), flushBits)
      ensures old(flushAddr) == NO_ADDR ==> flushBits == bits
      ensures old(flushAddr) != NO_ADDR ==> flushBits >= bits && flushBits >= old(flushBits)
      ensures old(flushAddr) != NO_ADDR ==>
        forall j :: bits <= j && old(flushBits) <= j < flushBits ==> Clear(old(flushAddr), j) != Clear(vaddr, j)
    {
      var l := Large(vaddr, bits);
      if flushAddr == NO_ADDR {
        ClearIsAddress(vaddr, bits);
        ClearBelow(vaddr, bits);
        flushAddr, flushBits, larges := Clear(vaddr, bits), bits, {l};
      } else {
        var from := if bits < flushBits then flushBits else bits;
        var wide := Widen(flushAddr, vaddr, from);
        forall o | o in larges ensures LargeCovered(o, Clear(flushAddr, wide), wide) {
          CoveredWider(o, flushAddr, flushBits, wide);
        }
        ClearIsAddress(flushAddr, wide);
        ClearBelow(flushAddr, wide);
        flushAddr, flushBits, larges := Clear(flushAddr, wide), wide, larges + {l};
      }
    }

    /** tlb_set_page, for a page of 2^bits bytes: the one entry of `mode` for this address serves exactly the
        accesses that are allowed, and sends those that need it to the slow path. */
    method SetPage(vaddr: nat, memory: Memory, prot: Prot, mode: nat, bits: nat)
      requires Valid() && mode < modes && vaddr < TWO_TO_THE_64 && PageOf(vaddr) == vaddr && PAGE_BITS <= bits < 64
      modifies this
      ensures Valid()
      ensures larges == if bits != PAGE_BITS then old(larges) + {Large(vaddr, bits)} else old(larges)
      ensures forall m: nat, j: nat {:trigger tables[m][j]} ::
        m < modes && j < TLB_SIZE && !(m == mode && j == Index(vaddr)) ==> tables[m][j] == old(tables)[m][j]
      ensures Serves(tables[mode][Index(vaddr)], vaddr, memory, prot)
    {
      if bits != PAGE_BITS {
        AddLargePage(vaddr, bits);
      }
      var e := MakeEntry(vaddr, memory, prot);
      ServesBelongs(e, vaddr, memory, prot);
      ghost var was := tables;
      SetEntry(mode, Index(vaddr), e);
      forall m: nat, j: nat | m < |tables| && j < |tables[m]| ensures BelongsAt(tables[m][j], j) {
        assert BelongsAt(was[m][j], j);
      }
    }
  }
}
