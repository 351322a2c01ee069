/**
  Guest memory dumps without paging (dump.c, memory_mapping.c), 64-bit ELF.

  The program headers are laid out by one calculation (`GetOffset`), and the memory is written by another
  (`Iterate`); the dump is right only if the two agree.  Headers and notes count by their size.
 */
module Dumps {
  import opened Options
  import opened Units

  const EHDR_SIZE: nat := 64
  const PHDR_SIZE: nat := 56
  const SHDR_SIZE: nat := 64
  const UINT16_MAX: nat := 0xFFFF
  const UINT32_MAX: nat := 0xFFFF_FFFF
  const PN_XNUM: nat := 0xFFFF

  /** A RAM block: where it is in the physical address space, and its contents. */
  datatype Block = Block(offset: nat, data: seq<byte>)

  function End(b: Block): nat { b.offset + |b.data| }

  datatype Filter = Whole | Only(begin: nat, length: nat)

  // ----- the part of a block that is dumped -----

  predicate OutOfRange(f: Filter, b: Block) {
    f.Only? && (b.offset >= f.begin + f.length || End(b) <= f.begin)
  }

  /** The first address of the dumped part. */
  function PieceStart(f: Filter, b: Block): nat {
    if f.Only? && f.begin > b.offset then f.begin else b.offset
  }

  function PieceSize(f: Filter, b: Block): (size: nat)
    requires !OutOfRange(f, b)
    ensures PieceStart(f, b) - b.offset + size <= |b.data|
  {
    var size := |b.data| - (PieceStart(f, b) - b.offset);
    if f.Only? && f.begin + f.length < End(b) then size - (End(b) - (f.begin + f.length)) else size
  }

  function PieceData(f: Filter, b: Block): (data: seq<byte>)
    requires !OutOfRange(f, b)
    ensures |data| == PieceSize(f, b)
  {
    var from := PieceStart(f, b) - b.offset;
    b.data[from..from + PieceSize(f, b)]
  }

  predicate InPiece(f: Filter, b: Block, p: nat) {
    !OutOfRange(f, b) && PieceStart(f, b) <= p < PieceStart(f, b) + PieceSize(f, b)
  }

  /** The piece is exactly what the block and the filter have in common. */
  lemma PieceIs(f: Filter, b: Block, p: nat)
    ensures InPiece(f, b, p) <==> b.offset <= p < End(b) && (f.Only? ==> f.begin <= p < f.begin + f.length)
  {
  }

  /** How many bytes of a block are dumped. */
  ghost function Size(f: Filter, b: Block): nat {
    if OutOfRange(f, b) then 0 else PieceSize(f, b)
  }

  /** How many bytes are dumped before those of block `k`. */
  ghost function Before(blocks: seq<Block>, f: Filter, k: nat): nat
    requires k <= |blocks|
  {
    if k == 0 then 0 else Before(blocks, f, k - 1) + Size(f, blocks[k - 1])
  }

  lemma {:induction false} BeforeRises(blocks: seq<Block>, f: Filter, k: nat, n: nat)
    requires k <= n <= |blocks|
    ensures Before(blocks, f, k) <= Before(blocks, f, n)
    ensures k < n ==> Before(blocks, f, k) + Size(f, blocks[k]) <= Before(blocks, f, n)
    decreases n
  {
    if k < n {
      BeforeRises(blocks, f, k, n - 1);
    }
  }

  /** `data` is in the file at `at`. */
  ghost predicate Holds(file: seq<byte>, at: nat, data: seq<byte>) {
    at + |data| <= |file| && file[at..at + |data|] == data
  }

  lemma HoldsMore(file: seq<byte>, more: seq<byte>, at: nat, data: seq<byte>)
    requires Holds(file, at, data)
    ensures Holds(file + more, at, data)
  {
    assert (file + more)[at..at + |data|] == file[at..at + |data|];
  }

  /** The file holds the piece of block `k`, at its place after `base`. */
  ghost predicate HoldsPiece(file: seq<byte>, base: nat, blocks: seq<Block>, f: Filter, k: nat)
    requires k < |blocks|
  {
    !OutOfRange(f, blocks[k]) ==> Holds(file, base + Before(blocks, f, k), PieceData(f, blocks[k]))
  }

  /** From `base` on, the file holds the pieces of the first `k` blocks, one after the other, and nothing else. */
  ghost predicate HoldsPieces(file: seq<byte>, base: nat, blocks: seq<Block>, f: Filter, k: nat)
    requires k <= |blocks|
  {
    && |file| == base + Before(blocks, f, k)
    && forall j: nat {:trigger HoldsPiece(file, base, blocks, f, j)} :: j < k ==> HoldsPiece(file, base, blocks, f, j)
  }

  lemma HoldsOneMore(file: seq<byte>, base: nat, blocks: seq<Block>, f: Filter, k: nat, data: seq<byte>)
    requires k < |blocks| && HoldsPieces(file, base, blocks, f, k)
    requires data == if OutOfRange(f, blocks[k]) then [] else PieceData(f, blocks[k])
    ensures HoldsPieces(file + data, base, blocks, f, k + 1)
  {
    var file' := file + data;
    forall j: nat | j < k + 1 ensures HoldsPiece(file', base, blocks, f, j) {
      if j < k {
        HoldsKept(file, data, base, blocks, f, j);
      } else {
        HoldsLast(file, data, base, blocks, f, k);
      }
    }
  }

  lemma HoldsKept(file: seq<byte>, data: seq<byte>, base: nat, blocks: seq<Block>, f: Filter, j: nat)
    requires j < |blocks| && HoldsPiece(file, base, blocks, f, j)
    ensures HoldsPiece(file + data, base, blocks, f, j)
  {
    if !OutOfRange(f, blocks[j]) {
      HoldsMore(file, data, base + Before(blocks, f, j), PieceData(f, blocks[j]));
    }
  }

  lemma HoldsLast(file: seq<byte>, data: seq<byte>, base: nat, blocks: seq<Block>, f: Filter, k: nat)
    requires k < |blocks| && |file| == base + Before(blocks, f, k)
    requires data == if OutOfRange(f, blocks[k]) then [] else PieceData(f, blocks[k])
    ensures HoldsPiece(file + data, base, blocks, f, k)
  {
    assert (file + data)[|file|..] == data;
  }

  ghost predicate Disjoint(blocks: seq<Block>) {
    forall j: nat, k: nat {:trigger Apart(blocks, j, k)} :: j < |blocks| && k < |blocks| && j != k ==>
      Apart(blocks, j, k)
  }

  ghost predicate Apart(blocks: seq<Block>, j: nat, k: nat)
    requires j < |blocks| && k < |blocks|
  {
    End(blocks[j]) <= blocks[k].offset || End(blocks[k]) <= blocks[j].offset
  }

  // ----- get_offset -----

  /** get_offset: where in the file the byte at address `p` is. */
  method GetOffset(blocks: seq<Block>, f: Filter, memoryOffset: nat, p: nat) returns (r: Option<nat>)
    requires Disjoint(blocks)
    ensures forall k: nat :: k < |blocks| && InPiece(f, blocks[k], p) ==>
      r == Some(memoryOffset + Before(blocks, f, k) + p - PieceStart(f, blocks[k]))
    ensures (forall k: nat :: k < |blocks| ==> !InPiece(f, blocks[k], p)) ==> r == None
  {
    if f.Only? && (p < f.begin || p >= f.begin + f.length) {
      return None;
    }
    var offset, k := memoryOffset, 0;
    while k < |blocks|
      invariant 0 <= k <= |blocks| && offset == memoryOffset + Before(blocks, f, k)
      invariant forall j: nat :: j < k ==> !InPiece(f, blocks[j], p)
    {
      var b := blocks[k];
      if !OutOfRange(f, b) {
        var start, size := PieceStart(f, b), PieceSize(f, b);
        if start <= p < start + size {
          OnePiece(blocks, f, k, p);
          return Some(p - start + offset);
        }
        offset := offset + size;
      }
      k := k + 1;
    }
    r := None;
  }

  lemma OnePiece(blocks: seq<Block>, f: Filter, k: nat, p: nat)
    requires Disjoint(blocks) && k < |blocks| && InPiece(f, blocks[k], p)
    ensures forall j: nat :: j < |blocks| && j != k ==> !InPiece(f, blocks[j], p)
  {
    forall j: nat | j < |blocks| && j != k ensures !InPiece(f, blocks[j], p) {
      assert Apart(blocks, j, k);
      PieceIs(f, blocks[j], p);
      PieceIs(f, blocks[k], p);
    }
  }

  // ----- the list of mappings -----

  datatype Mapping = Mapping(phys: nat, virt: nat, length: nat)

  ghost predicate Sorted(list: seq<Mapping>) {
    forall j, k :: 0 <= j < k < |list| ==> list[j].phys <= list[k].phys
  }

  /** memory_mapping_list_add_mapping_sorted */
  method InsertSorted(list: seq<Mapping>, m: Mapping) returns (r: seq<Mapping>)
    requires Sorted(list)
    ensures Sorted(r) && multiset(r) == multiset(list) + multiset{m}
  {
    var k := 0;
    while k < |list| && list[k].phys < m.phys
      invariant 0 <= k <= |list| && forall j :: 0 <= j < k ==> list[j].phys < m.phys
    {
      k := k + 1;
    }
    InsertedAt(list, k, m);
    r := list[..k] + [m] + list[k..];
  }

  lemma InsertedAt(list: seq<Mapping>, k: nat, m: Mapping)
    requires Sorted(list) && k <= |list| && (forall j :: 0 <= j < k ==> list[j].phys < m.phys)
    requires (k < |list| ==> m.phys <= list[k].phys)
    ensures
      var r := list[..k] + [m] + list[k..];
      Sorted(r) && multiset(r) == multiset(list) + multiset{m}
  {
    var r := list[..k] + [m] + list[k..];
    forall j: nat | j < |list| ensures SkipAt(r, list, k, j) {
    }
    InsertedSorted(list, k, m, r);
    InsertedMultiset(list, k, m);
  }

  lemma InsertedSorted(list: seq<Mapping>, k: nat, m: Mapping, r: seq<Mapping>)
    requires Sorted(list) && k <= |list| && (forall j :: 0 <= j < k ==> list[j].phys < m.phys)
    requires (k < |list| ==> m.phys <= list[k].phys)
    requires |r| == |list| + 1 && r[k] == m && IsWithout(r, list, k)
    ensures Sorted(r)
  {
    forall i: nat, j: nat | i < j < |r| ensures r[i].phys <= r[j].phys {
      assert i != k ==> SkipAt(r, list, k, if i < k then i else i - 1);
      assert j != k ==> SkipAt(r, list, k, if j < k then j else j - 1);
      assert k < |list| && j > k + 1 ==> list[k].phys <= list[j - 1].phys;
    }
  }

  /** `other` is `list` without the element at `i`. */
  ghost predicate IsWithout(list: seq<Mapping>, other: seq<Mapping>, i: nat) {
    && i < |list| == |other| + 1
    && forall j: nat {:trigger SkipAt(list, other, i, j)} :: j < |other| ==> SkipAt(list, other, i, j)
  }

  ghost predicate SkipAt(list: seq<Mapping>, other: seq<Mapping>, i: nat, j: nat)
    requires i < |list| == |other| + 1 && j < |other|
  {
    other[j] == if j < i then list[j] else list[j + 1]
  }

  lemma InsertedMultiset(list: seq<Mapping>, k: nat, m: Mapping)
    requires k <= |list|
    ensures multiset(list[..k] + [m] + list[k..]) == multiset(list) + multiset{m}
  {
    assert list == list[..k] + list[k..];
  }

  function SimpleMapping(b: Block): Mapping { Mapping(b.offset, 0, |b.data|) }

  ghost function SimpleMappings(blocks: seq<Block>, k: nat): multiset<Mapping>
    requires k <= |blocks|
  {
    if k == 0 then multiset{} else SimpleMappings(blocks, k - 1) + multiset{SimpleMapping(blocks[k - 1])}
  }

  /** qemu_get_guest_simple_memory_mapping */
  method SimpleList(blocks: seq<Block>) returns (list: seq<Mapping>)
    ensures Sorted(list) && multiset(list) == SimpleMappings(blocks, |blocks|)
  {
    list := [];
    for k := 0 to |blocks|
      invariant Sorted(list) && multiset(list) == SimpleMappings(blocks, k)
    {
      list := InsertSorted(list, SimpleMapping(blocks[k]));
    }
  }

  predicate Dropped(m: Mapping, begin: nat, length: nat) {
    m.phys >= begin + length || m.phys + m.length <= begin
  }

  /** What memory_mapping_filter makes of a mapping it keeps. */
  function Clip(m: Mapping, begin: nat, length: nat): Mapping
    requires !Dropped(m, begin, length)
  {
    var cut := begin - m.phys;
    var head := if cut > 0 then Mapping(begin, if m.virt != 0 then m.virt + cut else 0, m.length - cut) else m;
    if head.phys + head.length > begin + length then head.(length := begin + length - head.phys) else head
  }

  /** The mappings that the first `k` of the list become. */
  ghost function Clipped(list: seq<Mapping>, begin: nat, length: nat, k: nat): multiset<Mapping>
    requires k <= |list|
  {
    if k == 0 then multiset{} else Clipped(list, begin, length, k - 1) + ClipOne(list[k - 1], begin, length)
  }

  ghost function ClipOne(m: Mapping, begin: nat, length: nat): multiset<Mapping> {
    if Dropped(m, begin, length) then multiset{} else multiset{Clip(m, begin, length)}
  }

  lemma SortedAppend(list: seq<Mapping>, m: Mapping)
    requires Sorted(list) && (list != [] ==> list[|list| - 1].phys <= m.phys)
    ensures Sorted(list + [m]) && multiset(list + [m]) == multiset(list) + multiset{m}
  {
  }

  /** No mapping of the list starts after `limit`. */
  ghost predicate UpTo(list: seq<Mapping>, limit: nat) {
    forall k :: 0 <= k < |list| ==> list[k].phys <= limit
  }

  function Max(a: nat, b: nat): nat { if a < b then b else a }

  /** What memory_mapping_filter does with one mapping. */
  method FilterOne(r: seq<Mapping>, m: Mapping, begin: nat, length: nat) returns (r': seq<Mapping>)
    requires Sorted(r) && UpTo(r, Max(m.phys, begin))
    ensures Sorted(r') && UpTo(r', Max(m.phys, begin)) && multiset(r') == multiset(r) + ClipOne(m, begin, length)
  {
    r' := r;
    if !Dropped(m, begin, length) {
      SortedAppend(r, Clip(m, begin, length));
      r' := r + [Clip(m, begin, length)];
    }
  }

  /** memory_mapping_filter */
  method FilterList(list: seq<Mapping>, begin: nat, length: nat) returns (r: seq<Mapping>)
    requires Sorted(list)
    ensures Sorted(r) && multiset(r) == Clipped(list, begin, length, |list|)
  {
    r := [];
    for k := 0 to |list|
      invariant Sorted(r) && multiset(r) == Clipped(list, begin, length, k)
      invariant k < |list| ==> UpTo(r, Max(list[k].phys, begin))
    {
      r := FilterOne(r, list[k], begin, length);
      assert k + 1 < |list| ==> list[k].phys <= list[k + 1].phys;
    }
  }

  // ----- the mappings are the pieces -----

  /** The mapping that describes the dumped part of a block. */
  function PieceMapping(f: Filter, b: Block): Mapping
    requires !OutOfRange(f, b)
  {
    Mapping(PieceStart(f, b), 0, PieceSize(f, b))
  }

  ghost function PieceOne(f: Filter, b: Block): multiset<Mapping> {
    if OutOfRange(f, b) then multiset{} else multiset{PieceMapping(f, b)}
  }

  ghost function PieceMappings(blocks: seq<Block>, f: Filter, k: nat): multiset<Mapping>
    requires k <= |blocks|
  {
    if k == 0 then multiset{} else PieceMappings(blocks, f, k - 1) + PieceOne(f, blocks[k - 1])
  }

  lemma WholePiece(b: Block)
    ensures PieceOne(Whole, b) == multiset{SimpleMapping(b)}
  {
  }

  lemma {:induction false} WholeMappings(blocks: seq<Block>, k: nat)
    requires k <= |blocks|
    ensures SimpleMappings(blocks, k) == PieceMappings(blocks, Whole, k)
  {
    if k > 0 {
      WholeMappings(blocks, k - 1);
      WholePiece(blocks[k - 1]);
    }
  }

  /** Clipping the mapping of a block gives the mapping of its piece. */
  lemma ClipIsPiece(b: Block, begin: nat, length: nat)
    ensures ClipOne(SimpleMapping(b), begin, length) == PieceOne(Only(begin, length), b)
  {
  }

  function Without(list: seq<Mapping>, i: nat): seq<Mapping>
    requires i < |list|
  {
    list[..i] + list[i + 1..]
  }

  lemma {:induction false} ClippedAgree(list: seq<Mapping>, other: seq<Mapping>, begin: nat, length: nat, k: nat)
    requires k <= |list| && k <= |other| && forall j :: 0 <= j < k ==> list[j] == other[j]
    ensures Clipped(list, begin, length, k) == Clipped(other, begin, length, k)
  {
    if k > 0 {
      ClippedAgree(list, other, begin, length, k - 1);
    }
  }

  /** Leaving out one element leaves out what it becomes. */
  lemma SkipStep(all: multiset<Mapping>, a: multiset<Mapping>, b: multiset<Mapping>, c: multiset<Mapping>,
                 most: multiset<Mapping>)
    requires all == a + b + c && most == a + c
    ensures all == most + b
  {
  }

  lemma {:induction false} ClippedSkip(list: seq<Mapping>, other: seq<Mapping>, i: nat, begin: nat, length: nat, k: nat)
    requires i < k <= |list| && IsWithout(list, other, i)
    ensures Clipped(list, begin, length, k) == Clipped(other, begin, length, k - 1) + ClipOne(list[i], begin, length)
  {
    if k == i + 1 {
      ClippedSame(list, other, i, begin, length);
    } else {
      ClippedSkip(list, other, i, begin, length, k - 1);
      ClippedSkipMore(list, other, i, begin, length, k);
    }
  }

  lemma ClippedSkipMore(list: seq<Mapping>, other: seq<Mapping>, i: nat, begin: nat, length: nat, k: nat)
    requires i + 1 < k <= |list| && IsWithout(list, other, i)
    requires Clipped(list, begin, length, k - 1)
      == Clipped(other, begin, length, k - 2) + ClipOne(list[i], begin, length)
    ensures Clipped(list, begin, length, k) == Clipped(other, begin, length, k - 1) + ClipOne(list[i], begin, length)
  {
    var a, b, c := Clipped(other, begin, length, k - 2), ClipOne(list[i], begin, length),
      ClipOne(list[k - 1], begin, length);
    assert SkipAt(list, other, i, k - 2);
    SkipStep(a + b + c, a, b, c, a + c);
  }

  lemma ClippedSame(list: seq<Mapping>, other: seq<Mapping>, i: nat, begin: nat, length: nat)
    requires IsWithout(list, other, i)
    ensures Clipped(list, begin, length, i) == Clipped(other, begin, length, i)
  {
    forall j: nat | j < i ensures list[j] == other[j] {
      assert SkipAt(list, other, i, j);
    }
    ClippedAgree(list, other, begin, length, i);
  }

  lemma WithoutMultiset(list: seq<Mapping>, i: nat)
    requires i < |list|
    ensures multiset(list) == multiset(Without(list, i)) + multiset{list[i]}
  {
    assert list == list[..i] + [list[i]] + list[i + 1..];
  }

  lemma Cancel(a: multiset<Mapping>, b: multiset<Mapping>, m: Mapping)
    requires a + multiset{m} == b + multiset{m}
    ensures a == b
  {
    assert a == a + multiset{m} - multiset{m} && b == b + multiset{m} - multiset{m};
  }

  /** A block's mapping is somewhere in the list; take it out. */
  lemma TakeOut(blocks: seq<Block>, list: seq<Mapping>, n: nat) returns (i: nat, other: seq<Mapping>)
    requires 0 < n <= |blocks| && multiset(list) == SimpleMappings(blocks, n)
    ensures IsWithout(list, other, i) && list[i] == SimpleMapping(blocks[n - 1])
    ensures multiset(other) == SimpleMappings(blocks, n - 1)
  {
    var m := SimpleMapping(blocks[n - 1]);
    assert m in multiset(list);
    i :| 0 <= i < |list| && list[i] == m;
    other := Without(list, i);
    forall j: nat | j < |other| ensures SkipAt(list, other, i, j) {
    }
    WithoutMultiset(list, i);
    Cancel(multiset(other), SimpleMappings(blocks, n - 1), m);
  }

  /** Whatever order the mappings are in, filtering them gives the mappings of the pieces. */
  lemma {:induction false} ClippedArePieces(blocks: seq<Block>, list: seq<Mapping>, begin: nat, length: nat, n: nat)
    requires n <= |blocks| && multiset(list) == SimpleMappings(blocks, n)
    ensures Clipped(list, begin, length, |list|) == PieceMappings(blocks, Only(begin, length), n)
    decreases n
  {
    if n == 0 {
      assert |multiset(list)| == 0;
    } else {
      var i, other := TakeOut(blocks, list, n);
      ClippedArePieces(blocks, other, begin, length, n - 1);
      ClippedSkip(list, other, i, begin, length, |list|);
      ClipIsPiece(blocks[n - 1], begin, length);
    }
  }

  lemma {:induction false} MappingIsPiece(blocks: seq<Block>, f: Filter, k: nat, m: Mapping) returns (j: nat)
    requires k <= |blocks| && m in PieceMappings(blocks, f, k)
    ensures j < k && !OutOfRange(f, blocks[j]) && m == PieceMapping(f, blocks[j])
  {
    if m in PieceOne(f, blocks[k - 1]) {
      j := k - 1;
    } else {
      j := MappingIsPiece(blocks, f, k - 1, m);
    }
  }

  /** The list dump_init builds. */
  method BuildList(blocks: seq<Block>, f: Filter) returns (list: seq<Mapping>)
    ensures Sorted(list) && multiset(list) == PieceMappings(blocks, f, |blocks|)
  {
    list := SimpleList(blocks);
    if f.Only? {
      ClippedArePieces(blocks, list, f.begin, f.length, |blocks|);
      list := FilterList(list, f.begin, f.length);
    } else {
      WholeMappings(blocks, |blocks|);
    }
  }

  // ----- the dump -----

  /** A PT_LOAD program header. */
  datatype Load = Load(offset: Option<nat>, paddr: nat, filesz: nat, memsz: nat, vaddr: nat)

  function Blank(n: nat): (s: seq<byte>)
    ensures |s| == n
  {
    seq(n, i => 0)
  }

  /** The header's range in the file is the dumped part of block `k`, and its physical range is where that
      part is. */
  ghost predicate LoadsPiece(file: seq<byte>, blocks: seq<Block>, f: Filter, l: Load, k: nat)
    requires l.offset.Some?
  {
    && k < |blocks| && !OutOfRange(f, blocks[k])
    && l.paddr == PieceStart(f, blocks[k]) && l.filesz == l.memsz == PieceSize(f, blocks[k])
    && Holds(file, l.offset.value, PieceData(f, blocks[k]))
  }

  /** A program header tells the truth about the file, or describes nothing. */
  ghost predicate LoadOk(file: seq<byte>, blocks: seq<Block>, f: Filter, l: Load) {
    if l.memsz == 0 then l.filesz == 0 else l.offset.Some? && exists k :: LoadsPiece(file, blocks, f, l, k)
  }

  /** Where a header for mapping `m` says its bytes are. */
  ghost predicate PlacedAt(blocks: seq<Block>, f: Filter, memoryOffset: nat, m: Mapping, l: Load) {
    && l.paddr == m.phys && l.vaddr == m.virt && l.memsz == m.length
    && (m.length > 0 ==> exists k: nat :: PlacedAs(blocks, f, memoryOffset, m, l, k))
    && (m.length == 0 ==> l.filesz == 0 && (l.offset.Some? <==> exists k: nat :: Dumped(blocks, f, k, m.phys)))
  }

  /** The byte at `p` is dumped with block `k`. */
  ghost predicate Dumped(blocks: seq<Block>, f: Filter, k: nat, p: nat) {
    k < |blocks| && InPiece(f, blocks[k], p)
  }

  ghost predicate PlacedAs(blocks: seq<Block>, f: Filter, memoryOffset: nat, m: Mapping, l: Load, k: nat) {
    && k < |blocks| && !OutOfRange(f, blocks[k]) && m == PieceMapping(f, blocks[k])
    && l.offset == Some(memoryOffset + Before(blocks, f, k)) && l.filesz == m.length
  }

  lemma PlacedIsOk(file: seq<byte>, blocks: seq<Block>, f: Filter, memoryOffset: nat, m: Mapping, l: Load)
    requires PlacedAt(blocks, f, memoryOffset, m, l) && HoldsPieces(file, memoryOffset, blocks, f, |blocks|)
    ensures LoadOk(file, blocks, f, l)
  {
    if m.length > 0 {
      var k: nat :| PlacedAs(blocks, f, memoryOffset, m, l, k);
      assert HoldsPiece(file, memoryOffset, blocks, f, k);
      assert LoadsPiece(file, blocks, f, l, k);
    }
  }

  /** Every header is placed where the layout puts its mapping. */
  ghost predicate AllPlaced(blocks: seq<Block>, f: Filter, memoryOffset: nat, list: seq<Mapping>, loads: seq<Load>) {
    |loads| <= |list| && forall k :: 0 <= k < |loads| ==> PlacedAt(blocks, f, memoryOffset, list[k], loads[k])
  }

  lemma AllPlacedOk(file: seq<byte>, blocks: seq<Block>, f: Filter, memoryOffset: nat, list: seq<Mapping>,
                    loads: seq<Load>)
    requires AllPlaced(blocks, f, memoryOffset, list, loads) && HoldsPieces(file, memoryOffset, blocks, f, |blocks|)
    ensures forall k :: 0 <= k < |loads| ==> LoadOk(file, blocks, f, loads[k])
  {
    forall k | 0 <= k < |loads| ensures LoadOk(file, blocks, f, loads[k]) {
      PlacedIsOk(file, blocks, f, memoryOffset, list[k], loads[k]);
    }
  }

  /** Headers for different mappings name different parts of the file. */
  lemma PlacedApart(blocks: seq<Block>, f: Filter, memoryOffset: nat, m: Mapping, l: Load, m': Mapping, l': Load)
    requires PlacedAt(blocks, f, memoryOffset, m, l) && PlacedAt(blocks, f, memoryOffset, m', l')
    requires m.phys != m'.phys && m.length > 0 && m'.length > 0
    ensures l.offset.Some? && l'.offset.Some?
    ensures l.offset.value + l.filesz <= l'.offset.value || l'.offset.value + l'.filesz <= l.offset.value
  {
    var j: nat :| PlacedAs(blocks, f, memoryOffset, m, l, j);
    var k: nat :| PlacedAs(blocks, f, memoryOffset, m', l', k);
    if j < k {
      BeforeRises(blocks, f, j, k);
    } else {
      BeforeRises(blocks, f, k, j);
    }
  }

  /** Pieces with bytes in them are told apart by where they start. */
  lemma StartsDiffer(blocks: seq<Block>, f: Filter, j: nat, k: nat)
    requires Disjoint(blocks) && j < |blocks| && k < |blocks| && !OutOfRange(f, blocks[j]) && !OutOfRange(f, blocks[k])
    requires PieceSize(f, blocks[j]) > 0 && PieceSize(f, blocks[k]) > 0
    requires PieceStart(f, blocks[j]) == PieceStart(f, blocks[k])
    ensures j == k
  {
    if j != k {
      OnePiece(blocks, f, j, PieceStart(f, blocks[j]));
      assert InPiece(f, blocks[k], PieceStart(f, blocks[j]));
    }
  }

  lemma NotBefore(blocks: seq<Block>, f: Filter, k: nat, m: Mapping)
    requires Disjoint(blocks) && k < |blocks| && m.length > 0 && m in PieceOne(f, blocks[k])
    ensures m !in PieceMappings(blocks, f, k)
  {
    if m in PieceMappings(blocks, f, k) {
      var j := MappingIsPiece(blocks, f, k, m);
      StartsDiffer(blocks, f, j, k);
    }
  }

  lemma AddOnce(a: multiset<Mapping>, b: multiset<Mapping>, m: Mapping)
    requires a[m] <= 1 && b[m] <= 1 && (m in b ==> m !in a)
    ensures (a + b)[m] <= 1
  {
  }

  lemma {:induction false} PieceOnce(blocks: seq<Block>, f: Filter, k: nat, m: Mapping)
    requires Disjoint(blocks) && k <= |blocks| && m.length > 0
    ensures PieceMappings(blocks, f, k)[m] <= 1
  {
    if k > 0 {
      PieceOnce(blocks, f, k - 1, m);
      OnceMore(blocks, f, k, m);
    }
  }

  lemma OnceMore(blocks: seq<Block>, f: Filter, k: nat, m: Mapping)
    requires Disjoint(blocks) && 0 < k <= |blocks| && m.length > 0 && PieceMappings(blocks, f, k - 1)[m] <= 1
    ensures PieceMappings(blocks, f, k)[m] <= 1
  {
    if m in PieceOne(f, blocks[k - 1]) {
      NotBefore(blocks, f, k - 1, m);
    }
    AddOnce(PieceMappings(blocks, f, k - 1), PieceOne(f, blocks[k - 1]), m);
  }

  lemma TwoCopies(list: seq<Mapping>, j: nat, k: nat)
    requires j < k < |list| && list[j] == list[k]
    ensures multiset(list)[list[j]] >= 2
  {
    WithoutMultiset(list, j);
    assert Without(list, j)[k - 1] == list[k] && list[k] in multiset(Without(list, j));
  }

  /** No two mappings with bytes in them start at the same address. */
  lemma ListApart(blocks: seq<Block>, f: Filter, list: seq<Mapping>, j: nat, k: nat)
    requires Disjoint(blocks) && multiset(list) == PieceMappings(blocks, f, |blocks|)
    requires j < k < |list| && list[j].length > 0 && list[k].length > 0
    ensures list[j].phys != list[k].phys
  {
    if list[j] == list[k] {
      PieceOnce(blocks, f, |blocks|, list[j]);
      TwoCopies(list, j, k);
    } else {
      assert list[j] in multiset(list) && list[k] in multiset(list);
      var a := MappingIsPiece(blocks, f, |blocks|, list[j]);
      var b := MappingIsPiece(blocks, f, |blocks|, list[k]);
      if list[j].phys == list[k].phys {
        StartsDiffer(blocks, f, a, b);
      }
    }
  }

  /** Different headers name different parts of the file. */
  ghost predicate LoadsApart(loads: seq<Load>) {
    forall j: nat, k: nat {:trigger ApartInFile(loads, j, k)} ::
      j < k < |loads| && loads[j].memsz > 0 && loads[k].memsz > 0 ==> ApartInFile(loads, j, k)
  }

  ghost predicate ApartInFile(loads: seq<Load>, j: nat, k: nat)
    requires j < |loads| && k < |loads|
  {
    var l, l' := loads[j], loads[k];
    && l.offset.Some? && l'.offset.Some?
    && (l.offset.value + l.filesz <= l'.offset.value || l'.offset.value + l'.filesz <= l.offset.value)
  }

  lemma AllApart(blocks: seq<Block>, f: Filter, memoryOffset: nat, list: seq<Mapping>, loads: seq<Load>)
    requires Disjoint(blocks) && multiset(list) == PieceMappings(blocks, f, |blocks|)
    requires AllPlaced(blocks, f, memoryOffset, list, loads)
    ensures LoadsApart(loads)
  {
    forall j: nat, k: nat | j < k < |loads| && loads[j].memsz > 0 && loads[k].memsz > 0
      ensures ApartInFile(loads, j, k)
    {
      assert PlacedAt(blocks, f, memoryOffset, list[j], loads[j]);
      assert PlacedAt(blocks, f, memoryOffset, list[k], loads[k]);
      ListApart(blocks, f, list, j, k);
      PlacedApart(blocks, f, memoryOffset, list[j], loads[j], list[k], loads[k]);
    }
  }

  lemma {:induction false} HoldsSkip(file: seq<byte>, base: nat, blocks: seq<Block>, f: Filter, k: nat, n: nat)
    requires k <= n <= |blocks| && (forall j :: k <= j < n ==> OutOfRange(f, blocks[j]))
    requires if k == 0 then |file| == base else HoldsPieces(file, base, blocks, f, k)
    ensures HoldsPieces(file, base, blocks, f, n)
    decreases n - k
  {
    if k < n {
      HoldsOneMore(file, base, blocks, f, k, []);
      assert file + [] == file;
      HoldsSkip(file, base, blocks, f, k + 1, n);
    }
  }

  /** There is an offset exactly for bytes that are dumped. */
  lemma OffsetOfNothing(blocks: seq<Block>, f: Filter, memoryOffset: nat, p: nat, r: Option<nat>)
    requires forall k: nat :: k < |blocks| && InPiece(f, blocks[k], p) ==>
      r == Some(memoryOffset + Before(blocks, f, k) + p - PieceStart(f, blocks[k]))
    requires (forall k: nat :: k < |blocks| ==> !InPiece(f, blocks[k], p)) ==> r == None
    ensures r.Some? <==> exists k: nat :: Dumped(blocks, f, k, p)
  {
    if r.Some? {
      var k: nat :| k < |blocks| && InPiece(f, blocks[k], p);
      assert Dumped(blocks, f, k, p);
    }
  }

  class DumpState {
    const blocks: seq<Block>
    const filter: Filter
    var list: seq<Mapping>
    var phdrNum: nat
    var shInfo: nat
    var haveSection: bool
    var noteSize: nat
    var memoryOffset: nat
    /** The next block to dump and the first byte of it. */
    var block: nat
    var start: nat
    /** The file written so far, and the program headers in it. */
    var file: seq<byte>
    var loads: seq<Load>

    constructor (blocks: seq<Block>, filter: Filter)
      ensures this.blocks == blocks && this.filter == filter && file == [] && loads == []
    {
      this.blocks, this.filter := blocks, filter;
      list, phdrNum, shInfo, haveSection, noteSize, memoryOffset := [], 0, 0, false, 0, 0;
      block, start, file, loads := 0, 0, [], [];
    }

    /** The next block to dump is in range, everything between is not, and `start` is where its piece begins. */
    ghost predicate AtPiece() reads this {
      && block < |blocks| && !OutOfRange(filter, blocks[block])
      && start == PieceStart(filter, blocks[block]) - blocks[block].offset
    }

    /** get_start_block */
    method GetStartBlock() returns (ok: bool)
      requires filter.Whole? ==> blocks != []
      modifies `block, `start
      ensures ok ==> AtPiece() && forall j :: 0 <= j < block ==> OutOfRange(filter, blocks[j])
      ensures !ok ==> forall j :: 0 <= j < |blocks| ==> OutOfRange(filter, blocks[j])
    {
      if filter.Whole? {
        block, start := 0, 0;
        return true;
      }
      for k := 0 to |blocks|
        invariant forall j :: 0 <= j < k ==> OutOfRange(filter, blocks[j])
      {
        if !OutOfRange(filter, blocks[k]) {
          block := k;
          start := if filter.begin > blocks[k].offset then filter.begin - blocks[k].offset else 0;
          return true;
        }
      }
      ok := false;
    }

    /** get_next_block */
    method GetNextBlock() returns (ok: bool)
      requires block < |blocks|
      modifies `block, `start
      ensures ok ==> AtPiece() && block > old(block) && forall j :: old(block) < j < block ==>
        OutOfRange(filter, blocks[j])
      ensures !ok ==> forall j :: old(block) < j < |blocks| ==> OutOfRange(filter, blocks[j])
    {
      var k := block + 1;
      while k < |blocks|
        invariant block < |blocks| && old(block) < k <= |blocks|
        invariant forall j :: old(block) < j < k ==> OutOfRange(filter, blocks[j])
      {
        block, start := k, 0;
        if !OutOfRange(filter, blocks[k]) {
          if filter.Only? && filter.begin > blocks[k].offset {
            start := filter.begin - blocks[k].offset;
          }
          return true;
        }
        k := k + 1;
      }
      ok := false;
    }

    /** write_memory: a page at a time, and what is left over. */
    method WriteMemory(b: Block, from: nat, size: nat)
      requires from + size <= |b.data|
      modifies `file
      ensures file == old(file) + b.data[from..from + size]
    {
      var i := 0;
      while i < size / PAGE_SIZE
        invariant 0 <= i <= size / PAGE_SIZE && file == old(file) + b.data[from..from + i * PAGE_SIZE]
      {
        var at := from + i * PAGE_SIZE;
        assert b.data[from..at] + b.data[at..at + PAGE_SIZE] == b.data[from..at + PAGE_SIZE];
        file := file + b.data[at..at + PAGE_SIZE];
        i := i + 1;
      }
      if size % PAGE_SIZE != 0 {
        var at := from + i * PAGE_SIZE;
        assert b.data[from..at] + b.data[at..at + size % PAGE_SIZE] == b.data[from..from + size];
        file := file + b.data[at..at + size % PAGE_SIZE];
      }
    }

    /** The size dump_iterate writes of the current block. */
    method CurrentSize() returns (size: nat)
      requires AtPiece()
      ensures size == PieceSize(filter, blocks[block])
    {
      var b := blocks[block];
      var n: int := |b.data|;
      if filter.Only? {
        n := n - start;
        if filter.begin + filter.length < End(b) {
          n := n - (End(b) - (filter.begin + filter.length));
        }
      }
      size := n;
    }

    method WritePiece()
      requires AtPiece()
      modifies `file
      ensures file == old(file) + PieceData(filter, blocks[block])
    {
      var size := CurrentSize();
      assert blocks[block].data[start..start + size] == PieceData(filter, blocks[block]);
      WriteMemory(blocks[block], start, size);
    }

    /** One block of dump_iterate, and the blocks after it that are out of range. */
    method DumpBlock(ghost base: nat) returns (more: bool)
      requires AtPiece() && HoldsPieces(file, base, blocks, filter, block)
      modifies `file, `block, `start
      ensures more ==> AtPiece() && block > old(block) && HoldsPieces(file, base, blocks, filter, block)
      ensures !more ==> HoldsPieces(file, base, blocks, filter, |blocks|)
      ensures old(file) <= file
    {
      HoldsOneMore(file, base, blocks, filter, block, PieceData(filter, blocks[block]));
      WritePiece();
      ghost var k := block + 1;
      more := GetNextBlock();
      HoldsSkip(file, base, blocks, filter, k, if more then block else |blocks|);
    }

    /** dump_iterate: after what is in the file, the pieces of all blocks, and nothing else. */
    method Iterate()
      requires AtPiece() && forall j :: 0 <= j < block ==> OutOfRange(filter, blocks[j])
      modifies `file, `block, `start
      ensures old(file) <= file && HoldsPieces(file, |old(file)|, blocks, filter, |blocks|)
    {
      ghost var base := |file|;
      HoldsSkip(file, base, blocks, filter, 0, block);
      var more := true;
      while more
        invariant old(file) <= file
        invariant (if more then AtPiece() && HoldsPieces(file, base, blocks, filter, block)
          else HoldsPieces(file, base, blocks, filter, |blocks|))
        decreases more, |blocks| - block
      {
        more := DumpBlock(base);
      }
    }

    /** The layout arithmetic of dump_init. */
    method Layout()
      modifies `phdrNum, `shInfo, `haveSection, `memoryOffset
      ensures phdrNum <= UINT16_MAX && shInfo <= UINT32_MAX && LayoutOk()
      ensures haveSection <==> |list| >= UINT16_MAX - 2
      ensures if haveSection then phdrNum == PN_XNUM else phdrNum == 1 + |list| != PN_XNUM && shInfo == 0
    {
      phdrNum := 1;
      shInfo := 0;
      if |list| < UINT16_MAX - 2 {
        phdrNum := phdrNum + |list|;
        haveSection := false;
      } else {
        haveSection := true;
        phdrNum := PN_XNUM;
        shInfo := if |list| <= UINT32_MAX - 1 then 1 + |list| else UINT32_MAX;
      }
      memoryOffset :=
        if haveSection then EHDR_SIZE + PHDR_SIZE * shInfo + SHDR_SIZE + noteSize
        else EHDR_SIZE + PHDR_SIZE * phdrNum + noteSize;
    }

    /** The number of program headers, of which the first is the PT_NOTE. */
    ghost function MaxIndex(): nat reads this { if haveSection then shInfo else phdrNum }

    ghost predicate LayoutOk() reads this {
      && MaxIndex() == 1 + (if |list| < UINT32_MAX then |list| else UINT32_MAX - 1)
      && memoryOffset == EHDR_SIZE + PHDR_SIZE * MaxIndex() + (if haveSection then SHDR_SIZE else 0) + noteSize
    }

    ghost predicate ListOk() reads this {
      Disjoint(blocks) && multiset(list) == PieceMappings(blocks, filter, |blocks|)
    }

    /** One PT_LOAD. */
    method WriteLoad(m: Mapping)
      requires ListOk() && m in multiset(list)
      modifies `file, `loads
      ensures |file| == old(|file|) + PHDR_SIZE
      ensures |loads| == |old(loads)| + 1 && loads[..|old(loads)|] == old(loads)
      ensures PlacedAt(blocks, filter, memoryOffset, m, loads[|old(loads)|])
    {
      var offset := GetOffset(blocks, filter, memoryOffset, m.phys);
      ghost var k := MappingIsPiece(blocks, filter, |blocks|, m);
      var l := Load(offset, m.phys, if offset.None? then 0 else m.length, m.length, m.virt);
      if m.length > 0 {
        assert InPiece(filter, blocks[k], m.phys);
        assert PlacedAs(blocks, filter, memoryOffset, m, l, k);
      } else {
        OffsetOfNothing(blocks, filter, memoryOffset, m.phys, offset);
      }
      file := file + Blank(PHDR_SIZE);
      loads := loads + [l];
    }

    /** write_elf_loads: one header for each mapping, as many as the layout has room for. */
    method WriteLoads()
      requires ListOk() && LayoutOk() && loads == []
      modifies `file, `loads
      ensures |loads| == MaxIndex() - 1 && |file| == old(|file|) + PHDR_SIZE * |loads|
      ensures AllPlaced(blocks, filter, memoryOffset, list, loads)
    {
      var maxIndex := if haveSection then shInfo else phdrNum;
      var index, k := 1, 0;
      while k < |list|
        invariant 0 <= k <= |list| && |loads| == k == index - 1 && index <= maxIndex
        invariant (k < |list| ==> index < maxIndex)
        invariant |file| == old(|file|) + PHDR_SIZE * |loads|
        invariant forall j :: 0 <= j < |loads| ==> PlacedAt(blocks, filter, memoryOffset, list[j], loads[j])
        decreases |list| - k
      {
        assert list[k] in multiset(list);
        WriteLoad(list[k]);
        index := index + 1;
        k := k + 1;
        if index >= maxIndex {
          break;
        }
      }
    }

    /** dump_begin: header, PT_NOTE, PT_LOADs, section header, notes.  What it writes is as long as the
        layout said. */
    method Begin()
      requires ListOk() && LayoutOk() && loads == [] && file == []
      modifies `file, `loads
      ensures |file| == memoryOffset && |loads| == MaxIndex() - 1
      ensures AllPlaced(blocks, filter, memoryOffset, list, loads)
    {
      file := file + Blank(EHDR_SIZE);
      file := file + Blank(PHDR_SIZE);
      WriteLoads();
      if haveSection {
        file := file + Blank(SHDR_SIZE);
      }
      file := file + Blank(noteSize);
    }

    /** The list of mappings and the layout of the file (dump_init). */
    method Prepare(notes: nat)
      requires Disjoint(blocks)
      modifies `noteSize, `list, `haveSection, `phdrNum, `shInfo, `memoryOffset
      ensures ListOk() && LayoutOk() && Sorted(list) && noteSize == notes
    {
      noteSize := notes;
      list := BuildList(blocks, filter);
      Layout();
    }

    /** A whole dump.  The pieces of guest memory fill the file from memory_offset to its end, in order and
        without gaps, and every PT_LOAD names exactly the guest memory its range of the file holds. */
    method Create(notes: nat) returns (ok: bool)
      requires Disjoint(blocks) && (filter.Whole? ==> blocks != []) && file == [] && loads == []
      modifies this
      ensures !ok <==> forall j :: 0 <= j < |blocks| ==> OutOfRange(filter, blocks[j])
      ensures ok ==> LayoutOk() && noteSize == notes && HoldsPieces(file, memoryOffset, blocks, filter, |blocks|)
      ensures ok ==> multiset(list) == PieceMappings(blocks, filter, |blocks|) && Sorted(list)
      ensures ok ==> |loads| <= |list| && (|list| < UINT32_MAX ==> |loads| == |list|)
      ensures ok ==> AllPlaced(blocks, filter, memoryOffset, list, loads)
      ensures ok ==> LoadsApart(loads) && forall k :: 0 <= k < |loads| ==> LoadOk(file, blocks, filter, loads[k])
    {
      ok := GetStartBlock();
      if !ok {
        return;
      }
      Prepare(notes);
      Begin();
      Iterate();
      AllPlacedOk(file, blocks, filter, memoryOffset, list, loads);
      AllApart(blocks, filter, memoryOffset, list, loads);
    }
  }
}
