/**
  The list of RAM blocks (exec.c): where a new block goes, the order of the list, and the shortcut
  through the most recently used block.
 */
module RamLists {
  import opened Options
  import opened Units

  const RAM_ADDR_MAX: nat := 0xFFFF_FFFF_FFFF_FFFF

  /** A RAMBlock; `host` is the address its memory is at. */
  datatype Block = Block(offset: nat, length: nat, host: nat)

  function End(b: Block): nat { b.offset + b.length }

  predicate Contains(b: Block, addr: nat) { b.offset <= addr < End(b) }

  /** addr - block->offset < block->length, in 64-bit unsigned arithmetic. */
  predicate InBlock(b: Block, addr: nat) { (addr - b.offset) % TWO_TO_THE_64 < b.length }

  lemma InBlockIs(b: Block, addr: nat)
    requires addr < TWO_TO_THE_64 && End(b) <= TWO_TO_THE_64
    ensures InBlock(b, addr) <==> Contains(b, addr)
  {
    if addr < b.offset {
      assert (addr - b.offset) % TWO_TO_THE_64 == addr - b.offset + TWO_TO_THE_64;
    }
  }

  /** A block may be empty. */
  predicate BlockOk(b: Block) {
    End(b) <= RAM_ADDR_MAX && b.offset % PAGE_SIZE == 0 && b.length % PAGE_SIZE == 0
  }

  ghost predicate Apart(b: Block, c: Block) { End(b) <= c.offset || End(c) <= b.offset }

  ghost predicate Before(blocks: seq<Block>, j: nat, k: nat)
    requires j < k < |blocks|
  {
    Apart(blocks[j], blocks[k]) && blocks[j].length >= blocks[k].length
  }

  /** Blocks are well-formed, disjoint, and go from longest to shortest. */
  ghost predicate ListOk(blocks: seq<Block>) {
    && (forall k :: 0 <= k < |blocks| ==> BlockOk(blocks[k]))
    && (forall j: nat, k: nat {:trigger Before(blocks, j, k)} :: j < k < |blocks| ==> Before(blocks, j, k))
  }

  lemma Distinct(blocks: seq<Block>, j: nat, k: nat)
    requires ListOk(blocks) && j < |blocks| && k < |blocks| && j != k
    ensures Apart(blocks[j], blocks[k])
    ensures blocks[j].offset == blocks[k].offset ==> blocks[if j < k then k else j].length == 0
  {
    assert j < k ==> Before(blocks, j, k);
    assert k < j ==> Before(blocks, k, j);
  }

  // ----- gaps -----

  /** The first block start at or after `addr`, or the end of the address space. */
  ghost function NextStart(blocks: seq<Block>, addr: nat, k: nat): nat
    requires k <= |blocks|
  {
    if k == 0 then RAM_ADDR_MAX
    else
      var next := NextStart(blocks, addr, k - 1);
      if blocks[k - 1].offset >= addr && blocks[k - 1].offset < next then blocks[k - 1].offset else next
  }

  lemma {:induction false} NextStartIs(blocks: seq<Block>, addr: nat, k: nat)
    requires k <= |blocks| && addr <= RAM_ADDR_MAX
    ensures addr <= NextStart(blocks, addr, k) <= RAM_ADDR_MAX
    ensures forall j :: 0 <= j < k && blocks[j].offset >= addr ==> blocks[j].offset >= NextStart(blocks, addr, k)
  {
    if k > 0 {
      NextStartIs(blocks, addr, k - 1);
    }
  }

  /** The size of the free space right after block `i`. */
  ghost function Gap(blocks: seq<Block>, i: nat): int
    requires i < |blocks|
  {
    NextStart(blocks, End(blocks[i]), |blocks|) - End(blocks[i])
  }

  /** The gap is free, and ends at a block or at the end of the address space. */
  lemma GapIsFree(blocks: seq<Block>, i: nat, size: nat, k: nat)
    requires ListOk(blocks) && i < |blocks| && k < |blocks| && size <= Gap(blocks, i)
    ensures End(blocks[k]) <= End(blocks[i]) || End(blocks[i]) + size <= blocks[k].offset
    ensures End(blocks[i]) + size <= RAM_ADDR_MAX
  {
    NextStartIs(blocks, End(blocks[i]), |blocks|);
    if i != k {
      Distinct(blocks, i, k);
    }
  }

  /** There is room for `size` bytes right after block `i`: it ends in the address space and no block
      reaches into it. */
  ghost predicate Room(blocks: seq<Block>, i: nat, size: nat)
    requires i < |blocks|
  {
    && End(blocks[i]) + size <= RAM_ADDR_MAX
    && forall k :: 0 <= k < |blocks| ==> Apart(blocks[k], Block(End(blocks[i]), size, 0)) || blocks[k].length == 0
  }

  /** An empty block starts in the `size` bytes right after block `i`. */
  ghost predicate Hidden(blocks: seq<Block>, i: nat, size: nat)
    requires i < |blocks|
  {
    exists k :: 0 <= k < |blocks| && blocks[k].length == 0 && End(blocks[i]) <= blocks[k].offset < End(blocks[i]) + size
  }

  /** The search sees the room after a block if and only if no empty block hides it. */
  lemma GapIff(blocks: seq<Block>, i: nat, size: nat)
    requires ListOk(blocks) && i < |blocks| && size > 0
    ensures Gap(blocks, i) >= size <==> Room(blocks, i, size) && !Hidden(blocks, i, size)
  {
    var end := End(blocks[i]);
    assert BlockOk(blocks[i]);
    NextStartIs(blocks, end, |blocks|);
    if Gap(blocks, i) >= size {
      forall k: nat | k < |blocks| ensures Apart(blocks[k], Block(end, size, 0)) || blocks[k].length == 0 {
        GapIsFree(blocks, i, size, k);
      }
    } else {
      NextStartAttained(blocks, end, |blocks|);
      if end + size <= RAM_ADDR_MAX {
        var k :| 0 <= k < |blocks| && end <= blocks[k].offset == NextStart(blocks, end, |blocks|);
        assert Apart(blocks[k], Block(end, size, 0)) ==> blocks[k].length == 0;
      }
    }
  }

  /** There is room after block `i`, and no empty block hides it. */
  ghost predicate SeesRoom(blocks: seq<Block>, i: nat, size: nat) {
    i < |blocks| && Room(blocks, i, size) && !Hidden(blocks, i, size)
  }

  lemma {:induction false} NextStartAttained(blocks: seq<Block>, addr: nat, k: nat)
    requires k <= |blocks|
    ensures NextStart(blocks, addr, k) < RAM_ADDR_MAX ==>
      exists j :: 0 <= j < k && addr <= blocks[j].offset == NextStart(blocks, addr, k)
  {
    if k > 0 {
      NextStartAttained(blocks, addr, k - 1);
    }
  }

  /** One empty block at the start hides the whole address space: the next allocation fails. */
  lemma EmptyBlockHides(host: nat, size: nat)
    requires 0 < size <= RAM_ADDR_MAX
    ensures var blocks := [Block(0, 0, host)];
      ListOk(blocks) && Room(blocks, 0, size) && Gap(blocks, 0) < size
  {
    var blocks := [Block(0, 0, host)];
    assert NextStart(blocks, 0, 1) == 0;
  }

  /** The inner loop of find_ram_offset. */
  method FindNext(blocks: seq<Block>, end: nat) returns (next: nat)
    requires end <= RAM_ADDR_MAX
    ensures next == NextStart(blocks, end, |blocks|)
  {
    next := RAM_ADDR_MAX;
    for k := 0 to |blocks|
      invariant next == NextStart(blocks, end, k)
    {
      if blocks[k].offset >= end && blocks[k].offset < next {
        next := blocks[k].offset;
      }
    }
  }

  /** find_ram_offset: the start of the smallest gap after a block that is large enough; nothing, where the
      program gives up, if there is none. */
  method FindRamOffset(blocks: seq<Block>, size: nat) returns (r: Option<nat>)
    requires ListOk(blocks)
    ensures blocks == [] ==> r == Some(0)
    ensures blocks != [] && r.Some? ==> exists i: nat :: IsBestGap(blocks, size, i) && r.value == End(blocks[i])
    ensures blocks != [] && r.None? ==> forall i: nat :: i < |blocks| ==> Gap(blocks, i) < size
  {
    if blocks == [] {
      return Some(0);
    }
    var offset, mingap := RAM_ADDR_MAX, RAM_ADDR_MAX;
    ghost var best: nat := 0;
    for k := 0 to |blocks|
      invariant offset == RAM_ADDR_MAX ==> mingap == RAM_ADDR_MAX && forall i: nat :: i < k ==> Gap(blocks, i) < size
      invariant offset != RAM_ADDR_MAX ==>
        best < k && offset == End(blocks[best]) && mingap == Gap(blocks, best) >= size
      invariant offset != RAM_ADDR_MAX ==> forall i: nat :: i < k && Gap(blocks, i) >= size ==> Gap(blocks, i) >= mingap
      invariant offset != RAM_ADDR_MAX ==> forall i: nat :: i < best && Gap(blocks, i) >= size ==>
        Gap(blocks, i) > mingap
    {
      var end := End(blocks[k]);
      assert BlockOk(blocks[k]);
      var next := FindNext(blocks, end);
      NextStartIs(blocks, end, |blocks|);
      assert end == 0 ==> next <= blocks[k].offset;
      if next - end >= size && next - end < mingap {
        offset, mingap, best := end, next - end, k;
      }
    }
    if offset == RAM_ADDR_MAX {
      return None;
    }
    r := Some(offset);
  }

  /** Block `i` is the first that is followed by a smallest gap that is large enough. */
  ghost predicate IsBestGap(blocks: seq<Block>, size: nat, i: nat) {
    && i < |blocks| && Gap(blocks, i) >= size
    && (forall j: nat :: j < |blocks| && Gap(blocks, j) >= size ==> Gap(blocks, j) >= Gap(blocks, i))
    && (forall j: nat :: j < i && Gap(blocks, j) >= size ==> Gap(blocks, j) > Gap(blocks, i))
  }

  /** TARGET_PAGE_ALIGN, which wraps around to zero for the largest sizes. */
  function PageAlign(size: nat): (r: nat)
    requires size < TWO_TO_THE_64
    ensures r % PAGE_SIZE == 0 && (size <= r < size + PAGE_SIZE || (r == 0 && size > TWO_TO_THE_64 - PAGE_SIZE))
    ensures r < RAM_ADDR_MAX
  {
    var up := (size + PAGE_SIZE - 1) / PAGE_SIZE * PAGE_SIZE;
    if up < TWO_TO_THE_64 then up else 0
  }

  /** Putting a block that touches no other before the first shorter one keeps the list in order. */
  lemma InsertOk(blocks: seq<Block>, b: Block, k: nat)
    requires ListOk(blocks) && BlockOk(b) && k <= |blocks| && (forall j :: 0 <= j < |blocks| ==> Apart(blocks[j], b))
    requires (forall j :: 0 <= j < k ==> blocks[j].length >= b.length) && (k < |blocks| ==> blocks[k].length < b.length)
    ensures ListOk(blocks[..k] + [b] + blocks[k..])
  {
    var r := blocks[..k] + [b] + blocks[k..];
    forall i: nat, j: nat | i < j < |r| ensures Before(r, i, j) {
      if i != k && j != k {
        assert Before(blocks, if i < k then i else i - 1, if j < k then j else j - 1);
      }
      if i == k && j > k + 1 {
        assert Before(blocks, k, j - 1);
      }
    }
  }

  lemma RemoveOk(blocks: seq<Block>, k: nat)
    requires ListOk(blocks) && k < |blocks|
    ensures ListOk(blocks[..k] + blocks[k + 1..])
  {
    var r := blocks[..k] + blocks[k + 1..];
    forall i: nat, j: nat | i < j < |r| ensures Before(r, i, j) {
      assert Before(blocks, if i < k then i else i + 1, if j < k then j else j + 1);
    }
  }

  /** A block at the start of a gap that is large enough touches no other. */
  lemma GapFits(blocks: seq<Block>, i: nat, size: nat)
    requires ListOk(blocks) && i < |blocks| && size <= Gap(blocks, i) && size % PAGE_SIZE == 0
    ensures forall host: nat :: BlockOk(Block(End(blocks[i]), size, host))
    ensures forall host: nat, j :: 0 <= j < |blocks| ==> Apart(blocks[j], Block(End(blocks[i]), size, host))
  {
    GapIsFree(blocks, i, size, i);
    forall host: nat, j | 0 <= j < |blocks| ensures Apart(blocks[j], Block(End(blocks[i]), size, host)) {
      GapIsFree(blocks, i, size, j);
    }
  }

  /** The block that a search of the whole list finds. */
  ghost predicate IsOwner(blocks: seq<Block>, addr: nat, b: Block) { b in blocks && Contains(b, addr) }

  ghost predicate IsFirstAt(blocks: seq<Block>, addr: nat, k: nat) {
    k < |blocks| && blocks[k].offset == addr && forall j :: 0 <= j < k ==> blocks[j].offset != addr
  }

  lemma RemovedFirst(blocks: seq<Block>, addr: nat, k: nat)
    requires ListOk(blocks) && IsFirstAt(blocks, addr, k)
    ensures var r := blocks[..k] + blocks[k + 1..];
      forall b: Block :: b.length > 0 ==> (b in r <==> b in blocks && b.offset != addr)
  {
    var r := blocks[..k] + blocks[k + 1..];
    assert blocks == blocks[..k] + [blocks[k]] + blocks[k + 1..];
    forall j: nat | k < j < |blocks| && blocks[j].offset == addr ensures blocks[j].length == 0 {
      Distinct(blocks, j, k);
    }
  }

  /** `b` comes after all blocks that are as long and before all that are shorter. */
  ghost predicate InsertedAt(blocks: seq<Block>, blocks': seq<Block>, b: Block, k: nat) {
    && k <= |blocks| && blocks' == blocks[..k] + [b] + blocks[k..]
    && (forall j :: 0 <= j < k ==> blocks[j].length >= b.length)
    && (forall j :: k <= j < |blocks| ==> blocks[j].length < b.length)
  }

  class RamList {
    var blocks: seq<Block>
    var mruBlock: Option<Block>
    var version: nat

    ghost predicate Valid() reads this {
      ListOk(blocks) && (mruBlock.Some? ==> mruBlock.value in blocks)
    }

    constructor ()
      ensures Valid() && blocks == []
    {
      blocks, mruBlock, version := [], None, 0;
    }

    /** qemu_ram_alloc_from_ptr.  The new block lies in free space, in the smallest gap after a block that is
        large enough; without one the program gives up and nothing changes. */
    method Alloc(size: nat, host: nat) returns (r: Option<nat>)
      requires Valid() && size < TWO_TO_THE_64
      modifies this
      ensures Valid()
      ensures r.None? ==> blocks == old(blocks)
      ensures r.None?
        <==> old(blocks) != [] && PageAlign(size) > 0 && forall i: nat :: !SeesRoom(old(blocks), i, PageAlign(size))
      ensures r.Some? ==> multiset(blocks) == multiset(old(blocks)) + multiset{Block(r.value, PageAlign(size), host)}
      ensures r.Some? ==> exists k: nat :: InsertedAt(old(blocks), blocks, Block(r.value, PageAlign(size), host), k)
      ensures r.Some? ==> mruBlock == None && version == old(version) + 1
      ensures r.Some? ==>
        if old(blocks) == [] then r.value == 0
        else exists i: nat :: IsBestGap(old(blocks), PageAlign(size), i) && r.value == End(old(blocks)[i])
    {
      var length := PageAlign(size);
      r := FindRamOffset(blocks, length);
      if blocks != [] {
        assert BlockOk(blocks[0]);
        NextStartIs(blocks, End(blocks[0]), |blocks|);
        assert r.None? ==> 0 <= Gap(blocks, 0) < length;
      }
      if length > 0 {
        forall i: nat | i < |blocks| ensures Gap(blocks, i) >= length <==> SeesRoom(blocks, i, length) {
          GapIff(blocks, i, length);
        }
      }
      if r.None? {
        return;
      }
      var b := Block(r.value, length, host);
      if blocks != [] {
        ghost var i: nat :| IsBestGap(blocks, length, i) && r.value == End(blocks[i]);
        GapFits(blocks, i, length);
      }
      Insert(b);
      mruBlock := None;
      version := version + 1;
    }

    /** The insertion of qemu_ram_alloc_from_ptr, before the first block that is shorter. */
    method Insert(b: Block)
      requires ListOk(blocks) && BlockOk(b) && forall j :: 0 <= j < |blocks| ==> Apart(blocks[j], b)
      modifies `blocks
      ensures ListOk(blocks) && multiset(blocks) == multiset(old(blocks)) + multiset{b}
      ensures exists k: nat :: InsertedAt(old(blocks), blocks, b, k)
    {
      var k := 0;
      while k < |blocks| && blocks[k].length >= b.length
        invariant 0 <= k <= |blocks| && forall j :: 0 <= j < k ==> blocks[j].length >= b.length
      {
        k := k + 1;
      }
      InsertOk(blocks, b, k);
      assert blocks == blocks[..k] + blocks[k..];
      forall j | k <= j < |blocks| ensures blocks[j].length < b.length {
        assert k < j ==> Before(blocks, k, j);
      }
      blocks := blocks[..k] + [b] + blocks[k..];
      assert InsertedAt(old(blocks), blocks, b, k);
    }

    /** qemu_ram_free: the first block that starts at `addr` goes, if there is one; what else starts there
        is empty. */
    method Free(addr: nat)
      requires Valid()
      modifies this
      ensures Valid()
      ensures (forall b :: b in old(blocks) ==> b.offset != addr) ==> blocks == old(blocks)
      ensures (exists b :: b in old(blocks) && b.offset == addr) ==>
        exists k: nat :: IsFirstAt(old(blocks), addr, k) && blocks == old(blocks)[..k] + old(blocks)[k + 1..]
      ensures forall b: Block :: b.length > 0 ==> (b in blocks <==> b in old(blocks) && b.offset != addr)
      ensures if exists b :: b in old(blocks) && b.offset == addr then mruBlock == None && version == old(version) + 1
        else mruBlock == old(mruBlock) && version == old(version)
    {
      var k := 0;
      while k < |blocks|
        invariant 0 <= k <= |blocks| && forall j :: 0 <= j < k ==> blocks[j].offset != addr
      {
        if blocks[k].offset == addr {
          RemoveOk(blocks, k);
          RemovedFirst(blocks, addr, k);
          blocks := blocks[..k] + blocks[k + 1..];
          mruBlock := None;
          version := version + 1;
          return;
        }
        k := k + 1;
      }
    }

    /** last_ram_offset */
    method LastRamOffset() returns (last: nat)
      ensures forall b :: b in blocks ==> End(b) <= last
      ensures if blocks == [] then last == 0 else exists b :: b in blocks && End(b) == last
    {
      last := 0;
      for k := 0 to |blocks|
        invariant forall j :: 0 <= j < k ==> End(blocks[j]) <= last
        invariant if k == 0 then last == 0 else exists j :: 0 <= j < k && End(blocks[j]) == last
      {
        if End(blocks[k]) > last {
          last := End(blocks[k]);
        }
      }
    }

    /** qemu_get_ram_ptr: with or without the shortcut, the one block that holds the address; nothing, where
        the program gives up, if none does. */
    method GetRamPtr(addr: nat) returns (r: Option<nat>)
      requires Valid() && addr < TWO_TO_THE_64
      modifies `mruBlock
      ensures Valid()
      ensures forall b :: IsOwner(blocks, addr, b) ==> r == Some(b.host + (addr - b.offset)) && mruBlock == Some(b)
      ensures (forall b :: !IsOwner(blocks, addr, b)) ==> r == None && mruBlock == old(mruBlock)
    {
      if mruBlock.Some? {
        var b := mruBlock.value;
        Member(blocks, b);
        InBlockIs(b, addr);
        if InBlock(b, addr) {
          OnlyOwner(blocks, addr, b);
          return Some(b.host + (addr - b.offset));
        }
      }
      for k := 0 to |blocks|
        invariant mruBlock == old(mruBlock) && forall j :: 0 <= j < k ==> !Contains(blocks[j], addr)
      {
        var b := blocks[k];
        Member(blocks, b);
        InBlockIs(b, addr);
        if InBlock(b, addr) {
          OnlyOwner(blocks, addr, b);
          mruBlock := Some(b);
          return Some(b.host + (addr - b.offset));
        }
      }
      r := None;
    }
  }

  lemma Member(blocks: seq<Block>, b: Block)
    requires ListOk(blocks) && b in blocks
    ensures BlockOk(b)
  {
  }

  lemma OnlyOwner(blocks: seq<Block>, addr: nat, b: Block)
    requires ListOk(blocks) && IsOwner(blocks, addr, b)
    ensures forall c :: IsOwner(blocks, addr, c) ==> c == b
  {
    var k :| 0 <= k < |blocks| && blocks[k] == b;
    forall c | IsOwner(blocks, addr, c) ensures c == b {
      var j :| 0 <= j < |blocks| && blocks[j] == c;
      if j != k {
        Distinct(blocks, j, k);
      }
    }
  }
}
