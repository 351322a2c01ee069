/**
  The RAM section of the migration stream (arch_init.c): the bytes that save_block_hdr,
  ram_save_block and ram_save_setup write, and what ram_load makes of them.

  Offsets are page-aligned, so the source's `offset | cont | flag` is a sum here.
 */
module MigrationStream {
  import opened Options
  import opened Units

  const FLAG_COMPRESS: nat := 0x02
  const FLAG_MEM_SIZE: nat := 0x04
  const FLAG_PAGE: nat := 0x08
  const FLAG_EOS: nat := 0x10
  const FLAG_CONTINUE: nat := 0x20
  const FLAG_XBZRLE: nat := 0x40

  /** flags & bit, for a one-bit mask */
  predicate Has(flags: nat, bit: nat)
    requires bit > 0
  {
    flags % (2 * bit) >= bit
  }

  // ----- big-endian integers -----

  function Pow256(n: nat): (p: nat)
    ensures p > 0
  {
    if n == 0 then 1 else 256 * Pow256(n - 1)
  }

  /** The `n` lowest base-256 digits, highest first. */
  function Digits(v: nat, n: nat): (bs: seq<byte>)
    ensures |bs| == n
  {
    seq(n, i requires 0 <= i < n => v / Pow256(n - 1 - i) % 256)
  }

  function Value(bs: seq<byte>): nat {
    if bs == [] then 0 else Value(bs[..|bs| - 1]) * 256 + bs[|bs| - 1]
  }

  lemma DivDiv(v: nat, p: nat)
    requires p > 0
    ensures v / 256 / p == v / (256 * p)
  {
    var q := v / 256 / p;
    assert v == 256 * (v / 256) + v % 256;
    assert v / 256 == p * q + (v / 256) % p;
    var r := 256 * ((v / 256) % p) + v % 256;
    assert v == (256 * p) * q + r;
    assert (v / 256) % p <= p - 1;
    assert 0 <= r < 256 * p;
    DivIs(v, 256 * p, q, r);
  }

  lemma MulLe(a: int, b: int, d: nat)
    ensures a <= b ==> d * a <= d * b
  {
  }

  lemma DivIs(v: nat, d: nat, q: nat, r: nat)
    requires d > 0 && v == d * q + r && r < d
    ensures v / d == q
  {
    var k := v / d;
    assert d * k <= v < d * k + d;
    MulLe(k + 1, q, d);
    MulLe(q + 1, k, d);
  }

  lemma DigitsShift(v: nat, n: nat)
    requires n > 0
    ensures Digits(v, n)[..n - 1] == Digits(v / 256, n - 1) && Digits(v, n)[n - 1] == v % 256
  {
    var bs, cs := Digits(v, n), Digits(v / 256, n - 1);
    forall i | 0 <= i < n - 1 ensures bs[i] == cs[i] {
      DigitShift(v, n, i);
    }
    assert Pow256(0) == 1;
  }

  lemma DigitShift(v: nat, n: nat, i: nat)
    requires i < n - 1
    ensures v / Pow256(n - 1 - i) % 256 == v / 256 / Pow256(n - 2 - i) % 256
  {
    var p := Pow256(n - 2 - i);
    assert Pow256(n - 1 - i) == 256 * p;
    DivDiv(v, p);
  }

  lemma {:induction false} DigitsRoundTrip(v: nat, n: nat)
    requires v < Pow256(n)
    ensures Value(Digits(v, n)) == v
    decreases n
  {
    if n > 0 {
      var bs := Digits(v, n);
      DigitsShift(v, n);
      DigitsRoundTrip(v / 256, n - 1);
    }
  }

  lemma Pow256Eight()
    ensures Pow256(8) == TWO_TO_THE_64
  {
    assert Pow256(2) == 0x1_0000;
    assert Pow256(4) == 0x1_0000_0000;
    assert Pow256(6) == 0x1_0000_0000_0000;
  }

  /** qemu_put_be64 */
  function Be64(v: nat): (bs: seq<byte>)
    ensures |bs| == 8
  {
    Digits(v, 8)
  }

  // ----- blocks and records -----

  type Page = p: seq<byte> | |p| == PAGE_SIZE witness seq(PAGE_SIZE, i => 0)

  /** A RAMBlock: its name, its length in pages, and the page number of its ram_addr. */
  datatype Block = Block(idstr: seq<byte>, pages: nat, base: nat)

  /** A name fits the length byte and holds no terminator. */
  predicate NameOk(id: seq<byte>) { |id| < 256 && 0 !in id }

  ghost predicate BlocksOk(blocks: seq<Block>) {
    && (forall i :: 0 <= i < |blocks| ==> NameOk(blocks[i].idstr) && blocks[i].pages * PAGE_SIZE < TWO_TO_THE_64)
    && NamesDiffer(blocks)
    && TotalPages(blocks) * PAGE_SIZE < TWO_TO_THE_64
  }

  ghost predicate NamesDiffer(blocks: seq<Block>) {
    forall i: nat, j: nat :: i < |blocks| && j < |blocks| && i != j ==> NameDiffers(blocks, i, j)
  }

  ghost predicate NameDiffers(blocks: seq<Block>, i: nat, j: nat)
    requires i < |blocks| && j < |blocks|
  {
    blocks[i].idstr != blocks[j].idstr
  }

  function TotalPages(blocks: seq<Block>): nat { PagesFrom(blocks, 0) }

  /** The pages of the blocks from `k` on. */
  function PagesFrom(blocks: seq<Block>, k: nat): nat
    requires k <= |blocks|
    decreases |blocks| - k
  {
    if k == |blocks| then 0 else blocks[k].pages + PagesFrom(blocks, k + 1)
  }

  /** One item of the stream.  A page item names its block only when the previous one did not
      come from the same block. */
  datatype Record =
    | BlockList
    | Dup(block: nat, page: nat, ch: byte, cont: bool)
    | Full(block: nat, page: nat, data: Page, cont: bool)
    | Eos

  ghost predicate RecordOk(blocks: seq<Block>, r: Record) {
    r.Dup? || r.Full? ==> r.block < |blocks| && r.page < blocks[r.block].pages
  }

  /** save_block_hdr */
  function Header(id: seq<byte>, offset: nat, cont: bool, flag: nat): seq<byte>
    requires |id| < 256
  {
    Be64(offset + (if cont then FLAG_CONTINUE else 0) + flag) + if cont then [] else [|id|] + id
  }

  function PrintBlocks(blocks: seq<Block>): seq<byte>
    requires forall i :: 0 <= i < |blocks| ==> |blocks[i].idstr| < 256
  {
    PrintFrom(blocks, 0)
  }

  function PrintFrom(blocks: seq<Block>, k: nat): seq<byte>
    requires k <= |blocks| && forall i :: 0 <= i < |blocks| ==> |blocks[i].idstr| < 256
    decreases |blocks| - k
  {
    if k == |blocks| then []
    else [|blocks[k].idstr|] + blocks[k].idstr + (Be64(blocks[k].pages * PAGE_SIZE) + PrintFrom(blocks, k + 1))
  }

  function Print(blocks: seq<Block>, r: Record): seq<byte>
    requires forall i :: 0 <= i < |blocks| ==> |blocks[i].idstr| < 256
    requires r.Dup? || r.Full? ==> r.block < |blocks|
  {
    match r
    case BlockList => Be64(TotalPages(blocks) * PAGE_SIZE + FLAG_MEM_SIZE) + PrintBlocks(blocks)
    case Dup(b, page, ch, cont) => Header(blocks[b].idstr, page * PAGE_SIZE, cont, FLAG_COMPRESS) + [ch]
    case Full(b, page, data, cont) => Header(blocks[b].idstr, page * PAGE_SIZE, cont, FLAG_PAGE) + data
    case Eos => Be64(FLAG_EOS)
  }

  lemma Pow256Values()
    ensures Pow256(0) == 1 && Pow256(1) == 0x100 && Pow256(2) == 0x1_0000 && Pow256(3) == 0x100_0000
    ensures Pow256(4) == 0x1_0000_0000 && Pow256(5) == 0x100_0000_0000 && Pow256(6) == 0x1_0000_0000_0000
    ensures Pow256(7) == 0x100_0000_0000_0000
  {
    assert Pow256(2) == 256 * Pow256(1);
    assert Pow256(4) == 256 * Pow256(3);
    assert Pow256(6) == 256 * Pow256(5);
  }

  /** A word below 65536. */
  lemma SmallWord(hi: byte, lo: byte)
    ensures Be64(hi * 256 + lo) == [0, 0, 0, 0, 0, 0, hi, lo]
  {
    Pow256Values();
    var v := hi * 256 + lo;
    assert v / 256 % 256 == hi && v % 256 == lo;
  }

  /** The bytes of one item of each kind, for page 1 of a block named "a" of two pages. */
  lemma ItemBytes(data: Page)
    ensures var blocks := [Block([0x61], 2, 0)];
      && Print(blocks, Dup(0, 1, 7, false)) == [0, 0, 0, 0, 0, 0, 0x10, 0x02, 1, 0x61, 7]
      && Print(blocks, Dup(0, 1, 7, true)) == [0, 0, 0, 0, 0, 0, 0x10, 0x22, 7]
      && Print(blocks, Full(0, 1, data, false)) == [0, 0, 0, 0, 0, 0, 0x10, 0x08, 1, 0x61] + data
      && Print(blocks, Full(0, 1, data, true)) == [0, 0, 0, 0, 0, 0, 0x10, 0x28] + data
      && Print(blocks, Eos) == [0, 0, 0, 0, 0, 0, 0, 0x10]
      && Print(blocks, BlockList) == [0, 0, 0, 0, 0, 0, 0x20, 0x04, 1, 0x61, 0, 0, 0, 0, 0, 0, 0x20, 0]
  {
    SmallWord(0x10, 0x02);
    SmallWord(0x10, 0x22);
    SmallWord(0x10, 0x08);
    SmallWord(0x10, 0x28);
    SmallWord(0, 0x10);
    SmallWord(0x20, 0x04);
    SmallWord(0x20, 0);
  }

  // ----- loading -----

  /** The destination: its RAM, and the block the loader remembers between items. */
  datatype Dest = Dest(ram: seq<seq<Page>>, block: Option<nat>)

  datatype Loaded =
    | Done(dest: Dest, rest: seq<byte>, eos: bool)
    | Failed

  /** The name read from the stream, as a C string. */
  function CString(id: seq<byte>): seq<byte> {
    if id == [] || id[0] == 0 then [] else [id[0]] + CString(id[1..])
  }

  function FindBlock(blocks: seq<Block>, id: seq<byte>): (r: Option<nat>)
    ensures r.Some? ==> r.value < |blocks| && blocks[r.value].idstr == id
    ensures r.None? ==> forall i :: 0 <= i < |blocks| ==> blocks[i].idstr != id
  {
    if blocks == [] then None
    else if blocks[0].idstr == id then Some(0)
    else
      var r := FindBlock(blocks[1..], id);
      if r.None? then None else Some(r.value + 1)
  }

  /** One announced block: its name must be known here, with the same length. */
  function LoadEntry(blocks: seq<Block>, bytes: seq<byte>): (r: Option<(nat, seq<byte>)>)
    ensures r.Some? ==> |r.value.1| < |bytes|
  {
    if |bytes| < 1 || |bytes| < 9 + (bytes[0] as int) then None
    else
      var len: int := bytes[0];
      var id := CString(bytes[1..1 + len]);
      var length := Value(bytes[1 + len..1 + len + 8]);
      var b := FindBlock(blocks, id);
      if b.None? || blocks[b.value].pages * PAGE_SIZE != length then None
      else Some((length, bytes[1 + len + 8..]))
  }

  /** a - b in unsigned 64-bit arithmetic, for 64-bit numbers. */
  function Minus64(a: nat, b: nat): nat {
    if b <= a then a - b else if b < TWO_TO_THE_64 then a + TWO_TO_THE_64 - b else 0
  }

  lemma Minus64Is(a: nat, b: nat)
    requires a < TWO_TO_THE_64 && b < TWO_TO_THE_64
    ensures Minus64(a, b) == (a - b) % TWO_TO_THE_64
  {
  }

  /** The loop that checks the announced block list; `left` counts the bytes still to come. */
  function LoadBlocks(blocks: seq<Block>, left: nat, bytes: seq<byte>): (r: Option<seq<byte>>)
    ensures r.Some? ==> |r.value| <= |bytes|
    decreases |bytes|
  {
    if left == 0 then Some(bytes)
    else
      var e := LoadEntry(blocks, bytes);
      if e.None? then None else LoadBlocks(blocks, Minus64(left, e.value.0), e.value.1)
  }

  /** The bits below the page size of an item's first word. */
  datatype Flags = Flags(memSize: bool, compress: bool, page: bool, xbzrle: bool, cont: bool, eos: bool)

  function Decode(flags: nat): Flags {
    Flags(Has(flags, FLAG_MEM_SIZE), Has(flags, FLAG_COMPRESS), Has(flags, FLAG_PAGE), Has(flags, FLAG_XBZRLE),
          Has(flags, FLAG_CONTINUE), Has(flags, FLAG_EOS))
  }

  /** host_from_stream_offset: the block a page item is for, and what follows in the stream. */
  function HostBlock(blocks: seq<Block>, remembered: Option<nat>, cont: bool, bytes: seq<byte>)
    : (r: Option<(nat, seq<byte>)>)
    ensures r.Some? ==> |r.value.1| <= |bytes|
  {
    if cont then
      if remembered.None? then None else Some((remembered.value, bytes))
    else if |bytes| < 1 || |bytes| < 1 + (bytes[0] as int) then None
    else
      var len: int := bytes[0];
      var b := FindBlock(blocks, CString(bytes[1..1 + len]));
      if b.None? then None else Some((b.value, bytes[1 + len..]))
  }

  function Fill(ch: byte): Page { seq(PAGE_SIZE, i => ch) }

  function StorePage(ram: seq<seq<Page>>, b: nat, page: nat, data: Page): seq<seq<Page>>
    requires b < |ram| && page < |ram[b]|
  {
    var row: seq<Page> := ram[b];
    var row': seq<Page> := row[page := data];
    ram[b := row']
  }

  /** Storing the payload of a page item. */
  function StorePayload(d: Dest, b: nat, page: nat, f: Flags, bytes: seq<byte>): (r: Loaded)
    ensures r.Done? ==> |r.rest| <= |bytes|
  {
    if b >= |d.ram| || page >= |d.ram[b]| then Failed
    else if f.compress then
      if |bytes| < 1 then Failed
      else Done(Dest(StorePage(d.ram, b, page, Fill(bytes[0])), Some(b)), bytes[1..], f.eos)
    else
      if |bytes| < PAGE_SIZE then Failed
      else Done(Dest(StorePage(d.ram, b, page, bytes[..PAGE_SIZE]), Some(b)), bytes[PAGE_SIZE..], f.eos)
  }

  /** One turn of the loop of ram_load, after the block list (if any) has been checked. */
  function LoadPage(blocks: seq<Block>, d: Dest, page: nat, f: Flags, bytes: seq<byte>): (r: Loaded)
    ensures r.Done? ==> |r.rest| <= |bytes|
  {
    if f.compress || f.page then
      var h := HostBlock(blocks, d.block, f.cont, bytes);
      if h.None? then Failed else StorePayload(d, h.value.0, page, f, h.value.1)
    else if f.xbzrle then Failed
    else Done(d, bytes, f.eos)
  }

  /** One turn of the loop of ram_load, once its first word is taken apart. */
  function LoadItem(blocks: seq<Block>, d: Dest, addr: nat, f: Flags, bytes: seq<byte>): (r: Loaded)
    ensures r.Done? ==> |r.rest| <= |bytes|
  {
    if f.memSize then
      var rest := LoadBlocks(blocks, addr, bytes);
      if rest.None? then Failed else LoadPage(blocks, d, addr / PAGE_SIZE, f, rest.value)
    else LoadPage(blocks, d, addr / PAGE_SIZE, f, bytes)
  }

  /** One turn of the loop of ram_load. */
  function LoadStep(blocks: seq<Block>, d: Dest, bytes: seq<byte>): (r: Loaded)
    ensures r.Done? ==> |r.rest| < |bytes|
  {
    if |bytes| < 8 then Failed
    else
      var head := Value(bytes[..8]);
      LoadItem(blocks, d, head - head % PAGE_SIZE, Decode(head % PAGE_SIZE), bytes[8..])
  }

  // ----- loading what was printed -----

  /** What a record does to the destination. */
  ghost function Apply(d: Dest, r: Record): Dest
    requires r.Dup? || r.Full? ==> r.block < |d.ram| && r.page < |d.ram[r.block]|
  {
    match r
    case BlockList => d
    case Dup(b, page, ch, _) => Dest(StorePage(d.ram, b, page, Fill(ch)), Some(b))
    case Full(b, page, data, _) => Dest(StorePage(d.ram, b, page, data), Some(b))
    case Eos => d
  }

  lemma {:induction false} CStringId(id: seq<byte>)
    requires 0 !in id
    ensures CString(id) == id
  {
    if id != [] {
      assert id[0] in id;
      CStringId(id[1..]);
    }
  }

  lemma FindBlockIs(blocks: seq<Block>, b: nat)
    requires b < |blocks| && NamesDiffer(blocks)
    ensures FindBlock(blocks, blocks[b].idstr) == Some(b)
  {
    var r := FindBlock(blocks, blocks[b].idstr);
    assert r.Some?;
    assert r.value != b ==> NameDiffers(blocks, r.value, b);
  }

  lemma HeadValue(v: nat, rest: seq<byte>)
    requires v < TWO_TO_THE_64
    ensures |Be64(v) + rest| >= 8 && Value((Be64(v) + rest)[..8]) == v && (Be64(v) + rest)[8..] == rest
  {
    Pow256Eight();
    DigitsRoundTrip(v, 8);
    assert (Be64(v) + rest)[..8] == Be64(v);
  }

  lemma SplitHead(v: nat, rest: seq<byte>, bytes: seq<byte>)
    requires v < TWO_TO_THE_64 && bytes == Be64(v) + rest
    ensures |bytes| >= 8 && Value(bytes[..8]) == v && bytes[8..] == rest
  {
    HeadValue(v, rest);
  }

  lemma StepIsItem(blocks: seq<Block>, d: Dest, v: nat, addr: nat, f: Flags, rest: seq<byte>, bytes: seq<byte>)
    requires v < TWO_TO_THE_64 && bytes == Be64(v) + rest
    requires v - v % PAGE_SIZE == addr && Decode(v % PAGE_SIZE) == f
    ensures LoadStep(blocks, d, bytes) == LoadItem(blocks, d, addr, f, rest)
  {
    SplitHead(v, rest, bytes);
  }

  /** The block a printed header leads to. */
  lemma HeaderBlock(blocks: seq<Block>, b: nat, remembered: Option<nat>, cont: bool, rest: seq<byte>)
    requires BlocksOk(blocks) && b < |blocks| && (cont ==> remembered == Some(b))
    ensures var id := blocks[b].idstr;
      HostBlock(blocks, remembered, cont, (if cont then [] else [|id|] + id) + rest) == Some((b, rest))
  {
    var id := blocks[b].idstr;
    if cont {
      assert [] + rest == rest;
    } else {
      var bytes := ([|id|] + id) + rest;
      assert bytes[1..1 + |id|] == id && bytes[1 + |id|..] == rest && bytes[0] == |id|;
      CStringId(id);
      FindBlockIs(blocks, b);
    }
  }

  lemma PageHead(page: nat, blockPages: nat, cont: bool, dup: bool)
    requires page < blockPages && blockPages * PAGE_SIZE < TWO_TO_THE_64
    ensures var flags := (if cont then FLAG_CONTINUE else 0) + (if dup then FLAG_COMPRESS else FLAG_PAGE);
      var v := page * PAGE_SIZE + flags;
      && v < TWO_TO_THE_64 && v - v % PAGE_SIZE == page * PAGE_SIZE
      && Decode(v % PAGE_SIZE) == Flags(false, dup, !dup, false, cont, false)
  {
    var flags := (if cont then FLAG_CONTINUE else 0) + (if dup then FLAG_COMPRESS else FLAG_PAGE);
    assert page * PAGE_SIZE + PAGE_SIZE <= blockPages * PAGE_SIZE;
    assert (page * PAGE_SIZE + flags) % PAGE_SIZE == flags;
    assert Decode(0x02) == Flags(false, true, false, false, false, false);
    assert Decode(0x22) == Flags(false, true, false, false, true, false);
    assert Decode(0x08) == Flags(false, false, true, false, false, false);
    assert Decode(0x28) == Flags(false, false, true, false, true, false);
  }

  /** Where the list loop stops: when no bytes of RAM are left to announce. */
  ghost function Stop(blocks: seq<Block>, k: nat): (m: nat)
    requires k <= |blocks|
    ensures k <= m <= |blocks| && PagesFrom(blocks, m) == 0
    decreases |blocks| - k
  {
    if PagesFrom(blocks, k) == 0 then k else Stop(blocks, k + 1)
  }

  lemma PrintEntry(blocks: seq<Block>, k: nat, rest: seq<byte>)
    requires k < |blocks| && forall i :: 0 <= i < |blocks| ==> |blocks[i].idstr| < 256
    ensures PrintFrom(blocks, k) + rest
      == [|blocks[k].idstr|] + blocks[k].idstr + (Be64(blocks[k].pages * PAGE_SIZE) + (PrintFrom(blocks, k + 1) + rest))
  {
    var a, b, c := [|blocks[k].idstr|] + blocks[k].idstr, Be64(blocks[k].pages * PAGE_SIZE), PrintFrom(blocks, k + 1);
    assert (a + (b + c)) + rest == a + (b + (c + rest));
  }

  lemma LoadBlocksStep(blocks: seq<Block>, left: nat, bytes: seq<byte>, length: nat, more: seq<byte>)
    requires 0 < left && length <= left && LoadEntry(blocks, bytes) == Some((length, more))
    ensures LoadBlocks(blocks, left, bytes) == LoadBlocks(blocks, left - length, more)
  {
  }

  lemma LoadListStep(blocks: seq<Block>, k: nat, rest: seq<byte>, left: nat, bytes: seq<byte>)
    requires BlocksOk(blocks) && k < |blocks| && 0 < left && blocks[k].pages * PAGE_SIZE <= left
    requires bytes == PrintFrom(blocks, k) + rest
    ensures LoadBlocks(blocks, left, bytes)
      == LoadBlocks(blocks, left - blocks[k].pages * PAGE_SIZE, PrintFrom(blocks, k + 1) + rest)
  {
    var length, more := blocks[k].pages * PAGE_SIZE, PrintFrom(blocks, k + 1) + rest;
    PrintEntry(blocks, k, rest);
    LoadListEntry(blocks, k, more);
    LoadBlocksStep(blocks, left, bytes, length, more);
  }

  lemma StopStep(blocks: seq<Block>, k: nat)
    requires k <= |blocks| && PagesFrom(blocks, k) > 0
    ensures k < |blocks| && Stop(blocks, k) == Stop(blocks, k + 1)
    ensures PagesFrom(blocks, k) == blocks[k].pages + PagesFrom(blocks, k + 1)
    ensures PagesFrom(blocks, k) * PAGE_SIZE == blocks[k].pages * PAGE_SIZE + PagesFrom(blocks, k + 1) * PAGE_SIZE
  {
  }

  lemma {:induction false} LoadListTo(blocks: seq<Block>, k: nat, rest: seq<byte>, left: nat, bytes: seq<byte>)
    requires BlocksOk(blocks) && k <= |blocks|
    requires left == PagesFrom(blocks, k) * PAGE_SIZE < TWO_TO_THE_64 && bytes == PrintFrom(blocks, k) + rest
    ensures LoadBlocks(blocks, left, bytes) == Some(PrintFrom(blocks, Stop(blocks, k)) + rest)
    decreases |blocks| - k
  {
    if left > 0 {
      StopStep(blocks, k);
      LoadListStep(blocks, k, rest, left, bytes);
      LoadListTo(blocks, k + 1, rest, left - blocks[k].pages * PAGE_SIZE, PrintFrom(blocks, k + 1) + rest);
    } else {
      assert Stop(blocks, k) == k && LoadBlocks(blocks, 0, bytes) == Some(bytes);
    }
  }

  /** One printed entry of the block list is read back. */
  lemma LoadListEntry(blocks: seq<Block>, k: nat, more: seq<byte>)
    requires BlocksOk(blocks) && k < |blocks|
    ensures LoadEntry(blocks, [|blocks[k].idstr|] + blocks[k].idstr + (Be64(blocks[k].pages * PAGE_SIZE) + more))
      == Some((blocks[k].pages * PAGE_SIZE, more))
  {
    var id, length := blocks[k].idstr, blocks[k].pages * PAGE_SIZE;
    var tail := Be64(length) + more;
    var bytes := [|id|] + id + tail;
    var n := |id|;
    HeadValue(length, more);
    assert bytes[0] == n && bytes[1..1 + n] == id;
    assert bytes[1 + n..1 + n + 8] == tail[..8];
    assert bytes[1 + n + 8..] == tail[8..];
    CStringId(id);
    FindBlockIs(blocks, k);
  }

  /** The list stops short when its last block is empty. */
  predicate LastNotEmpty(blocks: seq<Block>) { blocks == [] || blocks[|blocks| - 1].pages > 0 }

  lemma {:induction false} StopAtEnd(blocks: seq<Block>, k: nat)
    requires k <= |blocks|
    ensures Stop(blocks, k) == |blocks| <==> k == |blocks| || blocks[|blocks| - 1].pages > 0
    decreases |blocks| - k
  {
    if k < |blocks| {
      LastCounts(blocks, k);
      StopAtEnd(blocks, k + 1);
    }
  }

  lemma {:induction false} LastCounts(blocks: seq<Block>, k: nat)
    requires k < |blocks|
    ensures PagesFrom(blocks, k) >= blocks[|blocks| - 1].pages
    decreases |blocks| - k
  {
    if k + 1 < |blocks| {
      LastCounts(blocks, k + 1);
    }
  }

  /** The announced block list is read back completely exactly when its last block is not empty:
      the loop counts bytes of RAM, not entries. */
  lemma LoadPrintedBlocks(blocks: seq<Block>, rest: seq<byte>)
    requires BlocksOk(blocks)
    ensures LoadBlocks(blocks, TotalPages(blocks) * PAGE_SIZE, PrintBlocks(blocks) + rest) == Some(rest)
      <==> LastNotEmpty(blocks)
  {
    LoadListTo(blocks, 0, rest, TotalPages(blocks) * PAGE_SIZE, PrintBlocks(blocks) + rest);
    StopAtEnd(blocks, 0);
    var m := Stop(blocks, 0);
    if m == |blocks| {
      assert PrintFrom(blocks, m) + rest == rest;
    } else {
      assert |PrintFrom(blocks, m) + rest| > |rest|;
    }
  }

  /** A list of one block of one page and one of none: the second entry is left unread. */
  lemma EmptyLastBlock(rest: seq<byte>) returns (blocks: seq<Block>)
    ensures BlocksOk(blocks) && TotalPages(blocks) == 1
    ensures LoadBlocks(blocks, TotalPages(blocks) * PAGE_SIZE, PrintBlocks(blocks) + rest) != Some(rest)
  {
    blocks := [Block([97], 1, 0), Block([98], 0, 1)];
    assert PagesFrom(blocks, 2) == 0 && PagesFrom(blocks, 1) == 0 && PagesFrom(blocks, 0) == 1;
    assert [97][0] != [98][0];
    LoadPrintedBlocks(blocks, rest);
  }

  lemma Regroup(a: seq<byte>, b: seq<byte>, c: seq<byte>, e: seq<byte>)
    ensures ((a + b) + c) + e == a + (b + (c + e))
  {
  }

  /** The bytes of a page item, split after its first eight. */
  lemma PrintedPage(blocks: seq<Block>, r: Record, payload: seq<byte>, rest: seq<byte>)
    requires (forall i :: 0 <= i < |blocks| ==> |blocks[i].idstr| < 256) && (r.Dup? || r.Full?) && r.block < |blocks|
    requires payload == if r.Dup? then [r.ch] else r.data
    ensures var name := if r.cont then [] else [|blocks[r.block].idstr|] + blocks[r.block].idstr;
      var flag := if r.Dup? then FLAG_COMPRESS else FLAG_PAGE;
      Print(blocks, r) + rest
        == Be64(r.page * PAGE_SIZE + (if r.cont then FLAG_CONTINUE else 0) + flag) + (name + (payload + rest))
  {
    var name := if r.cont then [] else [|blocks[r.block].idstr|] + blocks[r.block].idstr;
    var flag := if r.Dup? then FLAG_COMPRESS else FLAG_PAGE;
    Regroup(Be64(r.page * PAGE_SIZE + (if r.cont then FLAG_CONTINUE else 0) + flag), name, payload, rest);
  }

  /** The word a page item starts with, and the name that may follow it. */
  ghost function Head(r: Record): nat
    requires r.Dup? || r.Full?
  {
    r.page * PAGE_SIZE + (if r.cont then FLAG_CONTINUE else 0) + if r.Dup? then FLAG_COMPRESS else FLAG_PAGE
  }

  ghost function Name(blocks: seq<Block>, r: Record): seq<byte>
    requires (r.Dup? || r.Full?) && r.block < |blocks| && |blocks[r.block].idstr| < 256
  {
    if r.cont then [] else [|blocks[r.block].idstr|] + blocks[r.block].idstr
  }

  ghost function Payload(r: Record): seq<byte>
    requires r.Dup? || r.Full?
  {
    if r.Dup? then [r.ch] else r.data
  }

  /** A page item loaded from its head on: the named or remembered block gets the page. */
  lemma LoadPageItem(blocks: seq<Block>, d: Dest, r: Record, rest: seq<byte>, tail: seq<byte>)
    requires BlocksOk(blocks) && (r.Dup? || r.Full?) && r.block < |blocks| && r.page < blocks[r.block].pages
    requires r.cont ==> d.block == Some(r.block)
    requires r.block < |d.ram| && r.page < |d.ram[r.block]|
    requires tail == Name(blocks, r) + (Payload(r) + rest)
    ensures LoadItem(blocks, d, r.page * PAGE_SIZE, Flags(false, r.Dup?, !r.Dup?, false, r.cont, false), tail)
      == Done(Apply(d, r), rest, false)
  {
    var payload := Payload(r) + rest;
    HeaderBlock(blocks, r.block, d.block, r.cont, payload);
    assert r.page * PAGE_SIZE / PAGE_SIZE == r.page;
    assert payload[..|Payload(r)|] == Payload(r) && payload[|Payload(r)|..] == rest;
    assert r.Dup? ==> payload[0] == r.ch;
  }

  lemma LoadPrintedPage(blocks: seq<Block>, d: Dest, r: Record, rest: seq<byte>, bytes: seq<byte>)
    requires BlocksOk(blocks) && (r.Dup? || r.Full?) && r.block < |blocks| && r.page < blocks[r.block].pages
    requires r.cont ==> d.block == Some(r.block)
    requires r.block < |d.ram| && r.page < |d.ram[r.block]|
    requires bytes == Print(blocks, r) + rest
    ensures LoadStep(blocks, d, bytes) == Done(Apply(d, r), rest, false)
  {
    var tail := Name(blocks, r) + (Payload(r) + rest);
    PrintedPage(blocks, r, Payload(r), rest);
    PageStep(blocks, d, r, tail, bytes);
    LoadPageItem(blocks, d, r, rest, tail);
  }

  lemma HeadDecodes(r: Record, blockPages: nat)
    requires (r.Dup? || r.Full?) && r.page < blockPages && blockPages * PAGE_SIZE < TWO_TO_THE_64
    ensures var v := Head(r);
      && v < TWO_TO_THE_64 && v - v % PAGE_SIZE == r.page * PAGE_SIZE
      && Decode(v % PAGE_SIZE) == Flags(false, r.Dup?, !r.Dup?, false, r.cont, false)
  {
    PageHead(r.page, blockPages, r.cont, r.Dup?);
  }

  lemma PageStep(blocks: seq<Block>, d: Dest, r: Record, tail: seq<byte>, bytes: seq<byte>)
    requires (r.Dup? || r.Full?) && r.block < |blocks| && r.page < blocks[r.block].pages
    requires blocks[r.block].pages * PAGE_SIZE < TWO_TO_THE_64
    requires bytes == Be64(Head(r)) + tail
    ensures LoadStep(blocks, d, bytes)
      == LoadItem(blocks, d, r.page * PAGE_SIZE, Flags(false, r.Dup?, !r.Dup?, false, r.cont, false), tail)
  {
    HeadDecodes(r, blocks[r.block].pages);
    StepIsItem(blocks, d, Head(r), r.page * PAGE_SIZE,
      Flags(false, r.Dup?, !r.Dup?, false, r.cont, false), tail, bytes);
  }

  lemma ListHead(total: nat)
    ensures var v := total * PAGE_SIZE + FLAG_MEM_SIZE;
      v - v % PAGE_SIZE == total * PAGE_SIZE && Decode(v % PAGE_SIZE) == Flags(true, false, false, false, false, false)
  {
    var v := total * PAGE_SIZE + FLAG_MEM_SIZE;
    assert v % PAGE_SIZE == FLAG_MEM_SIZE;
    assert Decode(0x04) == Flags(true, false, false, false, false, false);
  }

  lemma LoadPrintedList(blocks: seq<Block>, d: Dest, rest: seq<byte>, bytes: seq<byte>)
    requires BlocksOk(blocks) && LastNotEmpty(blocks)
    requires bytes == Print(blocks, BlockList) + rest
    ensures LoadStep(blocks, d, bytes) == Done(d, rest, false)
  {
    var v := TotalPages(blocks) * PAGE_SIZE + FLAG_MEM_SIZE;
    var tail := PrintBlocks(blocks) + rest;
    assert bytes == Be64(v) + tail;
    ListStep(blocks, d, TotalPages(blocks), tail, bytes);
    LoadPrintedBlocks(blocks, rest);
  }

  lemma ListStep(blocks: seq<Block>, d: Dest, total: nat, tail: seq<byte>, bytes: seq<byte>)
    requires total * PAGE_SIZE < TWO_TO_THE_64 && bytes == Be64(total * PAGE_SIZE + FLAG_MEM_SIZE) + tail
    ensures LoadStep(blocks, d, bytes)
      == LoadItem(blocks, d, total * PAGE_SIZE, Flags(true, false, false, false, false, false), tail)
  {
    ListHead(total);
    StepIsItem(blocks, d, total * PAGE_SIZE + FLAG_MEM_SIZE, total * PAGE_SIZE,
               Flags(true, false, false, false, false, false),
               tail, bytes);
  }

  /** Loading a printed record has exactly its effect, whatever follows it. */
  lemma LoadPrinted(blocks: seq<Block>, d: Dest, r: Record, rest: seq<byte>)
    requires BlocksOk(blocks) && RecordOk(blocks, r) && LastNotEmpty(blocks)
    requires |d.ram| == |blocks| && forall b :: 0 <= b < |blocks| ==> |d.ram[b]| == blocks[b].pages
    requires (r.Dup? || r.Full?) && r.cont ==> d.block == Some(r.block)
    ensures LoadStep(blocks, d, Print(blocks, r) + rest) == Done(Apply(d, r), rest, r.Eos?)
  {
    var bytes := Print(blocks, r) + rest;
    if r.BlockList? {
      LoadPrintedList(blocks, d, rest, bytes);
    } else if r.Eos? {
      LoadPrintedEos(blocks, d, rest, bytes);
    } else {
      LoadPrintedPage(blocks, d, r, rest, bytes);
    }
  }

  lemma LoadPrintedEos(blocks: seq<Block>, d: Dest, rest: seq<byte>, bytes: seq<byte>)
    requires bytes == Be64(FLAG_EOS) + rest
    ensures LoadStep(blocks, d, bytes) == Done(d, rest, true)
  {
    SplitHead(FLAG_EOS, rest, bytes);
    assert Decode(0x10) == Flags(false, false, false, false, false, true);
  }

  // ----- whole sections, whole streams -----

  /** What ram_load makes of a stream: one item after another, up to the end-of-section mark. */
  ghost function LoadSection(blocks: seq<Block>, d: Dest, bytes: seq<byte>): (r: Loaded)
    ensures r.Done? ==> |r.rest| < |bytes|
    decreases |bytes|
  {
    var step := LoadStep(blocks, d, bytes);
    if step.Failed? || step.eos then step else LoadSection(blocks, step.dest, step.rest)
  }

  /** ram_load */
  method RamLoad(blocks: seq<Block>, start: Dest, stream: seq<byte>) returns (r: Loaded)
    ensures r == LoadSection(blocks, start, stream)
  {
    var d, bytes := start, stream;
    while true
      invariant LoadSection(blocks, d, bytes) == LoadSection(blocks, start, stream)
      decreases |bytes|
    {
      var step := LoadStep(blocks, d, bytes);
      if step.Failed? || step.eos {
        return step;
      }
      d, bytes := step.dest, step.rest;
    }
  }

  /** One ram_load per section, until the stream is used up. */
  ghost function LoadStream(blocks: seq<Block>, d: Dest, bytes: seq<byte>): Option<Dest>
    decreases |bytes|
  {
    if bytes == [] then Some(d)
    else
      var r := LoadSection(blocks, d, bytes);
      if r.Failed? then None else LoadStream(blocks, r.dest, r.rest)
  }

  ghost predicate Shaped(blocks: seq<Block>, ram: seq<seq<Page>>) {
    |ram| == |blocks| && forall b :: 0 <= b < |blocks| ==> |ram[b]| == blocks[b].pages
  }

  /** A record that can be applied to `d`, its block named unless `d` remembers it. */
  ghost predicate CanApply(blocks: seq<Block>, d: Dest, r: Record) {
    Shaped(blocks, d.ram) && RecordOk(blocks, r) && ((r.Dup? || r.Full?) && r.cont ==> d.block == Some(r.block))
  }

  ghost predicate WellSent(blocks: seq<Block>, d: Dest, recs: seq<Record>)
    decreases |recs|
  {
    recs != [] ==> CanApply(blocks, d, recs[0]) && WellSent(blocks, Apply(d, recs[0]), recs[1..])
  }

  ghost function ApplyAll(blocks: seq<Block>, d: Dest, recs: seq<Record>): Dest
    requires WellSent(blocks, d, recs)
    decreases |recs|
  {
    if recs == [] then d else ApplyAll(blocks, Apply(d, recs[0]), recs[1..])
  }

  ghost function PrintAll(blocks: seq<Block>, recs: seq<Record>): seq<byte>
    requires forall i :: 0 <= i < |blocks| ==> |blocks[i].idstr| < 256
    requires forall k :: 0 <= k < |recs| ==> RecordOk(blocks, recs[k])
  {
    if recs == [] then []
    else
      assert RecordOk(blocks, recs[0]);
      Print(blocks, recs[0]) + PrintAll(blocks, recs[1..])
  }

  lemma {:induction false} WellSentOk(blocks: seq<Block>, d: Dest, recs: seq<Record>)
    requires WellSent(blocks, d, recs)
    ensures forall k :: 0 <= k < |recs| ==> RecordOk(blocks, recs[k])
    decreases |recs|
  {
    if recs != [] {
      WellSentOk(blocks, Apply(d, recs[0]), recs[1..]);
      forall k | 0 <= k < |recs| ensures RecordOk(blocks, recs[k]) {
        assert k == 0 || recs[k] == recs[1..][k - 1];
      }
    }
  }

  lemma LoadOneMore(blocks: seq<Block>, d: Dest, r: Record, rest: seq<byte>, bytes: seq<byte>)
    requires BlocksOk(blocks) && LastNotEmpty(blocks) && CanApply(blocks, d, r) && (r.Eos? || rest != [])
    requires bytes == Print(blocks, r) + rest
    ensures LoadStream(blocks, d, bytes) == LoadStream(blocks, Apply(d, r), rest)
  {
    LoadPrinted(blocks, d, r, rest);
  }

  lemma PrintNotEmpty(blocks: seq<Block>, recs: seq<Record>)
    requires forall i :: 0 <= i < |blocks| ==> |blocks[i].idstr| < 256
    requires forall k :: 0 <= k < |recs| ==> RecordOk(blocks, recs[k])
    requires recs != []
    ensures PrintAll(blocks, recs) != []
  {
    assert RecordOk(blocks, recs[0]);
    assert |Print(blocks, recs[0])| > 0;
  }

  /** Loading everything that was printed applies the records in order. */
  lemma {:induction false} LoadAllPrinted(blocks: seq<Block>, d: Dest, recs: seq<Record>, bytes: seq<byte>)
    requires BlocksOk(blocks) && LastNotEmpty(blocks) && WellSent(blocks, d, recs)
    requires recs != [] ==> recs[|recs| - 1].Eos?
    requires forall k :: 0 <= k < |recs| ==> RecordOk(blocks, recs[k])
    requires bytes == PrintAll(blocks, recs)
    ensures LoadStream(blocks, d, bytes) == Some(ApplyAll(blocks, d, recs))
    decreases |recs|
  {
    if recs != [] {
      var r, more := recs[0], recs[1..];
      var rest := PrintAll(blocks, more);
      assert bytes == Print(blocks, r) + rest;
      if more != [] {
        PrintNotEmpty(blocks, more);
      }
      LoadOneMore(blocks, d, r, rest, bytes);
      LoadAllPrinted(blocks, Apply(d, r), more, rest);
    }
  }

  lemma {:induction false} WellSentAppend(blocks: seq<Block>, d: Dest, recs: seq<Record>, r: Record)
    requires WellSent(blocks, d, recs) && CanApply(blocks, ApplyAll(blocks, d, recs), r)
    ensures WellSent(blocks, d, recs + [r])
    ensures ApplyAll(blocks, d, recs + [r]) == Apply(ApplyAll(blocks, d, recs), r)
    decreases |recs|
  {
    if recs == [] {
      assert recs + [r] == [r] && [r][1..] == [];
    } else {
      assert (recs + [r])[1..] == recs[1..] + [r];
      WellSentAppend(blocks, Apply(d, recs[0]), recs[1..], r);
    }
  }

  lemma {:induction false} PrintAppend(blocks: seq<Block>, recs: seq<Record>, r: Record)
    requires forall i :: 0 <= i < |blocks| ==> |blocks[i].idstr| < 256
    requires forall k :: 0 <= k < |recs| ==> RecordOk(blocks, recs[k])
    requires RecordOk(blocks, r)
    ensures forall k :: 0 <= k < |recs + [r]| ==> RecordOk(blocks, (recs + [r])[k])
    ensures PrintAll(blocks, recs + [r]) == PrintAll(blocks, recs) + Print(blocks, r)
    decreases |recs|
  {
    assert RecordOk(blocks, r);
    if recs == [] {
      assert recs + [r] == [r] && [r][1..] == [];
    } else {
      assert RecordOk(blocks, recs[0]);
      PrintAppend(blocks, recs[1..], r);
      assert (recs + [r])[1..] == recs[1..] + [r];
      var a, b, c := Print(blocks, recs[0]), PrintAll(blocks, recs[1..]), Print(blocks, r);
      Regroup(a, b, c, []);
      assert (a + b + c) + [] == a + b + c && c + [] == c;
    }
  }
}
