/**
  Live migration of RAM (arch_init.c), without XBZRLE.

  The sender keeps a bitmap of pages still to send and a count of its bits; the guest goes on
  writing and every write is noted in the dirty log.  Each method is one step; steps of the guest
  may come between any two steps of the sender.  `Migration.Valid` is what every step keeps: a page
  that differs at the destination is marked in the bitmap or in the log, or is being sent right now.
 */
module Migrations {
  import opened Options
  import opened Units
  import opened MigrationStream

  // ----- counting marks -----

  ghost function Count(bits: seq<bool>): nat {
    if bits == [] then 0 else (if bits[0] then 1 else 0) + Count(bits[1..])
  }

  lemma {:induction false} CountUpdate(bits: seq<bool>, i: nat, v: bool)
    requires i < |bits|
    ensures Count(bits[i := v]) + (if bits[i] then 1 else 0) == Count(bits) + (if v then 1 else 0)
  {
    if i == 0 {
      assert bits[i := v][1..] == bits[1..];
    } else {
      assert bits[i := v][1..] == bits[1..][i - 1 := v];
      CountUpdate(bits[1..], i - 1, v);
    }
  }

  lemma {:induction false} CountAllSet(bits: seq<bool>)
    requires forall i :: 0 <= i < |bits| ==> bits[i]
    ensures Count(bits) == |bits|
  {
    if bits != [] {
      CountAllSet(bits[1..]);
    }
  }

  // ----- blocks in the bitmap -----

  /** Blocks occupy disjoint stretches of the bitmap; there may be gaps between them. */
  ghost predicate Geometry(blocks: seq<Block>, ramPages: nat) {
    && (forall b :: 0 <= b < |blocks| ==> blocks[b].base + blocks[b].pages <= ramPages)
    && (forall b: nat, c: nat :: b < |blocks| && c < |blocks| && b != c ==> Apart(blocks, b, c))
  }

  ghost predicate Apart(blocks: seq<Block>, b: nat, c: nat)
    requires b < |blocks| && c < |blocks|
  {
    blocks[b].base + blocks[b].pages <= blocks[c].base || blocks[c].base + blocks[c].pages <= blocks[b].base
  }

  /** Page `i` of block `b` has its bit set. */
  ghost predicate IsMarked(blocks: seq<Block>, bits: seq<bool>, b: int, i: int) {
    0 <= b < |blocks| && 0 <= i < blocks[b].pages && blocks[b].base + i < |bits| && bits[blocks[b].base + i]
  }

  /** No page of block `b` in [lo, hi) is marked. */
  ghost predicate ClearOn(blocks: seq<Block>, bits: seq<bool>, b: nat, lo: nat, hi: nat) {
    forall i :: lo <= i < hi ==> !IsMarked(blocks, bits, b, i)
  }

  ghost predicate AnyMarked(blocks: seq<Block>, bits: seq<bool>) {
    exists b, i :: IsMarked(blocks, bits, b, i)
  }

  /** is_dup_page: all bytes equal the first. */
  method IsDupPage(p: Page) returns (dup: bool)
    ensures dup <==> p == Fill(p[0])
  {
    var i := 0;
    while i < PAGE_SIZE
      invariant 0 <= i <= PAGE_SIZE
      invariant forall j :: 0 <= j < i ==> p[j] == p[0]
    {
      if p[i] != p[0] {
        assert Fill(p[0])[i] == p[0];
        return false;
      }
      i := i + 1;
    }
    return true;
  }

  /** migration_bitmap_find_and_reset_dirty: the first marked page of block `b` from `start` on. */
  method FindAndReset(blocks: seq<Block>, bits: seq<bool>, dirty: int, b: nat, start: nat)
    returns (offset: nat, bits': seq<bool>, dirty': int)
    requires b < |blocks| && blocks[b].base + blocks[b].pages <= |bits| && start <= blocks[b].pages
    ensures start <= offset <= blocks[b].pages && ClearOn(blocks, bits, b, start, offset)
    ensures offset == blocks[b].pages ==> bits' == bits && dirty' == dirty
    ensures offset < blocks[b].pages ==>
      bits[blocks[b].base + offset] && bits' == bits[blocks[b].base + offset := false] && dirty' == dirty - 1
  {
    offset, bits', dirty' := start, bits, dirty;
    while offset < blocks[b].pages && !bits[blocks[b].base + offset]
      invariant start <= offset <= blocks[b].pages && ClearOn(blocks, bits, b, start, offset)
    {
      assert !IsMarked(blocks, bits, b, offset);
      offset := offset + 1;
    }
    if offset < blocks[b].pages {
      bits' := bits[blocks[b].base + offset := false];
      dirty' := dirty - 1;
    }
  }

  // ----- the scan of ram_save_block -----

  /** What the scan has passed without finding a mark: it started in block `s` at `from` and is about
      to look at block `k` from `offset` on. */
  ghost predicate Passed(blocks: seq<Block>, bits: seq<bool>, s: nat, from: nat, k: nat, offset: nat, wrapped: bool)
    requires Geometry(blocks, |bits|) && s < |blocks| && k < |blocks| && from <= blocks[s].pages
  {
    if !wrapped then
      && s <= k && offset == (if k == s then from else 0)
      && (forall b :: s <= b < k ==> ClearOn(blocks, bits, b, if b == s then from else 0, blocks[b].pages))
    else
      && k <= s && offset == 0
      && (forall b :: s <= b < |blocks| ==> ClearOn(blocks, bits, b, if b == s then from else 0, blocks[b].pages))
      && (forall b :: 0 <= b < k ==> ClearOn(blocks, bits, b, 0, blocks[b].pages))
  }

  lemma NothingMarked(blocks: seq<Block>, bits: seq<bool>, s: nat, from: nat)
    requires Geometry(blocks, |bits|) && s < |blocks| && from <= blocks[s].pages
    requires Passed(blocks, bits, s, from, s, 0, true) && ClearOn(blocks, bits, s, 0, from)
    ensures !AnyMarked(blocks, bits)
  {
    forall b, i | 0 <= b < |blocks| && 0 <= i < blocks[b].pages ensures !IsMarked(blocks, bits, b, i) {
      assert b < s ==> ClearOn(blocks, bits, b, 0, blocks[b].pages);
      assert b >= s ==> ClearOn(blocks, bits, b, if b == s then from else 0, blocks[b].pages);
    }
  }

  /** Page `i` of block `b` does not come before page `j` of block `c`. */
  predicate NotBefore(b: int, i: int, c: int, j: int) { b > c || (b == c && i >= j) }

  /** The mark at (b, page) is the first one when the pages are gone through in order from (s, from) on and then
      from the beginning. */
  ghost predicate FirstMark(blocks: seq<Block>, bits: seq<bool>, s: nat, from: nat, b: nat, page: nat) {
    if NotBefore(b, page, s, from) then
      forall c, i :: IsMarked(blocks, bits, c, i) && NotBefore(c, i, s, from) ==> NotBefore(c, i, b, page)
    else
      forall c, i :: IsMarked(blocks, bits, c, i) ==> !NotBefore(c, i, s, from) && NotBefore(c, i, b, page)
  }

  lemma FirstFound(blocks: seq<Block>, bits: seq<bool>, s: nat, from: nat, k: nat, offset: nat, wrapped: bool, o: nat)
    requires Geometry(blocks, |bits|) && s < |blocks| && k < |blocks| && from <= blocks[s].pages
    requires Passed(blocks, bits, s, from, k, offset, wrapped) && offset <= o && ClearOn(blocks, bits, k, offset, o)
    requires wrapped && k == s ==> o < from
    ensures FirstMark(blocks, bits, s, from, k, o)
  {
    forall c, i | IsMarked(blocks, bits, c, i)
      ensures if NotBefore(k, o, s, from) then NotBefore(c, i, s, from) ==> NotBefore(c, i, k, o)
        else !NotBefore(c, i, s, from) && NotBefore(c, i, k, o)
    {
      assert i < blocks[c].pages;
    }
  }

  /** The loop of ram_save_block up to the page it decides to send.  `seen` is last_seen_block, `from`
      last_offset.  No mark is lost: either one mark is taken and all others stay, or there was none
      and nothing changes, even though the last look resets before it tests. */
  method Scan(blocks: seq<Block>, bits: seq<bool>, dirty: int, seen: Option<nat>, from: nat)
    returns (found: bool, b: nat, page: nat, bits': seq<bool>, dirty': int)
    requires Geometry(blocks, |bits|) && blocks != []
    requires ScanOk(blocks, bits, seen, from)
    ensures b < |blocks| && page <= blocks[b].pages
    ensures found ==> IsMarked(blocks, bits, b, page)
    ensures found ==> FirstMark(blocks, bits, if seen.None? then 0 else seen.value, from, b, page)
    ensures found ==> bits' == bits[blocks[b].base + page := false] && dirty' == dirty - 1
    ensures !found ==> bits' == bits && dirty' == dirty && !AnyMarked(blocks, bits)
  {
    var s := if seen.None? then 0 else seen.value;
    var k, offset, wrapped := s, from, false;
    while true
      invariant 0 <= k < |blocks| && 0 <= offset <= blocks[k].pages
      invariant Passed(blocks, bits, s, from, k, offset, wrapped)
      invariant wrapped ==> seen.Some?
      decreases !wrapped, |blocks| - k
    {
      var o, bs, d := FindAndReset(blocks, bits, dirty, k, offset);
      if wrapped && seen == Some(k) && o >= from {
        // the pages from last_offset on were looked at first, so nothing was reset just now
        assert ClearOn(blocks, bits, s, from, blocks[s].pages);
        assert o < blocks[s].pages ==> IsMarked(blocks, bits, s, o);
        NothingMarked(blocks, bits, s, from);
        return false, k, o, bs, d;
      }
      if o >= blocks[k].pages {
        offset := 0;
        k := k + 1;
        if k == |blocks| {
          k, wrapped := 0, true;
        }
      } else {
        FirstFound(blocks, bits, s, from, k, offset, wrapped, o);
        return true, k, o, bs, d;
      }
    }
  }

  // ----- what every step keeps -----

  /** Page `i` of block `b` is the same on both sides, or is still due to be sent. */
  ghost predicate Covered(blocks: seq<Block>, ram: seq<seq<Page>>, there: seq<seq<Page>>, bits: seq<bool>,
                          log: seq<bool>, sending: Option<(nat, nat)>, b: nat, i: nat)
    requires Shaped(blocks, ram) && Shaped(blocks, there) && b < |blocks| && i < blocks[b].pages
  {
    || ram[b][i] == there[b][i]
    || IsMarked(blocks, bits, b, i)
    || IsMarked(blocks, log, b, i)
    || sending == Some((b, i))
  }

  ghost predicate AllCovered(blocks: seq<Block>, ram: seq<seq<Page>>, there: seq<seq<Page>>, bits: seq<bool>,
                             log: seq<bool>, sending: Option<(nat, nat)>)
    requires Shaped(blocks, ram) && Shaped(blocks, there)
  {
    forall b: nat, i: nat :: b < |blocks| && i < blocks[b].pages ==>
      Covered(blocks, ram, there, bits, log, sending, b, i)
  }

  /** Nothing due means nothing differs. */
  lemma CoveredIsEqual(blocks: seq<Block>, ram: seq<seq<Page>>, there: seq<seq<Page>>, bits: seq<bool>, log: seq<bool>)
    requires Shaped(blocks, ram) && Shaped(blocks, there) && AllCovered(blocks, ram, there, bits, log, None)
    requires !AnyMarked(blocks, bits) && !AnyMarked(blocks, log)
    ensures ram == there
  {
    forall b: nat | b < |blocks| ensures ram[b] == there[b] {
      forall i: nat | i < blocks[b].pages ensures ram[b][i] == there[b][i] {
        assert Covered(blocks, ram, there, bits, log, None, b, i);
      }
    }
  }

  /** Distinct pages have distinct bits. */
  lemma SamePage(blocks: seq<Block>, n: nat, b: nat, i: nat, c: nat, j: nat)
    requires Geometry(blocks, n) && b < |blocks| && i < blocks[b].pages && c < |blocks| && j < blocks[c].pages
    ensures blocks[b].base + i == blocks[c].base + j ==> b == c && i == j
  {
    assert b != c ==> Apart(blocks, b, c);
  }

  /** What a page still owes after one bit is cleared for it, or set for it. */
  lemma MarkedUpdate(blocks: seq<Block>, bits: seq<bool>, b: nat, i: nat, v: bool, c: nat, j: nat)
    requires Geometry(blocks, |bits|) && b < |blocks| && i < blocks[b].pages && c < |blocks| && j < blocks[c].pages
    ensures IsMarked(blocks, bits[blocks[b].base + i := v], c, j) ==
      if b == c && i == j then v else IsMarked(blocks, bits, c, j)
  {
    SamePage(blocks, |bits|, b, i, c, j);
  }

  lemma AfterPick(blocks: seq<Block>, ram: seq<seq<Page>>, there: seq<seq<Page>>, bits: seq<bool>, log: seq<bool>,
                  b: nat, i: nat)
    requires Geometry(blocks, |bits|) && Shaped(blocks, ram) && Shaped(blocks, there) && b < |blocks|
    requires i < blocks[b].pages
    requires AllCovered(blocks, ram, there, bits, log, None)
    ensures AllCovered(blocks, ram, there, bits[blocks[b].base + i := false], log, Some((b, i)))
  {
    var bits', sending := bits[blocks[b].base + i := false], Some((b, i));
    forall c: nat, j: nat | c < |blocks| && j < blocks[c].pages
      ensures Covered(blocks, ram, there, bits', log, sending, c, j)
    {
      assert Covered(blocks, ram, there, bits, log, None, c, j);
      MarkedUpdate(blocks, bits, b, i, false, c, j);
    }
  }

  lemma AfterSend(blocks: seq<Block>, ram: seq<seq<Page>>, there: seq<seq<Page>>, bits: seq<bool>, log: seq<bool>,
                  b: nat, i: nat, data: Page)
    requires Shaped(blocks, ram) && Shaped(blocks, there) && b < |blocks| && i < blocks[b].pages
    requires AllCovered(blocks, ram, there, bits, log, Some((b, i)))
    requires IsMarked(blocks, log, b, i) || data == ram[b][i]
    ensures Shaped(blocks, StorePage(there, b, i, data))
    ensures AllCovered(blocks, ram, StorePage(there, b, i, data), bits, log, None)
  {
    var there' := StorePage(there, b, i, data);
    forall c: nat, j: nat | c < |blocks| && j < blocks[c].pages
      ensures Covered(blocks, ram, there', bits, log, None, c, j)
    {
      assert Covered(blocks, ram, there, bits, log, Some((b, i)), c, j);
      assert (b == c && i == j) || there'[c][j] == there[c][j];
    }
  }

  lemma AfterWrite(blocks: seq<Block>, ram: seq<seq<Page>>, there: seq<seq<Page>>, bits: seq<bool>, log: seq<bool>,
                   sending: Option<(nat, nat)>, b: nat, i: nat, data: Page)
    requires Geometry(blocks, |log|) && Shaped(blocks, ram) && Shaped(blocks, there) && b < |blocks|
    requires i < blocks[b].pages
    requires AllCovered(blocks, ram, there, bits, log, sending)
    ensures Shaped(blocks, StorePage(ram, b, i, data))
    ensures AllCovered(blocks, StorePage(ram, b, i, data), there, bits, log[blocks[b].base + i := true], sending)
  {
    var ram', log' := StorePage(ram, b, i, data), log[blocks[b].base + i := true];
    forall c: nat, j: nat | c < |blocks| && j < blocks[c].pages
      ensures Covered(blocks, ram', there, bits, log', sending, c, j)
    {
      assert Covered(blocks, ram, there, bits, log, sending, c, j);
      MarkedUpdate(blocks, log, b, i, true, c, j);
      assert (b == c && i == j) || ram'[c][j] == ram[c][j];
    }
  }

  /** The dirty log of the first blocks has been moved into the bitmap. */
  ghost predicate Moved(blocks: seq<Block>, bits: seq<bool>, log: seq<bool>, bits': seq<bool>, log': seq<bool>,
                        b: nat, pages: nat) {
    && |bits'| == |bits| == |log'| == |log|
    && forall c: nat, j: nat :: c < |blocks| && j < blocks[c].pages ==>
        MovedAt(blocks, bits, log, bits', log', b, pages, c, j)
  }

  ghost predicate MovedAt(blocks: seq<Block>, bits: seq<bool>, log: seq<bool>, bits': seq<bool>, log': seq<bool>,
                          b: nat, pages: nat, c: nat, j: nat)
  {
    if c < b || (c == b && j < pages) then
      !IsMarked(blocks, log', c, j)
      && (IsMarked(blocks, bits', c, j) <==> IsMarked(blocks, bits, c, j) || IsMarked(blocks, log, c, j))
    else
      && IsMarked(blocks, log', c, j) == IsMarked(blocks, log, c, j)
      && IsMarked(blocks, bits', c, j) == IsMarked(blocks, bits, c, j)
  }

  lemma MoveOne(blocks: seq<Block>, bits: seq<bool>, log: seq<bool>, bits1: seq<bool>, log1: seq<bool>, b: nat, i: nat)
    requires Geometry(blocks, |bits|) && b < |blocks| && i < blocks[b].pages
    requires Moved(blocks, bits, log, bits1, log1, b, i)
    ensures
      var k := blocks[b].base + i;
      Moved(blocks, bits, log, if log1[k] then bits1[k := true] else bits1, log1[k := false], b, i + 1)
  {
    var k := blocks[b].base + i;
    var bits2, log2 := if log1[k] then bits1[k := true] else bits1, log1[k := false];
    var n := i + 1;
    forall c: nat, j: nat | c < |blocks| && j < blocks[c].pages
      ensures MovedAt(blocks, bits, log, bits2, log2, b, n, c, j)
    {
      assert MovedAt(blocks, bits, log, bits1, log1, b, i, c, j);
      MarkedUpdate(blocks, bits1, b, i, true, c, j);
      MarkedUpdate(blocks, log1, b, i, false, c, j);
    }
  }

  lemma MoveNext(blocks: seq<Block>, bits: seq<bool>, log: seq<bool>, bits': seq<bool>, log': seq<bool>, b: nat)
    requires b < |blocks| && Moved(blocks, bits, log, bits', log', b, blocks[b].pages)
    ensures Moved(blocks, bits, log, bits', log', b + 1, 0)
  {
    var n := b + 1;
    forall c: nat, j: nat | c < |blocks| && j < blocks[c].pages
      ensures MovedAt(blocks, bits, log, bits', log', n, 0, c, j)
    {
      assert MovedAt(blocks, bits, log, bits', log', b, blocks[b].pages, c, j);
    }
  }

  lemma AfterSync(blocks: seq<Block>, ram: seq<seq<Page>>, there: seq<seq<Page>>, bits: seq<bool>, log: seq<bool>,
                  bits': seq<bool>, log': seq<bool>)
    requires Shaped(blocks, ram) && Shaped(blocks, there)
    requires AllCovered(blocks, ram, there, bits, log, None) && Moved(blocks, bits, log, bits', log', |blocks|, 0)
    ensures AllCovered(blocks, ram, there, bits', log', None) && !AnyMarked(blocks, log')
    ensures AnyMarked(blocks, bits) ==> AnyMarked(blocks, bits')
  {
    forall c: nat, j: nat | c < |blocks| && j < blocks[c].pages
      ensures Covered(blocks, ram, there, bits', log', None, c, j) && !IsMarked(blocks, log', c, j)
      ensures IsMarked(blocks, bits, c, j) ==> IsMarked(blocks, bits', c, j)
    {
      assert Covered(blocks, ram, there, bits, log, None, c, j);
      assert MovedAt(blocks, bits, log, bits', log', |blocks|, 0, c, j);
    }
  }

  // ----- the migration -----

  ghost predicate LayoutOk(blocks: seq<Block>, ramPages: nat) {
    BlocksOk(blocks) && LastNotEmpty(blocks) && blocks != [] && Geometry(blocks, ramPages)
  }

  predicate IsPage(blocks: seq<Block>, b: nat, i: nat) {
    b < |blocks| && i < blocks[b].pages
  }

  /** The destination, and the stream, after some of the records. */
  datatype Moment = Moment(dest: Dest, stream: seq<byte>)

  /** Record `k` is sent between the moments `k` and `k + 1`. */
  ghost predicate SentAt(blocks: seq<Block>, recs: seq<Record>, trail: seq<Moment>, k: nat)
    requires k < |recs| && |trail| == |recs| + 1
  {
    && (forall i :: 0 <= i < |blocks| ==> |blocks[i].idstr| < 256)
    && CanApply(blocks, trail[k].dest, recs[k])
    && trail[k + 1] == Moment(Apply(trail[k].dest, recs[k]), trail[k].stream + Print(blocks, recs[k]))
  }

  /** `trail` is the history of a stream that started empty towards the destination `start`. */
  ghost predicate Encodes(blocks: seq<Block>, start: Dest, recs: seq<Record>, trail: seq<Moment>, now: Moment) {
    && |trail| == |recs| + 1 && trail[0] == Moment(start, []) && trail[|recs|] == now
    && forall k: nat {:trigger SentAt(blocks, recs, trail, k)} :: k < |recs| ==> SentAt(blocks, recs, trail, k)
  }

  lemma EncodesAppend(blocks: seq<Block>, start: Dest, recs: seq<Record>, trail: seq<Moment>, now: Moment, r: Record)
    requires BlocksOk(blocks) && Encodes(blocks, start, recs, trail, now) && CanApply(blocks, now.dest, r)
    ensures
      var next := Moment(Apply(now.dest, r), now.stream + Print(blocks, r));
      Encodes(blocks, start, recs + [r], trail + [next], next)
  {
    var next := Moment(Apply(now.dest, r), now.stream + Print(blocks, r));
    var recs', trail' := recs + [r], trail + [next];
    forall k: nat | k < |recs'| ensures SentAt(blocks, recs', trail', k) {
      assert k < |recs| ==> SentAt(blocks, recs, trail, k);
    }
  }

  /** The records of a history, in the terms the loader's theorem uses. */
  ghost predicate Sends(blocks: seq<Block>, start: Dest, recs: seq<Record>, now: Moment) {
    && (forall i :: 0 <= i < |blocks| ==> |blocks[i].idstr| < 256)
    && (forall j :: 0 <= j < |recs| ==> RecordOk(blocks, recs[j]))
    && WellSent(blocks, start, recs) && ApplyAll(blocks, start, recs) == now.dest
    && PrintAll(blocks, recs) == now.stream
  }

  lemma SendsAppend(blocks: seq<Block>, start: Dest, recs: seq<Record>, now: Moment, r: Record)
    requires Sends(blocks, start, recs, now) && CanApply(blocks, now.dest, r)
    ensures Sends(blocks, start, recs + [r], Moment(Apply(now.dest, r), now.stream + Print(blocks, r)))
  {
    WellSentAppend(blocks, start, recs, r);
    PrintAppend(blocks, recs, r);
  }

  lemma SendsNothing(blocks: seq<Block>, start: Dest)
    requires forall i :: 0 <= i < |blocks| ==> |blocks[i].idstr| < 256
    ensures Sends(blocks, start, [], Moment(start, []))
  {
  }

  lemma HistoryStep(blocks: seq<Block>, start: Dest, recs: seq<Record>, trail: seq<Moment>, k: nat)
    requires k < |recs| && |trail| == |recs| + 1 && SentAt(blocks, recs, trail, k)
    requires Sends(blocks, start, recs[..k], trail[k])
    ensures Sends(blocks, start, recs[..k + 1], trail[k + 1])
  {
    assert recs[..k + 1] == recs[..k] + [recs[k]];
    SendsAppend(blocks, start, recs[..k], trail[k], recs[k]);
  }

  lemma {:induction false} HistorySends(blocks: seq<Block>, start: Dest, recs: seq<Record>, trail: seq<Moment>,
                                        k: nat, sent: seq<Record>)
    requires forall i :: 0 <= i < |blocks| ==> |blocks[i].idstr| < 256
    requires k <= |recs| && |trail| == |recs| + 1 && trail[0] == Moment(start, []) && sent == recs[..k]
    requires forall j: nat {:trigger SentAt(blocks, recs, trail, j)} :: j < |recs| ==> SentAt(blocks, recs, trail, j)
    ensures Sends(blocks, start, sent, trail[k])
  {
    if k == 0 {
      SendsNothing(blocks, start);
    } else {
      HistorySends(blocks, start, recs, trail, k - 1, recs[..k - 1]);
      assert SentAt(blocks, recs, trail, k - 1);
      HistoryStep(blocks, start, recs, trail, k - 1);
    }
  }

  /** A stream that ends with an end-of-section mark loads completely, to what the history says. */
  lemma EncodedLoads(blocks: seq<Block>, start: Dest, recs: seq<Record>, trail: seq<Moment>, now: Moment)
    requires BlocksOk(blocks) && LastNotEmpty(blocks) && Encodes(blocks, start, recs, trail, now)
    requires recs != [] ==> recs[|recs| - 1].Eos?
    ensures LoadStream(blocks, start, now.stream) == Some(now.dest)
  {
    assert recs[..|recs|] == recs;
    HistorySends(blocks, start, recs, trail, |recs|, recs);
    LoadAllPrinted(blocks, start, recs, now.stream);
  }

  lemma SomePageMarked(blocks: seq<Block>, bits: seq<bool>)
    requires LastNotEmpty(blocks) && blocks != [] && Geometry(blocks, |bits|) && forall i :: 0 <= i < |bits| ==> bits[i]
    ensures AnyMarked(blocks, bits)
  {
    assert IsMarked(blocks, bits, |blocks| - 1, 0);
  }

  lemma EveryPageMarked(blocks: seq<Block>, ram: seq<seq<Page>>, there: seq<seq<Page>>, bits: seq<bool>, log: seq<bool>)
    requires Geometry(blocks, |bits|) && (forall i :: 0 <= i < |bits| ==> bits[i])
    requires Shaped(blocks, ram) && Shaped(blocks, there)
    ensures AllCovered(blocks, ram, there, bits, log, None)
  {
    forall b: nat, i: nat | b < |blocks| && i < blocks[b].pages
      ensures Covered(blocks, ram, there, bits, log, None, b, i)
    {
      assert IsMarked(blocks, bits, b, i);
    }
  }

  lemma FirstMarks(blocks: seq<Block>, ram: seq<seq<Page>>, there: seq<seq<Page>>, bits: seq<bool>, log: seq<bool>)
    requires LastNotEmpty(blocks) && blocks != [] && Geometry(blocks, |bits|) && forall i :: 0 <= i < |bits| ==> bits[i]
    requires Shaped(blocks, ram) && Shaped(blocks, there)
    ensures Count(bits) == |bits| && AnyMarked(blocks, bits) && AllCovered(blocks, ram, there, bits, log, None)
  {
    CountAllSet(bits);
    SomePageMarked(blocks, bits);
    EveryPageMarked(blocks, ram, there, bits, log);
  }

  /** Where the scan stands; one that has not seen any block yet has a mark to find. */
  ghost predicate ScanOk(blocks: seq<Block>, bits: seq<bool>, seen: Option<nat>, from: nat) {
    && (seen.Some? ==> seen.value < |blocks| && from <= blocks[seen.value].pages)
    && (seen.None? ==> from == 0 && AnyMarked(blocks, bits))
  }

  /** How far ram_save_setup has come: the bitmap is filled, dirty logging is on, the log has been collected, the
      block list is out. */
  datatype Stage = Idle | Marked | Logging | Synced | Running | Completed {
    predicate Active() { !Idle? && !Completed? }

    predicate Logs() { !Idle? && !Marked? }

    function Left(): nat {
      if Idle? then 4 else if Marked? then 3 else if Logging? then 2 else if Synced? then 1 else 0
    }
  }

  /** `seen`: a store before dirty logging is on is logged all the same. */
  datatype Step =
    | Write(b: nat, i: nat, data: Page, seen: bool)
    | Setup
    | Look
    | Send(torn: Page)
    | Collect
    | Mark

  /** What a step does to the guest's RAM. */
  ghost function AfterStep(blocks: seq<Block>, ram: seq<seq<Page>>, step: Step): (ram': seq<seq<Page>>)
    requires Shaped(blocks, ram)
    ensures Shaped(blocks, ram')
  {
    if step.Write? && IsPage(blocks, step.b, step.i) then StorePage(ram, step.b, step.i, step.data) else ram
  }

  /** The guest's RAM after the first `k` steps: its own stores, and nothing else. */
  ghost function AfterSteps(blocks: seq<Block>, ram: seq<seq<Page>>, schedule: seq<Step>,
                            k: nat): (ram': seq<seq<Page>>)
    requires Shaped(blocks, ram) && k <= |schedule|
    ensures Shaped(blocks, ram')
  {
    if k == 0 then ram else AfterStep(blocks, AfterSteps(blocks, ram, schedule, k - 1), schedule[k - 1])
  }

  /** The record of page `i` of block `b` when `data` is read from it: one byte stands for a page of equal bytes, and
      the block is named unless it is the one of the record before. */
  ghost predicate RecordFor(r: Record, b: nat, i: nat, data: Page, last: Option<nat>) {
    if data == Fill(data[0]) then r == Dup(b, i, data[0], last == Some(b)) else r == Full(b, i, data, last == Some(b))
  }

  /** What the sender remembers. */
  datatype Sender = Sender(bitmap: seq<bool>, log: seq<bool>, sending: Option<(nat, nat)>, recs: seq<Record>,
    lastSent: Option<nat>)

  /** One step of the sender: it picks a marked page or there is none, sends the picked one, collects the log, or ends
      a round.  While a page is picked it can only be sent. */
  ghost predicate OwnStep(blocks: seq<Block>, ram: seq<seq<Page>>, step: Step, was: Sender, now: Sender)
    requires Shaped(blocks, ram) && Geometry(blocks, |was.log|)
    requires was.sending.Some? ==> IsPage(blocks, was.sending.value.0, was.sending.value.1)
  {
    match step
    case Look =>
      if was.sending.Some? then now == was
      else if now.sending.Some? then
        && IsMarked(blocks, was.bitmap, now.sending.value.0, now.sending.value.1)
        && now == was.(bitmap := now.bitmap, sending := now.sending)
        && now.bitmap == was.bitmap[blocks[now.sending.value.0].base + now.sending.value.1 := false]
      else now == was && !AnyMarked(blocks, was.bitmap)
    case Send(torn) =>
      if was.sending.None? then now == was
      else
        var (b, i) := was.sending.value;
        && now == was.(sending := None, lastSent := Some(b), recs := now.recs)
        && |now.recs| == |was.recs| + 1 && now.recs[..|was.recs|] == was.recs
        && RecordFor(now.recs[|was.recs|], b, i, if was.log[blocks[b].base + i] then torn else ram[b][i], was.lastSent)
    case Collect =>
      if was.sending.Some? then now == was
      else
        && now == was.(bitmap := now.bitmap, log := now.log)
        && Moved(blocks, was.bitmap, was.log, now.bitmap, now.log, |blocks|, 0)
    case Mark => if was.sending.Some? then now == was else now == was.(recs := was.recs + [Eos])
    case _ => now == was
  }

  class Migration {
    const blocks: seq<Block>
    const ramPages: nat
    /** The guest's RAM and the dirty log its writes go to. */
    var ram: seq<seq<Page>>
    var log: seq<bool>
    /** migration_bitmap, migration_dirty_pages, last_seen_block, last_sent_block, last_offset */
    var bitmap: seq<bool>
    var dirtyPages: int
    var lastSeen: Option<nat>
    var lastSent: Option<nat>
    var lastOffset: nat
    /** The page taken from the bitmap whose contents are not yet in the stream. */
    var sending: Option<(nat, nat)>
    var stream: seq<byte>
    var stage: Stage
    /** The destination before the first byte, the records printed so far, and what they make of it. */
    ghost const start: Dest
    ghost var recs: seq<Record>
    ghost var trail: seq<Moment>
    ghost var dest: Dest

    ghost function Now(): Sender
      reads this
    {
      Sender(bitmap, log, sending, recs, lastSent)
    }

    ghost predicate Fixed() reads this {
      LayoutOk(blocks, ramPages) && Shaped(blocks, ram) && Shaped(blocks, dest.ram) && |log| == ramPages
    }

    /** The stream is what the records print as, and `dest` what they make of the destination. */
    ghost predicate Streamed() reads this {
      Encodes(blocks, start, recs, trail, Moment(dest, stream))
    }

    ghost predicate Scanning() reads this
      requires Fixed()
    {
      && |bitmap| == ramPages && dirtyPages == Count(bitmap)
      && (lastSent.Some? ==> dest.block == lastSent)
      && ScanOk(blocks, bitmap, lastSeen, lastOffset)
      && (sending.Some? ==> lastSeen.Some? && IsPage(blocks, sending.value.0, sending.value.1))
      && AllCovered(blocks, ram, dest.ram, bitmap, log, sending)
    }

    ghost predicate Valid() reads this {
      && Fixed() && Streamed() && (stage.Active() ==> Scanning())
      && (stage.Active() && !stage.Running? ==> sending == None)
      && (stage.Marked? ==> forall k :: 0 <= k < |bitmap| ==> bitmap[k])
    }

    constructor (blocks: seq<Block>, ramPages: nat, ram: seq<seq<Page>>, start: Dest)
      requires LayoutOk(blocks, ramPages) && Shaped(blocks, ram) && Shaped(blocks, start.ram)
      ensures Valid() && stage.Idle? && stream == [] && this.ram == ram
      ensures this.blocks == blocks && this.ramPages == ramPages && this.start == start
    {
      this.blocks, this.ramPages, this.ram, this.start := blocks, ramPages, ram, start;
      log := seq(ramPages, i => false);
      bitmap, dirtyPages, lastSeen, lastSent, lastOffset, sending := [], 0, None, None, 0, None;
      stream, stage, recs, trail, dest := [], Idle, [], [Moment(start, [])], start;
    }

    /** Append one record to the stream. */
    method Emit(r: Record)
      requires Fixed() && Streamed() && CanApply(blocks, dest, r)
      modifies `stream, `recs, `trail, `dest
      ensures Fixed() && Streamed() && recs == old(recs) + [r] && dest == Apply(old(dest), r)
      ensures stream == old(stream) + Print(blocks, r)
    {
      EncodesAppend(blocks, start, recs, trail, Moment(dest, stream), r);
      stream := stream + Print(blocks, r);
      dest := Apply(dest, r);
      recs, trail := recs + [r], trail + [Moment(dest, stream)];
    }

    /** A guest store, at any moment. */
    method GuestWrite(b: nat, i: nat, data: Page, seen: bool)
      requires Valid() && IsPage(blocks, b, i)
      modifies `ram, `log
      ensures Valid() && ram == StorePage(old(ram), b, i, data)
      ensures log == if seen || stage.Logs() then old(log)[blocks[b].base + i := true] else old(log)
    {
      if stage.Active() && stage.Logs() {
        AfterWrite(blocks, ram, dest.ram, bitmap, log, sending, b, i, data);
      }
      ram := StorePage(ram, b, i, data);
      if seen || stage.Logs() {
        log := log[blocks[b].base + i := true];
      }
      if stage.Marked? {
        EveryPageMarked(blocks, ram, dest.ram, bitmap, log);
      }
      assert stage.Active() ==> AllCovered(blocks, ram, dest.ram, bitmap, log, sending);
    }

    /** migration_bitmap_sync: the log's marks move into the bitmap, counting each new mark once. */
    method SyncBitmap()
      requires Fixed() && |bitmap| == ramPages && dirtyPages == Count(bitmap)
      modifies `bitmap, `dirtyPages, `log
      ensures Fixed() && |bitmap| == ramPages && dirtyPages == Count(bitmap)
      ensures Moved(blocks, old(bitmap), old(log), bitmap, log, |blocks|, 0)
    {
      ghost var bits, was := bitmap, log;
      var b := 0;
      while b < |blocks|
        invariant b <= |blocks| && Fixed() && |bitmap| == ramPages && dirtyPages == Count(bitmap)
        invariant Moved(blocks, bits, was, bitmap, log, b, 0)
      {
        SyncBlock(b, bits, was);
        MoveNext(blocks, bits, was, bitmap, log, b);
        b := b + 1;
      }
    }

    method SyncBlock(b: nat, ghost bits: seq<bool>, ghost was: seq<bool>)
      requires Fixed() && b < |blocks| && |bitmap| == ramPages && dirtyPages == Count(bitmap)
      requires Moved(blocks, bits, was, bitmap, log, b, 0)
      modifies `bitmap, `dirtyPages, `log
      ensures Fixed() && |bitmap| == ramPages && dirtyPages == Count(bitmap)
      ensures Moved(blocks, bits, was, bitmap, log, b, blocks[b].pages)
    {
      var i := 0;
      while i < blocks[b].pages
        invariant i <= blocks[b].pages && Fixed() && |bitmap| == ramPages && dirtyPages == Count(bitmap)
        invariant Moved(blocks, bits, was, bitmap, log, b, i)
      {
        var k := blocks[b].base + i;
        MoveOne(blocks, bits, was, bitmap, log, b, i);
        if log[k] {
          SetDirty(k);
        }
        log := log[k := false];
        i := i + 1;
      }
    }

    /** migration_bitmap_set_dirty */
    method SetDirty(k: nat)
      requires k < |bitmap| && dirtyPages == Count(bitmap)
      modifies `bitmap, `dirtyPages
      ensures bitmap == old(bitmap)[k := true] && dirtyPages == Count(bitmap)
    {
      CountUpdate(bitmap, k, true);
      if !bitmap[k] {
        dirtyPages := dirtyPages + 1;
      }
      bitmap := bitmap[k := true];
    }

    /** The beginning of ram_save_setup: every bit of the bitmap is set, gaps between blocks included. */
    method MarkAll()
      requires Fixed()
      modifies `bitmap, `dirtyPages, `lastSeen, `lastSent, `lastOffset, `sending
      ensures Fixed() && Scanning() && sending == None && forall k :: 0 <= k < |bitmap| ==> bitmap[k]
    {
      bitmap := seq(ramPages, i => true);
      dirtyPages := ramPages;
      lastSeen, lastSent, lastOffset, sending := None, None, 0, None;
      FirstMarks(blocks, ram, dest.ram, bitmap, log);
    }

    /** The block list, at the end of ram_save_setup. */
    method Announce()
      requires Valid() && stage.Synced?
      modifies `stream, `recs, `trail, `dest, `stage
      ensures Valid() && stage.Running? && dest == old(dest) && recs == old(recs) + [BlockList] + [Eos]
    {
      Emit(BlockList);
      Emit(Eos);
      stage := Running;
    }

    /** The next part of ram_save_setup.  The guest runs between the parts. */
    method Setup()
      requires Valid() && stage.Left() > 0
      modifies this
      ensures Valid() && stage.Active() && stage.Left() == old(stage).Left() - 1
      ensures ram == old(ram) && dest == old(dest) && sending == None
      ensures stage.Marked? ==> forall k :: 0 <= k < |bitmap| ==> bitmap[k]
      ensures stage.Synced? ==> !AnyMarked(blocks, log)
      ensures recs == old(recs) + if stage.Running? then [BlockList] + [Eos] else []
    {
      if stage.Idle? {
        MarkAll();
        stage := Marked;
      } else if stage.Synced? {
        Announce();
      } else {
        StartLog();
      }
    }

    /** memory_global_dirty_log_start, and the first migration_bitmap_sync. */
    method StartLog()
      requires Valid() && (stage.Marked? || stage.Logging?)
      modifies `bitmap, `dirtyPages, `log, `stage
      ensures Valid() && sending == None && stage == if old(stage).Marked? then Logging else Synced
      ensures stage.Synced? ==> !AnyMarked(blocks, log)
    {
      if stage.Marked? {
        stage := Logging;
      } else {
        Sync();
        stage := Synced;
      }
    }

    /** migration_bitmap_sync while migrating. */
    method Sync()
      requires Valid() && stage.Active() && stage.Logs() && sending == None
      modifies `bitmap, `dirtyPages, `log
      ensures Valid() && !AnyMarked(blocks, log)
      ensures Moved(blocks, old(bitmap), old(log), bitmap, log, |blocks|, 0)
    {
      ghost var bits, was := bitmap, log;
      SyncBitmap();
      AfterSync(blocks, ram, dest.ram, bits, was, bitmap, log);
    }

    /** ram_save_block, up to the page it decides to send. */
    method PickPage() returns (found: bool)
      requires Valid() && stage.Running? && sending == None
      modifies `bitmap, `dirtyPages, `lastSeen, `lastOffset, `sending
      ensures Valid()
      ensures found ==> sending.Some? && IsMarked(blocks, old(bitmap), sending.value.0, sending.value.1)
      ensures found ==> FirstMark(blocks, old(bitmap), if old(lastSeen).None? then 0 else old(lastSeen).value,
                                  old(lastOffset), sending.value.0, sending.value.1)
      ensures found ==> lastSeen == Some(sending.value.0) && lastOffset == sending.value.1
      ensures found ==> bitmap == old(bitmap)[blocks[sending.value.0].base + sending.value.1 := false]
      ensures found ==> Count(bitmap) < Count(old(bitmap))
      ensures !found ==> sending == None && bitmap == old(bitmap) && !AnyMarked(blocks, bitmap)
    {
      var b, page, bits, dirty;
      found, b, page, bits, dirty := Scan(blocks, bitmap, dirtyPages, lastSeen, lastOffset);
      lastSeen, lastOffset := Some(b), page;
      if found {
        TakePage(b, page, bits, dirty);
      }
    }

    /** The page found by the scan is now being sent. */
    method TakePage(b: nat, page: nat, bits: seq<bool>, dirty: int)
      requires Valid() && stage.Running? && sending == None && lastSeen.Some? && IsMarked(blocks, bitmap, b, page)
      requires bits == bitmap[blocks[b].base + page := false] && dirty == dirtyPages - 1
      modifies `bitmap, `dirtyPages, `sending
      ensures Valid() && sending == Some((b, page)) && bitmap == bits && Count(bitmap) < Count(old(bitmap))
    {
      CountUpdate(bitmap, blocks[b].base + page, false);
      AfterPick(blocks, ram, dest.ram, bitmap, log, b, page);
      bitmap, dirtyPages, sending := bits, dirty, Some((b, page));
    }

    /** The record of one page. */
    method EmitPage(b: nat, i: nat, dup: bool, data: Page, cont: bool, ghost page: Page)
      requires Fixed() && Streamed() && IsPage(blocks, b, i) && (cont ==> dest.block == Some(b))
      requires page == if dup then Fill(data[0]) else data
      modifies `stream, `recs, `trail, `dest
      ensures Fixed() && Streamed()
      ensures recs == old(recs) + [if dup then Dup(b, i, data[0], cont) else Full(b, i, data, cont)]
      ensures dest == Dest(StorePage(old(dest).ram, b, i, page), Some(b))
    {
      Emit(if dup then Dup(b, i, data[0], cont) else Full(b, i, data, cont));
    }

    /** The rest of ram_save_block.  `data` is what was read of the page: its contents, unless the guest
        has been storing to it since it was picked. */
    method SendPage(dup: bool, data: Page)
      requires Valid() && stage.Running? && sending.Some?
      requires
        var (b, i) := sending.value;
        IsMarked(blocks, log, b, i) || (data == ram[b][i] && (dup ==> data == Fill(data[0])))
      modifies `lastSent, `sending, `stream, `recs, `trail, `dest
      ensures Valid() && sending == None && lastSent == Some(old(sending).value.0)
      ensures var (b, i) := old(sending).value;
        var cont := old(lastSent) == Some(b);
        recs == old(recs) + [if dup then Dup(b, i, data[0], cont) else Full(b, i, data, cont)]
    {
      var (b, i) := sending.value;
      ghost var page := if dup then Fill(data[0]) else data;
      AfterSend(blocks, ram, dest.ram, bitmap, log, b, i, page);
      EmitPage(b, i, dup, data, lastSent == Some(b), page);
      lastSent, sending := Some(b), None;
    }

    /** The end of one round of ram_save_iterate. */
    method EndRound()
      requires Valid() && stage.Running? && sending == None
      modifies `stream, `recs, `trail, `dest
      ensures Valid() && recs == old(recs) + [Eos] && dest == old(dest)
    {
      Emit(Eos);
    }

    /** One record was added, for a page that was marked. */
    ghost predicate PageSaved(recs0: seq<Record>, recs1: seq<Record>, bits: seq<bool>, last: Option<nat>)
      reads this
      requires Shaped(blocks, ram)
    {
      && |recs1| == |recs0| + 1 && recs1[..|recs0|] == recs0
      && exists b: nat, i: nat :: IsMarked(blocks, bits, b, i) && RecordFor(recs1[|recs0|], b, i, ram[b][i], last)
    }

    /** One ram_save_block while the guest is stopped. */
    method SaveBlock() returns (sent: bool)
      requires Valid() && stage.Running? && sending == None
      modifies `bitmap, `dirtyPages, `lastSeen, `lastOffset, `sending, `lastSent, `stream, `recs, `trail, `dest
      ensures Valid() && sending == None
      ensures sent ==> Count(bitmap) < Count(old(bitmap)) && PageSaved(old(recs), recs, old(bitmap), old(lastSent))
      ensures !sent ==> !AnyMarked(blocks, bitmap) && recs == old(recs)
    {
      sent := PickPage();
      if sent {
        var (b, i) := sending.value;
        var data := ram[b][i];
        var dup := IsDupPage(data);
        SendPage(dup, data);
      }
    }

    /** ram_save_complete, with the guest stopped: what the destination then loads is the guest's RAM. */
    method Complete()
      requires Valid() && stage.Running? && sending == None
      modifies this
      ensures Valid() && stage.Completed? && ram == old(ram)
      ensures dest.ram == ram && LoadStream(blocks, start, stream) == Some(dest)
    {
      Sync();
      var more := true;
      while more
        invariant Valid() && stage.Running? && sending == None && ram == old(ram) && !AnyMarked(blocks, log)
        invariant !more ==> !AnyMarked(blocks, bitmap)
        decreases more, Count(bitmap)
      {
        more := SaveBlock();
      }
      CoveredIsEqual(blocks, ram, dest.ram, bitmap, log);
      stage := Completed;
      Emit(Eos);
      EncodedLoads(blocks, start, recs, trail, Moment(dest, stream));
    }

    /** One step of the schedule; a step that is not possible now does nothing. */
    method Perform(step: Step)
      requires Valid() && !stage.Completed?
      modifies this
      ensures Valid() && !stage.Completed? && ram == AfterStep(blocks, old(ram), step)
      ensures stage.Left() == old(stage).Left() - if step.Setup? && old(stage).Left() > 0 then 1 else 0
      ensures !step.Write? && old(stage).Running? ==> OwnStep(blocks, ram, step, old(Now()), Now())
    {
      if step.Write? {
        if IsPage(blocks, step.b, step.i) {
          GuestWrite(step.b, step.i, step.data, step.seen);
        }
      } else if step.Setup? {
        if stage.Left() > 0 {
          Setup();
        }
      } else if stage.Running? {
        PerformOwn(step);
      }
    }

    /** One step of the migration itself. */
    method PerformOwn(step: Step)
      requires Valid() && stage.Running? && !step.Write? && !step.Setup?
      modifies `bitmap, `dirtyPages, `log, `lastSeen, `lastOffset, `sending, `lastSent, `stream, `recs, `trail, `dest
      ensures Valid() && OwnStep(blocks, ram, step, old(Now()), Now())
    {
      if step.Send? {
        if sending.Some? {
          SendSeen(step.torn);
        }
      } else if sending == None {
        PerformNext(step);
      }
    }

    /** One step while no page is picked. */
    method PerformNext(step: Step)
      requires Valid() && stage.Running? && sending == None && !step.Write? && !step.Setup? && !step.Send?
      modifies `bitmap, `dirtyPages, `log, `lastSeen, `lastOffset, `sending, `stream, `recs, `trail, `dest
      ensures Valid() && OwnStep(blocks, ram, step, old(Now()), Now())
    {
      match step
      case Look =>
        var _ := PickPage();
      case Collect => Sync();
      case Mark => EndRound();
    }

    /** Send the page as it is, or `torn` if the guest has written to it since it was picked. */
    method SendSeen(torn: Page)
      requires Valid() && stage.Running? && sending.Some?
      modifies `lastSent, `sending, `stream, `recs, `trail, `dest
      ensures Valid() && sending == None && lastSent == Some(old(sending).value.0)
      ensures |recs| == |old(recs)| + 1 && recs[..|old(recs)|] == old(recs)
      ensures var (b, i) := old(sending).value;
        RecordFor(recs[|old(recs)|], b, i, if log[blocks[b].base + i] then torn else ram[b][i], old(lastSent))
    {
      var (b, i) := sending.value;
      var data := if log[blocks[b].base + i] then torn else ram[b][i];
      var dup := IsDupPage(data);
      SendPage(dup, data);
    }

    /** A whole migration under any schedule of guest stores, parts of the setup, pages sent, torn reads and syncs:
        at the end the destination has loaded exactly the RAM the guest was stopped with. */
    method Migrate(schedule: seq<Step>)
      requires Valid() && stage.Idle?
      modifies this
      ensures Valid() && stage.Completed? && ram == AfterSteps(blocks, old(ram), schedule, |schedule|)
      ensures dest.ram == ram && LoadStream(blocks, start, stream) == Some(dest)
    {
      for k := 0 to |schedule|
        invariant Valid() && !stage.Completed? && ram == AfterSteps(blocks, old(ram), schedule, k)
      {
        Perform(schedule[k]);
      }
      while stage.Left() > 0
        invariant Valid() && !stage.Completed? && ram == AfterSteps(blocks, old(ram), schedule, |schedule|)
        decreases stage.Left()
      {
        Setup();
      }
      if sending.Some? {
        SendSeen(ram[sending.value.0][sending.value.1]);
      }
      Complete();
    }
  }
}
