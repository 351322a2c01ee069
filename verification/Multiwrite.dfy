/**
  Merging of batched writes (block.c, bdrv_aio_multiwrite; util/iov.c, qemu_iovec_concat).

  A batch is sorted by start sector and neighbours that touch are joined in place.  What a batch does to
  the disk is given byte by byte by the last request that covers the byte.
 */
module Multiwrites {
  import opened Options
  import opened Units

  const SECTOR_SIZE: nat := 512
  const IOV_MAX: nat := 1024

  // ----- I/O vectors -----

  function Flat(iov: seq<seq<byte>>): seq<byte> {
    if iov == [] then [] else iov[0] + Flat(iov[1..])
  }

  lemma {:induction false} FlatAppend(a: seq<seq<byte>>, b: seq<seq<byte>>)
    ensures Flat(a + b) == Flat(a) + Flat(b)
  {
    if a == [] {
      assert a + b == b;
    } else {
      assert (a + b)[1..] == a[1..] + b;
      FlatAppend(a[1..], b);
    }
  }

  lemma FlatOne(a: seq<seq<byte>>, chunk: seq<byte>)
    ensures Flat(a + [chunk]) == Flat(a) + chunk
  {
    FlatAppend(a, [chunk]);
    assert Flat([chunk]) == chunk;
  }

  lemma {:induction false} FlatSplit(iov: seq<seq<byte>>, i: nat)
    requires i < |iov|
    ensures |Flat(iov[..i])| + |iov[i]| <= |Flat(iov)|
    ensures Flat(iov)[|Flat(iov[..i])|..|Flat(iov[..i])| + |iov[i]|] == iov[i]
    ensures Flat(iov[..i + 1]) == Flat(iov[..i]) + iov[i]
  {
    assert iov[..i + 1] == iov[..i] + [iov[i]];
    FlatOne(iov[..i], iov[i]);
    FlatAppend(iov[..i + 1], iov[i + 1..]);
    assert iov == iov[..i + 1] + iov[i + 1..];
  }

  function Min(a: nat, b: nat): nat { if a < b then a else b }

  /** The bytes of `s` from `offset`, at most `count` of them. */
  function Part(s: seq<byte>, offset: nat, count: nat): seq<byte>
    requires offset <= |s|
  {
    s[offset..Min(offset + count, |s|)]
  }

  lemma PartOfSlice(all: seq<byte>, pos: nat, len: nat, from: nat, to: nat)
    requires pos + len <= |all| && from <= to <= len
    ensures all[pos..pos + len][from..to] == all[pos + from..pos + to]
  {
    var slice := all[pos..pos + len];
    forall k | 0 <= k < to - from ensures slice[from..to][k] == all[pos + from..pos + to][k] {
      assert slice[from + k] == all[pos + from + k];
    }
  }

  lemma ChunkOf(iov: seq<seq<byte>>, i: nat, from: nat, to: nat)
    requires i < |iov| && from <= to <= |iov[i]|
    ensures
      var pos := |Flat(iov[..i])|;
      && pos + |iov[i]| <= |Flat(iov)| && |Flat(iov[..i + 1])| == pos + |iov[i]|
      && iov[i][from..to] == Flat(iov)[pos + from..pos + to]
  {
    FlatSplit(iov, i);
    PartOfSlice(Flat(iov), |Flat(iov[..i])|, |iov[i]|, from, to);
  }

  /** Where the copy stands before vector `i`: nothing copied and `skip` bytes still to pass over, or all
      bytes up to here copied, or as many as were asked for. */
  ghost predicate Copied(dst: seq<seq<byte>>, src: seq<seq<byte>>, offset: nat, count: nat, r: seq<seq<byte>>, i: nat,
                         done: nat, skip: nat)
    requires i <= |src|
  {
    CopiedAt(Flat(dst), Flat(src), |Flat(src[..i])|, offset, count, Flat(r), done, skip)
  }

  /** The same of the bytes alone: `pos` of the bytes `all` are passed. */
  ghost predicate CopiedAt(dst: seq<byte>, all: seq<byte>, pos: nat, offset: nat, count: nat, r: seq<byte>, done: nat,
                           skip: nat) {
    && ((done == 0 && skip + pos == offset) || (skip == 0 && (pos == offset + done || done == count)))
    && offset + done <= |all| && r == dst + all[offset..offset + done]
  }

  lemma Assoc<T>(a: seq<T>, b: seq<T>, c: seq<T>)
    ensures a + (b + c) == (a + b) + c
  {
  }

  lemma CopiedMore(dst: seq<byte>, all: seq<byte>, pos: nat, offset: nat, count: nat, r: seq<byte>, done: nat,
                   skip: nat, size: nat, to: nat, chunk: seq<byte>)
    requires CopiedAt(dst, all, pos, offset, count, r, done, skip) && done < count && skip < size && pos + size <= |all|
    requires to == skip + Min(size - skip, count - done) && chunk == all[pos + skip..pos + to]
    ensures CopiedAt(dst, all, pos + size, offset, count, r + chunk, done + (to - skip), 0)
  {
    var mid := offset + done;
    assert pos + skip == mid;
    Adjacent(all, offset, mid, pos + to);
    Assoc(dst, all[offset..mid], chunk);
  }

  lemma Adjacent(s: seq<byte>, from: nat, mid: nat, to: nat)
    requires from <= mid <= to <= |s|
    ensures s[from..mid] + s[mid..to] == s[from..to]
  {
  }

  lemma CopyBytes(dst: seq<seq<byte>>, src: seq<seq<byte>>, offset: nat, count: nat, r: seq<seq<byte>>, i: nat,
                  done: nat, skip: nat, to: nat, chunk: seq<byte>)
    requires i < |src| && done < count && Copied(dst, src, offset, count, r, i, done, skip) && skip < |src[i]|
    requires to == skip + Min(|src[i]| - skip, count - done) && chunk == src[i][skip..to]
    ensures CopiedAt(Flat(dst), Flat(src), |Flat(src[..i + 1])|, offset, count, Flat(r) + chunk, done + (to - skip), 0)
  {
    ChunkOf(src, i, skip, to);
    CopiedMore(Flat(dst), Flat(src), |Flat(src[..i])|, offset, count, Flat(r), done, skip, |src[i]|, to, chunk);
  }

  lemma CopyChunk(dst: seq<seq<byte>>, src: seq<seq<byte>>, offset: nat, count: nat, r: seq<seq<byte>>, i: nat,
                  done: nat, skip: nat, to: nat, chunk: seq<byte>)
    requires i < |src| && done < count && Copied(dst, src, offset, count, r, i, done, skip) && skip < |src[i]|
    requires to == skip + Min(|src[i]| - skip, count - done) && chunk == src[i][skip..to]
    ensures Copied(dst, src, offset, count, r + [chunk], i + 1, done + (to - skip), 0)
  {
    CopyBytes(dst, src, offset, count, r, i, done, skip, to, chunk);
    FlatOne(r, chunk);
  }

  lemma CopyNothing(dst: seq<seq<byte>>, src: seq<seq<byte>>, offset: nat, count: nat, r: seq<seq<byte>>, i: nat,
                    done: nat, skip: nat)
    requires i < |src| && done < count && Copied(dst, src, offset, count, r, i, done, skip) && skip >= |src[i]|
    ensures Copied(dst, src, offset, count, r, i + 1, done, skip - |src[i]|)
  {
    FlatSplit(src, i);
  }

  lemma CopyOver(dst: seq<seq<byte>>, src: seq<seq<byte>>, offset: nat, count: nat, r: seq<seq<byte>>, i: nat,
                 done: nat, skip: nat)
    requires i <= |src| && offset <= |Flat(src)| && done <= count && Copied(dst, src, offset, count, r, i, done, skip)
    requires done == count || i == |src|
    ensures Flat(r) == Flat(dst) + Part(Flat(src), offset, count)
  {
    assert i == |src| ==> src[..i] == src;
  }

  /** qemu_iovec_concat: append `count` bytes of `src`, from `offset` on, without copying any: every
      vector of the result is part of a vector of `src`. */
  method Concat(dst: seq<seq<byte>>, src: seq<seq<byte>>, offset: nat, count: nat) returns (r: seq<seq<byte>>)
    requires offset <= |Flat(src)|
    ensures Flat(r) == Flat(dst) + Part(Flat(src), offset, count)
    ensures |r| <= |dst| + |src|
  {
    r := dst;
    if count == 0 {
      return;
    }
    var i, done, skip := 0, 0, offset;
    while done < count && i < |src|
      invariant 0 <= i <= |src| && 0 <= done <= count && 0 <= skip && |r| <= |dst| + i
      invariant Copied(dst, src, offset, count, r, i, done, skip)
    {
      if skip < |src[i]| {
        var to := skip + Min(|src[i]| - skip, count - done);
        CopyChunk(dst, src, offset, count, r, i, done, skip, to, src[i][skip..to]);
        r := r + [src[i][skip..to]];
        done, skip := done + (to - skip), 0;
      } else {
        CopyNothing(dst, src, offset, count, r, i, done, skip);
        skip := skip - |src[i]|;
      }
      i := i + 1;
    }
    CopyOver(dst, src, offset, count, r, i, done, skip);
  }

  // ----- requests -----

  datatype Request = Request(sector: nat, nb: nat, iov: seq<seq<byte>>)

  /** The vectors hold as many bytes as the request has sectors. */
  predicate RequestOk(r: Request) { |Flat(r.iov)| == r.nb * SECTOR_SIZE }

  function Start(r: Request): nat { r.sector * SECTOR_SIZE }

  function End(r: Request): nat { Start(r) + |Flat(r.iov)| }

  predicate Covers(r: Request, x: nat) { Start(r) <= x < End(r) }

  function ByteAt(r: Request, x: nat): byte
    requires Covers(r, x)
  {
    Flat(r.iov)[x - Start(r)]
  }

  /** What a batch, written in order, leaves at disk address `x`; nothing if it does not touch it. */
  function LastWrite(reqs: seq<Request>, x: nat): Option<byte> {
    if reqs == [] then None
    else
      var r := reqs[|reqs| - 1];
      if Covers(r, x) then Some(ByteAt(r, x)) else LastWrite(reqs[..|reqs| - 1], x)
  }

  lemma LastWriteAppend(reqs: seq<Request>, r: Request, x: nat)
    ensures LastWrite(reqs + [r], x) == if Covers(r, x) then Some(ByteAt(r, x)) else LastWrite(reqs, x)
  {
    assert (reqs + [r])[..|reqs|] == reqs;
  }

  /** `j` is what joining `b` onto `a` gives: the bytes of `a` before `b` starts, then all of `b`. */
  ghost predicate IsJoin(a: Request, b: Request, j: Request) {
    && a.sector <= b.sector <= a.sector + a.nb && RequestOk(a)
    && j.sector == a.sector && RequestOk(j)
    && Flat(j.iov) == Flat(a.iov)[..(b.sector - a.sector) * SECTOR_SIZE] + Flat(b.iov)
  }

  lemma JoinBytes(a: Request, b: Request, j: Request, x: nat)
    requires IsJoin(a, b, j)
    ensures Covers(j, x) <==> Start(a) <= x < End(b)
    ensures Covers(b, x) ==> Covers(j, x) && ByteAt(j, x) == ByteAt(b, x)
    ensures x < Start(b) && Covers(j, x) ==> Covers(a, x) && ByteAt(j, x) == ByteAt(a, x)
    ensures x < Start(b) && Covers(a, x) ==> Covers(j, x)
  {
  }

  lemma PairWrites(a: Request, b: Request, x: nat)
    ensures LastWrite([a], x) == if Covers(a, x) then Some(ByteAt(a, x)) else None
    ensures LastWrite([a, b], x) == if Covers(b, x) then Some(ByteAt(b, x)) else LastWrite([a], x)
  {
    LastWriteAppend([], a, x);
    LastWriteAppend([a], b, x);
    assert [] + [a] == [a] && [a] + [b] == [a, b];
  }

  lemma JoinAt(a: Request, b: Request, j: Request, x: nat)
    requires IsJoin(a, b, j)
    ensures LastWrite([j], x) == LastWrite([a, b], x) <==> !(End(b) <= x < End(a))
  {
    PairWrites(a, b, x);
    PairWrites(j, j, x);
    JoinBytes(a, b, j, x);
  }

  /** Joining two requests does what writing one and then the other does if and only if the second does
      not end before the first. */
  lemma JoinKeepsIff(a: Request, b: Request, j: Request)
    requires IsJoin(a, b, j)
    ensures (forall x: nat :: LastWrite([j], x) == LastWrite([a, b], x)) <==> End(a) <= End(b)
  {
    if End(a) <= End(b) {
      forall x: nat ensures LastWrite([j], x) == LastWrite([a, b], x) {
        JoinAt(a, b, j, x);
      }
    } else {
      JoinAt(a, b, j, End(b));
    }
  }

  /** Two joined requests that lose data: the second lies inside the first. */
  lemma SwallowedRequest(page: seq<byte>) returns (a: Request, b: Request, x: nat)
    requires |page| == SECTOR_SIZE
    ensures RequestOk(a) && RequestOk(b) && a.sector <= b.sector <= a.sector + a.nb
    ensures forall j: Request :: IsJoin(a, b, j) ==> LastWrite([a, b], x).Some? && LastWrite([j], x).None?
  {
    a, b, x := Request(0, 2, [page, page]), Request(0, 1, [page]), SECTOR_SIZE;
    FlatOne([], page);
    FlatOne([page], page);
    assert [] + [page] == [page] && [page] + [page] == [page, page];
    PairWrites(a, b, x);
    assert Covers(a, x) && !Covers(b, x);
    forall j: Request | IsJoin(a, b, j) ensures LastWrite([j], x).None? {
      JoinBytes(a, b, j, x);
      PairWrites(j, j, x);
    }
  }

  // ----- the batch -----

  ghost predicate Sorted(reqs: seq<Request>) {
    forall i, j :: 0 <= i < j < |reqs| ==> reqs[i].sector <= reqs[j].sector
  }

  /** What the last request that starts at or before `x` says about `x`. */
  ghost function Owner(reqs: seq<Request>, x: nat): Option<byte> {
    if reqs == [] then None
    else
      var r := reqs[|reqs| - 1];
      if Start(r) > x then Owner(reqs[..|reqs| - 1], x)
      else if Covers(r, x) then Some(ByteAt(r, x))
      else None
  }

  /** Every byte that is written at all is written by the last request that starts at or before it. */
  ghost predicate NoneSwallowed(reqs: seq<Request>) {
    forall x: nat :: LastWrite(reqs, x).Some? ==> Owner(reqs, x).Some?
  }

  lemma OwnerAppend(reqs: seq<Request>, r: Request, x: nat)
    ensures Owner(reqs + [r], x) ==
      if Start(r) > x then Owner(reqs, x) else if Covers(r, x) then Some(ByteAt(r, x)) else None
  {
    assert (reqs + [r])[..|reqs|] == reqs;
  }

  lemma {:induction false} OwnerIsLast(reqs: seq<Request>, x: nat)
    ensures Owner(reqs, x).Some? ==> LastWrite(reqs, x) == Owner(reqs, x)
  {
    if reqs != [] {
      OwnerIsLast(reqs[..|reqs| - 1], x);
    }
  }

  /** Requests that never end before an earlier one does swallow nothing. */
  lemma {:induction false} RisingEnds(reqs: seq<Request>, x: nat)
    requires forall i, j :: 0 <= i < j < |reqs| ==> reqs[i].sector <= reqs[j].sector && End(reqs[i]) <= End(reqs[j])
    ensures LastWrite(reqs, x).Some? ==> Owner(reqs, x).Some? && x < End(reqs[|reqs| - 1])
  {
    if reqs != [] {
      var n := |reqs| - 1;
      RisingEnds(reqs[..n], x);
      assert n > 0 ==> End(reqs[n - 1]) <= End(reqs[n]);
    }
  }

  lemma RisingNoneSwallowed(reqs: seq<Request>)
    requires forall i, j :: 0 <= i < j < |reqs| ==> reqs[i].sector <= reqs[j].sector && End(reqs[i]) <= End(reqs[j])
    ensures NoneSwallowed(reqs)
  {
    forall x: nat ensures LastWrite(reqs, x).Some? ==> Owner(reqs, x).Some? {
      RisingEnds(reqs, x);
    }
  }

  function TotalVectors(reqs: seq<Request>): nat {
    if reqs == [] then 0 else TotalVectors(reqs[..|reqs| - 1]) + |reqs[|reqs| - 1].iov|
  }

  lemma TotalAppend(reqs: seq<Request>, r: Request)
    ensures TotalVectors(reqs + [r]) == TotalVectors(reqs) + |r.iov|
  {
    assert (reqs + [r])[..|reqs|] == reqs;
  }

  lemma {:induction false} TotalPrefix(reqs: seq<Request>, i: nat)
    requires i <= |reqs|
    ensures TotalVectors(reqs[..i]) <= TotalVectors(reqs)
    decreases |reqs| - i
  {
    if i < |reqs| {
      TotalPrefix(reqs, i + 1);
      assert reqs[..i + 1] == reqs[..i] + [reqs[i]];
      TotalAppend(reqs[..i], reqs[i]);
    } else {
      assert reqs[..i] == reqs;
    }
  }

  // ----- one step of the merge -----

  /** Everything before the last request ends at or before its start. */
  ghost predicate Apart(out: seq<Request>) {
    forall k :: 0 <= k < |out| - 1 ==> End(out[k]) <= Start(out[|out| - 1])
  }

  /** At `x`, `out` says what the owner says; if no join was refused for its size, nothing more. */
  ghost predicate AgreesAt(reqs: seq<Request>, out: seq<Request>, free: bool, x: nat) {
    && (Owner(reqs, x).Some? || free ==> LastWrite(out, x) == Owner(reqs, x))
    && (LastWrite(reqs, x).None? ==> LastWrite(out, x).None?)
  }

  /** `out` stands for the requests `reqs`, the last of them still to be joined with what follows. */
  ghost predicate MergedSoFar(reqs: seq<Request>, out: seq<Request>, free: bool) {
    && reqs != [] && out != [] && |out| <= |reqs|
    && (forall k :: 0 <= k < |out| ==> RequestOk(out[k]))
    && out[|out| - 1].sector <= reqs[|reqs| - 1].sector
    && |out[|out| - 1].iov| <= TotalVectors(reqs)
    && (free ==> Apart(out))
    && (forall x: nat :: AgreesAt(reqs, out, free, x))
  }

  lemma MergeFirst(r: Request, free: bool)
    requires RequestOk(r)
    ensures MergedSoFar([r], [r], free)
  {
    TotalAppend([], r);
    assert [] + [r] == [r];
    forall x: nat ensures AgreesAt([r], [r], free, x) {
      OwnerAppend([], r, x);
      LastWriteAppend([], r, x);
    }
  }

  lemma {:induction false} Uncovered(out: seq<Request>, x: nat)
    requires forall k :: 0 <= k < |out| ==> End(out[k]) <= x
    ensures LastWrite(out, x).None?
  {
    if out != [] {
      Uncovered(out[..|out| - 1], x);
    }
  }

  lemma KeepStep(reqs: seq<Request>, out: seq<Request>, free: bool, b: Request)
    requires MergedSoFar(reqs, out, free) && RequestOk(b)
    requires free ==> End(out[|out| - 1]) <= Start(b)
    ensures MergedSoFar(reqs + [b], out + [b], free)
  {
    var reqs', out' := reqs + [b], out + [b];
    TotalAppend(reqs, b);
    forall x: nat ensures AgreesAt(reqs', out', free, x) {
      assert AgreesAt(reqs, out, free, x);
      OwnerAppend(reqs, b, x);
      LastWriteAppend(out, b, x);
      LastWriteAppend(reqs, b, x);
      if free && Start(b) <= x {
        Uncovered(out, x);
      }
    }
  }

  lemma JoinAgrees(reqs: seq<Request>, out: seq<Request>, free: bool, b: Request, j: Request, x: nat)
    requires out != [] && AgreesAt(reqs, out, free, x) && IsJoin(out[|out| - 1], b, j) && (free ==> Apart(out))
    ensures AgreesAt(reqs + [b], out[|out| - 1 := j], free, x)
  {
    var n := |out| - 1;
    assert out == out[..n] + [out[n]] && out[n := j] == out[..n] + [j];
    LastWriteAppend(out[..n], out[n], x);
    LastWriteAppend(out[..n], j, x);
    LastWriteAppend(reqs, b, x);
    OwnerAppend(reqs, b, x);
    JoinBytes(out[n], b, j, x);
    if free && Start(b) <= x {
      Uncovered(out[..n], x);
    }
  }

  lemma JoinStep(reqs: seq<Request>, out: seq<Request>, free: bool, b: Request, j: Request)
    requires MergedSoFar(reqs, out, free) && IsJoin(out[|out| - 1], b, j) && |j.iov| <= |out[|out| - 1].iov| + |b.iov|
    ensures MergedSoFar(reqs + [b], out[|out| - 1 := j], free)
  {
    var reqs', out' := reqs + [b], out[|out| - 1 := j];
    TotalAppend(reqs, b);
    forall x: nat ensures AgreesAt(reqs', out', free, x) {
      assert AgreesAt(reqs, out, free, x);
      JoinAgrees(reqs, out, free, b, j, x);
    }
  }

  // ----- where merged bytes come from -----

  /** Some request of the batch writes `v` at `x`. */
  ghost predicate Writes(reqs: seq<Request>, x: nat, v: byte) {
    exists r :: r in reqs && Covers(r, x) && ByteAt(r, x) == v
  }

  /** Some request of the batch ends at `end`. */
  ghost predicate Ends(reqs: seq<Request>, end: nat) {
    exists r :: r in reqs && End(r) == end
  }

  /** Every byte of a merged request is a byte of some request of the batch, and it ends where one of them does. */
  ghost predicate Derived(reqs: seq<Request>, out: seq<Request>) {
    && (forall o, x: nat :: o in out && Covers(o, x) ==> Writes(reqs, x, ByteAt(o, x)))
    && (forall o :: o in out ==> Ends(reqs, End(o)))
  }

  /** Each request ends at or before the start of every later one. */
  ghost predicate Chained(reqs: seq<Request>) {
    forall i, j :: 0 <= i < j < |reqs| ==> End(reqs[i]) <= Start(reqs[j])
  }

  /** A batch without overlaps stays one: only the last merged request may still grow. */
  ghost predicate StaysApart(reqs: seq<Request>, out: seq<Request>) {
    && reqs != [] && out != []
    && (Chained(reqs) ==> Chained(out) && End(out[|out| - 1]) == End(reqs[|reqs| - 1]))
  }

  lemma WritesMore(reqs: seq<Request>, b: Request, x: nat, v: byte)
    requires Writes(reqs, x, v) || (Covers(b, x) && ByteAt(b, x) == v)
    ensures Writes(reqs + [b], x, v)
  {
    if Writes(reqs, x, v) {
      var r :| r in reqs && Covers(r, x) && ByteAt(r, x) == v;
      assert r in reqs + [b];
    } else {
      assert b in reqs + [b];
    }
  }

  lemma EndsMore(reqs: seq<Request>, b: Request, end: nat)
    requires Ends(reqs, end) || end == End(b)
    ensures Ends(reqs + [b], end)
  {
    if Ends(reqs, end) {
      var r :| r in reqs && End(r) == end;
      assert r in reqs + [b];
    } else {
      assert b in reqs + [b];
    }
  }

  lemma DerivedFirst(r: Request)
    ensures Derived([r], [r]) && StaysApart([r], [r])
  {
    EndsMore([], r, End(r));
    assert [] + [r] == [r];
    forall o, x: nat | o in [r] && Covers(o, x) ensures Writes([r], x, ByteAt(o, x)) {
      assert r in [r];
    }
  }

  lemma KeepDerived(reqs: seq<Request>, out: seq<Request>, b: Request)
    requires Derived(reqs, out)
    ensures Derived(reqs + [b], out + [b])
  {
    forall o, x: nat | o in out + [b] && Covers(o, x) ensures Writes(reqs + [b], x, ByteAt(o, x)) {
      WritesMore(reqs, b, x, ByteAt(o, x));
    }
    forall o | o in out + [b] ensures Ends(reqs + [b], End(o)) {
      EndsMore(reqs, b, End(o));
    }
  }

  lemma JoinDerived(reqs: seq<Request>, out: seq<Request>, b: Request, j: Request)
    requires out != [] && Derived(reqs, out) && IsJoin(out[|out| - 1], b, j)
    ensures Derived(reqs + [b], out[|out| - 1 := j])
  {
    var n := |out| - 1;
    var out' := out[n := j];
    forall o, x: nat | o in out' && Covers(o, x) ensures Writes(reqs + [b], x, ByteAt(o, x)) {
      JoinBytes(out[n], b, j, x);
      assert o == j || o in out;
      if o == j && x < Start(b) {
        assert out[n] in out;
      }
      WritesMore(reqs, b, x, ByteAt(o, x));
    }
    forall o | o in out' ensures Ends(reqs + [b], End(o)) {
      assert o == j || o in out;
      EndsMore(reqs, b, End(o));
    }
  }

  lemma ChainedPrefix(reqs: seq<Request>, b: Request)
    requires Chained(reqs + [b])
    ensures Chained(reqs) && forall i :: 0 <= i < |reqs| ==> End(reqs[i]) <= Start(b)
  {
    var all := reqs + [b];
    forall i, j | 0 <= i < j < |reqs| ensures End(reqs[i]) <= Start(reqs[j]) {
      assert all[i] == reqs[i] && all[j] == reqs[j];
    }
    forall i | 0 <= i < |reqs| ensures End(reqs[i]) <= Start(b) {
      assert all[i] == reqs[i] && all[|reqs|] == b;
    }
  }

  lemma KeepApart(reqs: seq<Request>, out: seq<Request>, b: Request)
    requires StaysApart(reqs, out)
    ensures StaysApart(reqs + [b], out + [b])
  {
    if Chained(reqs + [b]) {
      ChainedPrefix(reqs, b);
      var n := |out| - 1;
      forall i | 0 <= i <= n ensures End(out[i]) <= Start(b) {
        assert i < n ==> End(out[i]) <= Start(out[n]) <= End(out[n]);
      }
    }
  }

  lemma JoinApart(reqs: seq<Request>, out: seq<Request>, b: Request, j: Request)
    requires StaysApart(reqs, out) && IsJoin(out[|out| - 1], b, j)
    ensures StaysApart(reqs + [b], out[|out| - 1 := j])
  {
    if Chained(reqs + [b]) {
      ChainedPrefix(reqs, b);
    }
  }

  /** The join of multiwrite_merge. */
  method Join(a: Request, b: Request) returns (j: Request)
    requires RequestOk(a) && RequestOk(b) && a.sector <= b.sector <= a.sector + a.nb
    ensures IsJoin(a, b, j) && |j.iov| <= |a.iov| + |b.iov|
  {
    var size := (b.sector - a.sector) * SECTOR_SIZE;
    var head := Concat([], a.iov, 0, size);
    var iov := Concat(head, b.iov, 0, |Flat(b.iov)|);
    j := Request(a.sector, |Flat(iov)| / SECTOR_SIZE, iov);
    JoinedIs(a, b, size, Flat(head), j);
  }

  lemma JoinedIs(a: Request, b: Request, size: nat, head: seq<byte>, j: Request)
    requires RequestOk(a) && RequestOk(b) && a.sector <= b.sector <= a.sector + a.nb
    requires size == (b.sector - a.sector) * SECTOR_SIZE <= |Flat(a.iov)| && head == [] + Part(Flat(a.iov), 0, size)
    requires Flat(j.iov) == head + Part(Flat(b.iov), 0, |Flat(b.iov)|)
    requires j.sector == a.sector && j.nb == |Flat(j.iov)| / SECTOR_SIZE
    ensures IsJoin(a, b, j)
  {
    assert head == Flat(a.iov)[..size];
    assert |Flat(j.iov)| == (b.sector - a.sector + b.nb) * SECTOR_SIZE;
  }

  // ----- the merge -----

  /** Exactly when a merged batch does to the disk what the sorted batch does. */
  ghost predicate MergeSpec(reqs: seq<Request>, out: seq<Request>) {
    && (NoneSwallowed(reqs) ==> forall x: nat :: LastWrite(out, x) == LastWrite(reqs, x))
    && (TotalVectors(reqs) < IOV_MAX ==> (forall x: nat :: LastWrite(out, x) == LastWrite(reqs, x)) ==>
        NoneSwallowed(reqs))
  }

  lemma MergedMeetsSpec(reqs: seq<Request>, out: seq<Request>)
    requires MergedSoFar(reqs, out, TotalVectors(reqs) < IOV_MAX)
    ensures MergeSpec(reqs, out)
  {
    var free := TotalVectors(reqs) < IOV_MAX;
    forall x: nat
      ensures Owner(reqs, x).Some? || free ==> LastWrite(out, x) == Owner(reqs, x)
      ensures Owner(reqs, x).Some? ==> LastWrite(reqs, x) == Owner(reqs, x)
      ensures LastWrite(reqs, x).None? ==> LastWrite(out, x).None?
    {
      assert AgreesAt(reqs, out, free, x);
      OwnerIsLast(reqs, x);
    }
  }

  ghost predicate Small(reqs: seq<Request>) { forall k :: 0 <= k < |reqs| ==> |reqs[k].iov| <= IOV_MAX }

  /** What the merge loop keeps. */
  ghost predicate Merging(reqs: seq<Request>, out: seq<Request>, free: bool) {
    && MergedSoFar(reqs, out, free) && Derived(reqs, out) && StaysApart(reqs, out) && (Small(reqs) ==> Small(out))
    && Tight(reqs, out)
  }

  /** Neighbours that are still apart could not have been joined: they do not touch, or the vectors of the first and
      of the request that starts the second are too many. */
  ghost predicate Tight(reqs: seq<Request>, out: seq<Request>) {
    forall k: nat {:trigger TightAt(reqs, out, k)} :: k + 1 < |out| ==> TightAt(reqs, out, k)
  }

  ghost predicate TightAt(reqs: seq<Request>, out: seq<Request>, k: nat)
    requires k + 1 < |out|
  {
    out[k].sector + out[k].nb < out[k + 1].sector || Blocked(reqs, out[k], out[k + 1].sector)
  }

  ghost predicate Blocked(reqs: seq<Request>, a: Request, sector: nat) {
    exists b :: TooMany(reqs, a, sector, b)
  }

  ghost predicate TooMany(reqs: seq<Request>, a: Request, sector: nat, b: Request) {
    b in reqs && b.sector == sector && |a.iov| + |b.iov| >= IOV_MAX
  }

  lemma TightMore(reqs: seq<Request>, b: Request, out: seq<Request>, k: nat)
    requires k + 1 < |out| && TightAt(reqs, out, k)
    ensures TightAt(reqs + [b], out, k)
  {
    if Blocked(reqs, out[k], out[k + 1].sector) {
      var c :| TooMany(reqs, out[k], out[k + 1].sector, c);
      assert TooMany(reqs + [b], out[k], out[k + 1].sector, c);
    }
  }

  lemma KeepTight(reqs: seq<Request>, out: seq<Request>, b: Request)
    requires Tight(reqs, out) && out != []
    requires var a := out[|out| - 1]; !(b.sector <= a.sector + a.nb && |a.iov| + |b.iov| + 1 <= IOV_MAX)
    ensures Tight(reqs + [b], out + [b])
  {
    var out', n := out + [b], |out| - 1;
    forall k: nat | k + 1 < |out'| ensures TightAt(reqs + [b], out', k) {
      if k < n {
        assert TightAt(reqs, out, k) && out'[k] == out[k] && out'[k + 1] == out[k + 1];
        TightMore(reqs, b, out, k);
      } else {
        assert out'[k] == out[n] && out'[k + 1] == b;
        assert |out[n].iov| + |b.iov| >= IOV_MAX ==> TooMany(reqs + [b], out[n], b.sector, b);
      }
    }
  }

  lemma JoinTight(reqs: seq<Request>, out: seq<Request>, b: Request, j: Request)
    requires Tight(reqs, out) && out != [] && j.sector == out[|out| - 1].sector
    ensures Tight(reqs + [b], out[|out| - 1 := j])
  {
    var out' := out[|out| - 1 := j];
    forall k: nat | k + 1 < |out'| ensures TightAt(reqs + [b], out', k) {
      assert TightAt(reqs, out, k) && out'[k] == out[k] && out'[k + 1].sector == out[k + 1].sector;
      TightMore(reqs, b, out, k);
    }
  }

  lemma SmallAppend(reqs: seq<Request>, b: Request)
    ensures Small(reqs + [b]) <==> Small(reqs) && |b.iov| <= IOV_MAX
  {
    var all := reqs + [b];
    assert all[|reqs|] == b && forall k :: 0 <= k < |reqs| ==> all[k] == reqs[k];
  }

  /** The test of the merge loop: the requests touch, and their vectors and one more are not too many. */
  predicate Joins(a: Request, b: Request) {
    b.sector <= a.sector + a.nb && |a.iov| + |b.iov| + 1 <= IOV_MAX
  }

  /** One round of the merge loop: join `b` onto the last request or append it. */
  ghost predicate Next(out: seq<Request>, b: Request, out': seq<Request>) {
    && out != [] && RequestOk(b)
    && if Joins(out[|out| - 1], b) then
        && out' != [] && out' == out[|out| - 1 := out'[|out'| - 1]] && IsJoin(out[|out| - 1], b, out'[|out'| - 1])
        && |out'[|out'| - 1].iov| <= |out[|out| - 1].iov| + |b.iov|
      else out' == out + [b]
  }

  lemma Round(reqs: seq<Request>, out: seq<Request>, free: bool, b: Request, out': seq<Request>)
    requires Merging(reqs, out, free) && Next(out, b, out') && reqs[|reqs| - 1].sector <= b.sector
    requires free ==> TotalVectors(reqs) + |b.iov| < IOV_MAX
    ensures Merging(reqs + [b], out', free)
  {
    SmallAppend(reqs, b);
    if Joins(out[|out| - 1], b) {
      var j := out'[|out'| - 1];
      JoinStep(reqs, out, free, b, j);
      JoinDerived(reqs, out, b, j);
      JoinApart(reqs, out, b, j);
      JoinTight(reqs, out, b, j);
    } else {
      KeepStep(reqs, out, free, b);
      KeepDerived(reqs, out, b);
      KeepApart(reqs, out, b);
      KeepTight(reqs, out, b);
      SmallAppend(out, b);
    }
  }

  lemma PrefixStep(all: seq<Request>, i: nat)
    requires 0 < i < |all| && Sorted(all)
    ensures all[..i + 1] == all[..i] + [all[i]] && all[..i][i - 1].sector <= all[i].sector
    ensures TotalVectors(all[..i]) + |all[i].iov| <= TotalVectors(all)
  {
    assert all[..i + 1] == all[..i] + [all[i]];
    TotalPrefix(all, i + 1);
    TotalAppend(all[..i], all[i]);
    assert all[..i][i - 1] == all[i - 1] && all[i - 1].sector <= all[i].sector;
  }

  /** One round of the merge loop, in place. */
  method MergeOne(reqs: array<Request>, out: nat, i: nat) returns (out': nat)
    requires out < i < reqs.Length && RequestOk(reqs[out]) && RequestOk(reqs[i]) && reqs[out].sector <= reqs[i].sector
    modifies reqs
    ensures out <= out' <= out + 1 && forall k :: i < k < reqs.Length ==> reqs[k] == old(reqs[k])
    ensures Next(old(reqs[..out + 1]), old(reqs[i]), reqs[..out' + 1])
  {
    var a, b := reqs[out], reqs[i];
    ghost var was := reqs[..out + 1];
    if Joins(a, b) {
      var j := Join(a, b);
      reqs[out] := j;
      assert reqs[..out + 1] == was[out := j];
      out' := out;
    } else {
      out' := out + 1;
      reqs[out'] := b;
      assert reqs[..out' + 1] == was + [b];
    }
  }

  /** The requests from `i` on are as they were. */
  ghost predicate Unmerged(now: seq<Request>, all: seq<Request>, i: nat) {
    |now| == |all| && forall k :: i <= k < |all| ==> now[k] == all[k]
  }

  /** The same, keeping what the loop keeps. */
  method MergeNext(reqs: array<Request>, out: nat, i: nat, ghost all: seq<Request>, ghost free: bool)
    returns (out': nat)
    requires out < i < reqs.Length == |all| && Sorted(all) && (free ==> TotalVectors(all) < IOV_MAX)
    requires RequestOk(all[i]) && Unmerged(reqs[..], all, i)
    requires Merging(all[..i], reqs[..out + 1], free)
    modifies reqs
    ensures out <= out' <= out + 1 && Unmerged(reqs[..], all, i + 1)
    ensures Merging(all[..i + 1], reqs[..out' + 1], free)
  {
    ghost var was, before := reqs[..out + 1], all[..i];
    PrefixStep(all, i);
    assert was[out] == reqs[out] && RequestOk(was[out]) && was[out].sector <= before[i - 1].sector;
    out' := MergeOne(reqs, out, i);
    Round(before, was, free, all[i], reqs[..out' + 1]);
  }

  lemma MergingFirst(all: seq<Request>, free: bool)
    requires all != [] && RequestOk(all[0])
    ensures Merging(all[..1], all[..1], free)
  {
    MergeFirst(all[0], free);
    DerivedFirst(all[0]);
    assert all[..1] == [all[0]];
  }

  /** What the merge leaves. */
  ghost predicate Merged(reqs: seq<Request>, out: seq<Request>) {
    && MergeSpec(reqs, out) && Derived(reqs, out) && StaysApart(reqs, out) && (Small(reqs) ==> Small(out))
    && Tight(reqs, out)
    && forall k :: 0 <= k < |out| ==> RequestOk(out[k])
  }

  lemma MergingLast(all: seq<Request>, i: nat, out: seq<Request>, free: bool)
    requires i == |all| && free == (TotalVectors(all) < IOV_MAX) && Merging(all[..i], out, free)
    ensures Merged(all, out)
  {
    assert all[..i] == all;
    MergedMeetsSpec(all, out);
  }

  /** multiwrite_merge after the sort: the merged requests end up in the first `n` elements. */
  method MergeSorted(reqs: array<Request>) returns (n: nat)
    requires reqs.Length > 0 && Sorted(reqs[..]) && forall k :: 0 <= k < reqs.Length ==> RequestOk(reqs[k])
    modifies reqs
    ensures 1 <= n <= reqs.Length && Merged(old(reqs[..]), reqs[..n])
  {
    ghost var all := reqs[..];
    ghost var free := TotalVectors(all) < IOV_MAX;
    var out, i := 0, 1;
    MergingFirst(all, free);
    assert reqs[..1] == all[..1];
    while i < reqs.Length
      invariant 0 <= out < i <= reqs.Length && Unmerged(reqs[..], all, i)
      invariant Merging(all[..i], reqs[..out + 1], free)
    {
      out := MergeNext(reqs, out, i, all, free);
      i := i + 1;
    }
    MergingLast(all, i, reqs[..out + 1], free);
    n := out + 1;
  }

  // ----- any order -----

  /** Requests that touch the same byte write the same value there. */
  ghost predicate Consistent(reqs: seq<Request>) {
    forall r, q, x: nat :: r in reqs && q in reqs && Covers(r, x) && Covers(q, x) ==> ByteAt(r, x) == ByteAt(q, x)
  }

  /** Only equal requests touch the same byte, and every request touches some. */
  ghost predicate NoOverlap(reqs: seq<Request>) {
    && (forall r, q, x: nat :: r in reqs && q in reqs && Covers(r, x) && Covers(q, x) ==> r == q)
    && (forall r :: r in reqs ==> Start(r) < End(r))
  }

  ghost predicate NoneTwice(reqs: seq<Request>) {
    forall r :: multiset(reqs)[r] <= 1
  }

  lemma {:induction false} LastWriteIs(reqs: seq<Request>, x: nat)
    ensures LastWrite(reqs, x).Some? ==> Writes(reqs, x, LastWrite(reqs, x).value)
    ensures LastWrite(reqs, x).None? ==> forall r :: r in reqs ==> !Covers(r, x)
  {
    if reqs != [] {
      var n := |reqs| - 1;
      LastWriteIs(reqs[..n], x);
      assert reqs == reqs[..n] + [reqs[n]];
      if LastWrite(reqs, x).Some? {
        WritesMore(reqs[..n], reqs[n], x, LastWrite(reqs, x).value);
      }
    }
  }

  lemma SameMembers(reqs: seq<Request>, other: seq<Request>)
    requires multiset(reqs) == multiset(other)
    ensures forall r :: r in reqs <==> r in other
  {
    assert forall r :: r in reqs <==> r in multiset(reqs);
    assert forall r :: r in other <==> r in multiset(other);
  }

  /** Requests that never disagree about a byte may be written in any order. */
  lemma AnyOrder(reqs: seq<Request>, other: seq<Request>, x: nat)
    requires multiset(reqs) == multiset(other) && Consistent(reqs)
    ensures LastWrite(reqs, x) == LastWrite(other, x)
  {
    SameMembers(reqs, other);
    LastWriteIs(reqs, x);
    LastWriteIs(other, x);
    if LastWrite(reqs, x).Some? {
      var r :| r in reqs && Covers(r, x) && ByteAt(r, x) == LastWrite(reqs, x).value;
      assert r in other;
      var q :| q in other && Covers(q, x) && ByteAt(q, x) == LastWrite(other, x).value;
      assert q in reqs;
    }
  }

  /** Merging does not bring disagreement into a batch. */
  lemma MergedConsistent(reqs: seq<Request>, out: seq<Request>)
    requires Consistent(reqs) && Derived(reqs, out)
    ensures Consistent(out)
  {
    forall o, p, x: nat | o in out && p in out && Covers(o, x) && Covers(p, x) ensures ByteAt(o, x) == ByteAt(p, x) {
      var r :| r in reqs && Covers(r, x) && ByteAt(r, x) == ByteAt(o, x);
      var q :| q in reqs && Covers(q, x) && ByteAt(q, x) == ByteAt(p, x);
    }
  }

  lemma DerivedFromMembers(reqs: seq<Request>, sorted: seq<Request>, out: seq<Request>)
    requires multiset(reqs) == multiset(sorted) && Derived(sorted, out)
    ensures Derived(reqs, out)
  {
    SameMembers(reqs, sorted);
    forall o, x: nat | o in out && Covers(o, x) ensures Writes(reqs, x, ByteAt(o, x)) {
      var r :| r in sorted && Covers(r, x) && ByteAt(r, x) == ByteAt(o, x);
      assert r in reqs;
    }
    forall o | o in out ensures Ends(reqs, End(o)) {
      var r :| r in sorted && End(r) == End(o);
      assert r in reqs;
    }
  }

  /** A sorted batch without overlaps never ends before an earlier request does. */
  lemma SortedRises(sorted: seq<Request>, i: nat, j: nat)
    requires Sorted(sorted) && NoOverlap(sorted) && i < j < |sorted|
    ensures sorted[i] != sorted[j] ==> End(sorted[i]) <= Start(sorted[j])
  {
    var r, q := sorted[i], sorted[j];
    assert r in sorted && q in sorted && r.sector <= q.sector;
    if Start(q) < End(r) {
      assert Covers(r, Start(q)) && Covers(q, Start(q));
    }
  }

  /** The batch may be sorted, merged, and its merged requests written in any order. */
  lemma MergeKeepsBatch(reqs: seq<Request>, sorted: seq<Request>, out: seq<Request>, order: seq<Request>, x: nat)
    requires multiset(reqs) == multiset(sorted) && Sorted(sorted) && MergeSpec(sorted, out) && Derived(sorted, out)
    requires NoOverlap(reqs) && multiset(order) == multiset(out)
    ensures LastWrite(order, x) == LastWrite(reqs, x)
  {
    SameMembers(reqs, sorted);
    forall i, j | 0 <= i < j < |sorted|
      ensures sorted[i].sector <= sorted[j].sector && End(sorted[i]) <= End(sorted[j])
    {
      SortedRises(sorted, i, j);
    }
    RisingNoneSwallowed(sorted);
    MergedConsistent(sorted, out);
    AnyOrder(out, order, x);
    AnyOrder(sorted, reqs, x);
  }

  lemma TwoCopies(reqs: seq<Request>, i: nat, j: nat)
    requires i < j < |reqs| && reqs[i] == reqs[j]
    ensures multiset(reqs)[reqs[i]] >= 2
  {
    var rest := reqs[i + 1..];
    assert reqs == reqs[..i] + [reqs[i]] + rest;
    assert rest[j - i - 1] == reqs[j] && reqs[j] in multiset(rest);
  }

  lemma DistinctChained(reqs: seq<Request>, sorted: seq<Request>)
    requires multiset(reqs) == multiset(sorted) && Sorted(sorted) && NoOverlap(reqs) && NoneTwice(reqs)
    ensures Chained(sorted)
  {
    SameMembers(reqs, sorted);
    forall i, j | 0 <= i < j < |sorted| ensures End(sorted[i]) <= Start(sorted[j]) {
      SortedRises(sorted, i, j);
      if sorted[i] == sorted[j] {
        TwoCopies(sorted, i, j);
      }
    }
  }

  // ----- sorting and merging -----

  lemma InsertSorted(sorted: seq<Request>, k: nat, r: Request)
    requires Sorted(sorted) && k <= |sorted| && (k > 0 ==> sorted[k - 1].sector <= r.sector)
    requires forall j :: k <= j < |sorted| ==> sorted[j].sector > r.sector
    ensures Sorted(sorted[..k] + [r] + sorted[k..])
  {
    var s := sorted[..k] + [r] + sorted[k..];
    forall i, j | 0 <= i < j < |s| ensures s[i].sector <= s[j].sector {
      assert s[i] == if i < k then sorted[i] else if i == k then r else sorted[i - 1];
      assert s[j] == if j < k then sorted[j] else if j == k then r else sorted[j - 1];
      assert i < k ==> sorted[i].sector <= sorted[k - 1].sector;
    }
  }

  lemma InsertMultiset(reqs: seq<Request>, k: nat, r: Request)
    requires k <= |reqs|
    ensures multiset(reqs[..k] + [r] + reqs[k..]) == multiset(reqs) + multiset{r}
  {
    assert reqs == reqs[..k] + reqs[k..];
  }

  method Insert(sorted: seq<Request>, r: Request) returns (sorted': seq<Request>)
    requires Sorted(sorted)
    ensures Sorted(sorted') && multiset(sorted') == multiset(sorted) + multiset{r} && |sorted'| == |sorted| + 1
  {
    var k := |sorted|;
    while k > 0 && sorted[k - 1].sector > r.sector
      invariant 0 <= k <= |sorted| && forall j :: k <= j < |sorted| ==> sorted[j].sector > r.sector
    {
      k := k - 1;
    }
    InsertSorted(sorted, k, r);
    InsertMultiset(sorted, k, r);
    sorted' := sorted[..k] + [r] + sorted[k..];
  }

  /** Any sort by start sector will do: qsort does not say how it orders requests of the same sector. */
  method Sort(reqs: array<Request>)
    modifies reqs
    ensures Sorted(reqs[..]) && multiset(reqs[..]) == multiset(old(reqs[..]))
  {
    var sorted: seq<Request> := [];
    for i := 0 to reqs.Length
      invariant |sorted| == i && Sorted(sorted) && multiset(sorted) == multiset(reqs[..i])
      invariant reqs[..] == old(reqs[..])
    {
      sorted := Insert(sorted, reqs[i]);
      assert reqs[..i + 1] == reqs[..i] + [reqs[i]];
    }
    assert reqs[..] == reqs[..reqs.Length];
    forall i | 0 <= i < reqs.Length {
      reqs[i] := sorted[i];
    }
    assert reqs[..] == sorted;
  }

  /** multiwrite_merge */
  method Merge(reqs: array<Request>) returns (n: nat, ghost sorted: seq<Request>)
    requires reqs.Length > 0 && forall k :: 0 <= k < reqs.Length ==> RequestOk(reqs[k])
    modifies reqs
    ensures 1 <= n <= reqs.Length
    ensures multiset(sorted) == multiset(old(reqs[..])) && Sorted(sorted)
    ensures Merged(sorted, reqs[..n])
    ensures NoOverlap(old(reqs[..])) && NoneTwice(old(reqs[..])) ==> Chained(sorted)
    ensures Small(old(reqs[..])) ==> Small(reqs[..n])
  {
    ghost var batch := reqs[..];
    Sort(reqs);
    sorted := reqs[..];
    SameMembers(batch, sorted);
    forall k | 0 <= k < |sorted| ensures RequestOk(sorted[k]) && (Small(batch) ==> |sorted[k].iov| <= IOV_MAX) {
      assert sorted[k] in batch;
    }
    if NoOverlap(batch) && NoneTwice(batch) {
      DistinctChained(batch, sorted);
    }
    n := MergeSorted(reqs);
  }

  // ----- completion -----

  /** The first failure among the results, in the order they came in. */
  function FirstError(rets: seq<int>): int {
    if rets == [] then 0 else if rets[0] < 0 then rets[0] else FirstError(rets[1..])
  }

  lemma {:induction false} FirstErrorAppend(rets: seq<int>, ret: int)
    ensures FirstError(rets + [ret]) == if FirstError(rets) != 0 then FirstError(rets) else if ret < 0 then ret else 0
  {
    if rets == [] {
      assert rets + [ret] == [ret];
    } else {
      assert (rets + [ret])[1..] == rets[1..] + [ret];
      FirstErrorAppend(rets[1..], ret);
    }
  }

  lemma {:induction false} NoError(rets: seq<int>)
    ensures FirstError(rets) == 0 <==> forall k :: 0 <= k < |rets| ==> rets[k] >= 0
  {
    if rets != [] {
      NoError(rets[1..]);
      assert forall k :: 0 < k < |rets| ==> rets[k] == rets[1..][k - 1];
    }
  }

  /** The error of a batch is the earliest failure. */
  lemma {:induction false} FirstErrorIs(rets: seq<int>) returns (k: nat)
    requires FirstError(rets) != 0
    ensures k < |rets| && rets[k] < 0 && FirstError(rets) == rets[k] && forall j :: 0 <= j < k ==> rets[j] >= 0
  {
    if rets[0] < 0 {
      k := 0;
    } else {
      var i := FirstErrorIs(rets[1..]);
      k := i + 1;
      assert forall j :: 0 < j < k ==> rets[j] == rets[1..][j - 1];
    }
  }

  /** What happens to a batch: a merged request comes back, or one of the caller's callbacks is called. */
  datatype Event = Result(ret: int) | Callback(index: nat, error: int)

  function Results(rets: seq<int>): seq<Event> {
    seq(|rets|, k requires 0 <= k < |rets| => Result(rets[k]))
  }

  function Callbacks(n: nat, error: int): seq<Event> { seq(n, i requires 0 <= i => Callback(i, error)) }

  /** MultiwriteCB: shared by the requests a batch was merged into. */
  class Completion {
    var error: int
    var numRequests: nat
    const numCallbacks: nat
    /** What has happened so far, in order. */
    var events: seq<Event>
    ghost var results: seq<int>
    ghost const total: nat

    /** No callback has run while results are missing; then each has run once, with the first error. */
    ghost predicate Valid() reads this {
      && |results| + numRequests == total && error == FirstError(results)
      && events == Results(results) + if numRequests == 0 then Callbacks(numCallbacks, error) else []
    }

    constructor (numRequests: nat, numCallbacks: nat)
      requires numRequests > 0
      ensures Valid() && results == [] && total == this.numRequests == numRequests && this.numCallbacks == numCallbacks
    {
      this.numRequests, this.numCallbacks, total := numRequests, numCallbacks, numRequests;
      error, events, results := 0, [], [];
    }

    /** multiwrite_user_cb */
    method CallUser()
      modifies `events
      ensures events == old(events) + Callbacks(numCallbacks, error)
    {
      for i := 0 to numCallbacks
        invariant events == old(events) + Callbacks(i, error)
      {
        events := events + [Callback(i, error)];
      }
    }

    /** multiwrite_cb */
    method Complete(ret: int)
      requires Valid() && numRequests > 0
      modifies this
      ensures Valid() && results == old(results) + [ret] && numRequests == old(numRequests) - 1
    {
      FirstErrorAppend(results, ret);
      assert Results(results + [ret]) == Results(results) + [Result(ret)];
      results := results + [ret];
      events := events + [Result(ret)];
      if ret < 0 && error == 0 {
        error := ret;
      }
      numRequests := numRequests - 1;
      if numRequests == 0 {
        CallUser();
      }
    }
  }

  // ----- a batch from submission to the callbacks -----

  const EIO: int := 5
  const ENOMEDIUM: int := 123

  /** The environment's move: which of the requests in flight comes back next, with which result, and what
      a failed write has left in its range. */
  datatype Move = Move(pick: nat, ret: int, torn: seq<byte>)

  /** What a write comes back with: bdrv_check_request refuses one that ends past the end of the disk. */
  function Outcome(r: Request, move: Move, size: nat): int {
    if End(r) > size then -EIO else move.ret
  }

  /** The order in which the requests in flight come back, from move `n` on. */
  function Arrivals(left: seq<Request>, env: nat -> Move, n: nat): seq<Request>
    decreases |left|
  {
    if left == [] then []
    else
      var k := env(n).pick % |left|;
      [left[k]] + Arrivals(left[..k] + left[k + 1..], env, n + 1)
  }

  function Outcomes(done: seq<Request>, env: nat -> Move, size: nat): seq<int> {
    seq(|done|, k requires 0 <= k < |done| => Outcome(done[k], env(k), size))
  }

  lemma {:induction false} ArrivalsAll(left: seq<Request>, env: nat -> Move, n: nat)
    ensures multiset(Arrivals(left, env, n)) == multiset(left)
    decreases |left|
  {
    if left != [] {
      var k := env(n).pick % |left|;
      TakeOut(left, k);
      ArrivalsAll(left[..k] + left[k + 1..], env, n + 1);
    }
  }

  /** One write reaches the disk. */
  method Perform(disk: seq<byte>, r: Request, move: Move) returns (disk': seq<byte>, ret: int)
    ensures |disk'| == |disk| && ret == Outcome(r, move, |disk|)
    ensures forall x: nat :: x < |disk| && !Covers(r, x) ==> disk'[x] == disk[x]
    ensures ret >= 0 ==> forall x: nat :: x < |disk| && Covers(r, x) ==> disk'[x] == ByteAt(r, x)
  {
    if End(r) > |disk| {
      disk', ret := disk, -EIO;
      return;
    }
    ret := move.ret;
    var data := if ret >= 0 || |move.torn| != |Flat(r.iov)| then Flat(r.iov) else move.torn;
    disk' := disk[..Start(r)] + data + disk[End(r)..];
  }

  /** Where every write that covers a byte has succeeded, the disk holds the last of them, or what it held. */
  ghost predicate DiskIs(disk': seq<byte>, disk: seq<byte>, done: seq<Request>, rets: seq<int>) {
    && |disk'| == |disk| && |done| == |rets|
    && forall x: nat :: x < |disk| && (forall k :: 0 <= k < |done| && Covers(done[k], x) ==> rets[k] >= 0) ==>
      disk'[x] == GetOr(LastWrite(done, x), disk[x])
  }

  lemma PerformedIs(disk'': seq<byte>, disk': seq<byte>, disk: seq<byte>, done: seq<Request>, rets: seq<int>,
                    r: Request, ret: int)
    requires DiskIs(disk', disk, done, rets) && |disk''| == |disk'|
    requires forall x: nat :: x < |disk'| && !Covers(r, x) ==> disk''[x] == disk'[x]
    requires ret >= 0 ==> forall x: nat :: x < |disk'| && Covers(r, x) ==> disk''[x] == ByteAt(r, x)
    ensures DiskIs(disk'', disk, done + [r], rets + [ret])
  {
    var done', rets' := done + [r], rets + [ret];
    forall x: nat | x < |disk| && (forall k :: 0 <= k < |done'| && Covers(done'[k], x) ==> rets'[k] >= 0)
      ensures disk''[x] == GetOr(LastWrite(done', x), disk[x])
    {
      LastWriteAppend(done, r, x);
      assert Covers(done'[|done|], x) ==> rets'[|done|] >= 0;
      forall k | 0 <= k < |done| && Covers(done[k], x) ensures rets[k] >= 0 {
        assert done'[k] == done[k] && rets'[k] == rets[k];
      }
    }
  }

  lemma TakeOut(left: seq<Request>, k: nat)
    requires k < |left|
    ensures multiset(left) == multiset(left[..k] + left[k + 1..]) + multiset{left[k]}
  {
    assert left == left[..k] + [left[k]] + left[k + 1..];
  }

  lemma OutcomesMore(done: seq<Request>, r: Request, env: nat -> Move, size: nat)
    ensures Outcomes(done + [r], env, size) == Outcomes(done, env, size) + [Outcome(r, env(|done|), size)]
  {
  }

  /** The first |done| requests are back, in the order that `env` gives. */
  ghost predicate Awaiting(mcb: Completion, flight: seq<Request>, left: seq<Request>, done: seq<Request>,
                           disk: seq<byte>, disk': seq<byte>, env: nat -> Move)
    reads mcb
  {
    && mcb.Valid() && |left| == mcb.numRequests && |done| + |left| == |flight|
    && done + Arrivals(left, env, |done|) == Arrivals(flight, env, 0)
    && mcb.results == Outcomes(done, env, |disk|)
    && DiskIs(disk', disk, done, mcb.results)
  }

  /** One request comes back. */
  method AwaitOne(mcb: Completion, left: seq<Request>, now: seq<byte>, move: Move, ghost flight: seq<Request>,
                  ghost done: seq<Request>, ghost disk: seq<byte>, ghost env: nat -> Move)
    returns (left': seq<Request>, now': seq<byte>, ghost done': seq<Request>)
    requires left != [] && move == env(|done|) && Awaiting(mcb, flight, left, done, disk, now, env)
    modifies mcb
    ensures Awaiting(mcb, flight, left', done', disk, now', env) && |done'| == |done| + 1 && |left'| == |left| - 1
  {
    var k := move.pick % |left|;
    var r := left[k];
    ghost var rets := mcb.results;
    var ret;
    now', ret := Perform(now, r, move);
    PerformedIs(now', now, disk, done, rets, r, ret);
    OutcomesMore(done, r, env, |disk|);
    mcb.Complete(ret);
    left', done' := left[..k] + left[k + 1..], done + [r];
    Assoc(done, [r], Arrivals(left', env, |done| + 1));
  }

  /** The requests in flight come back one by one, in any order and with any results. */
  method AwaitAll(mcb: Completion, flight: seq<Request>, disk: seq<byte>, env: nat -> Move)
    returns (disk': seq<byte>, ghost done: seq<Request>)
    requires mcb.Valid() && mcb.results == [] && |flight| == mcb.numRequests == mcb.total > 0
    modifies mcb
    ensures mcb.Valid() && mcb.numRequests == 0
    ensures done == Arrivals(flight, env, 0) && multiset(done) == multiset(flight)
    ensures mcb.results == Outcomes(done, env, |disk|)
    ensures DiskIs(disk', disk, done, mcb.results)
  {
    disk', done := disk, [];
    var left, n := flight, 0;
    ArrivalsAll(flight, env, 0);
    while left != []
      invariant n == |done| && Awaiting(mcb, flight, left, done, disk, disk', env)
      decreases |left|
    {
      left, disk', done := AwaitOne(mcb, left, disk', env(n), flight, done, disk, env);
      n := n + 1;
    }
  }

  /** What a batch leaves on the disk: nothing outside its requests changes, and if no request fails and
      the batch has no overlaps, every byte is as if the requests had been written one by one. */
  ghost predicate BatchWritten(batch: seq<Request>, disk: seq<byte>, disk': seq<byte>, error: int) {
    && |disk'| == |disk|
    && (forall x: nat :: x < |disk| && LastWrite(batch, x).None? ==> disk'[x] == disk[x])
    && (error == 0 && NoOverlap(batch) ==>
      forall x: nat :: x < |disk| ==> disk'[x] == GetOr(LastWrite(batch, x), disk[x]))
  }

  lemma Untouched(batch: seq<Request>, out: seq<Request>, done: seq<Request>, x: nat)
    requires Derived(batch, out) && multiset(done) == multiset(out) && LastWrite(batch, x).None?
    ensures LastWrite(done, x).None? && forall k :: 0 <= k < |done| ==> !Covers(done[k], x)
  {
    LastWriteIs(batch, x);
    LastWriteIs(done, x);
    SameMembers(done, out);
    forall k | 0 <= k < |done| ensures !Covers(done[k], x) {
      assert done[k] in out;
    }
  }

  lemma AllWritten(batch: seq<Request>, sorted: seq<Request>, out: seq<Request>, done: seq<Request>, rets: seq<int>,
                   disk: seq<byte>, disk': seq<byte>)
    requires multiset(sorted) == multiset(batch) && Sorted(sorted) && MergeSpec(sorted, out) && Derived(sorted, out)
    requires multiset(done) == multiset(out) && DiskIs(disk', disk, done, rets)
    ensures BatchWritten(batch, disk, disk', FirstError(rets))
  {
    DerivedFromMembers(batch, sorted, out);
    NoError(rets);
    forall x: nat | x < |disk| && LastWrite(batch, x).None? ensures disk'[x] == disk[x] {
      Untouched(batch, out, done, x);
    }
    if FirstError(rets) == 0 && NoOverlap(batch) {
      forall x: nat | x < |disk| ensures disk'[x] == GetOr(LastWrite(batch, x), disk[x]) {
        MergeKeepsBatch(batch, sorted, out, done, x);
      }
    }
  }

  /** When the environment fails no write, the batch fails only if one of its requests ends past the end of the
      disk; without overlaps and repetitions, exactly then. */
  ghost predicate ErrorIs(batch: seq<Request>, size: nat, error: int) {
    && ((forall r :: r in batch ==> End(r) <= size) ==> error == 0)
    && (NoOverlap(batch) && NoneTwice(batch) && error == 0 ==> forall r :: r in batch ==> End(r) <= size)
  }

  lemma LastEnds(reqs: seq<Request>, r: Request)
    requires Chained(reqs) && r in reqs
    ensures End(r) <= End(reqs[|reqs| - 1])
  {
    var n := |reqs| - 1;
    var i :| 0 <= i <= n && reqs[i] == r;
    assert i < n ==> End(reqs[i]) <= Start(reqs[n]);
  }

  lemma ErrorOf(batch: seq<Request>, sorted: seq<Request>, out: seq<Request>, done: seq<Request>, env: nat -> Move,
                size: nat)
    requires multiset(sorted) == multiset(batch) && Derived(sorted, out) && multiset(done) == multiset(out)
    requires StaysApart(sorted, out) && (NoOverlap(batch) && NoneTwice(batch) ==> Chained(sorted))
    requires forall n: nat :: env(n).ret >= 0
    ensures ErrorIs(batch, size, FirstError(Outcomes(done, env, size)))
  {
    var rets := Outcomes(done, env, size);
    NoError(rets);
    SameMembers(batch, sorted);
    SameMembers(done, out);
    if forall r :: r in batch ==> End(r) <= size {
      forall k | 0 <= k < |rets| ensures rets[k] >= 0 {
        assert done[k] in out;
        var r :| r in sorted && End(r) == End(done[k]);
        assert r in batch;
      }
    }
    if NoOverlap(batch) && NoneTwice(batch) && FirstError(rets) == 0 {
      var last := out[|out| - 1];
      assert last in done;
      var k :| 0 <= k < |done| && done[k] == last;
      assert rets[k] >= 0;
      forall r | r in batch ensures End(r) <= size {
        LastEnds(sorted, r);
      }
    }
  }

  /** A batch with a medium: `flight` is what is submitted, the front of the array after the merge; `rets` are the
      results in the order in which they come in. */
  ghost predicate BatchRun(batch: seq<Request>, after: seq<Request>, disk: seq<byte>, disk': seq<byte>,
                           events: seq<Event>, env: nat -> Move, flight: seq<Request>, rets: seq<int>)
  {
    && |flight| <= |batch| && flight <= after && (batch != [] ==> flight != [])
    && rets == Outcomes(Arrivals(flight, env, 0), env, |disk|)
    && events == Results(rets) + Callbacks(|batch|, FirstError(rets))
    && BatchWritten(batch, disk, disk', FirstError(rets))
    && ((forall n: nat :: env(n).ret >= 0) ==> ErrorIs(batch, |disk|, FirstError(rets)))
    && (Small(batch) ==> Small(flight))
    && (NoOverlap(batch) && NoneTwice(batch) ==> Chained(flight))
  }

  method RunBatch(reqs: array<Request>, disk: seq<byte>, env: nat -> Move)
    returns (disk': seq<byte>, events: seq<Event>, ghost flight: seq<Request>, ghost rets: seq<int>)
    requires reqs.Length > 0 && forall k :: 0 <= k < reqs.Length ==> RequestOk(reqs[k])
    modifies reqs
    ensures BatchRun(old(reqs[..]), reqs[..], disk, disk', events, env, flight, rets)
  {
    ghost var batch := reqs[..];
    var n, sorted := Merge(reqs);
    var mcb := new Completion(n, reqs.Length);
    flight := reqs[..n];
    ghost var done;
    disk', done := AwaitAll(mcb, reqs[..n], disk, env);
    events, rets := mcb.events, mcb.results;
    AllWritten(batch, sorted, flight, done, rets, disk, disk');
    if forall n: nat :: env(n).ret >= 0 {
      ErrorOf(batch, sorted, flight, done, env, |disk|);
    }
  }

  /** bdrv_aio_multiwrite, run until every callback has been called.  `env` moves the requests in flight. */
  method AioMultiwrite(medium: bool, reqs: array<Request>, errors: array<int>, disk: seq<byte>, env: nat -> Move)
    returns (ret: int, disk': seq<byte>, events: seq<Event>, ghost flight: seq<Request>, ghost rets: seq<int>)
    requires errors.Length == reqs.Length && forall k :: 0 <= k < reqs.Length ==> RequestOk(reqs[k])
    modifies reqs, errors
    ensures !medium ==> ret == -1 && disk' == disk && events == [] && reqs[..] == old(reqs[..])
    ensures forall k :: 0 <= k < errors.Length ==> errors[k] == if medium then old(errors[k]) else -ENOMEDIUM
    ensures medium ==> ret == 0 && BatchRun(old(reqs[..]), reqs[..], disk, disk', events, env, flight, rets)
  {
    ret, disk', events, flight, rets := 0, disk, [], [], [];
    if !medium {
      for i := 0 to reqs.Length
        invariant forall k :: 0 <= k < errors.Length ==> errors[k] == if k < i then -ENOMEDIUM else old(errors[k])
        invariant reqs[..] == old(reqs[..])
      {
        errors[i] := -ENOMEDIUM;
      }
      ret := -1;
    } else if reqs.Length > 0 {
      disk', events, flight, rets := RunBatch(reqs, disk, env);
    }
  }
}
