/**
  Requests in flight on one block device (block.c): tracked requests, waiting for overlapping ones,
  copy-on-read.

  The device is a transition system.  Each step is what one coroutine does between two points at which
  it can be switched out; the block driver may serve the sectors of a request in any order, interleaved
  with other requests, and may fail at any point.
 */
module TrackedRequests {
  import opened Options

  // ----- regions -----

  /** QEMU_ALIGN_UP */
  function AlignUp(x: nat, c: nat): nat
    requires c > 0
  {
    (x + c - 1) / c * c
  }

  /** bdrv_round_to_clusters: where the rounded region starts. */
  function RoundStart(c: nat, sector: nat): (start: nat)
    requires c > 0
  {
    sector / c * c
  }

  function RoundEnd(c: nat, sector: nat, nb: nat): nat
    requires c > 0
  {
    RoundStart(c, sector) + AlignUp(sector - RoundStart(c, sector) + nb, c)
  }

  lemma Below(c: nat, x: nat)
    requires c > 0
    ensures x / c * c <= x < x / c * c + c
  {
  }

  /** tracked_request_overlaps */
  predicate RegionsOverlap(sector: nat, nb: nat, start: nat, end: nat) {
    !(start >= sector + nb) && !(sector >= end)
  }

  predicate InBoth(n: nat, sector: nat, nb: nat, start: nat, end: nat) {
    sector <= n < sector + nb && start <= n < end
  }

  /** The test tells whether there is a common sector, but also takes an empty stretch strictly inside the other for an
      overlap. */
  lemma OverlapIff(sector: nat, nb: nat, start: nat, end: nat)
    requires start <= end
    ensures RegionsOverlap(sector, nb, start, end) <==>
      || (exists n :: InBoth(n, sector, nb, start, end))
      || (nb == 0 && start < sector < end) || (start == end && sector < start < sector + nb)
  {
    if RegionsOverlap(sector, nb, start, end) && nb > 0 && start < end {
      assert InBoth(if sector < start then start else sector, sector, nb, start, end);
    }
  }

  lemma Scale(j: nat, k: nat, c: nat)
    requires j < k
    ensures j * c + c <= k * c
  {
    var m := k - j - 1;
    assert (j + 1 + m) * c == j * c + c + m * c;
  }

  /** A multiple of `c` at or below `x` is at most RoundStart; one at or above `x` is at least AlignUp. */
  lemma FloorIsGreatest(c: nat, x: nat, k: nat)
    requires c > 0 && k * c <= x
    ensures k * c <= x / c * c
  {
    Below(c, x);
    if k > x / c {
      Scale(x / c, k, c);
    } else if k < x / c {
      Scale(k, x / c, c);
    }
  }

  lemma CeilingIsLeast(c: nat, x: nat, k: nat)
    requires c > 0 && x <= k * c
    ensures AlignUp(x, c) <= k * c
  {
    var q := (x + c - 1) / c;
    Below(c, x + c - 1);
    if q > k {
      Scale(k, q, c);
    } else if q < k {
      Scale(q, k, c);
    }
  }

  lemma AddMultiple(c: nat, x: nat, k: nat)
    requires c > 0
    ensures AlignUp(x, c) + k * c == AlignUp(x + k * c, c)
  {
    var q, p := (x + c - 1) / c, (x + k * c + c - 1) / c;
    Below(c, x + c - 1);
    Below(c, x + k * c + c - 1);
    assert (q + k) * c == q * c + k * c;
    if p < q + k {
      Scale(p, q + k, c);
    } else if p > q + k {
      Scale(q + k, p, c);
    }
  }

  /** The rounded region ends at the first cluster boundary at or after the request's end. */
  lemma RoundEndIs(c: nat, sector: nat, nb: nat)
    requires c > 0
    ensures RoundEnd(c, sector, nb) == AlignUp(sector + nb, c)
  {
    Below(c, sector);
    AddMultiple(c, sector - RoundStart(c, sector) + nb, sector / c);
  }

  /** A request that the overlap test against a rounded region lets through has a rounded region of its
      own that is disjoint from it. */
  lemma RoundedDisjoint(c: nat, sa: nat, na: nat, sb: nat, nb: nat)
    requires c > 0 && !RegionsOverlap(sb, nb, RoundStart(c, sa), RoundEnd(c, sa, na))
    ensures RoundEnd(c, sb, nb) <= RoundStart(c, sa) || RoundEnd(c, sa, na) <= RoundStart(c, sb)
  {
    RoundEndIs(c, sa, na);
    RoundEndIs(c, sb, nb);
    if RoundStart(c, sa) >= sb + nb {
      CeilingIsLeast(c, sb + nb, sa / c);
    } else {
      FloorIsGreatest(c, sb, (sa + na + c - 1) / c);
    }
  }

  lemma RawInsideRounded(c: nat, sector: nat, nb: nat)
    requires c > 0
    ensures RoundStart(c, sector) <= sector && sector + nb <= RoundEnd(c, sector, nb)
  {
    Below(c, sector);
    RoundEndIs(c, sector, nb);
    Below(c, sector + nb + c - 1);
  }

  datatype Region = Region(start: nat, end: nat)

  type Rounding = (nat, nat) -> Region

  /** bdrv_round_to_clusters, for a driver that reports a cluster size of `c` sectors, or none. */
  function Rounded(c: Option<nat>): Rounding
    requires c.Some? ==> c.value > 0
  {
    (sector: nat, nb: nat) =>
      if c.None? then Region(sector, sector + nb)
      else Region(RoundStart(c.value, sector), RoundEnd(c.value, sector, nb))
  }

  /** What the rest relies on: the rounded region holds the request's own, and what the overlap test lets
      through has a disjoint rounded region. */
  ghost predicate RoundingOk(round: Rounding) {
    && (forall s: nat, n: nat {:trigger round(s, n)} :: round(s, n).start <= s && s + n <= round(s, n).end)
    && (forall sa: nat, na: nat, sb: nat, nb: nat {:trigger Separates(round, sa, na, sb, nb)} ::
          Separates(round, sa, na, sb, nb))
  }

  ghost predicate Separates(round: Rounding, sa: nat, na: nat, sb: nat, nb: nat) {
    var a, b := round(sa, na), round(sb, nb);
    !RegionsOverlap(sb, nb, a.start, a.end) ==> b.end <= a.start || a.end <= b.start
  }

  lemma RoundedOk(c: Option<nat>)
    requires c.Some? ==> c.value > 0
    ensures RoundingOk(Rounded(c))
  {
    var round := Rounded(c);
    if c.Some? {
      forall s: nat, n: nat ensures round(s, n).start <= s && s + n <= round(s, n).end {
        RawInsideRounded(c.value, s, n);
      }
      forall sa: nat, na: nat, sb: nat, nb: nat ensures Separates(round, sa, na, sb, nb) {
        SeparatesRounded(c.value, sa, na, sb, nb);
      }
    }
  }

  lemma SeparatesRounded(c: nat, sa: nat, na: nat, sb: nat, nb: nat)
    requires c > 0
    ensures Separates(Rounded(Some(c)), sa, na, sb, nb)
  {
    if !RegionsOverlap(sb, nb, RoundStart(c, sa), RoundEnd(c, sa, na)) {
      RoundedDisjoint(c, sa, na, sb, nb);
    }
  }

  // ----- the device -----

  datatype Kind = Read | Write(data: map<nat, int>) | CopyOnRead

  /** A request has not begun, waits in the queue of a tracked request, is tracked, or is over. */
  datatype Phase =
    | Ready(woken: bool)
    | Waiting(on: nat)
    | Tracked(plan: Plan)
    | Over(ok: bool)

  /** What a tracked copy-on-read request does once it knows what is allocated. */
  datatype Plan = Undecided | Plain | Copy

  /** `buf` holds the sectors read so far, `written` the sectors written, `filled` the sectors the
      driver has copied up from the backing file while allocating for this request. */
  datatype Request = Request(kind: Kind, sector: nat, nb: nat, phase: Phase,
    buf: map<nat, int>, written: set<nat>, filled: set<nat>)

  datatype Device = Device(
    round: Rounding, backing: map<nat, int>, image: map<nat, int>, reqs: seq<Request>,
      tracked: seq<nat>, copiesInFlight: int)

  /** What the guest sees in a sector: the image where it is allocated, else the backing file, which
      reads as zeroes past its end. */
  function Content(d: Device, n: nat): int {
    if n in d.image then d.image[n] else At(d.backing, n)
  }

  function At(m: map<nat, int>, n: nat): int {
    if n in m then m[n] else 0
  }

  predicate InRaw(r: Request, n: nat) { r.sector <= n < r.sector + r.nb }

  /** The request's rounded region. */
  function FootOf(d: Device, r: Request): Region { d.round(r.sector, r.nb) }

  predicate InFoot(d: Device, r: Request, n: nat)
  {
    FootOf(d, r).start <= n < FootOf(d, r).end
  }

  /** The sectors a tracked request reads. */
  predicate Reads(d: Device, r: Request, n: nat)
  {
    && r.phase.Tracked? && !r.kind.Write? && !r.phase.plan.Undecided?
    && if r.phase.plan.Copy? then InFoot(d, r, n) else InRaw(r, n)
  }

  /** The sectors a tracked request writes: its own, or, copying, its whole rounded region. */
  predicate Writes(d: Device, r: Request, n: nat)
  {
    r.phase.Tracked? && if r.kind.Write? then InRaw(r, n) else r.phase.plan.Copy? && InFoot(d, r, n)
  }

  // ----- steps -----

  /** `brief`: the driver answers for fewer sectors than it was asked about. */
  datatype Step =
    | Arrive(kind: Kind, sector: nat, nb: nat)
    | Schedule(i: nat)
    | Decide(i: nat, brief: bool)
    | ReadSector(i: nat, n: nat)
    | WriteSector(i: nat, n: nat)
    | FillSector(i: nat, n: nat)
    | Finish(i: nat, ok: bool)

  /** wait_for_overlapping_requests, one pass: the first tracked request that overlaps. */
  function FirstOverlap(d: Device, tracked: seq<nat>, r: Request): (t: Option<nat>)
    requires forall k :: 0 <= k < |tracked| ==> tracked[k] < |d.reqs|
    ensures t.Some? ==> t.value in tracked && t.value < |d.reqs| && OverlapsRounded(d, d.reqs[t.value], r)
    ensures t.None? ==> forall k :: 0 <= k < |tracked| ==> !OverlapsRounded(d, d.reqs[tracked[k]], r)
  {
    if tracked == [] then None
    else if OverlapsRounded(d, d.reqs[tracked[0]], r) then Some(tracked[0])
    else FirstOverlap(d, tracked[1..], r)
  }

  /** No request before the one found overlaps. */
  lemma {:induction false} FirstOverlapIsFirst(d: Device, tracked: seq<nat>, r: Request) returns (k: nat)
    requires forall k :: 0 <= k < |tracked| ==> tracked[k] < |d.reqs|
    requires FirstOverlap(d, tracked, r).Some?
    ensures k < |tracked| && tracked[k] == FirstOverlap(d, tracked, r).value
    ensures forall j :: 0 <= j < k ==> !OverlapsRounded(d, d.reqs[tracked[j]], r)
  {
    if OverlapsRounded(d, d.reqs[tracked[0]], r) {
      k := 0;
    } else {
      var i := FirstOverlapIsFirst(d, tracked[1..], r);
      k := i + 1;
      assert forall j :: 0 < j < k ==> tracked[j] == tracked[1..][j - 1];
    }
  }

  predicate OverlapsRounded(d: Device, t: Request, r: Request)
  {
    RegionsOverlap(t.sector, t.nb, FootOf(d, r).start, FootOf(d, r).end)
  }

  ghost predicate AllAllocated(d: Device, r: Request) { forall n: nat :: InRaw(r, n) ==> n in d.image }

  ghost predicate AllRead(d: Device, r: Request)
  {
    forall n: nat :: Reads(d, r, n) ==> n in r.buf
  }

  ghost predicate AllWritten(d: Device, r: Request)
  {
    forall n: nat :: Writes(d, r, n) ==> n in r.written
  }

  ghost predicate Enabled(d: Device, step: Step)
  {
    match step
    case Arrive(kind, sector, nb) => kind.Write? ==> forall n :: sector <= n < sector + nb ==> n in kind.data
    case Schedule(i) => i < |d.reqs| && d.reqs[i].phase.Ready?
    case Decide(i, _) => i < |d.reqs| && d.reqs[i].phase == Tracked(Undecided)
    case ReadSector(i, n) => i < |d.reqs| && Reads(d, d.reqs[i], n) && n !in d.reqs[i].buf
    case WriteSector(i, n) => i < |d.reqs| && Writes(d, d.reqs[i], n)
      && n !in d.reqs[i].written && AllRead(d, d.reqs[i])
    case FillSector(i, n) =>
      && i < |d.reqs| && d.reqs[i].phase.Tracked? && (d.reqs[i].kind.Write? || d.reqs[i].phase.plan.Copy?)
      && InFoot(d, d.reqs[i], n) && n !in d.image && n !in d.reqs[i].filled
    case Finish(i, ok) =>
      && i < |d.reqs| && d.reqs[i].phase.Tracked?
      && (ok ==> d.reqs[i].phase.plan != Undecided && AllRead(d, d.reqs[i]) && AllWritten(d, d.reqs[i]))
  }

  /** qemu_co_queue_restart_all, for the queue of request `t`. */
  function Wake(reqs: seq<Request>, t: nat): (woken: seq<Request>)
    ensures |woken| == |reqs|
    ensures forall k :: 0 <= k < |reqs| ==>
      woken[k] == if reqs[k].phase == Waiting(t) then reqs[k].(phase := Ready(true)) else reqs[k]
  {
    seq(|reqs|, k requires 0 <= k < |reqs| =>
      if reqs[k].phase == Waiting(t) then reqs[k].(phase := Ready(true)) else reqs[k])
  }

  ghost predicate Distinct(s: seq<nat>) {
    s == [] || (s[0] !in s[1..] && Distinct(s[1..]))
  }

  function Remove(s: seq<nat>, x: nat): (t: seq<nat>)
    ensures forall y :: y in t <==> y in s && y != x
    ensures Distinct(s) ==> Distinct(t)
  {
    if s == [] then []
    else if s[0] == x then Remove(s[1..], x)
    else [s[0]] + Remove(s[1..], x)
  }

  /** The first plan of a request that begins: only copy-on-read looks at the allocation first. */
  function FirstPlan(kind: Kind): Plan { if kind.CopyOnRead? then Undecided else Plain }

  ghost predicate InRange(d: Device) { forall k :: 0 <= k < |d.tracked| ==> d.tracked[k] < |d.reqs| }

  ghost function Apply(d: Device, step: Step): Device
    requires Enabled(d, step)
    requires InRange(d)
  {
    match step
    case Arrive(kind, sector, nb) =>
      d.(reqs := d.reqs + [Request(kind, sector, nb, Ready(false), map[], {}, {})],
         copiesInFlight := d.copiesInFlight + if kind.CopyOnRead? then 1 else 0)
    case Schedule(i) =>
      var r := d.reqs[i];
      var t := if r.phase.woken || d.copiesInFlight > 0 then FirstOverlap(d, d.tracked, r) else None;
      if t.Some? then d.(reqs := d.reqs[i := r.(phase := Waiting(t.value))])
      else d.(reqs := d.reqs[i := r.(phase := Tracked(FirstPlan(r.kind)))], tracked := [i] + d.tracked)
    case Decide(i, brief) =>
      var r := d.reqs[i];
      d.(reqs := d.reqs[i := r.(phase := Tracked(if AllAllocated(d, r) && !brief then Plain else Copy))])
    case ReadSector(i, n) =>
      var r := d.reqs[i];
      d.(reqs := d.reqs[i := r.(buf := r.buf[n := Content(d, n)])])
    case WriteSector(i, n) =>
      var r := d.reqs[i];
      var v := if r.kind.Write? then At(r.kind.data, n) else At(r.buf, n);
      d.(reqs := d.reqs[i := r.(written := r.written + {n})], image := d.image[n := v])
    case FillSector(i, n) =>
      var r := d.reqs[i];
      d.(reqs := d.reqs[i := r.(filled := r.filled + {n})], image := d.image[n := At(d.backing, n)])
    case Finish(i, ok) =>
      var r := d.reqs[i];
      d.(reqs := Wake(d.reqs[i := r.(phase := Over(ok))], i), tracked := Remove(d.tracked, i),
         copiesInFlight := d.copiesInFlight - if r.kind.CopyOnRead? then 1 else 0)
  }

  // ----- the invariant -----

  /** Requests that have begun to be served and are not over, and are copies. */
  ghost function CountCopies(reqs: seq<Request>): nat {
    if reqs == [] then 0 else (if IsCopy(reqs[0]) then 1 else 0) + CountCopies(reqs[1..])
  }

  predicate IsCopy(r: Request) { r.kind.CopyOnRead? && !r.phase.Over? }

  /** The tracked list holds each tracked request once. */
  ghost predicate ListOk(d: Device) {
    && Distinct(d.tracked)
    && InRange(d)
    && (forall i: nat :: i in d.tracked <==> i < |d.reqs| && d.reqs[i].phase.Tracked?)
  }

  /** Two tracked requests, one of them copying on read, share no cluster. */
  ghost predicate Exclusive(d: Device, i: nat, j: nat)
    requires i < |d.reqs| && j < |d.reqs|
  {
    var a, b := d.reqs[i], d.reqs[j];
    i != j && a.phase.Tracked? && b.phase.Tracked? && a.kind.CopyOnRead? ==>
      FootOf(d, b).end <= FootOf(d, a).start || FootOf(d, a).end <= FootOf(d, b).start
  }

  /** A request is as its phase says: it waits only for a tracked request, and what a copy has read is
      still what the guest sees. */
  ghost predicate RequestOk(d: Device, i: nat)
    requires i < |d.reqs|
  {
    var r := d.reqs[i];
    && (r.kind.Write? ==> forall n :: r.sector <= n < r.sector + r.nb ==> n in r.kind.data)
    && (r.phase.Waiting? ==> r.phase.on < |d.reqs| && r.phase.on != i && d.reqs[r.phase.on].phase.Tracked?)
    && (r.phase.Tracked? && !r.kind.CopyOnRead? ==> r.phase.plan == Plain)
    && (r.phase.Tracked? && r.kind.CopyOnRead? && r.phase.plan.Plain? ==> AllAllocated(d, r))
    && (r.phase.Ready? || r.phase.Waiting? ==> r.buf == map[] && r.written == {} && r.filled == {})
    && (r.phase.Tracked? ==> forall n :: n in r.buf ==> InFoot(d, r, n))
    && (r.phase.Tracked? && r.kind.CopyOnRead? ==> forall n :: n in r.buf ==> r.buf[n] == Content(d, n))
    && (r.phase.Tracked? ==> forall n :: n in r.written || n in r.filled ==> InFoot(d, r, n) && n in d.image)
  }

  ghost predicate Inv(d: Device) {
    && RoundingOk(d.round) && ListOk(d)
    && d.copiesInFlight == CountCopies(d.reqs)
    && (forall i: nat, j: nat :: i < |d.reqs| && j < |d.reqs| ==> Exclusive(d, i, j))
    && (forall i: nat :: i < |d.reqs| ==> RequestOk(d, i))
  }

  // ----- counting copies -----

  lemma {:induction false} CopiesUpdate(reqs: seq<Request>, i: nat, r: Request)
    requires i < |reqs|
    ensures CountCopies(reqs[i := r]) + (if IsCopy(reqs[i]) then 1 else 0)
      == CountCopies(reqs) + (if IsCopy(r) then 1 else 0)
  {
    if i == 0 {
      assert reqs[i := r][1..] == reqs[1..];
    } else {
      assert reqs[i := r][1..] == reqs[1..][i - 1 := r];
      CopiesUpdate(reqs[1..], i - 1, r);
    }
  }

  lemma {:induction false} CopiesAppend(reqs: seq<Request>, r: Request)
    ensures CountCopies(reqs + [r]) == CountCopies(reqs) + if IsCopy(r) then 1 else 0
  {
    if reqs == [] {
      assert reqs + [r] == [r] && [r][1..] == [];
    } else {
      assert (reqs + [r])[1..] == reqs[1..] + [r];
      CopiesAppend(reqs[1..], r);
    }
  }

  lemma {:induction false} CopiesSame(reqs: seq<Request>, reqs': seq<Request>)
    requires |reqs| == |reqs'| && forall k :: 0 <= k < |reqs| ==> IsCopy(reqs[k]) == IsCopy(reqs'[k])
    ensures CountCopies(reqs) == CountCopies(reqs')
  {
    if reqs != [] {
      CopiesSame(reqs[1..], reqs'[1..]);
    }
  }

  lemma {:induction false} CopyCounts(reqs: seq<Request>, i: nat)
    requires i < |reqs| && IsCopy(reqs[i])
    ensures CountCopies(reqs) > 0
  {
    if i > 0 {
      CopyCounts(reqs[1..], i - 1);
    }
  }

  // ----- every step keeps the invariant -----

  /** A request that a step leaves alone stays well-formed when what it has read stays the same. */
  lemma OtherOk(d: Device, d': Device, k: nat)
    requires d'.round == d.round && k < |d.reqs| <= |d'.reqs|
    requires RequestOk(d, k) && d'.reqs[k] == d.reqs[k]
    requires d.image.Keys <= d'.image.Keys
    requires d.reqs[k].phase.Waiting? ==> d'.reqs[d.reqs[k].phase.on].phase.Tracked?
    requires d.reqs[k].phase.Tracked? && d.reqs[k].kind.CopyOnRead? ==>
      forall n: nat :: InFoot(d, d.reqs[k], n) ==> Content(d', n) == Content(d, n)
    ensures RequestOk(d', k)
  {
    var r := d.reqs[k];
    if r.phase.Tracked? {
      forall n | n in r.buf || n in r.written || n in r.filled ensures InFoot(d', r, n) {
        assert InFoot(d, r, n);
      }
    }
  }

  /** Exclusion depends only on which requests are tracked and where they are. */
  lemma SameExclusive(d: Device, d': Device, i: nat, j: nat)
    requires d'.round == d.round
    requires i < |d.reqs| && j < |d.reqs| && |d.reqs| <= |d'.reqs| && Exclusive(d, i, j)
    requires SamePlace(d.reqs[i], d'.reqs[i]) && SamePlace(d.reqs[j], d'.reqs[j])
    ensures Exclusive(d', i, j)
  {
  }

  /** The same region and kind, and tracked only if it was. */
  predicate SamePlace(r: Request, r': Request) {
    r'.kind == r.kind && r'.sector == r.sector && r'.nb == r.nb && (r'.phase.Tracked? ==> r.phase.Tracked?)
  }

  /** Steps that only change one tracked request and the image. */
  ghost predicate OneTracked(d: Device, d': Device, i: nat) {
    && i < |d.reqs| && |d'.reqs| == |d.reqs|
    && d' == d.(reqs := d'.reqs, image := d'.image) && d'.reqs == d.reqs[i := d'.reqs[i]]
    && d.reqs[i].phase.Tracked? && d'.reqs[i].phase.Tracked? && SamePlace(d.reqs[i], d'.reqs[i])
    && d.image.Keys <= d'.image.Keys
  }

  lemma InvOneTracked(d: Device, d': Device, i: nat)
    requires Inv(d) && OneTracked(d, d', i) && RequestOk(d', i)
    requires forall k: nat, n: nat :: k < |d.reqs| && k != i && CopyHolds(d, k, n) ==> Content(d', n) == Content(d, n)
    ensures Inv(d')
  {
    CopiesUpdate(d.reqs, i, d'.reqs[i]);
    forall k: nat | k < |d'.reqs| ensures RequestOk(d', k) {
      if k != i {
        assert RequestOk(d, k);
        forall n: nat | d.reqs[k].phase.Tracked? && d.reqs[k].kind.CopyOnRead? && InFoot(d, d.reqs[k], n)
          ensures Content(d', n) == Content(d, n)
        {
          assert CopyHolds(d, k, n);
        }
        OtherOk(d, d', k);
      }
    }
    forall k: nat, j: nat | k < |d'.reqs| && j < |d'.reqs| ensures Exclusive(d', k, j) {
      assert Exclusive(d, k, j);
      SameExclusive(d, d', k, j);
    }
  }

  /** Sector `n` belongs to the tracked copy-on-read request `k`. */
  ghost predicate CopyHolds(d: Device, k: nat, n: nat)
  {
    k < |d.reqs| && d.reqs[k].phase.Tracked? && d.reqs[k].kind.CopyOnRead? && InFoot(d, d.reqs[k], n)
  }

  /** No other tracked request touches the region of a copy. */
  lemma CopyAlone(d: Device, k: nat, i: nat, n: nat)
    requires Inv(d) && CopyHolds(d, k, n) && i < |d.reqs| && i != k && d.reqs[i].phase.Tracked?
    ensures !InFoot(d, d.reqs[i], n) && !InRaw(d.reqs[i], n)
  {
    assert Exclusive(d, k, i);
  }

  lemma InvDecide(d: Device, i: nat, brief: bool)
    requires Inv(d) && Enabled(d, Decide(i, brief))
    ensures Inv(Apply(d, Decide(i, brief)))
  {
    var d' := Apply(d, Decide(i, brief));
    assert RequestOk(d, i);
    assert forall n: nat :: InFoot(d, d.reqs[i], n) == InFoot(d', d'.reqs[i], n) && Content(d', n) == Content(d, n);
    InvOneTracked(d, d', i);
  }

  lemma InvRead(d: Device, i: nat, n: nat)
    requires Inv(d) && Enabled(d, ReadSector(i, n))
    ensures Inv(Apply(d, ReadSector(i, n)))
  {
    var d' := Apply(d, ReadSector(i, n));
    assert RequestOk(d, i);
    assert forall m: nat :: InFoot(d, d.reqs[i], m) == InFoot(d', d'.reqs[i], m) && Content(d', m) == Content(d, m);
    InvOneTracked(d, d', i);
  }

  /** What one write changes of what the guest sees: a guest write its sector, a copy nothing. */
  lemma WriteContent(d: Device, i: nat, n: nat, m: nat)
    requires Inv(d) && Enabled(d, WriteSector(i, n))
    ensures
      var d' := Apply(d, WriteSector(i, n));
      Content(d', m) == if m == n && d.reqs[i].kind.Write? then At(d.reqs[i].kind.data, n) else Content(d, m)
  {
    assert RequestOk(d, i);
    if !d.reqs[i].kind.Write? {
      assert Reads(d, d.reqs[i], n);
    }
  }

  lemma InvWrite(d: Device, i: nat, n: nat)
    requires Inv(d) && Enabled(d, WriteSector(i, n))
    ensures Inv(Apply(d, WriteSector(i, n)))
  {
    var d' := Apply(d, WriteSector(i, n));
    assert RequestOk(d, i);
    forall m: nat ensures InFoot(d, d.reqs[i], m) == InFoot(d', d'.reqs[i], m) {
    }
    forall m: nat ensures d.reqs[i].kind.CopyOnRead? ==> Content(d', m) == Content(d, m) {
      WriteContent(d, i, n, m);
    }
    forall k: nat, m: nat | k < |d.reqs| && k != i && CopyHolds(d, k, m) ensures Content(d', m) == Content(d, m) {
      WriteContent(d, i, n, m);
      CopyAlone(d, k, i, m);
    }
    InvOneTracked(d, d', i);
  }

  lemma InvFill(d: Device, i: nat, n: nat)
    requires Inv(d) && Enabled(d, FillSector(i, n))
    ensures Inv(Apply(d, FillSector(i, n)))
  {
    var d' := Apply(d, FillSector(i, n));
    assert RequestOk(d, i);
    assert forall m: nat :: InFoot(d, d.reqs[i], m) == InFoot(d', d'.reqs[i], m) && Content(d', m) == Content(d, m);
    InvOneTracked(d, d', i);
  }

  lemma InvArrive(d: Device, kind: Kind, sector: nat, nb: nat)
    requires Inv(d) && Enabled(d, Arrive(kind, sector, nb))
    ensures Inv(Apply(d, Arrive(kind, sector, nb)))
  {
    var d' := Apply(d, Arrive(kind, sector, nb));
    CopiesAppend(d.reqs, d'.reqs[|d.reqs|]);
    forall k: nat | k < |d'.reqs| ensures RequestOk(d', k) {
      if k < |d.reqs| {
        assert RequestOk(d, k);
        OtherOk(d, d', k);
      }
    }
    forall k: nat, j: nat | k < |d'.reqs| && j < |d'.reqs| ensures Exclusive(d', k, j) {
      if k < |d.reqs| && j < |d.reqs| {
        assert Exclusive(d, k, j);
        SameExclusive(d, d', k, j);
      }
    }
  }

  lemma CopyInFlight(d: Device, k: nat)
    requires Inv(d) && k < |d.reqs| && IsCopy(d.reqs[k])
    ensures d.copiesInFlight > 0
  {
    CopyCounts(d.reqs, k);
  }

  /** A request that begins has no cluster in common with a tracked one if either copies on read. */
  lemma BeginExclusive(d: Device, i: nat, j: nat)
    requires Inv(d) && Enabled(d, Schedule(i)) && Apply(d, Schedule(i)).reqs[i].phase.Tracked?
    requires j < |d.reqs| && j != i && d.reqs[j].phase.Tracked?
    requires d.reqs[i].kind.CopyOnRead? || d.reqs[j].kind.CopyOnRead?
    ensures var d' := Apply(d, Schedule(i)); Exclusive(d', i, j) && Exclusive(d', j, i)
  {
    var a, b := d.reqs[i], d.reqs[j];
    CopyInFlight(d, if a.kind.CopyOnRead? then i else j);
    assert j in d.tracked;
    var k :| 0 <= k < |d.tracked| && d.tracked[k] == j;
    assert !OverlapsRounded(d, d.reqs[d.tracked[k]], a);
    assert Separates(d.round, a.sector, a.nb, b.sector, b.nb);
  }

  lemma ScheduleList(d: Device, i: nat)
    requires Inv(d) && Enabled(d, Schedule(i))
    ensures ListOk(Apply(d, Schedule(i)))
    ensures var r := Apply(d, Schedule(i)).reqs[i]; r.phase.Waiting? ==> r.phase.on != i && r.phase.on in d.tracked
  {
    var d' := Apply(d, Schedule(i));
    assert i !in d.tracked;
    assert d'.tracked != d.tracked ==> d'.tracked[1..] == d.tracked;
  }

  lemma ScheduleRequest(d: Device, i: nat, k: nat)
    requires Inv(d) && Enabled(d, Schedule(i)) && k < |d.reqs|
    ensures RequestOk(Apply(d, Schedule(i)), k)
  {
    var d' := Apply(d, Schedule(i));
    assert RequestOk(d, k);
    if k != i {
      OtherOk(d, d', k);
    } else {
      ScheduleList(d, i);
    }
  }

  lemma ScheduleExclusive(d: Device, i: nat, k: nat, j: nat)
    requires Inv(d) && Enabled(d, Schedule(i)) && k < |d.reqs| && j < |d.reqs|
    ensures Exclusive(Apply(d, Schedule(i)), k, j)
  {
    var d' := Apply(d, Schedule(i));
    assert Exclusive(d, k, j);
    if k != j && d'.reqs[k].phase.Tracked? && d'.reqs[j].phase.Tracked? && d'.reqs[k].kind.CopyOnRead? {
      if k == i {
        BeginExclusive(d, i, j);
      } else if j == i {
        BeginExclusive(d, i, k);
      }
    }
  }

  lemma InvSchedule(d: Device, i: nat)
    requires Inv(d) && Enabled(d, Schedule(i))
    ensures Inv(Apply(d, Schedule(i)))
  {
    var d' := Apply(d, Schedule(i));
    CopiesUpdate(d.reqs, i, d'.reqs[i]);
    ScheduleList(d, i);
    forall k: nat | k < |d'.reqs| ensures RequestOk(d', k) {
      ScheduleRequest(d, i, k);
    }
    forall k: nat, j: nat | k < |d'.reqs| && j < |d'.reqs| ensures Exclusive(d', k, j) {
      ScheduleExclusive(d, i, k, j);
    }
  }

  lemma FinishList(d: Device, i: nat, ok: bool)
    requires Inv(d) && Enabled(d, Finish(i, ok))
    ensures ListOk(Apply(d, Finish(i, ok)))
  {
    var d' := Apply(d, Finish(i, ok));
    forall k | 0 <= k < |d'.tracked| ensures d'.tracked[k] < |d'.reqs| {
      assert d'.tracked[k] in d'.tracked;
    }
  }

  lemma FinishRequest(d: Device, i: nat, ok: bool, k: nat)
    requires Inv(d) && Enabled(d, Finish(i, ok)) && k < |d.reqs|
    ensures RequestOk(Apply(d, Finish(i, ok)), k)
  {
    var d' := Apply(d, Finish(i, ok));
    assert RequestOk(d, k);
    if k != i && d.reqs[k].phase != Waiting(i) {
      OtherOk(d, d', k);
    }
  }

  lemma FinishExclusive(d: Device, i: nat, ok: bool, k: nat, j: nat)
    requires Inv(d) && Enabled(d, Finish(i, ok)) && k < |d.reqs| && j < |d.reqs|
    ensures Exclusive(Apply(d, Finish(i, ok)), k, j)
  {
    assert Exclusive(d, k, j);
    SameExclusive(d, Apply(d, Finish(i, ok)), k, j);
  }

  lemma InvFinish(d: Device, i: nat, ok: bool)
    requires Inv(d) && Enabled(d, Finish(i, ok))
    ensures Inv(Apply(d, Finish(i, ok)))
  {
    var d' := Apply(d, Finish(i, ok));
    var r := d.reqs[i].(phase := Over(ok));
    CopiesUpdate(d.reqs, i, r);
    CopiesSame(d.reqs[i := r], d'.reqs);
    FinishList(d, i, ok);
    forall k: nat | k < |d'.reqs| ensures RequestOk(d', k) {
      FinishRequest(d, i, ok, k);
    }
    forall k: nat, j: nat | k < |d'.reqs| && j < |d'.reqs| ensures Exclusive(d', k, j) {
      FinishExclusive(d, i, ok, k, j);
    }
  }

  /** Every step of every coroutine keeps the invariant. */
  lemma InvStep(d: Device, step: Step)
    requires Inv(d) && Enabled(d, step)
    ensures Inv(Apply(d, step))
  {
    match step
    case Arrive(kind, sector, nb) => InvArrive(d, kind, sector, nb);
    case Schedule(i) => InvSchedule(d, i);
    case Decide(i, brief) => InvDecide(d, i, brief);
    case ReadSector(i, n) => InvRead(d, i, n);
    case WriteSector(i, n) => InvWrite(d, i, n);
    case FillSector(i, n) => InvFill(d, i, n);
    case Finish(i, ok) => InvFinish(d, i, ok);
  }

  // ----- whole runs -----

  /** No request yet, and regions are rounded to clusters of `c` sectors if the driver has clusters. */
  ghost predicate Initial(d: Device, c: Option<nat>) {
    && (c.Some? ==> c.value > 0) && d.round == Rounded(c)
    && d.reqs == [] && d.tracked == [] && d.copiesInFlight == 0
  }

  lemma InitialInv(d: Device, c: Option<nat>)
    requires Initial(d, c)
    ensures Inv(d)
  {
    RoundedOk(c);
  }

  ghost predicate CanRun(d: Device, steps: seq<Step>)
    decreases |steps|
  {
    steps != [] ==> InRange(d) && Enabled(d, steps[0]) && CanRun(Apply(d, steps[0]), steps[1..])
  }

  ghost function Run(d: Device, steps: seq<Step>): Device
    requires CanRun(d, steps)
    decreases |steps|
  {
    if steps == [] then d else Run(Apply(d, steps[0]), steps[1..])
  }

  lemma {:induction false} InvRun(d: Device, steps: seq<Step>)
    requires Inv(d) && CanRun(d, steps)
    ensures Inv(Run(d, steps))
    decreases |steps|
  {
    if steps != [] {
      InvStep(d, steps[0]);
      InvRun(Apply(d, steps[0]), steps[1..]);
    }
  }

  /** A disk with no image, no backing file and no copying: one value per sector, changed only by
      the sectors guest writes store. */
  ghost function FlatStep(flat: nat -> int, d: Device, step: Step): nat -> int
    requires Enabled(d, step)
  {
    if step.WriteSector? && d.reqs[step.i].kind.Write? then
      (m: nat) => if m == step.n then At(d.reqs[step.i].kind.data, m) else flat(m)
    else flat
  }

  ghost function FlatRun(flat: nat -> int, d: Device, steps: seq<Step>): nat -> int
    requires CanRun(d, steps)
    decreases |steps|
  {
    if steps == [] then flat else FlatRun(FlatStep(flat, d, steps[0]), Apply(d, steps[0]), steps[1..])
  }

  lemma StepIsFlat(d: Device, step: Step, flat: nat -> int, n: nat)
    requires Inv(d) && Enabled(d, step) && forall m: nat :: flat(m) == Content(d, m)
    ensures Content(Apply(d, step), n) == FlatStep(flat, d, step)(n)
  {
    if step.WriteSector? {
      WriteContent(d, step.i, step.n, n);
    }
  }

  /** Over every run, the guest sees a flat disk: copy-on-read and allocation never show. */
  lemma {:induction false} RunIsFlat(d: Device, steps: seq<Step>, flat: nat -> int)
    requires Inv(d) && CanRun(d, steps) && forall n: nat :: flat(n) == Content(d, n)
    ensures forall n: nat :: FlatRun(flat, d, steps)(n) == Content(Run(d, steps), n)
    decreases |steps|
  {
    if steps != [] {
      forall n: nat ensures FlatStep(flat, d, steps[0])(n) == Content(Apply(d, steps[0]), n) {
        StepIsFlat(d, steps[0], flat, n);
      }
      InvStep(d, steps[0]);
      RunIsFlat(Apply(d, steps[0]), steps[1..], FlatStep(flat, d, steps[0]));
    }
  }

  /** Every run from the start: requests in flight exclude each other where one of them copies, and the
      guest sees a flat disk. */
  lemma EveryRun(d: Device, c: Option<nat>, steps: seq<Step>, flat: nat -> int)
    requires Initial(d, c) && CanRun(d, steps) && forall n: nat :: flat(n) == Content(d, n)
    ensures var d' := Run(d, steps);
      forall i: nat, j: nat :: i < |d'.reqs| && j < |d'.reqs| ==> Exclusive(d', i, j)
    ensures forall n: nat :: FlatRun(flat, d, steps)(n) == Content(Run(d, steps), n)
  {
    InitialInv(d, c);
    InvRun(d, steps);
    RunIsFlat(d, steps, flat);
  }

  /** What a copy-on-read request returns is what the guest sees at the moment it completes.  The image then holds
      all its sectors, and, if it had to copy, its whole region. */
  lemma CopyResult(d: Device, i: nat, n: nat)
    requires Inv(d) && Enabled(d, Finish(i, true)) && d.reqs[i].kind.CopyOnRead?
    ensures d.reqs[i].sector <= n < d.reqs[i].sector + d.reqs[i].nb ==>
      n in d.image && n in d.reqs[i].buf && d.reqs[i].buf[n] == Content(d, n)
    ensures d.reqs[i].phase.plan.Copy? && InFoot(d, d.reqs[i], n) ==> n in d.image
  {
    assert RequestOk(d, i);
    assert InRaw(d.reqs[i], n) ==> Reads(d, d.reqs[i], n);
    assert d.reqs[i].phase.plan.Copy? && InFoot(d, d.reqs[i], n) ==> Writes(d, d.reqs[i], n);
  }

  // ----- what requests have done when they are over -----

  /** A request that finishes well has read, or written, every sector it was asked for. */
  lemma FinishResult(d: Device, i: nat, n: nat)
    requires Inv(d) && Enabled(d, Finish(i, true)) && d.reqs[i].sector <= n < d.reqs[i].sector + d.reqs[i].nb
    ensures if d.reqs[i].kind.Write? then n in d.reqs[i].written else n in d.reqs[i].buf
  {
    assert RequestOk(d, i);
    if d.reqs[i].kind.Write? {
      assert Writes(d, d.reqs[i], n);
    } else {
      assert Reads(d, d.reqs[i], n);
    }
  }

  /** A step takes nothing back that a request has read or written. */
  lemma StepKeeps(d: Device, step: Step, i: nat)
    requires InRange(d) && Enabled(d, step) && i < |d.reqs|
    ensures i < |Apply(d, step).reqs|
    ensures var r, r' := d.reqs[i], Apply(d, step).reqs[i];
      && r'.kind == r.kind && r'.sector == r.sector && r'.nb == r.nb && r.written <= r'.written
      && forall n :: n in r.buf ==> n in r'.buf && r'.buf[n] == r.buf[n]
  {
  }

  lemma {:induction false} RunKeeps(d: Device, steps: seq<Step>, i: nat)
    requires CanRun(d, steps) && i < |d.reqs|
    ensures i < |Run(d, steps).reqs|
    ensures var r, r' := d.reqs[i], Run(d, steps).reqs[i];
      && r'.kind == r.kind && r'.sector == r.sector && r'.nb == r.nb && r.written <= r'.written
      && forall n :: n in r.buf ==> n in r'.buf && r'.buf[n] == r.buf[n]
    decreases |steps|
  {
    if steps != [] {
      StepKeeps(d, steps[0], i);
      RunKeeps(Apply(d, steps[0]), steps[1..], i);
    }
  }

  /** After `k` steps of the run the guest sees `v` in sector `n`. */
  ghost predicate SeenAfter(d: Device, steps: seq<Step>, k: nat, n: nat, v: int) {
    k <= |steps| && CanRun(d, steps[..k]) && Content(Run(d, steps[..k]), n) == v
  }

  lemma SeenLater(d: Device, steps: seq<Step>, k: nat, n: nat, v: int)
    requires steps != [] && CanRun(d, steps) && SeenAfter(Apply(d, steps[0]), steps[1..], k, n, v)
    ensures SeenAfter(d, steps, k + 1, n, v)
  {
    assert steps[..k + 1][0] == steps[0] && steps[..k + 1][1..] == steps[1..][..k];
  }

  /** What a request has read of a sector, copying or not, was on the disk at some moment of the request. */
  lemma {:induction false} ReadWasThere(d: Device, steps: seq<Step>, i: nat, n: nat) returns (k: nat)
    requires CanRun(d, steps) && i < |d.reqs| && n !in d.reqs[i].buf
    requires i < |Run(d, steps).reqs| && n in Run(d, steps).reqs[i].buf
    ensures SeenAfter(d, steps, k, n, Run(d, steps).reqs[i].buf[n])
    decreases |steps|
  {
    var d' := Apply(d, steps[0]);
    StepKeeps(d, steps[0], i);
    if n in d'.reqs[i].buf {
      RunKeeps(d', steps[1..], i);
      assert steps[..0] == [];
      k := 0;
    } else {
      var j := ReadWasThere(d', steps[1..], i, n);
      SeenLater(d, steps, j, n, Run(d, steps).reqs[i].buf[n]);
      k := j + 1;
    }
  }

  /** What a guest write has written of a sector was on the disk at some moment of the request. */
  lemma {:induction false} WriteWasThere(d: Device, steps: seq<Step>, i: nat, n: nat) returns (k: nat)
    requires CanRun(d, steps) && i < |d.reqs| && d.reqs[i].kind.Write? && n !in d.reqs[i].written
    requires i < |Run(d, steps).reqs| && n in Run(d, steps).reqs[i].written
    ensures SeenAfter(d, steps, k, n, At(d.reqs[i].kind.data, n))
    decreases |steps|
  {
    var d' := Apply(d, steps[0]);
    StepKeeps(d, steps[0], i);
    if n in d'.reqs[i].written {
      assert steps[..1] == [steps[0]] && [steps[0]][1..] == [];
      assert Run(d', []) == d';
      k := 1;
    } else {
      var j := WriteWasThere(d', steps[1..], i, n);
      SeenLater(d, steps, j, n, At(d.reqs[i].kind.data, n));
      k := j + 1;
    }
  }

  /** Without a copy in flight a request that arrives begins at once. */
  lemma BeginsAtOnce(d: Device, kind: Kind, sector: nat, nb: nat)
    requires Inv(d) && Enabled(d, Arrive(kind, sector, nb)) && !kind.CopyOnRead?
    requires forall k :: 0 <= k < |d.reqs| ==> !IsCopy(d.reqs[k])
    ensures var d', i := Apply(d, Arrive(kind, sector, nb)), |d.reqs|;
      InRange(d') && Enabled(d', Schedule(i)) && Apply(d', Schedule(i)).reqs[i].phase.Tracked?
  {
    NoCopies(d.reqs);
    InvArrive(d, kind, sector, nb);
  }

  lemma {:induction false} NoCopies(reqs: seq<Request>)
    requires forall k :: 0 <= k < |reqs| ==> !IsCopy(reqs[k])
    ensures CountCopies(reqs) == 0
  {
    if reqs != [] {
      NoCopies(reqs[1..]);
    }
  }

  // ----- no request waits for ever -----

  /** As long as a request is not over, some coroutine has a step to take that is not a failure. */
  lemma Progress(d: Device, i: nat) returns (step: Step)
    requires Inv(d) && i < |d.reqs| && !d.reqs[i].phase.Over?
    ensures Enabled(d, step) && !step.Arrive? && (step.Finish? ==> step.ok)
  {
    assert RequestOk(d, i);
    match d.reqs[i].phase
    case Ready(_) => step := Schedule(i);
    case Waiting(on) => step := TrackedProgress(d, on);
    case Tracked(_) => step := TrackedProgress(d, i);
  }

  lemma TrackedProgress(d: Device, i: nat) returns (step: Step)
    requires Inv(d) && i < |d.reqs| && d.reqs[i].phase.Tracked?
    ensures Enabled(d, step) && !step.Arrive? && (step.Finish? ==> step.ok)
  {
    var r := d.reqs[i];
    if r.phase.plan == Undecided {
      step := Decide(i, false);
    } else if !AllRead(d, r) {
      var n: nat :| Reads(d, r, n) && n !in r.buf;
      step := ReadSector(i, n);
    } else if !AllWritten(d, r) {
      var n: nat :| Writes(d, r, n) && n !in r.written;
      step := WriteSector(i, n);
    } else {
      step := Finish(i, true);
    }
  }

  ghost function Sum(ws: seq<nat>): nat {
    if ws == [] then 0 else ws[0] + Sum(ws[1..])
  }

  lemma {:induction false} SumUpdate(ws: seq<nat>, i: nat, w: nat)
    requires i < |ws|
    ensures Sum(ws[i := w]) + ws[i] == Sum(ws) + w
  {
    if i == 0 {
      assert ws[i := w][1..] == ws[1..];
    } else {
      assert ws[i := w][1..] == ws[1..][i - 1 := w];
      SumUpdate(ws[1..], i - 1, w);
    }
  }

  /** How many sectors of [lo, hi) are not in `s`. */
  ghost function Missing(s: set<nat>, lo: nat, hi: nat): nat
    decreases hi - lo
  {
    if lo >= hi then 0 else (if lo in s then 0 else 1) + Missing(s, lo + 1, hi)
  }

  lemma {:induction false} MissingLess(s: set<nat>, lo: nat, hi: nat, n: nat)
    requires n !in s
    ensures Missing(s + {n}, lo, hi) + (if lo <= n < hi then 1 else 0) == Missing(s, lo, hi)
    decreases hi - lo
  {
    if lo < hi {
      MissingLess(s, lo + 1, hi, n);
    }
  }

  /** How far a request's phase is from the point at which only sectors remain. */
  function Pending(phase: Phase): nat {
    match phase
    case Ready(_) => 2
    case Waiting(_) => 2
    case Tracked(plan) => if plan.Undecided? then 1 else 0
    case Over(_) => 0
  }

  /** How much a request still has to do. */
  ghost function Work(round: Rounding, r: Request): nat {
    var f := round(r.sector, r.nb);
    Missing(r.buf.Keys, f.start, f.end) + Missing(r.written, f.start, f.end)
      + Missing(r.filled, f.start, f.end) + Pending(r.phase)
  }

  ghost predicate Lighter(round: Rounding, r': Request, r: Request)
  {
    Work(round, r') < Work(round, r) || (r.phase.Ready? && r'.phase.Waiting? && Work(round, r') == Work(round, r))
  }

  lemma SectorStepLighter(d: Device, step: Step)
    requires RoundingOk(d.round) && InRange(d) && Enabled(d, step)
    requires (step.ReadSector? || step.WriteSector? || step.FillSector?)
    ensures Lighter(d.round, Apply(d, step).reqs[step.i], d.reqs[step.i])
  {
    var r, n := d.reqs[step.i], step.n;
    var f := d.round(r.sector, r.nb);
    match step
    case ReadSector(_, _) =>
      MissingLess(r.buf.Keys, f.start, f.end, n);
      assert r.buf[n := Content(d, n)].Keys == r.buf.Keys + {n};
    case WriteSector(_, _) => MissingLess(r.written, f.start, f.end, n);
    case FillSector(_, _) => MissingLess(r.filled, f.start, f.end, n);
  }

  /** The work of the one request that a step changes goes down; only parking one leaves it the same. */
  lemma StepLighter(d: Device, step: Step)
    requires RoundingOk(d.round) && InRange(d) && Enabled(d, step) && !step.Arrive? && !step.Finish?
    ensures Lighter(d.round, Apply(d, step).reqs[step.i], d.reqs[step.i])
  {
    if !step.Schedule? && !step.Decide? {
      SectorStepLighter(d, step);
    }
  }

  ghost function Weigh(round: Rounding): Request -> nat
  {
    r => Work(round, r)
  }

  /** The weights of all requests. */
  ghost function Weights(w: Request -> nat, reqs: seq<Request>): seq<nat> {
    seq(|reqs|, k requires 0 <= k < |reqs| => w(reqs[k]))
  }

  ghost function IsAlive(r: Request): nat { if r.phase.Over? then 0 else 1 }

  ghost function IsReady(r: Request): nat { if r.phase.Ready? then 1 else 0 }

  /** The requests are closer to their end, ordered by how many are not over, how much work they have,
      and how many are ready to be scheduled. */
  ghost predicate Closer(w: Request -> nat, reqs': seq<Request>, reqs: seq<Request>) {
    var a', a := Sum(Weights(IsAlive, reqs')), Sum(Weights(IsAlive, reqs));
    var w', w := Sum(Weights(w, reqs')), Sum(Weights(w, reqs));
    a' < a || (a' == a && (w' < w || (w' == w && Sum(Weights(IsReady, reqs')) < Sum(Weights(IsReady, reqs)))))
  }

  lemma WeightsUpdate(w: Request -> nat, reqs: seq<Request>, i: nat, r: Request)
    requires i < |reqs|
    ensures Sum(Weights(w, reqs[i := r])) + w(reqs[i]) == Sum(Weights(w, reqs)) + w(r)
  {
    assert Weights(w, reqs[i := r]) == Weights(w, reqs)[i := w(r)];
    SumUpdate(Weights(w, reqs), i, w(r));
  }

  lemma WakeAlive(reqs: seq<Request>, t: nat)
    ensures Weights(IsAlive, Wake(reqs, t)) == Weights(IsAlive, reqs)
  {
    var a, b := Weights(IsAlive, Wake(reqs, t)), Weights(IsAlive, reqs);
    forall k | 0 <= k < |reqs| ensures a[k] == b[k] {
      assert a[k] == IsAlive(Wake(reqs, t)[k]) && b[k] == IsAlive(reqs[k]);
    }
  }

  lemma FinishCloser(d: Device, i: nat, ok: bool)
    requires Inv(d) && Enabled(d, Finish(i, ok))
    ensures Sum(Weights(IsAlive, Apply(d, Finish(i, ok)).reqs)) < Sum(Weights(IsAlive, d.reqs))
  {
    var r := d.reqs[i].(phase := Over(ok));
    WakeAlive(d.reqs[i := r], i);
    WeightsUpdate(IsAlive, d.reqs, i, r);
  }

  lemma UpdateCloser(w: Request -> nat, reqs: seq<Request>, i: nat, r: Request)
    requires i < |reqs| && reqs[i].phase.Over? == r.phase.Over?
    requires w(r) < w(reqs[i]) || (w(r) == w(reqs[i]) && reqs[i].phase.Ready? && !r.phase.Ready?)
    ensures Closer(w, reqs[i := r], reqs)
  {
    WeightsUpdate(IsAlive, reqs, i, r);
    WeightsUpdate(w, reqs, i, r);
    WeightsUpdate(IsReady, reqs, i, r);
  }

  /** Whatever is scheduled, the requests there are get closer to their end: a run without new requests
      is finite. */
  lemma StepCloser(d: Device, step: Step)
    requires Inv(d) && Enabled(d, step) && !step.Arrive?
    ensures Closer(Weigh(d.round), Apply(d, step).reqs, d.reqs)
  {
    if step.Finish? {
      FinishCloser(d, step.i, step.ok);
    } else {
      StepLighter(d, step);
      UpdateCloser(Weigh(d.round), d.reqs, step.i, Apply(d, step).reqs[step.i]);
    }
  }

  /** From every state, all requests can be brought to their end without a failure, waits included. */
  lemma {:induction false} Drain(d: Device) returns (steps: seq<Step>)
    requires Inv(d)
    ensures CanRun(d, steps) && forall k :: 0 <= k < |Run(d, steps).reqs| ==> Run(d, steps).reqs[k].phase.Over?
    ensures forall k :: 0 <= k < |steps| ==> !steps[k].Arrive? && (steps[k].Finish? ==> steps[k].ok)
    decreases
      Sum(Weights(IsAlive, d.reqs)),
      Sum(Weights(Weigh(d.round), d.reqs)),
      Sum(Weights(IsReady, d.reqs))
  {
    if i: nat :| i < |d.reqs| && !d.reqs[i].phase.Over? {
      var step := Progress(d, i);
      InvStep(d, step);
      StepCloser(d, step);
      var rest := Drain(Apply(d, step));
      steps := [step] + rest;
      assert steps[1..] == rest;
    } else {
      steps := [];
    }
  }
}
