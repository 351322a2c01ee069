/**
  Committing an overlay into its backing file (block.c, bdrv_commit).

  Reads and writes may fail at any sector, and a failed write may have stored some of its sectors.
  Emptying the overlay may drop any of its sectors, whether it succeeds or not.  `Faults` says which.
 */
module Commits {
  const COMMIT_BUF_SECTORS: nat := 2048

  datatype Outcome = Ok | NoMedium | NotSupported | Busy | NoAccess | IoError | EmptyFailed

  /** What goes wrong: the sectors of which a read, or a write, fails, those that a failing write does not store, the
      sectors that the driver's make_empty leaves, and whether it reports success. */
  datatype Faults = Faults(badReads: set<nat>, badWrites: set<nat>, lost: set<nat>, kept: set<nat>, empties: bool)

  /** Sector `s` of a file: zeroes past its end. */
  function SectorOf(file: seq<int>, s: nat): int {
    if s < |file| then file[s] else 0
  }

  /** What a guest sees in sector `s`. */
  function Visible(overlay: map<nat, int>, backing: seq<int>, s: nat): int {
    if s in overlay then overlay[s] else SectorOf(backing, s)
  }

  /** The allocated sectors below `limit` are in the backing file; the unallocated ones are as they were. */
  ghost predicate CopiedBelow(overlay: map<nat, int>, backing: seq<int>, was: seq<int>, limit: nat) {
    && |backing| == |was|
    && (forall s :: s in overlay && s < limit ==> s < |backing| && backing[s] == overlay[s])
    && (forall s :: 0 <= s < |backing| && s !in overlay ==> backing[s] == was[s])
  }

  /** All of [sector, sector + n) is allocated, or none is: what bdrv_is_allocated reports. */
  predicate Uniform(overlay: map<nat, int>, sector: nat, n: nat) {
    (forall s :: sector <= s < sector + n ==> s in overlay) || (forall s :: sector <= s < sector + n ==> s !in overlay)
  }

  /** When everything is copied, dropping sectors from the overlay does not show. */
  lemma DropInvisible(overlay: map<nat, int>, backing: seq<int>, overlay': map<nat, int>, s: nat)
    requires CopiedBelow(overlay, backing, backing, s + 1)
    requires forall t :: t in overlay' ==> t in overlay && overlay'[t] == overlay[t]
    ensures Visible(overlay', backing, s) == Visible(overlay, backing, s)
  {
  }

  /** The two files after one sector was stored or dropped. */
  datatype Moment = Moment(overlay: map<nat, int>, backing: seq<int>)

  /** Between two moments one sector was stored in the backing file or dropped from the overlay. */
  ghost predicate OneStep(m: Moment, m': Moment) {
    (exists s, v :: Stored(m, m', s, v)) || (exists s :: Dropped(m, m', s))
  }

  predicate Stored(m: Moment, m': Moment, s: nat, v: int) {
    s < |m.backing| && m' == Moment(m.overlay, m.backing[s := v])
  }

  predicate Dropped(m: Moment, m': Moment, s: nat) {
    m' == Moment(m.overlay - {s}, m.backing)
  }

  ghost predicate Gradual(trail: seq<Moment>) {
    forall k: nat {:trigger StepAt(trail, k)} :: 0 < k < |trail| ==> StepAt(trail, k)
  }

  ghost predicate StepAt(trail: seq<Moment>, k: nat)
    requires 0 < k < |trail|
  {
    OneStep(trail[k - 1], trail[k])
  }

  lemma GradualMore(trail: seq<Moment>, m: Moment)
    requires Gradual(trail) && (trail != [] ==> OneStep(trail[|trail| - 1], m))
    ensures Gradual(trail + [m])
  {
    var trail' := trail + [m];
    forall k: nat | 0 < k < |trail'| ensures StepAt(trail', k) {
      assert k < |trail| ==> StepAt(trail, k);
    }
  }

  /** From moment `from` on, the guest sees what it sees in `overlay` on `backing`. */
  ghost predicate Steady(trail: seq<Moment>, from: nat, overlay: map<nat, int>, backing: seq<int>) {
    forall k, s: nat :: from <= k < |trail| ==>
      Visible(trail[k].overlay, trail[k].backing, s) == Visible(overlay, backing, s)
  }

  /** Steady in two stretches that show the same. */
  lemma SteadyJoin(trail: seq<Moment>, trail': seq<Moment>, from: nat, overlay: map<nat, int>, was: seq<int>,
                   overlay': map<nat, int>, backing: seq<int>)
    requires trail <= trail' && Steady(trail, from, overlay, was) && Steady(trail', |trail|, overlay', backing)
    requires forall s: nat :: Visible(overlay', backing, s) == Visible(overlay, was, s)
    ensures Steady(trail', from, overlay, was)
  {
  }

  class Chain {
    var overlay: map<nat, int>
    var backing: seq<int>
    /** What the two files were after every single change. */
    ghost var trail: seq<Moment>
    /** The overlay's length; it holds no sector past it. */
    const total: nat
    /** Whether the backing file may be written to right now. */
    var writable: bool

    ghost predicate Valid() reads this { Recorded() && forall s :: s in overlay ==> s < total }

    /** The trail leads to the present, one sector at a time. */
    ghost predicate Recorded() reads this {
      trail != [] && trail[|trail| - 1] == Moment(overlay, backing) && Gradual(trail)
    }

    constructor (overlay: map<nat, int>, backing: seq<int>, total: nat, writable: bool)
      requires forall s :: s in overlay ==> s < total
      ensures Valid() && this.overlay == overlay && this.backing == backing && this.total == total
      ensures this.writable == writable
    {
      this.overlay, this.backing, this.total, this.writable := overlay, backing, total, writable;
      trail := [Moment(overlay, backing)];
    }

    /** bdrv_write to the backing file: refused past its end; a failing one may still store some sectors. */
    method WriteBacking(sector: nat, buf: seq<int>, faults: Faults) returns (ok: bool)
      requires writable && Recorded()
      modifies `backing, `trail
      ensures |backing| == old(|backing|) && old(trail) <= trail && Recorded()
      ensures (forall s :: sector <= s < sector + |buf| ==> s in overlay) ==>
        Steady(trail, |old(trail)|, overlay, old(backing))
      ensures ok <==> sector + |buf| <= |backing| && forall s :: sector <= s < sector + |buf| ==> s !in faults.badWrites
      ensures forall s :: 0 <= s < |backing| ==>
        backing[s] == old(backing[s]) || (sector <= s < sector + |buf| && backing[s] == buf[s - sector])
      ensures ok ==> forall s :: sector <= s < sector + |buf| ==> backing[s] == buf[s - sector]
    {
      if sector + |buf| > |backing| {
        return false;
      }
      ok := forall s :: sector <= s < sector + |buf| ==> s !in faults.badWrites;
      for i := 0 to |buf|
        invariant |backing| == old(|backing|)
        invariant forall s :: 0 <= s < |backing| ==>
          backing[s] == old(backing[s]) || (sector <= s < sector + |buf| && backing[s] == buf[s - sector])
        invariant ok ==> forall s :: sector <= s < sector + i ==> backing[s] == buf[s - sector]
        invariant old(trail) <= trail && Recorded()
        invariant (forall s :: sector <= s < sector + |buf| ==> s in overlay) ==>
          Steady(trail, |old(trail)|, overlay, old(backing))
      {
        if ok || sector + i !in faults.lost {
          Store(sector + i, buf[i]);
        }
      }
    }

    method Store(s: nat, v: int)
      requires Recorded() && s < |backing|
      modifies `backing, `trail
      ensures Recorded() && backing == old(backing)[s := v] && trail == old(trail) + [Moment(overlay, backing)]
    {
      ghost var now, next := Moment(overlay, backing), Moment(overlay, backing[s := v]);
      assert Stored(now, next, s, v);
      GradualMore(trail, next);
      backing := backing[s := v];
      trail := trail + [next];
    }

    /** bdrv_read of the overlay: what is visible, unless it fails. */
    method ReadVisible(sector: nat, n: nat, faults: Faults) returns (ok: bool, buf: seq<int>)
      ensures ok <==> forall s :: sector <= s < sector + n ==> s !in faults.badReads
      ensures ok ==> |buf| == n && forall i :: 0 <= i < n ==> buf[i] == Visible(overlay, backing, sector + i)
    {
      buf := [];
      for i := 0 to n
        invariant |buf| == i && forall k :: 0 <= k < i ==> buf[k] == Visible(overlay, backing, sector + k)
        invariant forall s :: sector <= s < sector + i ==> s !in faults.badReads
      {
        if sector + i in faults.badReads {
          return false, [];
        }
        buf := buf + [Visible(overlay, backing, sector + i)];
      }
      ok := true;
    }

    /** The driver's make_empty: drops sectors of the overlay. */
    method MakeEmpty(faults: Faults) returns (ok: bool)
      requires Valid()
      modifies `overlay, `trail
      ensures ok == faults.empties && overlay == map s | s in old(overlay) && s in faults.kept :: old(overlay)[s]
      ensures old(trail) <= trail && Recorded()
      ensures CopiedBelow(old(overlay), backing, backing, total) ==> Steady(trail, |old(trail)|, old(overlay), backing)
    {
      ok := faults.empties;
      for s := 0 to total
        invariant overlay == map t | t in old(overlay) && (t >= s || t in faults.kept) :: old(overlay)[t]
        invariant old(trail) <= trail && Recorded()
        invariant CopiedBelow(old(overlay), backing, backing, total) ==>
          Steady(trail, |old(trail)|, old(overlay), backing)
      {
        if s !in faults.kept {
          Drop(s);
        }
      }
    }

    method Drop(s: nat)
      requires Recorded()
      modifies `overlay, `trail
      ensures Recorded() && overlay == old(overlay) - {s} && trail == old(trail) + [Moment(overlay, backing)]
    {
      ghost var now, next := Moment(overlay, backing), Moment(overlay - {s}, backing);
      assert Dropped(now, next, s);
      GradualMore(trail, next);
      overlay := overlay - {s};
      trail := trail + [next];
    }

    /** Sector `s` can be copied down. */
    predicate Copies(s: nat, faults: Faults)
      reads `backing
    {
      s < |backing| && s !in faults.badReads && s !in faults.badWrites
    }

    /** One run of sectors with the same allocation. */
    method CommitRun(sector: nat, n: nat, faults: Faults, ghost was: seq<int>) returns (ok: bool)
      requires writable && Recorded() && Uniform(overlay, sector, n) && CopiedBelow(overlay, backing, was, sector)
      requires n > 0
      modifies `backing, `trail
      ensures |backing| == |was| && Recorded() && old(trail) <= trail
      ensures Steady(trail, |old(trail)|, overlay, old(backing))
      ensures forall s :: 0 <= s < |backing| ==>
        backing[s] == old(backing[s]) || (s in overlay && backing[s] == overlay[s])
      ensures ok <==> forall s :: sector <= s < sector + n && s in overlay ==> Copies(s, faults)
      ensures ok ==> CopiedBelow(overlay, backing, was, sector + n)
    {
      ok := true;
      if sector in overlay {
        assert forall s :: sector <= s < sector + n ==> s in overlay;
        var buf;
        ok, buf := ReadVisible(sector, n, faults);
        if ok {
          ok := WriteBacking(sector, buf, faults);
          assert sector + n > |backing| ==> !Copies(sector + n - 1, faults);
        }
        assert forall s :: sector <= s < sector + n ==>
          (Copies(s, faults) <==> s < |backing| && s !in faults.badReads && s !in faults.badWrites);
      } else {
        assert forall s :: sector <= s < sector + n ==> s !in overlay;
      }
    }

    /** The copying loop of bdrv_commit: it succeeds exactly if every allocated sector can be copied. */
    method CopyDown(faults: Faults) returns (ok: bool)
      requires Valid() && writable
      modifies `backing, `trail
      ensures |backing| == old(|backing|) && Recorded() && old(trail) <= trail
      ensures Steady(trail, |old(trail)|, overlay, old(backing))
      ensures forall s :: 0 <= s < |backing| ==>
        backing[s] == old(backing[s]) || (s in overlay && backing[s] == overlay[s])
      ensures ok <==> forall s :: s in overlay ==> Copies(s, faults)
      ensures ok ==> CopiedBelow(overlay, backing, old(backing), total)
    {
      ghost var was := backing;
      var sector := 0;
      while sector < total
        invariant CopiedBelow(overlay, backing, was, sector)
        invariant old(trail) <= trail && Recorded() && Steady(trail, |old(trail)|, overlay, was)
        invariant forall s :: s in overlay && s < sector ==> Copies(s, faults)
        invariant forall s :: 0 <= s < |backing| ==> backing[s] == was[s] || (s in overlay && backing[s] == overlay[s])
        decreases total - sector
      {
        ghost var before, now := trail, backing;
        assert Uniform(overlay, sector, 1);
        var n: nat :| 1 <= n <= COMMIT_BUF_SECTORS && Uniform(overlay, sector, n);
        ok := CommitRun(sector, n, faults, was);
        SteadyJoin(before, trail, |old(trail)|, overlay, was, overlay, now);
        if !ok {
          return;
        }
        sector := sector + n;
      }
      ok := true;
    }

    /** What bdrv_commit reports: the first thing that is in its way. */
    ghost function OutcomeOf(hasDriver: bool, hasBacking: bool, inUse: bool, canReopen: bool, canEmpty: bool,
                             faults: Faults): Outcome
      reads this
    {
      if !hasDriver then NoMedium
      else if !hasBacking then NotSupported
      else if inUse then Busy
      else if !writable && !canReopen then NoAccess
      else if exists s :: s in overlay && !Copies(s, faults) then IoError
      else if canEmpty && !faults.empties then EmptyFailed
      else Ok
    }

    /** bdrv_commit.  Whatever fails, at whatever point, no guest-visible sector changes, not even between
        two sectors stored or dropped; and when it succeeds the backing file alone holds what the guest saw. */
    method Commit(hasDriver: bool, hasBacking: bool, inUse: bool, canReopen: bool, canEmpty: bool, faults: Faults)
      returns (outcome: Outcome)
      requires Valid()
      modifies this
      ensures Valid() && writable == old(writable) && |backing| == old(|backing|)
      ensures outcome == old(OutcomeOf(hasDriver, hasBacking, inUse, canReopen, canEmpty, faults))
      ensures forall s: nat :: Visible(overlay, backing, s) == old(Visible(overlay, backing, s))
      ensures old(trail) <= trail && Steady(trail, |old(trail)|, old(overlay), old(backing))
      ensures outcome in {Ok, EmptyFailed} ==>
        && (forall s: nat :: SectorOf(backing, s) == old(Visible(overlay, backing, s)))
        && overlay == map s | s in old(overlay) && (canEmpty ==> s in faults.kept) :: old(overlay)[s]
      ensures outcome !in {Ok, EmptyFailed} ==> overlay == old(overlay)
      ensures outcome in {NoMedium, NotSupported, Busy, NoAccess} ==> backing == old(backing)
      ensures forall s :: 0 <= s < |backing| ==>
        backing[s] == old(backing[s]) || (s in old(overlay) && backing[s] == old(overlay)[s])
    {
      if !hasDriver {
        return NoMedium;
      }
      if !hasBacking {
        return NotSupported;
      }
      if inUse {
        return Busy;
      }
      var readOnly := !writable;
      if readOnly {
        if !canReopen {
          return NoAccess;
        }
        writable := true;
      }
      var ok := CopyDown(faults);
      if !ok {
        outcome := IoError;
      } else {
        ok := Empty(canEmpty, faults, |old(trail)|, old(backing));
        outcome := if ok then Ok else EmptyFailed;
      }
      if readOnly {
        writable := false;
      }
    }

    /** The end of bdrv_commit, once everything is copied. */
    method Empty(canEmpty: bool, faults: Faults, ghost from: nat, ghost was: seq<int>) returns (ok: bool)
      requires Valid() && CopiedBelow(overlay, backing, was, total) && Steady(trail, from, overlay, was)
      requires from <= |trail| && |was| == |backing|
      modifies `overlay, `trail
      ensures Valid() && old(trail) <= trail && Steady(trail, from, old(overlay), was)
      ensures ok <==> canEmpty ==> faults.empties
      ensures overlay == map s | s in old(overlay) && (canEmpty ==> s in faults.kept) :: old(overlay)[s]
      ensures forall s: nat :: Visible(overlay, backing, s) == Visible(old(overlay), was, s)
      ensures forall s: nat :: SectorOf(backing, s) == Visible(old(overlay), was, s)
    {
      ok := true;
      ghost var full, before := overlay, trail;
      if canEmpty {
        ok := MakeEmpty(faults);
        SteadyJoin(before, trail, from, full, was, full, backing);
        forall s: nat ensures Visible(overlay, backing, s) == Visible(full, backing, s) {
          DropInvisible(full, backing, overlay, s);
        }
      }
    }
  }
}
