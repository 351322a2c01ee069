/**
  Telling listeners about a new flat view (memory.c).

  The two passes of address_space_update_topology walk the old and the new view in step.
  Their output is specified range by range, without the walk: deletions are the old ranges
  absent from the new view, additions the new ranges absent from the old one.
 */
module Topology {
  import opened Options
  import opened FlatViews

  datatype Event =
    | RegionDel(fr: FlatRange)
    | RegionAdd(fr: FlatRange)
    | RegionNop(fr: FlatRange)
    | LogStart(fr: FlatRange)
    | LogStop(fr: FlatRange)

  ghost predicate InView(fr: FlatRange, view: seq<FlatRange>) {
    exists i :: 0 <= i < |view| && FlatRangeEqual(view[i], fr)
  }

  /** One deletion per old range that the new view lacks, in order. */
  ghost function Dels(before: seq<FlatRange>, after: seq<FlatRange>): seq<Event> {
    if before == [] then []
    else (if InView(before[0], after) then [] else [RegionDel(before[0])]) + Dels(before[1..], after)
  }

  /** The events for a range kept with log mask `was` turned into its new mask. */
  function KeptEvents(was: FlatRange, fr: FlatRange): seq<Event> {
    [RegionNop(fr)]
    + if was.dirtyLogMask != 0 && fr.dirtyLogMask == 0 then [LogStop(fr)]
      else if fr.dirtyLogMask != 0 && was.dirtyLogMask == 0 then [LogStart(fr)]
      else []
  }

  ghost function EventsFor(before: seq<FlatRange>, fr: FlatRange): seq<Event> {
    if InView(fr, before) then
      var i :| 0 <= i < |before| && FlatRangeEqual(before[i], fr);
      KeptEvents(before[i], fr)
    else [RegionAdd(fr)]
  }

  /** One addition or no-op per new range, in order. */
  ghost function Adds(before: seq<FlatRange>, after: seq<FlatRange>): seq<Event> {
    if after == [] then [] else EventsFor(before, after[0]) + Adds(before, after[1..])
  }

  // ----- the walk -----

  /** No range of v[i..] equals a range of w[..j], and conversely. */
  ghost predicate Passed(v: seq<FlatRange>, i: nat, w: seq<FlatRange>, j: nat)
    requires i <= |v| && j <= |w|
  {
    && (forall k, m :: 0 <= k < j && i <= m < |v| ==> !FlatRangeEqual(w[k], v[m]))
    && (forall k, m :: 0 <= k < i && j <= m < |w| ==> !FlatRangeEqual(v[k], w[m]))
  }

  lemma StartsIncrease(v: seq<FlatRange>, i: nat, j: nat)
    requires Sorted(v) && i < j < |v|
    ensures v[i].addr.start < v[j].addr.start
  {
  }

  predicate OldFirst(before: seq<FlatRange>, i: nat, after: seq<FlatRange>, j: nat)
    requires i <= |before| && j <= |after|
  {
    i < |before| && (j == |after|
      || before[i].addr.start < after[j].addr.start
      || (before[i].addr.start == after[j].addr.start && !FlatRangeEqual(before[i], after[j])))
  }

  /** The events still to come at position (i, j) of the walk. */
  ghost function Remaining(v: seq<FlatRange>, i: nat, w: seq<FlatRange>, j: nat, adding: bool): seq<Event>
    requires i <= |v| && j <= |w|
  {
    if adding then Adds(v, w[j..]) else Dels(v[i..], w)
  }

  function When(b: bool, events: seq<Event>): seq<Event> { if b then events else [] }

  lemma PassOld(v: seq<FlatRange>, i: nat, w: seq<FlatRange>, j: nat, adding: bool)
    requires Sorted(v) && Sorted(w) && i <= |v| && j <= |w|
    requires Passed(v, i, w, j) && OldFirst(v, i, w, j)
    ensures Passed(v, i + 1, w, j)
    ensures Remaining(v, i, w, j, adding) == When(!adding, [RegionDel(v[i])]) + Remaining(v, i + 1, w, j, adding)
  {
    forall m | j <= m < |w| ensures !FlatRangeEqual(v[i], w[m]) {
      if j < m { StartsIncrease(w, j, m); }
    }
    assert !InView(v[i], w);
    assert v[i..][0] == v[i] && v[i..][1..] == v[i + 1..];
  }

  lemma PassBoth(v: seq<FlatRange>, i: nat, w: seq<FlatRange>, j: nat, adding: bool)
    requires Sorted(v) && Sorted(w) && i < |v| && j < |w|
    requires Passed(v, i, w, j) && FlatRangeEqual(v[i], w[j])
    ensures Passed(v, i + 1, w, j + 1)
    ensures Remaining(v, i, w, j, adding) ==
      When(adding, KeptEvents(v[i], w[j])) + Remaining(v, i + 1, w, j + 1, adding)
  {
    assert FlatRangeEqual(w[j], v[i]);
    forall m | i < m < |v| ensures !FlatRangeEqual(w[j], v[m]) { StartsIncrease(v, i, m); }
    forall m | j < m < |w| ensures !FlatRangeEqual(v[i], w[m]) { StartsIncrease(w, j, m); }
    forall m | 0 <= m < i ensures !FlatRangeEqual(v[m], w[j]) { StartsIncrease(v, m, i); }
    assert EventsFor(v, w[j]) == KeptEvents(v[i], w[j]);
    assert v[i..][1..] == v[i + 1..] && w[j..][1..] == w[j + 1..];
  }

  lemma PassNew(v: seq<FlatRange>, i: nat, w: seq<FlatRange>, j: nat, adding: bool)
    requires Sorted(v) && Sorted(w) && i <= |v| && j < |w|
    requires Passed(v, i, w, j)
    requires !OldFirst(v, i, w, j) && !(i < |v| && FlatRangeEqual(v[i], w[j]))
    ensures Passed(v, i, w, j + 1)
    ensures Remaining(v, i, w, j, adding) == When(adding, [RegionAdd(w[j])]) + Remaining(v, i, w, j + 1, adding)
  {
    forall m | i <= m < |v| ensures !FlatRangeEqual(w[j], v[m]) && !FlatRangeEqual(v[m], w[j]) {
      if i < m { StartsIncrease(v, i, m); }
    }
    assert !InView(w[j], v);
    assert w[j..][0] == w[j] && w[j..][1..] == w[j + 1..];
  }

  lemma Assoc<T>(a: seq<T>, b: seq<T>, c: seq<T>)
    ensures a + (b + c) == (a + b) + c
  {
  }

  /** One turn of the loop of address_space_update_topology_pass. */
  method PassOne(before: seq<FlatRange>, iold: nat, after: seq<FlatRange>, inew: nat, adding: bool)
    returns (step: seq<Event>, iold': nat, inew': nat)
    requires Sorted(before) && Sorted(after) && iold <= |before| && inew <= |after|
    requires (iold < |before| || inew < |after|) && Passed(before, iold, after, inew)
    ensures iold <= iold' <= |before| && inew <= inew' <= |after| && iold + inew < iold' + inew'
    ensures Passed(before, iold', after, inew')
    ensures Remaining(before, iold, after, inew, adding) == step + Remaining(before, iold', after, inew', adding)
  {
    step, iold', inew' := [], iold, inew;
    if OldFirst(before, iold, after, inew) {
      PassOld(before, iold, after, inew, adding);
      step := When(!adding, [RegionDel(before[iold])]);
      iold' := iold + 1;
    } else if iold < |before| && FlatRangeEqual(before[iold], after[inew]) {
      PassBoth(before, iold, after, inew, adding);
      step := When(adding, KeptEvents(before[iold], after[inew]));
      iold', inew' := iold + 1, inew + 1;
    } else {
      PassNew(before, iold, after, inew, adding);
      step := When(adding, [RegionAdd(after[inew])]);
      inew' := inew + 1;
    }
  }

  /** address_space_update_topology_pass */
  method UpdateTopologyPass(before: seq<FlatRange>, after: seq<FlatRange>, adding: bool) returns (events: seq<Event>)
    requires Sorted(before) && Sorted(after)
    ensures events == if adding then Adds(before, after) else Dels(before, after)
  {
    var iold, inew := 0, 0;
    events := [];
    assert before[0..] == before && after[0..] == after;
    while iold < |before| || inew < |after|
      invariant 0 <= iold <= |before| && 0 <= inew <= |after|
      invariant Passed(before, iold, after, inew)
      invariant events + Remaining(before, iold, after, inew, adding) == Remaining(before, 0, after, 0, adding)
      decreases |before| - iold + |after| - inew
    {
      var step;
      step, iold, inew := PassOne(before, iold, after, inew, adding);
      Assoc(events, step, Remaining(before, iold, after, inew, adding));
      events := events + step;
    }
  }

  // ----- a listener that follows the events -----

  /** A range as listeners know it: without its log mask. */
  function Key(fr: FlatRange): FlatRange { fr.(dirtyLogMask := 0) }

  ghost function Keys(view: seq<FlatRange>): set<FlatRange> { set fr | fr in view :: Key(fr) }

  ghost function Logged(view: seq<FlatRange>): set<FlatRange> {
    set fr | fr in view && fr.dirtyLogMask != 0 :: Key(fr)
  }

  /** The ranges a listener has been given, and those it logs. */
  datatype Listener = Listener(held: set<FlatRange>, logging: set<FlatRange>)

  ghost predicate NoOverlap(held: set<FlatRange>) {
    forall x, y :: x in held && y in held && x != y ==> !x.addr.Intersects(y.addr)
  }

  /** One callback; None when the listener is told something impossible: deleting or keeping
      a range it does not hold, adding one that meets a range it holds, or switching logging
      to what it already is. */
  ghost function Hear(l: Listener, e: Event): Option<Listener> {
    var k := Key(e.fr);
    match e
    case RegionDel(_) =>
      if k in l.held then Some(Listener(l.held - {k}, l.logging - {k})) else None
    case RegionAdd(fr) =>
      if forall x :: x in l.held ==> !x.addr.Intersects(k.addr)
      then Some(Listener(l.held + {k}, if fr.dirtyLogMask != 0 then l.logging + {k} else l.logging))
      else None
    case RegionNop(_) => if k in l.held then Some(l) else None
    case LogStart(_) => if k in l.held - l.logging then Some(l.(logging := l.logging + {k})) else None
    case LogStop(_) => if k in l.held * l.logging then Some(l.(logging := l.logging - {k})) else None
  }

  ghost function HearAll(l: Listener, events: seq<Event>): Option<Listener>
    decreases |events|
  {
    if events == [] then Some(l)
    else
      var next := Hear(l, events[0]);
      if next.None? then None else HearAll(next.value, events[1..])
  }

  lemma {:induction false} HearConcat(l: Listener, e1: seq<Event>, e2: seq<Event>)
    requires HearAll(l, e1).Some?
    ensures HearAll(l, e1 + e2) == HearAll(HearAll(l, e1).value, e2)
    decreases |e1|
  {
    if e1 == [] {
      assert e1 + e2 == e2;
    } else {
      assert (e1 + e2)[1..] == e1[1..] + e2;
      HearConcat(Hear(l, e1[0]).value, e1[1..], e2);
    }
  }

  /** Whatever a listener hears without complaint, its ranges never overlap on the way. */
  lemma {:induction false} NeverOverlaps(l: Listener, events: seq<Event>, n: nat)
    requires NoOverlap(l.held) && HearAll(l, events).Some? && n <= |events|
    ensures HearAll(l, events[..n]).Some? && NoOverlap(HearAll(l, events[..n]).value.held)
    decreases n
  {
    if n > 0 {
      var next := Hear(l, events[0]).value;
      assert NoOverlap(next.held);
      NeverOverlaps(next, events[1..], n - 1);
      assert events[1..][..n - 1] == events[..n][1..];
    }
  }

  lemma KeysDistinct(v: seq<FlatRange>, i: nat, j: nat)
    requires Sorted(v) && i < |v| && j < |v| && i != j
    ensures Key(v[i]) != Key(v[j]) && !Key(v[i]).addr.Intersects(Key(v[j]).addr)
  {
    if i < j {
      assert v[i].addr.End() <= v[j].addr.start;
    } else {
      assert v[j].addr.End() <= v[i].addr.start;
    }
  }

  lemma SortedKeysDontOverlap(v: seq<FlatRange>)
    requires Sorted(v)
    ensures NoOverlap(Keys(v))
  {
    forall x, y | x in Keys(v) && y in Keys(v) && x != y
      ensures !x.addr.Intersects(y.addr)
    {
      var i :| 0 <= i < |v| && Key(v[i]) == x;
      var j :| 0 <= j < |v| && Key(v[j]) == y;
      KeysDistinct(v, i, j);
    }
  }

  lemma KeyInView(fr: FlatRange, view: seq<FlatRange>)
    ensures InView(fr, view) <==> Key(fr) in Keys(view)
  {
    if InView(fr, view) {
      var i :| 0 <= i < |view| && FlatRangeEqual(view[i], fr);
      assert Key(view[i]) == Key(fr) && view[i] in view;
    }
    if Key(fr) in Keys(view) {
      var i :| 0 <= i < |view| && Key(view[i]) == Key(fr);
      assert FlatRangeEqual(view[i], fr);
    }
  }

  /** The keys around position `j`. */
  lemma KeysAround(w: seq<FlatRange>, j: nat)
    requires Sorted(w) && j < |w|
    ensures Keys(w[..j + 1]) == Keys(w[..j]) + {Key(w[j])} && Key(w[j]) !in Keys(w[..j])
    ensures Keys(w[j..]) == Keys(w[j + 1..]) + {Key(w[j])} && Key(w[j]) !in Keys(w[j + 1..])
    ensures Logged(w[..j + 1]) == Logged(w[..j]) + (if w[j].dirtyLogMask != 0 then {Key(w[j])} else {})
    ensures Logged(w[..j]) <= Keys(w[..j])
  {
    assert w[..j + 1] == w[..j] + [w[j]];
    assert w[j..] == [w[j]] + w[j + 1..];
    forall m | 0 <= m < |w| && m != j ensures Key(w[m]) != Key(w[j]) {
      KeysDistinct(w, m, j);
    }
  }

  // ----- the deleting pass -----

  lemma {:induction false} DelPhase(v: seq<FlatRange>, w: seq<FlatRange>, k: nat, l: Listener)
    requires Sorted(v) && k <= |v|
    requires Keys(v[k..]) <= l.held
    ensures HearAll(l, Dels(v[k..], w)) ==
      Some(Listener(l.held - (Keys(v[k..]) - Keys(w)), l.logging - (Keys(v[k..]) - Keys(w))))
    decreases |v| - k
  {
    if k == |v| {
      assert v[k..] == [];
      assert Keys(v[k..]) - Keys(w) == {};
      assert l.held - (Keys(v[k..]) - Keys(w)) == l.held;
      assert l.logging - (Keys(v[k..]) - Keys(w)) == l.logging;
    } else {
      KeysAround(v, k);
      KeyInView(v[k], w);
      assert v[k..][1..] == v[k + 1..];
      var key := Key(v[k]);
      assert key in l.held;
      if key in Keys(w) {
        DelPhase(v, w, k + 1, l);
        assert Dels(v[k..], w) == Dels(v[k + 1..], w);
        assert Keys(v[k..]) - Keys(w) == Keys(v[k + 1..]) - Keys(w);
      } else {
        var next := Listener(l.held - {key}, l.logging - {key});
        DelPhase(v, w, k + 1, next);
        var events := Dels(v[k..], w);
        assert events[0] == RegionDel(v[k]) && events[1..] == Dels(v[k + 1..], w);
        var gone := Keys(v[k..]) - Keys(w);
        assert gone == Keys(v[k + 1..]) - Keys(w) + {key};
        assert l.held - gone == next.held - (Keys(v[k + 1..]) - Keys(w));
        assert l.logging - gone == next.logging - (Keys(v[k + 1..]) - Keys(w));
      }
    }
  }

  // ----- the adding pass -----

  /** The listener once the first `j` new ranges have been announced. */
  ghost function Midway(v: seq<FlatRange>, w: seq<FlatRange>, j: nat): Listener
    requires j <= |w|
  {
    Listener(Keys(v) * Keys(w) + Keys(w[..j]), Logged(v) * Keys(w[j..]) + Logged(w[..j]))
  }

  lemma HearOne(l: Listener, e: Event)
    ensures HearAll(l, [e]) == Hear(l, e)
  {
    assert [e][1..] == [];
  }

  /** Whether a range is being logged before its turn, and who is after it. */
  lemma KeptLogging(v: seq<FlatRange>, i: nat, w: seq<FlatRange>, j: nat)
    requires Sorted(v) && Sorted(w) && i < |v| && j < |w| && FlatRangeEqual(v[i], w[j])
    ensures var l, l', k := Midway(v, w, j), Midway(v, w, j + 1), Key(w[j]);
      && k in l.held && l'.held == l.held && (k in l.logging <==> v[i].dirtyLogMask != 0)
      && l'.logging == if w[j].dirtyLogMask != 0 then l.logging + {k} else l.logging - {k}
  {
    KeysAround(w, j);
    var l, l', k := Midway(v, w, j), Midway(v, w, j + 1), Key(w[j]);
    assert Key(v[i]) == k && v[i] in v && w[j] in w;
    assert k in Keys(v) && k in Keys(w);
    assert k in Logged(v) <==> v[i].dirtyLogMask != 0 by {
      if k in Logged(v) {
        var m :| 0 <= m < |v| && v[m].dirtyLogMask != 0 && Key(v[m]) == k;
        if m != i { KeysDistinct(v, m, i); }
      }
    }
  }

  lemma AnnounceKept(v: seq<FlatRange>, i: nat, w: seq<FlatRange>, j: nat)
    requires Sorted(v) && Sorted(w) && i < |v| && j < |w| && FlatRangeEqual(v[i], w[j])
    ensures HearAll(Midway(v, w, j), KeptEvents(v[i], w[j])) == Some(Midway(v, w, j + 1))
  {
    KeptLogging(v, i, w, j);
    KeptHeard(Midway(v, w, j), Midway(v, w, j + 1), v[i], w[j]);
  }

  lemma KeptHeard(l: Listener, l': Listener, was: FlatRange, now: FlatRange)
    requires Key(now) in l.held && l'.held == l.held && (Key(now) in l.logging <==> was.dirtyLogMask != 0)
    requires l'.logging == if now.dirtyLogMask != 0 then l.logging + {Key(now)} else l.logging - {Key(now)}
    ensures HearAll(l, KeptEvents(was, now)) == Some(l')
  {
    var events := KeptEvents(was, now);
    assert events[0] == RegionNop(now);
    if was.dirtyLogMask != 0 && now.dirtyLogMask == 0 {
      assert events[1..] == [LogStop(now)];
      HearOne(l, LogStop(now));
    } else if now.dirtyLogMask != 0 && was.dirtyLogMask == 0 {
      assert events[1..] == [LogStart(now)];
      HearOne(l, LogStart(now));
    } else {
      assert events[1..] == [];
      assert l'.logging == l.logging;
    }
  }

  lemma AnnounceNew(v: seq<FlatRange>, w: seq<FlatRange>, j: nat)
    requires Sorted(v) && Sorted(w) && j < |w| && !InView(w[j], v)
    ensures HearAll(Midway(v, w, j), [RegionAdd(w[j])]) == Some(Midway(v, w, j + 1))
  {
    KeysAround(w, j);
    KeyInView(w[j], v);
    var l, l', k := Midway(v, w, j), Midway(v, w, j + 1), Key(w[j]);
    forall x | x in l.held ensures !x.addr.Intersects(k.addr) {
      assert x in Keys(w) && x != k by {
        assert forall m :: 0 <= m < j ==> w[..j][m] == w[m];
      }
      var m :| 0 <= m < |w| && Key(w[m]) == x;
      KeysDistinct(w, m, j);
    }
    assert k !in Logged(v) by { assert Logged(v) <= Keys(v); }
    HearOne(l, RegionAdd(w[j]));
    assert l'.held == l.held + {k};
    assert l'.logging == if w[j].dirtyLogMask != 0 then l.logging + {k} else l.logging;
  }

  lemma {:induction false} AddPhase(v: seq<FlatRange>, w: seq<FlatRange>, j: nat)
    requires Sorted(v) && Sorted(w) && j <= |w|
    ensures HearAll(Midway(v, w, j), Adds(v, w[j..])) == Some(Midway(v, w, |w|))
    decreases |w| - j
  {
    if j < |w| {
      assert w[j..][1..] == w[j + 1..];
      if InView(w[j], v) {
        var i :| 0 <= i < |v| && FlatRangeEqual(v[i], w[j]) && EventsFor(v, w[j]) == KeptEvents(v[i], w[j]);
        AnnounceKept(v, i, w, j);
      } else {
        AnnounceNew(v, w, j);
      }
      AddPhase(v, w, j + 1);
      HearConcat(Midway(v, w, j), EventsFor(v, w[j]), Adds(v, w[j + 1..]));
    }
  }

  /** A listener that holds the old view and hears both passes ends with exactly the new view,
      logging exactly the ranges the new view logs. */
  lemma ListenerFollows(v: seq<FlatRange>, w: seq<FlatRange>)
    requires Sorted(v) && Sorted(w)
    ensures HearAll(Listener(Keys(v), Logged(v)), Dels(v, w) + Adds(v, w)) == Some(Listener(Keys(w), Logged(w)))
  {
    var l := Listener(Keys(v), Logged(v));
    assert v[0..] == v && w[0..] == w && w[..0] == [] && w[..|w|] == w && w[|w|..] == [];
    DelPhase(v, w, 0, l);
    assert Logged(v) <= Keys(v);
    assert Keys(v) - (Keys(v) - Keys(w)) == Keys(v) * Keys(w) + Keys(w[..0]);
    assert Logged(v) - (Keys(v) - Keys(w)) == Logged(v) * Keys(w) + Logged(w[..0]);
    AddPhase(v, w, 0);
    assert Keys(v) * Keys(w) + Keys(w) == Keys(w);
    assert Logged(v) * Keys(w[|w|..]) + Logged(w) == Logged(w);
    HearConcat(l, Dels(v, w), Adds(v, w));
  }

  // ----- a listener that starts anew -----

  /** The ranges announced as new or as kept, in order: what a listener hears that, like the one of the dispatch
      tables, treats both alike. */
  ghost function Announced(events: seq<Event>): seq<FlatRange> {
    if events == [] then [] else Announces(events[0]) + Announced(events[1..])
  }

  function Announces(e: Event): seq<FlatRange> { if e.RegionAdd? || e.RegionNop? then [e.fr] else [] }

  lemma {:induction false} AnnouncedTwo(a: seq<Event>, b: seq<Event>)
    ensures Announced(a + b) == Announced(a) + Announced(b)
  {
    if a == [] {
      assert a + b == b;
    } else {
      assert (a + b)[0] == a[0] && (a + b)[1..] == a[1..] + b;
      AnnouncedTwo(a[1..], b);
      Assoc(Announces(a[0]), Announced(a[1..]), Announced(b));
    }
  }

  lemma {:induction false} NoneAnnounced(before: seq<FlatRange>, after: seq<FlatRange>)
    ensures Announced(Dels(before, after)) == []
  {
    if before != [] {
      NoneAnnounced(before[1..], after);
      AnnouncedTwo(if InView(before[0], after) then [] else [RegionDel(before[0])], Dels(before[1..], after));
    }
  }

  lemma AnnouncedOnce(before: seq<FlatRange>, fr: FlatRange)
    ensures Announced(EventsFor(before, fr)) == [fr]
  {
    var events := EventsFor(before, fr);
    assert Announced(events[1..]) == [] by {
      if |events| > 1 {
        assert events[1..][1..] == [];
      }
    }
  }

  lemma {:induction false} AllAnnounced(before: seq<FlatRange>, after: seq<FlatRange>)
    ensures Announced(Adds(before, after)) == after
  {
    if after != [] {
      AllAnnounced(before, after[1..]);
      AnnouncedOnce(before, after[0]);
      AnnouncedTwo(EventsFor(before, after[0]), Adds(before, after[1..]));
    }
  }

  /** Every range of the new view is announced once, in order, and nothing else is. */
  lemma AnnouncedIsView(before: seq<FlatRange>, after: seq<FlatRange>)
    ensures Announced(Dels(before, after) + Adds(before, after)) == after
  {
    NoneAnnounced(before, after);
    AllAnnounced(before, after);
    AnnouncedTwo(Dels(before, after), Adds(before, after));
  }

  /** address_space_update_topology, as seen by a listener of this address space: whatever the
      two views, the events lead from one to the other and no overlap is ever visible. */
  method UpdateTopology(before: seq<FlatRange>, after: seq<FlatRange>) returns (events: seq<Event>)
    requires Sorted(before) && Sorted(after)
    ensures events == Dels(before, after) + Adds(before, after) && Announced(events) == after
    ensures HearAll(Listener(Keys(before), Logged(before)), events) == Some(Listener(Keys(after), Logged(after)))
    ensures forall n :: 0 <= n <= |events| ==>
      var l := HearAll(Listener(Keys(before), Logged(before)), events[..n]);
      l.Some? && NoOverlap(l.value.held)
  {
    var dels := UpdateTopologyPass(before, after, false);
    var adds := UpdateTopologyPass(before, after, true);
    events := dels + adds;
    AnnouncedIsView(before, after);
    ListenerFollows(before, after);
    SortedKeysDontOverlap(before);
    ghost var l := Listener(Keys(before), Logged(before));
    forall n | 0 <= n <= |events|
      ensures HearAll(l, events[..n]).Some? && NoOverlap(HearAll(l, events[..n]).value.held)
    {
      NeverOverlaps(l, events, n);
    }
  }
}
