/**
  Bottom halves (async.c): a list that is walked while the callbacks it calls create, schedule, cancel
  and delete bottom halves and start further walks.

  A callback is an arbitrary script of such actions, nested walks included, so a statement about `Poll`
  holds whatever the callbacks do.
 */
module BottomHalves {
  import opened Numbered
  import opened Options

  /** QEMUBH.  `asked`, `ran` and `dropped` count the schedule calls that took effect, the calls of the
      callback, and the pending calls that were cancelled. */
  datatype Bh = Bh(id: nat, scheduled: bool, idle: bool, deleted: bool, asked: nat, ran: nat, dropped: nat)

  /** What a callback may do; `Walk` polls again, with a script for each callback that walk makes. */
  datatype Action =
    | New
    | Schedule(id: nat)
    | ScheduleIdle(id: nat)
    | Cancel(id: nat)
    | Delete(id: nat)
    | Walk(callbacks: Callbacks)

  datatype Script = Return | Do(action: Action, rest: Script)

  datatype Callbacks = NoMore | Call(script: Script, others: Callbacks)

  // ----- the size of a script -----

  ghost function ActionSize(a: Action): nat {
    if a.Walk? then 1 + CallbacksSize(a.callbacks) else 1
  }

  ghost function ScriptSize(s: Script): nat {
    if s.Return? then 0 else 1 + ActionSize(s.action) + ScriptSize(s.rest)
  }

  ghost function CallbacksSize(c: Callbacks): nat {
    if c.NoMore? then 0 else 1 + ScriptSize(c.script) + CallbacksSize(c.others)
  }

  // ----- what a script may touch -----

  /** The bottom halves that scripts schedule, cancel (or delete) and delete. */
  datatype Touch = Touch(schedules: set<nat>, cancels: set<nat>, deletes: set<nat>) {
    function Join(t: Touch): Touch {
      Touch(schedules + t.schedules, cancels + t.cancels, deletes + t.deletes)
    }

    predicate Within(t: Touch) {
      schedules <= t.schedules && cancels <= t.cancels && deletes <= t.deletes
    }

    predicate Spares(id: nat) { id !in schedules && id !in cancels && id !in deletes }
  }

  const NOTHING: Touch := Touch({}, {}, {})

  ghost function ActionTouch(a: Action): Touch {
    match a
    case New => NOTHING
    case Schedule(id) => NOTHING.(schedules := {id})
    case ScheduleIdle(id) => NOTHING.(schedules := {id})
    case Cancel(id) => NOTHING.(cancels := {id})
    case Delete(id) => NOTHING.(cancels := {id}, deletes := {id})
    case Walk(callbacks) => CallbacksTouch(callbacks)
  }

  ghost function ScriptTouch(s: Script): Touch {
    if s.Return? then NOTHING else ActionTouch(s.action).Join(ScriptTouch(s.rest))
  }

  ghost function CallbacksTouch(c: Callbacks): Touch {
    if c.NoMore? then NOTHING else ScriptTouch(c.script).Join(CallbacksTouch(c.others))
  }

  // ----- the list -----

  function Ids(list: seq<Bh>): (ids: seq<nat>)
    ensures |ids| == |list| && forall k :: 0 <= k < |list| ==> ids[k] == list[k].id
  {
    seq(|list|, k requires 0 <= k < |list| => list[k].id)
  }

  /** New bottom halves go to the head and get the next number, so numbers fall along the list. */
  ghost predicate Falling(list: seq<Bh>) {
    forall j: nat, k: nat {:trigger Before(list, j, k)} :: j < k < |list| ==> Before(list, j, k)
  }

  ghost predicate Before(list: seq<Bh>, j: nat, k: nat)
    requires j < k < |list|
  {
    list[j].id > list[k].id
  }

  /** Every effective schedule call is run once, dropped once, or still pending. */
  predicate Conserved(b: Bh) { b.asked == b.ran + b.dropped + if b.scheduled then 1 else 0 }

  function IndexOf(list: seq<Bh>, id: nat): (k: nat)
    requires id in Ids(list)
    ensures k < |list| && list[k].id == id
  {
    Index(Ids(list), id)
  }

  lemma IndexUnique(list: seq<Bh>, id: nat, k: nat)
    requires Falling(list) && id in Ids(list) && k < |list| && list[k].id == id
    ensures IndexOf(list, id) == k
  {
    var i := IndexOf(list, id);
    assert i < k ==> Before(list, i, k);
    assert k < i ==> Before(list, k, i);
  }

  lemma FallingUpdate(list: seq<Bh>, i: nat, b: Bh)
    requires Falling(list) && i < |list| && b.id == list[i].id
    ensures Falling(list[i := b])
  {
    var list' := list[i := b];
    forall j: nat, k: nat | j < k < |list'| ensures Before(list', j, k) {
      assert Before(list, j, k);
    }
  }

  lemma FallingNew(list: seq<Bh>, b: Bh)
    requires Falling(list) && forall c :: c in list ==> c.id < b.id
    ensures Falling([b] + list)
  {
    var list' := [b] + list;
    forall j: nat, k: nat | j < k < |list'| ensures Before(list', j, k) {
      assert list'[k] == list[k - 1] && list[k - 1] in list;
      assert j > 0 ==> Before(list, j - 1, k - 1);
    }
  }

  lemma FallingTail(list: seq<Bh>)
    requires Falling(list) && list != []
    ensures Falling(list[1..]) && forall c :: c in list[1..] ==> c.id < list[0].id
  {
    var tail := list[1..];
    forall j: nat, k: nat | j < k < |tail| ensures Before(tail, j, k) {
      assert Before(list, j + 1, k + 1);
    }
    forall c | c in tail ensures c.id < list[0].id {
      var k :| 0 <= k < |tail| && tail[k] == c;
      assert Before(list, 0, k + 1);
    }
  }

  /** `list'` is `list` some time later in the same walk, when scripts that touch `t` have run: new bottom
      halves were put in front and the others are in place. */
  ghost predicate Grown(list: seq<Bh>, list': seq<Bh>, t: Touch) {
    |list| <= |list'| && forall k: nat {:trigger Kept(list, list', t, k)} :: k < |list| ==> Kept(list, list', t, k)
  }

  ghost predicate Kept(list: seq<Bh>, list': seq<Bh>, t: Touch, k: nat)
    requires k < |list| <= |list'|
  {
    Later(list[k], list'[|list'| - |list| + k], t)
  }

  /** Counts do not go down, a deleted one stays deleted, only what the scripts touch is touched, and one that
      was to be called still is, or has been called or dropped. */
  predicate Later(b: Bh, b': Bh, t: Touch) {
    && b'.id == b.id && b'.asked >= b.asked && b'.ran >= b.ran && b'.dropped >= b.dropped
    && (b.deleted ==> b'.deleted)
    && (b.id !in t.schedules ==> b'.asked == b.asked)
    && (b.id !in t.cancels ==> b'.dropped == b.dropped)
    && (b.id !in t.deletes ==> b'.deleted == b.deleted)
    && (IsCalled(b) ==> IsCalled(b') || Served(b, b'))
  }

  /** A pending call has been made or dropped. */
  predicate Served(b: Bh, b': Bh) { b'.ran + b'.dropped > b.ran + b.dropped }

  lemma GrownTwice(a: seq<Bh>, b: seq<Bh>, c: seq<Bh>, t: Touch)
    requires Grown(a, b, t) && Grown(b, c, t)
    ensures Grown(a, c, t)
  {
    forall k: nat | k < |a| ensures Kept(a, c, t, k) {
      assert Kept(a, b, t, k) && Kept(b, c, t, |b| - |a| + k);
    }
  }

  lemma GrownWider(a: seq<Bh>, b: seq<Bh>, t: Touch, u: Touch)
    requires Grown(a, b, t) && t.Within(u)
    ensures Grown(a, b, u)
  {
    forall k: nat | k < |a| ensures Kept(a, b, u, k) {
      assert Kept(a, b, t, k);
    }
  }

  lemma GrownUpdate(list: seq<Bh>, k: nat, b: Bh, t: Touch)
    requires k < |list| && Later(list[k], b, t)
    ensures Grown(list, list[k := b], t)
  {
    var list' := list[k := b];
    forall j: nat | j < |list| ensures Kept(list, list', t, j) {
    }
  }

  lemma GrownSame(list: seq<Bh>, t: Touch)
    ensures Grown(list, list, t)
  {
    forall k: nat | k < |list| ensures Kept(list, list, t, k) {
    }
  }

  /** A list with one bottom half replaced has the same numbers in the same places. */
  lemma SameIndex(list: seq<Bh>, list': seq<Bh>, t: Touch, id: nat)
    requires Falling(list') && Grown(list, list', t) && |list'| == |list| && id in Ids(list)
    ensures id in Ids(list') && IndexOf(list', id) == IndexOf(list, id)
  {
    GrownHas(list, list', t, IndexOf(list, id));
    IndexUnique(list', id, IndexOf(list, id));
  }

  lemma GrownHas(a: seq<Bh>, b: seq<Bh>, t: Touch, k: nat)
    requires Grown(a, b, t) && k < |a|
    ensures b[|b| - |a| + k].id == a[k].id && a[k].id in Ids(b)
  {
    assert Kept(a, b, t, k);
    assert Ids(b)[|b| - |a| + k] == a[k].id;
  }

  /** The same bottom half, found by its number. */
  lemma GrownIndex(a: seq<Bh>, b: seq<Bh>, t: Touch, k: nat)
    requires Grown(a, b, t) && Falling(b) && k < |a|
    ensures a[k].id in Ids(b) && IndexOf(b, a[k].id) == |b| - |a| + k && Later(a[k], b[|b| - |a| + k], t)
  {
    assert Kept(a, b, t, k);
    GrownHas(a, b, t, k);
    IndexUnique(b, a[k].id, |b| - |a| + k);
  }

  /** What a walk at `id` reads as the next bottom half. */
  function NextId(list: seq<Bh>, id: nat): Option<nat>
    requires id in Ids(list)
  {
    At(list, IndexOf(list, id) + 1)
  }

  function At(list: seq<Bh>, r: nat): Option<nat> { if r < |list| then Some(list[r].id) else None }

  /** What was in the list when a walk started comes up in the same order, whatever was put in front. */
  lemma NextIs(list: seq<Bh>, start: seq<Bh>, t: Touch, r: nat)
    requires Falling(list) && Grown(start, list, t) && r < |start|
    ensures start[r].id in Ids(list) && NextId(list, start[r].id) == At(start, r + 1)
  {
    GrownIndex(start, list, t, r);
    if r + 1 < |start| {
      GrownHas(start, list, t, r + 1);
    }
  }

  /** The bottom halves a sweep leaves. */
  function Swept(list: seq<Bh>): (kept: seq<Bh>)
    ensures forall b :: b in kept <==> b in list && !b.deleted
  {
    if list == [] then []
    else if list[0].deleted then Swept(list[1..])
    else [list[0]] + Swept(list[1..])
  }

  lemma {:induction false} SweptFalling(list: seq<Bh>)
    requires Falling(list)
    ensures Falling(Swept(list))
  {
    if list != [] {
      FallingTail(list);
      SweptFalling(list[1..]);
      FallingNew(Swept(list[1..]), list[0]);
    }
  }

  /** Whether a walk that reaches `b` calls it. */
  predicate IsCalled(b: Bh) { b.scheduled && !b.deleted }

  // ----- a walk and a poll as a whole -----

  /** Of the first `r` bottom halves of `start`, those that were to be called have been served. */
  ghost predicate ServedUpTo(start: seq<Bh>, r: nat, list: seq<Bh>) {
    && r <= |start| <= |list|
    && forall k: nat {:trigger ServedAt(start, list, k)} :: k < r ==> ServedAt(start, list, k)
  }

  ghost predicate ServedAt(start: seq<Bh>, list: seq<Bh>, k: nat)
    requires k < |start| <= |list|
  {
    IsCalled(start[k]) ==> Served(start[k], list[|list| - |start| + k])
  }

  /** A visit serves the next one and takes nothing back. */
  lemma ServedNext(start: seq<Bh>, r: nat, list: seq<Bh>, list': seq<Bh>, t: Touch)
    requires r < |start| && Grown(start, list, t) && Grown(list, list', t) && ServedUpTo(start, r, list)
    requires var i := |list| - |start| + r;
      IsCalled(list[i]) ==> list'[|list'| - |start| + r].ran > list[i].ran
    ensures ServedUpTo(start, r + 1, list')
  {
    forall k: nat | k < r + 1 ensures ServedAt(start, list', k) {
      assert Kept(start, list, t, k) && Kept(list, list', t, |list| - |start| + k);
      assert k < r ==> ServedAt(start, list, k);
    }
  }

  /** A walk that started with `start` is about to visit number `r` of it. */
  ghost predicate AtVisit(start: seq<Bh>, r: nat, list: seq<Bh>, t: Touch) {
    Grown(start, list, t) && ServedUpTo(start, r, list) && Falling(list)
  }

  lemma Visited(start: seq<Bh>, r: nat, list: seq<Bh>, list': seq<Bh>, u: Touch, t: Touch)
    requires AtVisit(start, r, list, t) && r < |start| && Falling(list') && Grown(list, list', u) && u.Within(t)
    requires start[r].id in Ids(list) && start[r].id in Ids(list')
    requires var i, j := IndexOf(list, start[r].id), IndexOf(list', start[r].id);
      IsCalled(list[i]) ==> list'[j].ran > list[i].ran
    ensures AtVisit(start, r + 1, list', t)
  {
    GrownWider(list, list', u, t);
    GrownTwice(start, list, list', t);
    GrownIndex(start, list, t, r);
    GrownIndex(start, list', t, r);
    ServedNext(start, r, list, list', t);
  }

  /** What the walk keeps, in full. */
  ghost predicate MidWalk(start: seq<Bh>, n: nat, t: Touch, r: nat, calls: Callbacks, s: State) {
    && r <= |start| && AtVisit(start, r, s.list, t) && OnlyNew(Ids(start), Ids(s.list), n) && n <= s.nextId
    && CallbacksTouch(calls).Within(t)
  }

  /** What has become of the result so far: nothing was called, or something was. */
  ghost predicate ResultSoFar(start: seq<Bh>, r: nat, list: seq<Bh>, progress: bool, quiet: bool) {
    if quiet then list == start && !progress && r <= |start| && forall k :: 0 <= k < r ==> !IsCalled(start[k])
    else AnyCalled(start) && (progress || AnyIdleCalled(start))
  }

  /** What a poll leaves of a bottom half that was in the list: it is still there, and has been served if it
      was to be called; only one that was or has been deleted may be gone, and only after an outermost poll. */
  ghost predicate PolledAt(b: Bh, list': seq<Bh>, t: Touch, outermost: bool) {
    if b.id in Ids(list') then
      var b' := list'[IndexOf(list', b.id)];
      Later(b, b', t) && (IsCalled(b) ==> Served(b, b'))
    else outermost && (b.deleted || b.id in t.deletes)
  }

  ghost predicate Polled(list: seq<Bh>, list': seq<Bh>, t: Touch, outermost: bool) {
    forall b :: b in list ==> PolledAt(b, list', t, outermost)
  }

  lemma WalkedIsPolled(list: seq<Bh>, list': seq<Bh>, t: Touch)
    requires Grown(list, list', t) && ServedUpTo(list, |list|, list') && Falling(list')
    ensures Polled(list, list', t, false)
  {
    forall b | b in list ensures PolledAt(b, list', t, false) {
      var k :| 0 <= k < |list| && list[k] == b;
      GrownIndex(list, list', t, k);
      assert ServedAt(list, list', k);
    }
  }

  lemma SweptKeeps(list: seq<Bh>, id: nat)
    requires Falling(list) && id in Ids(list) && !list[IndexOf(list, id)].deleted
    ensures id in Ids(Swept(list)) && Swept(list)[IndexOf(Swept(list), id)] == list[IndexOf(list, id)]
  {
    var b, kept := list[IndexOf(list, id)], Swept(list);
    assert b in list && b in kept;
    var k :| 0 <= k < |kept| && kept[k] == b;
    assert Ids(kept)[k] == id;
    SweptFalling(list);
    IndexUnique(kept, id, k);
  }

  lemma SweptHas(list: seq<Bh>, id: nat)
    requires Falling(list) && id in Ids(Swept(list))
    ensures id in Ids(list) && !list[IndexOf(list, id)].deleted
  {
    var kept := Swept(list);
    var b := kept[IndexOf(kept, id)];
    assert b in kept && b in list;
    var k :| 0 <= k < |list| && list[k] == b;
    assert Ids(list)[k] == id;
    IndexUnique(list, id, k);
  }

  lemma SweptNumbers(list: seq<Bh>)
    requires Falling(list)
    ensures forall id :: id in Ids(Swept(list)) ==> id in Ids(list)
  {
    forall id | id in Ids(Swept(list)) ensures id in Ids(list) {
      SweptHas(list, id);
    }
  }

  lemma SweptIsPolled(list: seq<Bh>, list': seq<Bh>, t: Touch)
    requires Polled(list, list', t, false) && Falling(list')
    ensures Polled(list, Swept(list'), t, true)
  {
    forall b | b in list ensures PolledAt(b, Swept(list'), t, true) {
      assert PolledAt(b, list', t, false);
      if b.id in Ids(Swept(list')) {
        SweptHas(list', b.id);
      }
      if !list'[IndexOf(list', b.id)].deleted {
        SweptKeeps(list', b.id);
      }
    }
  }

  /** What a whole walk over `start` leaves. */
  ghost predicate Walked(start: seq<Bh>, n: nat, list: seq<Bh>, t: Touch) {
    Grown(start, list, t) && ServedUpTo(start, |start|, list) && OnlyNew(Ids(start), Ids(list), n)
  }

  lemma EndOfPoll(start: seq<Bh>, n: nat, list: seq<Bh>, t: Touch)
    requires Walked(start, n, list, t) && Falling(list)
    ensures Polled(start, Swept(list), t, true)
    ensures OnlyNew(Ids(start), Ids(Swept(list)), n)
  {
    WalkedIsPolled(start, list, t);
    SweptIsPolled(start, list, t);
    SweptNumbers(list);
  }

  /** A bottom half that no script touches runs exactly once if it was to be called, and not at all otherwise. */
  lemma RunsOnce(b: Bh, list': seq<Bh>, t: Touch, outermost: bool)
    requires PolledAt(b, list', t, outermost) && t.Spares(b.id) && !b.deleted && Conserved(b)
    requires forall c :: c in list' ==> Conserved(c)
    ensures b.id in Ids(list')
    ensures var b' := list'[IndexOf(list', b.id)];
      !b'.deleted && !b'.scheduled && b'.ran == b.ran + if b.scheduled then 1 else 0
  {
    assert list'[IndexOf(list', b.id)] in list';
  }

  /** Something in the list is to be called. */
  ghost predicate AnyCalled(list: seq<Bh>) { exists b :: b in list && IsCalled(b) }

  ghost predicate AnyIdleCalled(list: seq<Bh>) { exists b :: b in list && IsCalled(b) && b.idle }

  ghost predicate BhOk(b: Bh, nextId: nat) { b.id < nextId && Conserved(b) }

  function Cancelled(b: Bh, delete: bool): Bh {
    b.(scheduled := false, deleted := b.deleted || delete, dropped := b.dropped + if b.scheduled then 1 else 0)
  }

  // ----- what the operations compute -----

  /** The state of a context. */
  datatype State = State(list: seq<Bh>, walking: nat, nextId: nat)

  function Replaced(list: seq<Bh>, id: nat, b: Bh): seq<Bh>
    requires id in Ids(list)
  {
    list[IndexOf(list, id) := b]
  }

  function Asked(b: Bh, idle: bool): Bh {
    if b.scheduled then b else b.(scheduled := true, idle := idle, asked := b.asked + 1)
  }

  function Ran(b: Bh): Bh { b.(scheduled := false, idle := false, ran := b.ran + 1) }

  ghost function AfterAction(s: State, a: Action): State
    decreases ActionSize(a), 1, 0
  {
    match a
    case New => s.(list := [Bh(s.nextId, false, false, false, 0, 0, 0)] + s.list, nextId := s.nextId + 1)
    case Schedule(id) => AfterSchedule(s, id, false)
    case ScheduleIdle(id) => AfterSchedule(s, id, true)
    case Cancel(id) => AfterCancel(s, id, false)
    case Delete(id) => AfterCancel(s, id, true)
    case Walk(callbacks) => AfterPoll(s, callbacks).0
  }

  ghost function AfterSchedule(s: State, id: nat, idle: bool): State {
    if id in Ids(s.list) then s.(list := Replaced(s.list, id, Asked(s.list[IndexOf(s.list, id)], idle))) else s
  }

  ghost function AfterCancel(s: State, id: nat, delete: bool): State {
    if id in Ids(s.list) then s.(list := Replaced(s.list, id, Cancelled(s.list[IndexOf(s.list, id)], delete))) else s
  }

  ghost function AfterScript(s: State, script: Script): State
    decreases ScriptSize(script), 2, 0
  {
    if script.Return? then s else AfterScript(AfterAction(s, script.action), script.rest)
  }

  /** Every number of a snapshot in turn: what is to be called is called with the next script.  Nothing here
      depends on the order of the list while callbacks change it. */
  ghost function AfterVisits(s: State, ids: seq<nat>, calls: Callbacks): (State, bool)
    decreases CallbacksSize(calls), 3, |ids|
  {
    if ids == [] then (s, false)
    else if ids[0] !in Ids(s.list) || !IsCalled(s.list[IndexOf(s.list, ids[0])]) then AfterVisits(s, ids[1..], calls)
    else
      var b := s.list[IndexOf(s.list, ids[0])];
      var s1 := s.(list := Replaced(s.list, ids[0], Ran(b)));
      if calls.NoMore? then
        var (s2, more) := AfterVisits(s1, ids[1..], calls);
        (s2, !b.idle || more)
      else
        var (s2, more) := AfterVisits(AfterScript(s1, calls.script), ids[1..], calls.others);
        (s2, !b.idle || more)
  }

  /** One visit. */
  ghost function AfterVisit(s: State, id: nat, calls: Callbacks): State {
    if id !in Ids(s.list) || !IsCalled(s.list[IndexOf(s.list, id)]) then s
    else
      var s1 := s.(list := Replaced(s.list, id, Ran(s.list[IndexOf(s.list, id)])));
      if calls.NoMore? then s1 else AfterScript(s1, calls.script)
  }

  /** The visits from number `r` on lead to what all visits lead to. */
  ghost predicate StillToCome(s0: State, ids: seq<nat>, calls0: Callbacks, s: State, r: nat, calls: Callbacks,
                              progress: bool) {
    r <= |ids| &&
    var (end, more) := AfterVisits(s, ids[r..], calls);
    AfterVisits(s0, ids, calls0) == (end, progress || more)
  }

  lemma VisitStep(s0: State, ids: seq<nat>, calls0: Callbacks, s: State, r: nat, calls: Callbacks, progress: bool)
    requires StillToCome(s0, ids, calls0, s, r, calls, progress) && r < |ids| && ids[r] in Ids(s.list)
    ensures var b := s.list[IndexOf(s.list, ids[r])];
      var left := if IsCalled(b) && calls.Call? then calls.others else calls;
      StillToCome(s0, ids, calls0, AfterVisit(s, ids[r], calls), r + 1, left, progress || (IsCalled(b) && !b.idle))
  {
    assert ids[r..][0] == ids[r] && ids[r..][1..] == ids[r + 1..];
  }

  /** A poll: the visits of the bottom halves there are, and, outermost, the sweep. */
  ghost function AfterPoll(s: State, callbacks: Callbacks): (State, bool)
    decreases CallbacksSize(callbacks), 4, 0
  {
    var (s1, progress) := AfterVisits(s.(walking := s.walking + 1), Ids(s.list), callbacks);
    var s2 := s1.(walking := s.walking);
    (if s.walking == 0 then s2.(list := Swept(s2.list)) else s2, progress)
  }

  lemma PollIs(s: State, s1: State, callbacks: Callbacks, progress: bool)
    requires s1.walking == s.walking
    requires (s1.(walking := s.walking + 1), progress)
      == AfterVisits(s.(walking := s.walking + 1), Ids(s.list), callbacks)
    ensures AfterPoll(s, callbacks) == (if s.walking == 0 then s1.(list := Swept(s1.list)) else s1, progress)
  {
  }

  function Then(a: Script, b: Script): Script { if a.Return? then b else Do(a.action, Then(a.rest, b)) }

  /** A script takes its actions in order, all of them. */
  lemma {:induction false} ThenIs(s: State, a: Script, b: Script)
    ensures AfterScript(s, Then(a, b)) == AfterScript(AfterScript(s, a), b)
    decreases a
  {
    if a.Do? {
      assert Then(a, b).action == a.action && Then(a, b).rest == Then(a.rest, b);
      ThenIs(AfterAction(s, a.action), a.rest, b);
    }
  }

  lemma OneAction(s: State, a: Action)
    ensures AfterScript(s, Do(a, Return)) == AfterAction(s, a)
  {
    assert AfterScript(AfterAction(s, a), Return) == AfterAction(s, a);
  }

  /** A callback that schedules the next bottom half and deletes its own: the walk still runs the next one, and the
      poll leaves only that. */
  lemma ScheduledInWalk()
    ensures
      var s := State([Bh(1, true, false, false, 1, 0, 0), Bh(0, false, false, false, 0, 0, 0)], 0, 2);
      var calls := Call(Do(Schedule(0), Do(Delete(1), Return)), NoMore);
      AfterPoll(s, calls) == (State([Bh(0, false, false, false, 1, 1, 0)], 0, 2), true)
  {
    var b1, b0 := Bh(1, true, false, false, 1, 0, 0), Bh(0, false, false, false, 0, 0, 0);
    var s := State([b1, b0], 1, 2);
    var script := Do(Schedule(0), Do(Delete(1), Return));
    assert Ids(s.list) == [1, 0];
    var ran := Ran(b1);
    var s1 := State([ran, b0], 1, 2);
    assert Replaced(s.list, 1, ran) == s1.list;
    assert Ids(s1.list) == [1, 0];
    var s2 := State([ran, Asked(b0, false)], 1, 2);
    assert AfterAction(s1, Schedule(0)) == s2;
    assert Ids(s2.list) == [1, 0];
    var s3 := State([Cancelled(ran, true), Asked(b0, false)], 1, 2);
    assert AfterAction(s2, Delete(1)) == s3;
    assert AfterScript(s1, script) == s3 by {
      assert script.rest == Do(Delete(1), Return);
      OneAction(s2, Delete(1));
    }
    assert Ids(s3.list) == [1, 0];
    var s4 := State([Cancelled(ran, true), Ran(Asked(b0, false))], 1, 2);
    assert Replaced(s3.list, 0, Ran(Asked(b0, false))) == s4.list;
    assert [1, 0][1..] == [0] && [0][1..] == [];
    assert AfterVisits(s4, [], NoMore) == (s4, false);
    assert AfterVisits(s3, [0], NoMore) == (s4, true);
    assert AfterVisits(s, [1, 0], Call(script, NoMore)) == (s4, true);
    assert s4.list[1..] == [s4.list[1]] && s4.list[1..][1..] == [];
    assert Swept(s4.list[1..]) == [s4.list[1]] + Swept([]);
    var start := State([b1, b0], 0, 2);
    assert start.(walking := 1) == s;
    assert s4.list[0].deleted && Swept(s4.list) == Swept(s4.list[1..]);
    assert Swept(s4.list) == [Bh(0, false, false, false, 1, 1, 0)];
    assert AfterPoll(start, Call(script, NoMore)) == (s4.(walking := 0, list := Swept(s4.list)), true);
  }

  // ----- the context -----

  class AioContext {
    var list: seq<Bh>
    var walking: nat
    var nextId: nat
    /** The callbacks called so far, nested ones included. */
    ghost var called: seq<Script>

    ghost predicate Valid() reads this {
      Falling(list) && forall b :: b in list ==> BhOk(b, nextId)
    }

    ghost function Now(): State reads this { State(list, walking, nextId) }

    constructor ()
      ensures Valid() && list == [] && walking == 0
    {
      list, walking, nextId, called := [], 0, 0, [];
    }

    /** aio_bh_new */
    method Create() returns (id: nat)
      requires Valid()
      modifies `list, `nextId
      ensures Valid() && id == old(nextId) && list == [Bh(id, false, false, false, 0, 0, 0)] + old(list)
      ensures nextId == id + 1 && Grown(old(list), list, NOTHING)
    {
      id := nextId;
      FallingNew(list, Bh(id, false, false, false, 0, 0, 0));
      list := [Bh(id, false, false, false, 0, 0, 0)] + list;
      nextId := nextId + 1;
      forall k: nat | k < |old(list)| ensures Kept(old(list), list, NOTHING, k) {
      }
    }

    /** Replace the bottom half that has the number of `b`. */
    method Update(b: Bh, ghost t: Touch)
      requires Valid() && b.id in Ids(list) && Conserved(b) && Later(list[IndexOf(list, b.id)], b, t)
      modifies `list
      ensures Valid() && Grown(old(list), list, t)
      ensures list == old(list)[old(IndexOf(list, b.id)) := b]
    {
      var k := IndexOf(list, b.id);
      FallingUpdate(list, k, b);
      GrownUpdate(list, k, b, t);
      assert list[k] in list;
      list := list[k := b];
    }

    /** qemu_bh_schedule and qemu_bh_schedule_idle: of several calls only the first takes effect. */
    method ScheduleBh(id: nat, idle: bool)
      requires Valid() && id in Ids(list)
      modifies `list
      ensures Valid() && Grown(old(list), list, NOTHING.(schedules := {id}))
      ensures var k := old(IndexOf(list, id)); var b := old(list)[k];
        list == old(list)[k := Asked(b, idle)]
    {
      var b := list[IndexOf(list, id)];
      assert b in list;
      if b.scheduled {
        GrownUpdate(list, IndexOf(list, id), b, NOTHING.(schedules := {id}));
        return;
      }
      Update(Asked(b, idle), NOTHING.(schedules := {id}));
    }

    /** qemu_bh_cancel, and with `delete` qemu_bh_delete. */
    method CancelBh(id: nat, delete: bool)
      requires Valid() && id in Ids(list)
      modifies `list
      ensures Valid() && Grown(old(list), list, Touch({}, {id}, if delete then {id} else {}))
      ensures var k := old(IndexOf(list, id)); var b := old(list)[k];
        list == old(list)[k := Cancelled(b, delete)]
    {
      var b := list[IndexOf(list, id)];
      assert b in list;
      Update(Cancelled(b, delete), Touch({}, {id}, if delete then {id} else {}));
    }

    /** One action of a callback.  Handles that are not in the list are not used.  While a walk is in
        progress the list only grows, at its head. */
    method Act(action: Action)
      requires Valid() && walking > 0
      modifies this
      ensures Valid() && walking == old(walking) && Grown(old(list), list, ActionTouch(action)) && nextId >= old(nextId)
      ensures old(called) <= called && OnlyNew(Ids(old(list)), Ids(list), old(nextId))
      ensures !action.Walk? ==> called == old(called)
      ensures Now() == AfterAction(old(Now()), action)
      ensures action.Walk? ==> Polled(old(list), list, CallbacksTouch(action.callbacks), false)
      ensures action.New? ==> list == [Bh(old(nextId), false, false, false, 0, 0, 0)] + old(list)
      ensures (action.Schedule? || action.ScheduleIdle?) && action.id in Ids(old(list)) ==>
        action.id in Ids(list) && list[IndexOf(list, action.id)].scheduled
      ensures (action.Cancel? || action.Delete?) && action.id in Ids(old(list)) ==>
        action.id in Ids(list) && !list[IndexOf(list, action.id)].scheduled
          && (action.Delete? ==> list[IndexOf(list, action.id)].deleted)
      decreases ActionSize(action), 1
    {
      ghost var was, t := list, ActionTouch(action);
      GrownSame(list, t);
      match action {
        case New =>
          var _ := Create();
          GrownWider(was, list, NOTHING, t);
        case Schedule(id) =>
          if id in Ids(list) {
            ScheduleBh(id, false);
            SameIndex(was, list, t, id);
          }
        case ScheduleIdle(id) =>
          if id in Ids(list) {
            ScheduleBh(id, true);
            SameIndex(was, list, t, id);
          }
        case Cancel(id) =>
          if id in Ids(list) {
            CancelBh(id, false);
            SameIndex(was, list, t, id);
          }
        case Delete(id) =>
          if id in Ids(list) {
            CancelBh(id, true);
            SameIndex(was, list, t, id);
          }
        case Walk(callbacks) =>
          var _ := Poll(callbacks);
      }
    }

    /** Call a callback: its actions in order. */
    method Perform(script: Script)
      requires Valid() && walking > 0
      modifies this
      ensures Valid() && walking == old(walking) && Grown(old(list), list, ScriptTouch(script)) && nextId >= old(nextId)
      ensures old(called) + [script] <= called && OnlyNew(Ids(old(list)), Ids(list), old(nextId))
      ensures Now() == AfterScript(old(Now()), script)
      decreases ScriptSize(script), 2
    {
      called := called + [script];
      ghost var start, n, t := list, nextId, ScriptTouch(script);
      GrownSame(list, t);
      var rest := script;
      while rest.Do?
        invariant Valid() && walking == old(walking) && Grown(start, list, t) && nextId >= n
        invariant old(called) + [script] <= called && ScriptSize(rest) <= ScriptSize(script)
        invariant OnlyNew(Ids(start), Ids(list), n) && ScriptTouch(rest).Within(t)
        invariant AfterScript(Now(), rest) == AfterScript(old(Now()), script)
        decreases rest
      {
        ghost var before, m := list, nextId;
        Act(rest.action);
        GrownWider(before, list, ActionTouch(rest.action), t);
        GrownTwice(start, before, list, t);
        NewTwice(Ids(start), Ids(before), Ids(list), n, m);
        rest := rest.rest;
      }
    }

    /** aio_bh_poll.  Every bottom half that was to be called when the poll started has been called, or has been
        dropped by a callback; none that was live is freed unless a callback deletes it; and the outermost poll
        leaves no deleted one.  If nothing was to be called there is no progress; there is if something was, and
        nothing idle. */
    method Poll(callbacks: Callbacks) returns (progress: bool)
      requires Valid()
      modifies this
      ensures Valid() && walking == old(walking) && nextId >= old(nextId) && old(called) <= called
      ensures Polled(old(list), list, CallbacksTouch(callbacks), walking == 0)
      ensures OnlyNew(Ids(old(list)), Ids(list), old(nextId))
      ensures if walking == 0 then forall b :: b in list ==> !b.deleted
        else Grown(old(list), list, CallbacksTouch(callbacks))
      ensures progress ==> AnyCalled(old(list))
      ensures AnyCalled(old(list)) && !AnyIdleCalled(old(list)) ==> progress
      ensures (Now(), progress) == AfterPoll(old(Now()), callbacks)
      decreases CallbacksSize(callbacks), 7
    {
      ghost var s0, t := Now(), CallbacksTouch(callbacks);
      progress := WalkLocked(callbacks);
      ghost var s1 := Now();
      PollIs(s0, s1, callbacks, progress);
      if walking == 0 {
        EndOfPoll(s0.list, s0.nextId, s1.list, t);
        Sweep();
      } else {
        WalkedIsPolled(s0.list, s1.list, t);
      }
    }

    /** The walk, under the lock that keeps nested polls from freeing anything. */
    method WalkLocked(callbacks: Callbacks) returns (progress: bool)
      requires Valid()
      modifies this
      ensures Valid() && walking == old(walking) && nextId >= old(nextId) && old(called) <= called
      ensures Walked(old(list), old(nextId), list, CallbacksTouch(callbacks))
      ensures progress ==> AnyCalled(old(list))
      ensures AnyCalled(old(list)) && !AnyIdleCalled(old(list)) ==> progress
      ensures (Now().(walking := walking + 1), progress)
        == AfterVisits(old(Now()).(walking := walking + 1), Ids(old(list)), callbacks)
      decreases CallbacksSize(callbacks), 6
    {
      ghost var s0 := Now();
      walking := walking + 1;
      assert Now() == s0.(walking := s0.walking + 1);
      progress := WalkList(callbacks);
      walking := walking - 1;
    }

    /** The first loop of aio_bh_poll. */
    method WalkList(callbacks: Callbacks) returns (progress: bool)
      requires Valid() && walking > 0
      modifies this
      ensures Valid() && walking == old(walking) && nextId >= old(nextId) && old(called) <= called
      ensures Walked(old(list), old(nextId), list, CallbacksTouch(callbacks))
      ensures progress ==> AnyCalled(old(list))
      ensures AnyCalled(old(list)) && !AnyIdleCalled(old(list)) ==> progress
      ensures (Now(), progress) == AfterVisits(old(Now()), Ids(old(list)), callbacks)
      decreases CallbacksSize(callbacks), 5
    {
      progress := false;
      ghost var start, n, t, r, quiet := list, nextId, CallbacksTouch(callbacks), 0, true;
      GrownSame(list, t);
      assert Ids(start)[0..] == Ids(start);
      var calls := callbacks;
      var cursor := At(list, 0);
      while cursor.Some?
        invariant Valid() && walking == old(walking) && old(called) <= called
        invariant CallbacksSize(calls) <= CallbacksSize(callbacks) && cursor == At(start, r)
        invariant MidWalk(start, n, t, r, calls, Now()) && ResultSoFar(start, r, list, progress, quiet)
        invariant StillToCome(old(Now()), Ids(start), callbacks, Now(), r, calls, progress)
        decreases |start| - r
      {
        var busy;
        ghost var ran;
        assert start[r] in start;
        busy, calls, cursor, ran := NextVisit(cursor.value, calls, start, n, t, r, old(Now()), callbacks, progress);
        assert quiet && ran ==> IsCalled(start[r]) && (busy || start[r].idle);
        quiet := quiet && !ran;
        progress := progress || busy;
        r := r + 1;
      }
      assert Ids(start)[r..] == [];
    }

    /** One turn of that loop. */
    method NextVisit(id: nat, calls: Callbacks, ghost start: seq<Bh>, ghost n: nat, ghost t: Touch, ghost r: nat,
                     ghost s0: State, ghost callbacks: Callbacks, ghost progress: bool)
      returns (busy: bool, left: Callbacks, next: Option<nat>, ghost ran: bool)
      requires Valid() && walking > 0 && r < |start| && id == start[r].id && MidWalk(start, n, t, r, calls, Now())
      requires StillToCome(s0, Ids(start), callbacks, Now(), r, calls, progress)
      modifies this
      ensures Valid() && walking == old(walking) && old(called) <= called
      ensures CallbacksSize(left) <= CallbacksSize(calls) && next == At(start, r + 1)
      ensures MidWalk(start, n, t, r + 1, left, Now())
      ensures StillToCome(s0, Ids(start), callbacks, Now(), r + 1, left, progress || busy)
      ensures !ran ==> list == old(list) && !busy
      ensures old(list) == start ==> ran == IsCalled(start[r]) && (busy <==> ran && !start[r].idle)
      decreases CallbacksSize(calls), 4
    {
      ghost var before, m := list, nextId;
      assert Ids(start)[r] == id;
      NextIs(list, start, t, r);
      GrownIndex(start, list, t, r);
      ran := IsCalled(list[IndexOf(list, id)]);
      VisitStep(s0, Ids(start), callbacks, Now(), r, calls, progress);
      busy, left, next := Visit(id, calls);
      GrownHas(before, list, CallbacksTouch(calls), IndexOf(before, id));
      Visited(start, r, before, list, CallbacksTouch(calls), t);
      NewTwice(Ids(start), Ids(before), Ids(list), n, m);
    }

    /** One bottom half of the walk: its callback runs if and only if it is scheduled and not deleted, and
        the schedule is then used up.  The next one is read before the call. */
    method Visit(id: nat, calls: Callbacks) returns (busy: bool, left: Callbacks, next: Option<nat>)
      requires Valid() && walking > 0 && id in Ids(list)
      modifies this
      ensures Valid() && walking == old(walking) && nextId >= old(nextId)
      ensures Grown(old(list), list, CallbacksTouch(calls)) && OnlyNew(Ids(old(list)), Ids(list), old(nextId))
      ensures next == old(NextId(list, id)) && CallbacksSize(left) <= CallbacksSize(calls)
      ensures CallbacksTouch(left).Within(CallbacksTouch(calls)) && old(called) <= called
      ensures var b := old(list[IndexOf(list, id)]);
        && (busy <==> IsCalled(b) && !b.idle)
        && (!IsCalled(b) ==> list == old(list) && left == calls && called == old(called))
        && (IsCalled(b) ==> id in Ids(list) && list[IndexOf(list, id)].ran > b.ran)
        && (IsCalled(b) ==> old(called) + [if calls.Call? then calls.script else Return] <= called)
        && (IsCalled(b) ==> left == if calls.Call? then calls.others else calls)
      ensures Now() == AfterVisit(old(Now()), id, calls)
      decreases CallbacksSize(calls), 3
    {
      next, left, busy := NextId(list, id), calls, false;
      var k := IndexOf(list, id);
      var b := list[k];
      ghost var was, n, t := list, nextId, CallbacksTouch(calls);
      GrownSame(list, t);
      if !b.deleted && b.scheduled {
        busy := !b.idle;
        assert b in list;
        Update(Ran(b), t);
        ghost var updated := list;
        assert Ids(updated) == Ids(was);
        var script := if calls.Call? then calls.script else Return;
        left := if calls.Call? then calls.others else calls;
        Perform(script);
        GrownWider(updated, list, ScriptTouch(script), t);
        GrownIndex(updated, list, t, k);
        GrownTwice(was, updated, list, t);
      }
    }

    /** The second loop of aio_bh_poll. */
    method Sweep()
      requires Valid()
      modifies `list
      ensures Valid() && list == Swept(old(list))
    {
      SweptFalling(list);
      var kept, rest := [], list;
      while rest != []
        invariant Swept(list) == kept + Swept(rest)
        decreases |rest|
      {
        var b := rest[0];
        assert kept + ([b] + Swept(rest[1..])) == kept + [b] + Swept(rest[1..]);
        if !b.deleted {
          kept := kept + [b];
        }
        rest := rest[1..];
      }
      assert kept == Swept(list);
      list := kept;
    }
  }
}
