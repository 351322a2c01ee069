/**
  File descriptor handlers (aio-posix.c): a list that is walked while the handlers it calls register and
  remove handlers and poll again.

  As with bottom halves, a handler's callback is an arbitrary script.  A walk holds its lock only while
  it is at one handler, and the handler it has just left is freed between two handlers.
 */
module AioHandlers {
  import opened Numbered
  import opened Options

  /** AioHandler; `hasRead` and `hasWrite` say whether io_read and io_write are set, `readable` and
      `writable` what the last poll of the main loop found.  `readCalls` and `writeCalls` count the calls of either. */
  datatype Handler = Handler(id: nat, fd: int, hasRead: bool, hasWrite: bool, hasFlush: bool,
    readable: bool, writable: bool, deleted: bool, readCalls: nat, writeCalls: nat)

  /** What a callback may do: set or clear the handler of a descriptor, or poll. */
  datatype Action =
    | SetHandler(fd: int, read: bool, write: bool, flush: bool)
    | Walk(world: World, callbacks: Callbacks)

  datatype Script = Return | Do(action: Action, rest: Script)

  datatype Callbacks = NoMore | Call(script: Script, others: Callbacks)

  /** What a poll finds: whether bottom halves made progress, the descriptors whose io_flush reports work,
      and what select would return. */
  datatype World = World(blocking: bool, bottomHalves: bool, busy: set<int>, readable: set<int>, writable: set<int>)

  /** The two walks of aio_poll that dispatch: what the main loop had reported, or what select returned. */
  datatype Mode = Reported | Selected(readable: set<int>, writable: set<int>)

  ghost function ActionSize(a: Action): nat {
    if a.Walk? then 1 + CallbacksSize(a.callbacks) else 1
  }

  ghost function ScriptSize(s: Script): nat {
    if s.Return? then 0 else 1 + ActionSize(s.action) + ScriptSize(s.rest)
  }

  ghost function CallbacksSize(c: Callbacks): nat {
    if c.NoMore? then 0 else 1 + ScriptSize(c.script) + CallbacksSize(c.others)
  }

  // ----- what a script may touch -----

  /** The descriptors whose handlers scripts set or clear, those they clear, and whether they poll. */
  datatype Touch = Touch(sets: set<int>, clears: set<int>, walks: bool) {
    function Join(t: Touch): Touch { Touch(sets + t.sets, clears + t.clears, walks || t.walks) }

    predicate Within(t: Touch) { sets <= t.sets && clears <= t.clears && (walks ==> t.walks) }

    function Walking(): Touch { Touch(sets, clears, true) }
  }

  const NOTHING: Touch := Touch({}, {}, false)

  ghost function ActionTouch(a: Action): Touch {
    match a
    case SetHandler(fd, read, write, _) => Touch({fd}, if read || write then {} else {fd}, false)
    case Walk(_, callbacks) => CallbacksTouch(callbacks).Walking()
  }

  ghost function ScriptTouch(s: Script): Touch {
    if s.Return? then NOTHING else ActionTouch(s.action).Join(ScriptTouch(s.rest))
  }

  ghost function CallbacksTouch(c: Callbacks): Touch {
    if c.NoMore? then NOTHING else ScriptTouch(c.script).Join(CallbacksTouch(c.others))
  }

  // ----- the list -----

  function Ids(list: seq<Handler>): (ids: seq<nat>)
    ensures |ids| == |list| && forall k :: 0 <= k < |list| ==> ids[k] == list[k].id
  {
    seq(|list|, k requires 0 <= k < |list| => list[k].id)
  }

  ghost predicate Falling(list: seq<Handler>) {
    forall j: nat, k: nat {:trigger Before(list, j, k)} :: j < k < |list| ==> Before(list, j, k)
  }

  /** Numbers fall along the list, and of two handlers of one descriptor at most one is live. */
  ghost predicate Before(list: seq<Handler>, j: nat, k: nat)
    requires j < k < |list|
  {
    list[j].id > list[k].id && (list[j].fd == list[k].fd ==> list[j].deleted || list[k].deleted)
  }

  function IndexOf(list: seq<Handler>, id: nat): (k: nat)
    requires id in Ids(list)
    ensures k < |list| && list[k].id == id
  {
    Index(Ids(list), id)
  }

  lemma IndexUnique(list: seq<Handler>, id: nat, k: nat)
    requires Falling(list) && id in Ids(list) && k < |list| && list[k].id == id
    ensures IndexOf(list, id) == k
  {
    var i := IndexOf(list, id);
    assert i < k ==> Before(list, i, k);
    assert k < i ==> Before(list, k, i);
  }

  /** find_aio_handler: the live handler of a descriptor, if there is one. */
  function Find(list: seq<Handler>, fd: int): (k: Option<nat>)
    ensures k.Some? ==> k.value < |list| && list[k.value].fd == fd && !list[k.value].deleted
    ensures k.None? ==> forall h :: h in list && h.fd == fd ==> h.deleted
  {
    if list == [] then None
    else if list[0].fd == fd && !list[0].deleted then Some(0)
    else
      var k := Find(list[1..], fd);
      if k.Some? then Some(k.value + 1) else None
  }

  lemma FallingUpdate(list: seq<Handler>, i: nat, h: Handler)
    requires Falling(list) && i < |list| && h.id == list[i].id && h.fd == list[i].fd && (list[i].deleted ==> h.deleted)
    ensures Falling(list[i := h])
  {
    var list' := list[i := h];
    forall j: nat, k: nat | j < k < |list'| ensures Before(list', j, k) {
      assert Before(list, j, k);
    }
  }

  lemma FallingNew(list: seq<Handler>, h: Handler)
    requires Falling(list) && forall c :: c in list ==> c.id < h.id && (c.fd == h.fd ==> c.deleted)
    ensures Falling([h] + list)
  {
    var list' := [h] + list;
    forall j: nat, k: nat | j < k < |list'| ensures Before(list', j, k) {
      assert list'[k] == list[k - 1] && list[k - 1] in list;
      assert j > 0 ==> Before(list, j - 1, k - 1);
    }
  }

  function Without(list: seq<Handler>, i: nat): seq<Handler>
    requires i < |list|
  {
    list[..i] + list[i + 1..]
  }

  lemma FallingWithout(list: seq<Handler>, i: nat)
    requires Falling(list) && i < |list|
    ensures Falling(Without(list, i)) && forall h :: h in Without(list, i) ==> h in list && h.id != list[i].id
  {
    var list' := Without(list, i);
    forall j: nat, k: nat | j < k < |list'| ensures Before(list', j, k) {
      assert Before(list, if j < i then j else j + 1, if k < i then k else k + 1);
    }
    forall h | h in list' ensures h in list && h.id != list[i].id {
      var k :| 0 <= k < |list'| && list'[k] == h;
      assert h == list[if k < i then k else k + 1];
      assert k < i ==> Before(list, k, i);
      assert k >= i ==> Before(list, i, k + 1);
    }
  }

  // ----- some time later -----

  /** The same handler after scripts that touch `t` have run: counts do not go down, reports only go away, only
      what the scripts touch is touched, and a reported event is still due, or its callback has been called. */
  predicate Later(h: Handler, h': Handler, t: Touch) {
    && h'.id == h.id && h'.fd == h.fd && (h.deleted ==> h'.deleted)
    && h'.readCalls >= h.readCalls && h'.writeCalls >= h.writeCalls
    && (h'.readable ==> h.readable) && (h'.writable ==> h.writable)
    && (h.fd !in t.clears || h.fd !in t.sets ==> h'.deleted == h.deleted)
    && (h.fd !in t.sets ==> h'.hasRead == h.hasRead && h'.hasWrite == h.hasWrite && h'.hasFlush == h.hasFlush)
    && (!t.walks ==> h'.readCalls == h.readCalls && h'.writeCalls == h.writeCalls)
    && (h.fd !in t.sets && ReadDue(Reported, h) ==> ReadDue(Reported, h') || h'.readCalls > h.readCalls)
    && (h.fd !in t.sets && WriteDue(Reported, h) ==> WriteDue(Reported, h') || h'.writeCalls > h.writeCalls)
  }

  /** `list'` has the handlers of `list` at its end, in the same order; others are in front of them. */
  ghost predicate Grown(list: seq<Handler>, list': seq<Handler>, t: Touch) {
    |list| <= |list'| && forall k: nat {:trigger Kept(list, list', t, k)} :: k < |list| ==> Kept(list, list', t, k)
  }

  ghost predicate Kept(list: seq<Handler>, list': seq<Handler>, t: Touch, k: nat)
    requires k < |list| <= |list'|
  {
    Later(list[k], list'[|list'| - |list| + k], t)
  }

  lemma GrownSame(list: seq<Handler>, t: Touch)
    ensures Grown(list, list, t)
  {
    forall k: nat | k < |list| ensures Kept(list, list, t, k) {
    }
  }

  lemma GrownTwice(a: seq<Handler>, b: seq<Handler>, c: seq<Handler>, t: Touch)
    requires Grown(a, b, t) && Grown(b, c, t)
    ensures Grown(a, c, t)
  {
    forall k: nat | k < |a| ensures Kept(a, c, t, k) {
      assert Kept(a, b, t, k) && Kept(b, c, t, |b| - |a| + k);
    }
  }

  lemma GrownWider(a: seq<Handler>, b: seq<Handler>, t: Touch, u: Touch)
    requires Grown(a, b, t) && t.Within(u)
    ensures Grown(a, b, u)
  {
    forall k: nat | k < |a| ensures Kept(a, b, u, k) {
      assert Kept(a, b, t, k);
    }
  }

  lemma GrownUpdate(list: seq<Handler>, i: nat, h: Handler, t: Touch)
    requires i < |list| && Later(list[i], h, t)
    ensures Grown(list, list[i := h], t)
  {
    var list' := list[i := h];
    forall j: nat | j < |list| ensures Kept(list, list', t, j) {
    }
  }

  lemma GrownIndex(a: seq<Handler>, b: seq<Handler>, t: Touch, k: nat)
    requires Grown(a, b, t) && Falling(b) && k < |a|
    ensures a[k].id in Ids(b) && IndexOf(b, a[k].id) == |b| - |a| + k && Later(a[k], b[|b| - |a| + k], t)
  {
    assert Kept(a, b, t, k);
    assert Ids(b)[|b| - |a| + k] == a[k].id;
    IndexUnique(b, a[k].id, |b| - |a| + k);
  }

  // ----- handlers by their numbers -----

  lemma WithoutNumbers(list: seq<Handler>, i: nat)
    requires Falling(list) && i < |list|
    ensures var list' := Without(list, i);
      && list[i].id !in Ids(list') && (forall x :: x in Ids(list) && x != list[i].id ==> x in Ids(list'))
      && (forall x :: x in Ids(list') ==> x in Ids(list) && Get(list', x) == Get(list, x))
  {
    var list' := Without(list, i);
    FallingWithout(list, i);
    forall x | x in Ids(list') ensures x in Ids(list) && Get(list', x) == Get(list, x) && x != list[i].id {
      var h := Get(list', x);
      assert h in list';
      GetMember(list, h);
    }
    forall x | x in Ids(list) && x != list[i].id ensures x in Ids(list') {
      var k := IndexOf(list, x);
      var j := if k < i then k else k - 1;
      assert list'[j] == list[k] && Ids(list')[j] == x;
    }
  }

  function Get(list: seq<Handler>, id: nat): Handler
    requires id in Ids(list)
  {
    list[IndexOf(list, id)]
  }

  lemma GetMember(list: seq<Handler>, h: Handler)
    requires Falling(list) && h in list
    ensures h.id in Ids(list) && Get(list, h.id) == h
  {
    var k :| 0 <= k < |list| && list[k] == h;
    assert Ids(list)[k] == h.id;
    IndexUnique(list, h.id, k);
  }

  /** Every handler of `list`, but for the one with number `except`, is still there, some time later. */
  ghost predicate AllLater(list: seq<Handler>, list': seq<Handler>, t: Touch, except: Option<nat>) {
    forall id {:trigger LaterAt(list, list', t, id)} :: id in Ids(list) && Some(id) != except ==>
      LaterAt(list, list', t, id)
  }

  ghost predicate LaterAt(list: seq<Handler>, list': seq<Handler>, t: Touch, id: nat)
    requires id in Ids(list)
  {
    id in Ids(list') && Later(Get(list, id), Get(list', id), t)
  }

  lemma GrownAllLater(a: seq<Handler>, b: seq<Handler>, t: Touch)
    requires Grown(a, b, t) && Falling(b)
    ensures AllLater(a, b, t, None)
  {
    forall id | id in Ids(a) ensures LaterAt(a, b, t, id) {
      GrownIndex(a, b, t, IndexOf(a, id));
    }
  }

  lemma LaterTwice(a: seq<Handler>, b: seq<Handler>, c: seq<Handler>, t: Touch, except: Option<nat>)
    requires AllLater(a, b, t, except) && AllLater(b, c, t, except)
    ensures AllLater(a, c, t, except)
  {
    forall id | id in Ids(a) && Some(id) != except ensures LaterAt(a, c, t, id) {
      assert LaterAt(a, b, t, id) && LaterAt(b, c, t, id);
    }
  }

  // ----- a walk's view of the list -----

  /** The handlers `todo` a walk still has to reach are at the end of the list, in order. */
  ghost predicate Ahead(todo: seq<Handler>, list: seq<Handler>) {
    |todo| <= |list| && forall k: nat {:trigger SameAt(todo, list, k)} :: k < |todo| ==> SameAt(todo, list, k)
  }

  ghost predicate SameAt(todo: seq<Handler>, list: seq<Handler>, k: nat)
    requires k < |todo| <= |list|
  {
    list[|list| - |todo| + k].id == todo[k].id
  }

  lemma AheadIndex(todo: seq<Handler>, list: seq<Handler>, k: nat)
    requires Ahead(todo, list) && Falling(list) && k < |todo|
    ensures todo[k].id in Ids(list) && IndexOf(list, todo[k].id) == |list| - |todo| + k
  {
    assert SameAt(todo, list, k);
    assert Ids(list)[|list| - |todo| + k] == todo[k].id;
    IndexUnique(list, todo[k].id, |list| - |todo| + k);
  }

  lemma AheadGrown(todo: seq<Handler>, a: seq<Handler>, b: seq<Handler>, t: Touch)
    requires Ahead(todo, a) && Grown(a, b, t)
    ensures Ahead(todo, b)
  {
    forall k: nat | k < |todo| ensures SameAt(todo, b, k) {
      assert SameAt(todo, a, k) && Kept(a, b, t, |a| - |todo| + k);
    }
  }

  lemma AheadTail(todo: seq<Handler>, list: seq<Handler>)
    requires Ahead(todo, list) && todo != []
    ensures Ahead(todo[1..], list) && Ahead(todo[1..], Without(list, |list| - |todo|))
  {
    var rest, list' := todo[1..], Without(list, |list| - |todo|);
    forall k: nat | k < |rest| ensures SameAt(rest, list, k) && SameAt(rest, list', k) {
      assert SameAt(todo, list, k + 1);
    }
  }

  lemma TailOf(list: seq<Handler>, r: nat)
    requires r < |list|
    ensures list[r..][1..] == list[r + 1..]
  {
  }

  function At(list: seq<Handler>, r: nat): Option<nat> { if r < |list| then Some(list[r].id) else None }

  /** The handler after one that was there when the walk started is the one that came after it then. */
  lemma NextIs(todo: seq<Handler>, list: seq<Handler>, r: nat)
    requires Ahead(todo, list) && Falling(list) && r < |todo|
    ensures todo[r].id in Ids(list) && At(list, IndexOf(list, todo[r].id) + 1) == At(todo, r + 1)
  {
    AheadIndex(todo, list, r);
    if r + 1 < |todo| {
      AheadIndex(todo, list, r + 1);
    }
  }

  /** The live handler of a descriptor. */
  function Live(list: seq<Handler>, fd: int): Option<Handler> {
    var k := Find(list, fd);
    if k.Some? then Some(list[k.value]) else None
  }

  lemma LiveUnique(list: seq<Handler>, k: nat)
    requires Falling(list) && k < |list| && !list[k].deleted
    ensures Live(list, list[k].fd) == Some(list[k]) && Find(list, list[k].fd) == Some(k)
  {
    assert list[k] in list;
    var i := Find(list, list[k].fd).value;
    assert i < k ==> Before(list, i, k);
    assert k < i ==> Before(list, k, i);
  }

  /** The live handlers of the other descriptors do not depend on what happens to one of them. */
  lemma LiveOther(list: seq<Handler>, list': seq<Handler>, g: int)
    requires Falling(list) && Falling(list')
    requires forall h: Handler :: h.fd == g && !h.deleted ==> (h in list <==> h in list')
    ensures Live(list', g) == Live(list, g)
  {
    var k := Find(list, g);
    if k.Some? {
      assert list[k.value] in list';
      var i :| 0 <= i < |list'| && list'[i] == list[k.value];
      LiveUnique(list', i);
    }
  }

  ghost predicate HandlerOk(h: Handler, n: nat) { h.id < n && (h.deleted ==> !h.readable && !h.writable) }

  /** The change aio_set_fd_handler makes. */
  function Edited(list: seq<Handler>, n: nat, locked: bool, fd: int, read: bool, write: bool,
                  flush: bool): seq<Handler> {
    var k := Find(list, fd);
    if !read && !write then
      if k.None? then list
      else if locked then list[k.value := list[k.value].(deleted := true, readable := false, writable := false)]
      else Without(list, k.value)
    else if k.None? then [Handler(n, fd, read, write, flush, false, false, false, 0, 0)] + list
    else list[k.value := list[k.value].(hasRead := read, hasWrite := write, hasFlush := flush)]
  }

  lemma EditedOk(list: seq<Handler>, n: nat, locked: bool, fd: int, read: bool, write: bool, flush: bool)
    requires Falling(list) && forall h :: h in list ==> HandlerOk(h, n)
    ensures
      var list' := Edited(list, n, locked, fd, read, write, flush);
      && Falling(list') && (forall h :: h in list' ==> HandlerOk(h, n + 1))
      && (locked ==> Grown(list, list', ActionTouch(SetHandler(fd, read, write, flush))))
  {
    var k, t := Find(list, fd), ActionTouch(SetHandler(fd, read, write, flush));
    var list' := Edited(list, n, locked, fd, read, write, flush);
    if k.None? && (read || write) {
      FallingNew(list, list'[0]);
      forall j: nat | j < |list| ensures Kept(list, list', t, j) {
      }
    } else if k.None? {
      GrownSame(list, t);
    } else if !read && !write && !locked {
      FallingWithout(list, k.value);
    } else {
      assert list[k.value] in list;
      FallingUpdate(list, k.value, list'[k.value]);
      GrownUpdate(list, k.value, list'[k.value], t);
    }
    forall h | h in list' ensures HandlerOk(h, n + 1) {
      assert h in list || (k.Some? && h == list'[k.value]) || h == list'[0];
    }
  }

  lemma EditedNumbers(list: seq<Handler>, n: nat, locked: bool, fd: int, read: bool, write: bool, flush: bool)
    ensures OnlyNew(Ids(list), Ids(Edited(list, n, locked, fd, read, write, flush)), n)
  {
    var k := Find(list, fd);
    var list' := Edited(list, n, locked, fd, read, write, flush);
    if k.Some? && !read && !write && !locked {
      assert Ids(list') == Ids(list)[..k.value] + Ids(list)[k.value + 1..];
    } else if k.Some? {
      assert Ids(list') == Ids(list);
    } else if read || write {
      assert Ids(list') == [n] + Ids(list);
    }
  }

  /** After the call the descriptor has the handler asked for, or none; other descriptors keep theirs. */
  lemma EditedLive(list: seq<Handler>, n: nat, locked: bool, fd: int, read: bool, write: bool, flush: bool, g: int)
    requires Falling(list) && forall h :: h in list ==> HandlerOk(h, n)
    ensures
      var live := Live(Edited(list, n, locked, fd, read, write, flush), g);
      if g != fd then live == Live(list, g)
      else if !read && !write then live == None
      else live.Some? && live.value.hasRead == read && live.value.hasWrite == write && live.value.hasFlush == flush
  {
    var k := Find(list, fd);
    var list' := Edited(list, n, locked, fd, read, write, flush);
    EditedOk(list, n, locked, fd, read, write, flush);
    if g != fd {
      forall h: Handler | h.fd == g ensures h in list <==> h in list' {
        EditedOthers(list, n, locked, fd, read, write, flush, h);
      }
      LiveOther(list, list', g);
    } else if read || write {
      LiveUnique(list', if k.None? then 0 else k.value);
    } else if k.Some? {
      EditedGone(list, n, locked, fd, flush);
    }
  }

  lemma EditedOthers(list: seq<Handler>, n: nat, locked: bool, fd: int, read: bool, write: bool, flush: bool,
                     h: Handler)
    requires h.fd != fd
    ensures h in list <==> h in Edited(list, n, locked, fd, read, write, flush)
  {
    var k := Find(list, fd);
    var list' := Edited(list, n, locked, fd, read, write, flush);
    if k.Some? {
      var i := k.value;
      assert list == list[..i] + [list[i]] + list[i + 1..];
      assert |list'| == |list| ==> list' == list[..i] + [list'[i]] + list[i + 1..];
    }
  }

  lemma EditedGone(list: seq<Handler>, n: nat, locked: bool, fd: int, flush: bool)
    requires Falling(list) && Find(list, fd).Some?
    ensures Live(Edited(list, n, locked, fd, false, false, flush), fd) == None
  {
    var i := Find(list, fd).value;
    var list' := Edited(list, n, locked, fd, false, false, flush);
    forall j | 0 <= j < |list'| && list'[j].fd == fd ensures list'[j].deleted {
      var was := if locked || j < i then j else j + 1;
      if was < i {
        assert Before(list, was, i);
      } else if was > i {
        assert Before(list, i, was);
      }
    }
  }

  /** Whether a handler's io_read, or io_write, is due when it is reached. */
  predicate ReadDue(mode: Mode, h: Handler) {
    h.hasRead && if mode.Reported? then h.readable else !h.deleted && h.fd in mode.readable
  }

  predicate WriteDue(mode: Mode, h: Handler) {
    h.hasWrite && if mode.Reported? then h.writable else !h.deleted && h.fd in mode.writable
  }

  predicate Due(mode: Mode, h: Handler) { ReadDue(mode, h) || WriteDue(mode, h) }

  ghost predicate AnyDue(mode: Mode, list: seq<Handler>) { exists h :: h in list && Due(mode, h) }

  /** Asking the next handler. */
  lemma AskedOn(start: seq<Handler>, n: nat, a: seq<Handler>, m: nat, b: seq<Handler>, u: Touch, t: Touch, r: nat)
    requires Grown(start, a, t) && Grown(a, b, u) && u.Within(t) && Falling(b) && r < |start|
    requires OnlyNew(Ids(start), Ids(a), n) && OnlyNew(Ids(a), Ids(b), m) && n <= m
    ensures Grown(start, b, t) && OnlyNew(Ids(start), Ids(b), n)
    ensures start[r].id in Ids(b) && At(b, IndexOf(b, start[r].id) + 1) == At(start, r + 1)
  {
    GrownWider(a, b, u, t);
    GrownTwice(start, a, b, t);
    NewTwice(Ids(start), Ids(a), Ids(b), n, m);
    GrownIndex(start, b, t, r);
    if r + 1 < |start| {
      GrownIndex(start, b, t, r + 1);
    }
  }

  // ----- one handler is dispatched -----

  /** What the list allows while a walk is at handler `id`: numbers and places stay, and every other handler
      is as the scripts leave it. */
  ghost predicate Through(a: seq<Handler>, n: nat, b: seq<Handler>, t: Touch, id: nat) {
    Ahead(a, b) && AllLater(a, b, t, Some(id)) && OnlyNew(Ids(a), Ids(b), n)
  }

  lemma ThroughTwice(a: seq<Handler>, n: nat, b: seq<Handler>, m: nat, c: seq<Handler>, t: Touch, id: nat)
    requires Through(a, n, b, t, id) && Through(b, m, c, t, id) && n <= m
    ensures Through(a, n, c, t, id)
  {
    forall k: nat | k < |a| ensures SameAt(a, c, k) {
      assert SameAt(a, b, k) && SameAt(b, c, |b| - |a| + k);
    }
    LaterTwice(a, b, c, t, Some(id));
    NewTwice(Ids(a), Ids(b), Ids(c), n, m);
  }

  lemma ThroughSame(list: seq<Handler>, n: nat, t: Touch, id: nat)
    ensures Through(list, n, list, t, id)
  {
    forall k: nat | k < |list| ensures SameAt(list, list, k) {
    }
    forall x | x in Ids(list) ensures LaterAt(list, list, t, x) {
    }
  }

  lemma ThroughUpdate(list: seq<Handler>, n: nat, h: Handler, t: Touch)
    requires Falling(list) && h.id in Ids(list) && h.fd == Get(list, h.id).fd && (Get(list, h.id).deleted ==> h.deleted)
    ensures var list' := Put(list, h);
      && Falling(list') && Ids(list') == Ids(list) && Get(list', h.id) == h && Through(list, n, list', t, h.id)
  {
    var i, list' := IndexOf(list, h.id), Put(list, h);
    FallingUpdate(list, i, h);
    assert Ids(list') == Ids(list);
    forall k: nat | k < |list| ensures SameAt(list, list', k) {
    }
    forall x | x in Ids(list) && Some(x) != Some(h.id) ensures LaterAt(list, list', t, x) {
      assert IndexOf(list', x) == IndexOf(list, x) != i;
    }
  }

  lemma ThroughGrown(a: seq<Handler>, n: nat, b: seq<Handler>, u: Touch, t: Touch, id: nat)
    requires Grown(a, b, u) && u.Within(t) && Falling(b) && OnlyNew(Ids(a), Ids(b), n) && id in Ids(a)
    ensures Through(a, n, b, t, id) && id in Ids(b) && Later(Get(a, id), Get(b, id), t)
  {
    GrownWider(a, b, u, t);
    GrownAllLater(a, b, t);
    assert LaterAt(a, b, t, id);
    forall k: nat | k < |a| ensures SameAt(a, b, k) {
      assert Kept(a, b, t, k);
    }
  }

  lemma GrownFrom(a: seq<Handler>, n: nat, b: seq<Handler>, t: Touch, id: nat)
    requires Through(a, n, b, t, id) && Falling(a) && Falling(b)
    requires id in Ids(a) && id in Ids(b) && Later(Get(a, id), Get(b, id), t)
    ensures Grown(a, b, t)
  {
    forall k: nat | k < |a| ensures Kept(a, b, t, k) {
      AheadIndex(a, b, k);
      assert Ids(a)[k] == a[k].id;
      IndexUnique(a, a[k].id, k);
      assert a[k].id != id ==> LaterAt(a, b, t, a[k].id);
    }
  }

  lemma ThroughWider(a: seq<Handler>, n: nat, b: seq<Handler>, t: Touch, u: Touch, id: nat)
    requires Through(a, n, b, t, id) && t.Within(u)
    ensures Through(a, n, b, u, id)
  {
    forall x | x in Ids(a) && Some(x) != Some(id) ensures LaterAt(a, b, u, x) {
      assert LaterAt(a, b, t, x);
    }
  }

  lemma AheadThrough(todo: seq<Handler>, a: seq<Handler>, n: nat, b: seq<Handler>, t: Touch, id: nat)
    requires Ahead(todo, a) && Through(a, n, b, t, id)
    ensures Ahead(todo, b)
  {
    forall k: nat | k < |todo| ensures SameAt(todo, b, k) {
      assert SameAt(todo, a, k) && SameAt(a, b, |a| - |todo| + k);
    }
  }

  /** A handler when its io_read is called, or would be: the report is taken. */
  function AtRead(mode: Mode, h: Handler): Handler {
    var taken := if mode.Reported? then h.(readable := false, writable := false) else h;
    taken.(readCalls := h.readCalls + if ReadDue(mode, h) then 1 else 0)
  }

  function AtWrite(h: Handler): Handler { h.(writeCalls := h.writeCalls + 1) }

  /** Whether io_write is called after io_read.  Over what the main loop had reported only the callback is looked
      up again, not whether the handler has been deleted meanwhile. */
  predicate WritesAfter(mode: Mode, h: Handler, now: Handler) {
    now.hasWrite && WriteDue(mode, if mode.Reported? then h else now)
  }

  /** What a walk leaves of a handler it has been at. */
  ghost predicate Dispatched(mode: Mode, h: Handler, h': Handler, t: Touch) {
    && Later(h, h', t.Walking()) && (mode.Reported? ==> !h'.readable && !h'.writable)
    && (h.fd !in t.sets ==> CalledAs(mode, h, h', t))
  }

  /** What was due has been called: at least once, and exactly once if no script polls. */
  ghost predicate CalledAs(mode: Mode, h: Handler, h': Handler, t: Touch) {
    && (ReadDue(mode, h) ==> h'.readCalls > h.readCalls) && (WriteDue(mode, h) ==> h'.writeCalls > h.writeCalls)
    && (!t.walks ==> h'.readCalls == h.readCalls + if ReadDue(mode, h) then 1 else 0)
    && (!t.walks ==> h'.writeCalls == h.writeCalls + if WriteDue(mode, h) then 1 else 0)
  }

  /** The handler itself, before, between and after the two callbacks. */
  lemma OwnDispatched(mode: Mode, h: Handler, now: Handler, end: Handler, t: Touch)
    requires if ReadDue(mode, h) then Later(AtRead(mode, h), now, t) else now == AtRead(mode, h)
    requires if WritesAfter(mode, h, now) then Later(AtWrite(now), end, t) else end == now
    requires h.deleted ==> !h.readable && !h.writable
    ensures Dispatched(mode, h, end, t)
  {
  }

  /** What a walk leaves of a handler of the list it started with: it has been at it; only a deleted one may be
      gone, and is after an outermost walk that found it deleted. */
  ghost predicate VisitedAt(mode: Mode, h: Handler, list: seq<Handler>, t: Touch, outermost: bool) {
    if h.id in Ids(list) then Dispatched(mode, h, Get(list, h.id), t) && !(outermost && h.deleted)
    else outermost && (h.deleted || h.fd in t.clears)
  }

  lemma VisitedLater(mode: Mode, h: Handler, a: seq<Handler>, b: seq<Handler>, m: nat, t: Touch, outermost: bool,
                     id: nat)
    requires VisitedAt(mode, h, a, t, outermost) && AllLater(a, b, t, Some(id)) && h.id != id
    requires OnlyNew(Ids(a), Ids(b), m) && h.id < m
    ensures VisitedAt(mode, h, b, t, outermost)
  {
    if h.id in Ids(a) {
      assert LaterAt(a, b, t, h.id);
    }
  }

  /** A handler that scripts have been at before the walk reaches it. */
  lemma ReachedLater(mode: Mode, h: Handler, cur: Handler, end: Handler, t: Touch)
    requires Later(h, cur, t) && Dispatched(mode, cur, end, t)
    ensures Dispatched(mode, h, end, t)
  {
  }

  /** A walk that started with `start` has been at the first `r` of it; the others are as scripts left them. */
  ghost predicate MidWalk(mode: Mode, start: seq<Handler>, n: nat, r: nat, s: State, t: Touch, outermost: bool) {
    && r <= |start| && n <= s.nextId && Ahead(start[r..], s.list) && OnlyNew(Ids(start), Ids(s.list), n)
    && (forall k: nat {:trigger VisitedNth(mode, start, k, s.list, t, outermost)} ::
          k < r ==> VisitedNth(mode, start, k, s.list, t, outermost))
    && (forall k: nat {:trigger WaitingNth(start, k, s.list, t)} :: r <= k < |start| ==>
        WaitingNth(start, k, s.list, t))
    && (!outermost ==> Grown(start, s.list, t.Walking()))
  }

  ghost predicate VisitedNth(mode: Mode, start: seq<Handler>, k: nat, list: seq<Handler>, t: Touch, outermost: bool)
    requires k < |start|
  {
    VisitedAt(mode, start[k], list, t, outermost)
  }

  ghost predicate WaitingNth(start: seq<Handler>, k: nat, list: seq<Handler>, t: Touch)
    requires k < |start|
  {
    start[k].id in Ids(list) && Later(start[k], Get(list, start[k].id), t)
  }

  lemma WalkBegins(mode: Mode, start: seq<Handler>, s: State, t: Touch, outermost: bool)
    requires s.list == start && Falling(start)
    ensures MidWalk(mode, start, s.nextId, 0, s, t, outermost)
  {
    assert start[0..] == start;
    forall k: nat | k < |start| ensures SameAt(start, start, k) && WaitingNth(start, k, start, t) {
      GetMember(start, start[k]);
    }
    GrownSame(start, t.Walking());
  }

  /** What one step of a walk at handler `id` of the list `a` leaves. */
  ghost predicate Stepped(mode: Mode, a: seq<Handler>, n: nat, b: seq<Handler>, t: Touch, id: nat, outermost: bool) {
    && id in Ids(a) && VisitedAt(mode, Get(a, id), b, t, outermost) && AllLater(a, b, t, Some(id))
    && OnlyNew(Ids(a), Ids(b), n) && (!outermost ==> Grown(a, b, t.Walking()))
  }

  /** Dispatching a handler, and leaving it. */
  lemma StepIs(mode: Mode, a: seq<Handler>, n: nat, b: seq<Handler>, c: seq<Handler>, t: Touch, id: nat,
               outermost: bool)
    requires Falling(a) && Falling(b) && Through(a, n, b, t, id) && id in Ids(a) && id in Ids(b)
    requires Dispatched(mode, Get(a, id), Get(b, id), t) && (!outermost ==> c == b)
    requires id in Ids(c) <==> !(outermost && Get(b, id).deleted)
    requires forall x :: x in Ids(c) ==> x in Ids(b) && Get(c, x) == Get(b, x)
    requires forall x :: x in Ids(b) && x != id ==> x in Ids(c)
    ensures Stepped(mode, a, n, c, t, id, outermost)
  {
    forall x | x in Ids(a) && Some(x) != Some(id) ensures LaterAt(a, c, t, x) {
      assert LaterAt(a, b, t, x);
    }
    if !outermost {
      ThroughWider(a, n, b, t, t.Walking(), id);
      GrownFrom(a, n, b, t.Walking(), id);
    }
  }

  lemma VisitedNext(mode: Mode, start: seq<Handler>, n: nat, r: nat, s: State, s': State, t: Touch, outermost: bool,
                    k: nat)
    requires MidWalk(mode, start, n, r, s, t, outermost) && r < |start| && Falling(start) && k <= r
    requires Stepped(mode, s.list, s.nextId, s'.list, t, start[r].id, outermost) && start[k].id < n
    ensures VisitedNth(mode, start, k, s'.list, t, outermost)
  {
    if k < r {
      assert VisitedNth(mode, start, k, s.list, t, outermost) && Before(start, k, r);
      VisitedLater(mode, start[k], s.list, s'.list, s.nextId, t, outermost, start[r].id);
    } else {
      assert WaitingNth(start, r, s.list, t);
      if start[r].id in Ids(s'.list) {
        ReachedLater(mode, start[r], Get(s.list, start[r].id), Get(s'.list, start[r].id), t);
      }
    }
  }

  lemma WalkStep(mode: Mode, start: seq<Handler>, n: nat, r: nat, s: State, s': State, t: Touch, outermost: bool)
    requires MidWalk(mode, start, n, r, s, t, outermost) && r < |start| && Falling(start)
    requires Stepped(mode, s.list, s.nextId, s'.list, t, start[r].id, outermost)
    requires s.nextId <= s'.nextId && Ahead(start[r + 1..], s'.list) && forall h :: h in start ==> h.id < n
    ensures MidWalk(mode, start, n, r + 1, s', t, outermost)
  {
    NewTwice(Ids(start), Ids(s.list), Ids(s'.list), n, s.nextId);
    forall k: nat | k < r + 1 ensures VisitedNth(mode, start, k, s'.list, t, outermost) {
      assert start[k] in start;
      VisitedNext(mode, start, n, r, s, s', t, outermost, k);
    }
    forall k: nat | r + 1 <= k < |start| ensures WaitingNth(start, k, s'.list, t) {
      assert WaitingNth(start, k, s.list, t) && Before(start, r, k);
      assert LaterAt(s.list, s'.list, t, start[k].id);
    }
    if !outermost {
      GrownTwice(start, s.list, s'.list, t.Walking());
    }
  }

  /** What a whole walk leaves. */
  ghost predicate Walked(mode: Mode, start: seq<Handler>, n: nat, list: seq<Handler>, t: Touch, outermost: bool) {
    && (forall h :: h in start ==> VisitedAt(mode, h, list, t, outermost))
    && OnlyNew(Ids(start), Ids(list), n) && (!outermost ==> Grown(start, list, t.Walking()))
  }

  lemma WalkEnds(mode: Mode, start: seq<Handler>, n: nat, s: State, t: Touch, outermost: bool)
    requires MidWalk(mode, start, n, |start|, s, t, outermost)
    ensures Walked(mode, start, n, s.list, t, outermost)
  {
    forall h | h in start ensures VisitedAt(mode, h, s.list, t, outermost) {
      var k :| 0 <= k < |start| && start[k] == h;
      assert VisitedNth(mode, start, k, s.list, t, outermost);
    }
  }

  /** As long as no callback was called: what is ahead is as it was, and nothing was due. */
  ghost predicate Quiet(mode: Mode, start: seq<Handler>, r: nat, list: seq<Handler>) {
    && r <= |start| && |start| - r <= |list| && list[|list| - (|start| - r)..] == start[r..]
    && forall k :: 0 <= k < r ==> !Due(mode, start[k])
  }

  /** Only the handler `h` has changed, or gone. */
  ghost predicate OnlyTaken(a: seq<Handler>, b: seq<Handler>, h: Handler) {
    h.id in Ids(a) && (b == Put(a, h) || b == Without(Put(a, h), IndexOf(a, h.id)))
  }

  lemma QuietStep(mode: Mode, start: seq<Handler>, r: nat, a: seq<Handler>, b: seq<Handler>, h: Handler)
    requires Quiet(mode, start, r, a) && r < |start| && !Due(mode, start[r]) && h.id == start[r].id
    requires Falling(a) && h.id in Ids(a) && IndexOf(a, h.id) == |a| - (|start| - r) && OnlyTaken(a, b, h)
    ensures Quiet(mode, start, r + 1, b)
  {
    var i := |a| - (|start| - r);
    assert a[i + 1..] == start[r + 1..] by {
      assert a[i..][1..] == a[i + 1..] && start[r..][1..] == start[r + 1..];
    }
    assert Put(a, h)[i + 1..] == a[i + 1..];
    assert b[|b| - (|start| - r - 1)..] == a[i + 1..];
  }

  lemma QuietAt(mode: Mode, start: seq<Handler>, r: nat, list: seq<Handler>)
    requires Quiet(mode, start, r, list) && Falling(list) && r < |start|
    ensures start[r].id in Ids(list) && Get(list, start[r].id) == start[r]
    ensures IndexOf(list, start[r].id) == |list| - (|start| - r)
  {
    var i := |list| - (|start| - r);
    assert list[i] == list[i..][0] == start[r..][0];
    assert Ids(list)[i] == start[r].id;
    IndexUnique(list, start[r].id, i);
  }

  // ----- a poll as a whole -----

  /** What a poll leaves of a handler: no report, and what was reported has been called if no script touches the
      descriptor; only a deleted one may be gone. */
  ghost predicate PolledAt(h: Handler, list: seq<Handler>, t: Touch, outermost: bool) {
    if h.id in Ids(list) then
      var h' := Get(list, h.id);
      && Later(h, h', t.Walking()) && !h'.readable && !h'.writable && !(outermost && h.deleted)
      && (h.fd !in t.sets && ReadDue(Reported, h) ==> h'.readCalls > h.readCalls)
      && (h.fd !in t.sets && WriteDue(Reported, h) ==> h'.writeCalls > h.writeCalls)
    else outermost && (h.deleted || h.fd in t.clears)
  }

  ghost predicate Polled(list: seq<Handler>, list': seq<Handler>, t: Touch, outermost: bool) {
    forall h :: h in list ==> PolledAt(h, list', t, outermost)
  }

  lemma WalkedIsPolled(start: seq<Handler>, n: nat, list: seq<Handler>, t: Touch, outermost: bool)
    requires Walked(Reported, start, n, list, t, outermost)
    ensures Polled(start, list, t, outermost)
  {
    forall h | h in start ensures PolledAt(h, list, t, outermost) {
      assert VisitedAt(Reported, h, list, t, outermost);
    }
  }

  /** What the rest of a poll may do to the handlers there are. */
  ghost predicate Followed(a: seq<Handler>, n: nat, b: seq<Handler>, t: Touch, outermost: bool) {
    && (forall id {:trigger FollowedAt(a, b, t, id, outermost)} :: id in Ids(a) ==> FollowedAt(a, b, t, id, outermost))
    && OnlyNew(Ids(a), Ids(b), n) && (!outermost ==> Grown(a, b, t.Walking()))
  }

  ghost predicate FollowedAt(a: seq<Handler>, b: seq<Handler>, t: Touch, id: nat, outermost: bool)
    requires id in Ids(a)
  {
    if id in Ids(b) then Later(Get(a, id), Get(b, id), t.Walking())
    else outermost && (Get(a, id).deleted || Get(a, id).fd in t.clears)
  }

  lemma CollectedFollows(a: seq<Handler>, n: nat, b: seq<Handler>, t: Touch, outermost: bool)
    requires Grown(a, b, t) && Falling(b) && OnlyNew(Ids(a), Ids(b), n)
    ensures Followed(a, n, b, t, outermost)
  {
    GrownWider(a, b, t, t.Walking());
    GrownAllLater(a, b, t.Walking());
    forall id | id in Ids(a) ensures FollowedAt(a, b, t, id, outermost) {
      assert LaterAt(a, b, t.Walking(), id);
    }
  }

  lemma WalkedFollows(mode: Mode, a: seq<Handler>, n: nat, b: seq<Handler>, m: nat, c: seq<Handler>, u: Touch, t: Touch,
                      outermost: bool)
    requires Followed(a, n, b, t, outermost) && n <= m && u.Within(t) && Walked(mode, b, m, c, u, outermost)
    requires forall h :: h in a ==> h.id < n
    ensures Followed(a, n, c, t, outermost)
  {
    NewTwice(Ids(a), Ids(b), Ids(c), n, m);
    forall id | id in Ids(a) ensures FollowedAt(a, c, t, id, outermost) {
      assert FollowedAt(a, b, t, id, outermost) && Get(a, id) in a;
      if id in Ids(b) {
        assert Get(b, id) in b && VisitedAt(mode, Get(b, id), c, u, outermost);
      }
    }
    if !outermost {
      GrownWider(b, c, u.Walking(), t.Walking());
      GrownTwice(a, b, c, t.Walking());
    }
  }

  lemma FollowedPolled(a: seq<Handler>, n: nat, b: seq<Handler>, m: nat, c: seq<Handler>, u: Touch, t: Touch,
                       outermost: bool)
    requires Walked(Reported, a, n, b, t, outermost) && Followed(b, m, c, u, outermost) && u.Within(t) && n <= m
    requires forall h :: h in a ==> h.id < n
    ensures Polled(a, c, t, outermost) && OnlyNew(Ids(a), Ids(c), n) && (!outermost ==> Grown(a, c, t.Walking()))
  {
    NewTwice(Ids(a), Ids(b), Ids(c), n, m);
    forall h | h in a ensures PolledAt(h, c, t, outermost) {
      assert VisitedAt(Reported, h, b, t, outermost);
      if h.id in Ids(b) {
        assert FollowedAt(b, c, u, h.id, outermost);
      }
    }
    if !outermost {
      GrownWider(b, c, u.Walking(), t.Walking());
      GrownTwice(a, b, c, t.Walking());
    }
  }

  // ----- what the operations compute -----

  datatype State = State(list: seq<Handler>, walking: nat, nextId: nat)

  function Put(list: seq<Handler>, h: Handler): (r: seq<Handler>)
    requires h.id in Ids(list)
    ensures |r| == |list| && Ids(r) == Ids(list)
  {
    var r := list[IndexOf(list, h.id) := h];
    assert Ids(r) == Ids(list);
    r
  }

  ghost function AfterAction(s: State, a: Action): State
    decreases ActionSize(a), 1, 0
  {
    match a
    case SetHandler(fd, read, write, flush) =>
      State(Edited(s.list, s.nextId, s.walking > 0, fd, read, write, flush), s.walking, s.nextId + 1)
    case Walk(world, callbacks) => AfterPoll(s, world, callbacks).0
  }

  ghost function AfterScript(s: State, script: Script): State
    decreases ScriptSize(script), 2, 0
  {
    if script.Return? then s else AfterScript(AfterAction(s, script.action), script.rest)
  }

  /** The next callback. */
  ghost function AfterCall(s: State, calls: Callbacks): (r: (State, Callbacks))
    ensures CallbacksSize(r.1) <= CallbacksSize(calls)
    decreases CallbacksSize(calls), 3, 0
  {
    if calls.NoMore? then (s, calls) else (AfterScript(s, calls.script), calls.others)
  }

  ghost function AfterDispatch(s: State, mode: Mode, id: nat, calls: Callbacks): (r: (State, Callbacks, bool))
    ensures CallbacksSize(r.1) <= CallbacksSize(calls)
    decreases CallbacksSize(calls), 4, 0
  {
    if id !in Ids(s.list) then (s, calls, false)
    else
      var h := Get(s.list, id);
      var s1 := s.(list := Put(s.list, AtRead(mode, h)));
      var (s2, left) := if ReadDue(mode, h) then AfterCall(s1, calls) else (s1, calls);
      if id !in Ids(s2.list) || !WritesAfter(mode, h, Get(s2.list, id)) then (s2, left, ReadDue(mode, h))
      else
        var (s3, rest) := AfterCall(s2.(list := Put(s2.list, AtWrite(Get(s2.list, id)))), left);
        (s3, rest, true)
  }

  /** A handler whose io_read clears its own descriptor: after a report from the main loop its io_write is
      called all the same, after select it is not. */
  lemma DeletedStillWritten(mode: Mode)
    requires mode == Reported || mode == Selected({5}, {5})
    ensures
      var s := State([Handler(0, 5, true, true, false, true, true, false, 0, 0)], 1, 1);
      var calls := Call(Do(SetHandler(5, false, false, false), Return), NoMore);
      var end := AfterDispatch(s, mode, 0, calls).0.list;
      |end| == 1 && end[0].deleted && end[0].readCalls == 1 && end[0].writeCalls == if mode.Reported? then 1 else 0
  {
    var h := Handler(0, 5, true, true, false, true, true, false, 0, 0);
    var s, clear := State([h], 1, 1), SetHandler(5, false, false, false);
    assert Ids([h]) == [0] && IndexOf([h], 0) == 0;
    var s1 := s.(list := [AtRead(mode, h)]);
    assert Put([h], AtRead(mode, h)) == s1.list;
    var gone := AtRead(mode, h).(deleted := true, readable := false, writable := false);
    assert Find(s1.list, 5) == Some(0);
    assert AfterAction(s1, clear) == State([gone], 1, 2);
    var s2 := State([gone], 1, 2);
    assert AfterScript(s2, Return) == s2;
    assert AfterScript(s1, Do(clear, Return)) == s2;
    assert Ids(s2.list) == [0] && Get(s2.list, 0) == gone;
    assert Put(s2.list, AtWrite(gone)) == [AtWrite(gone)];
  }

  /** The lock is let go; a deleted handler is freed if it was the last. */
  ghost function AfterLeave(s: State, id: nat): State {
    if s.walking == 0 then s
    else
      var gone := s.walking == 1 && id in Ids(s.list) && Get(s.list, id).deleted;
      s.(walking := s.walking - 1, list := if gone then Without(s.list, IndexOf(s.list, id)) else s.list)
  }

  /** Every number of a snapshot in turn.  Nothing here depends on the order of the list while callbacks change
      it, or on which handlers have been freed. */
  ghost function AfterVisits(s: State, mode: Mode, ids: seq<nat>, calls: Callbacks): (r: (State, Callbacks, bool))
    ensures CallbacksSize(r.1) <= CallbacksSize(calls)
    decreases CallbacksSize(calls), 5, |ids|
  {
    if ids == [] then (s, calls, false)
    else
      var (s1, left, progress) := AfterDispatch(s.(walking := s.walking + 1), mode, ids[0], calls);
      var (s2, rest, more) := AfterVisits(AfterLeave(s1, ids[0]), mode, ids[1..], left);
      (s2, rest, progress || more)
  }

  /** The visits from number `r` on lead to what all visits lead to. */
  ghost predicate StillToCome(s0: State, mode: Mode, ids: seq<nat>, calls0: Callbacks, s: State, r: nat,
                              calls: Callbacks, progress: bool) {
    r <= |ids| &&
    var (end, rest, more) := AfterVisits(s, mode, ids[r..], calls);
    AfterVisits(s0, mode, ids, calls0) == (end, rest, progress || more)
  }

  lemma VisitStep(s0: State, mode: Mode, ids: seq<nat>, calls0: Callbacks, s: State, r: nat, calls: Callbacks,
                  progress: bool, id: nat, s1: State, left: Callbacks, busy: bool)
    requires StillToCome(s0, mode, ids, calls0, s, r, calls, progress) && r < |ids| && ids[r] == id
    requires AfterDispatch(s.(walking := s.walking + 1), mode, id, calls) == (s1, left, busy)
    ensures StillToCome(s0, mode, ids, calls0, AfterLeave(s1, id), r + 1, left, progress || busy)
  {
    assert ids[r..][0] == ids[r] && ids[r..][1..] == ids[r + 1..];
  }

  /** What a handler says when it is asked for work. */
  datatype Answer = Answer(busy: bool, read: bool, write: bool)

  function AnswerOf(h: Handler, now: Handler, busyFds: set<int>): Answer {
    var asked := !h.deleted && h.hasFlush;
    var busy := asked && h.fd in busyFds;
    Answer(busy, !now.deleted && now.hasRead && (asked ==> busy), !now.deleted && now.hasWrite && (asked ==> busy))
  }

  ghost function AfterAsk(s: State, id: nat, busyFds: set<int>, calls: Callbacks): (r: (State, Callbacks, Answer))
    ensures CallbacksSize(r.1) <= CallbacksSize(calls)
    decreases CallbacksSize(calls), 4, 0
  {
    if id !in Ids(s.list) then (s, calls, Answer(false, false, false))
    else
      var h := Get(s.list, id);
      var (s1, left) := if !h.deleted && h.hasFlush then AfterCall(s, calls) else (s, calls);
      (s1, left, AnswerOf(h, if id in Ids(s1.list) then Get(s1.list, id) else h, busyFds))
  }

  /** What to select for, and whether anyone has work. */
  datatype Selection = Selection(busy: bool, readable: set<int>, writable: set<int>) {
    function Add(a: Answer, fd: int): Selection {
      Selection(busy || a.busy, readable + if a.read then {fd} else {}, writable + if a.write then {fd} else {})
    }
  }

  ghost function FdOf(list: seq<Handler>, id: nat): int { if id in Ids(list) then Get(list, id).fd else 0 }

  ghost function AfterAsks(s: State, ids: seq<nat>, busyFds: set<int>, calls: Callbacks, sel: Selection)
    : (r: (State, Callbacks, Selection))
    ensures CallbacksSize(r.1) <= CallbacksSize(calls)
    decreases CallbacksSize(calls), 5, |ids|
  {
    if ids == [] then (s, calls, sel)
    else
      var (s1, left, a) := AfterAsk(s, ids[0], busyFds, calls);
      AfterAsks(s1, ids[1..], busyFds, left, sel.Add(a, FdOf(s.list, ids[0])))
  }

  lemma AsksDone(s: State, ids: seq<nat>, busyFds: set<int>, calls: Callbacks, sel: Selection)
    ensures AfterAsks(s, ids[|ids|..], busyFds, calls, sel) == (s, calls, sel)
  {
  }

  lemma AsksStep(s: State, ids: seq<nat>, r: nat, busyFds: set<int>, calls: Callbacks, sel: Selection, id: nat,
                 s1: State, left: Callbacks, a: Answer)
    requires r < |ids| && ids[r] == id && AfterAsk(s, id, busyFds, calls) == (s1, left, a)
    ensures AfterAsks(s1, ids[r + 1..], busyFds, left, sel.Add(a, FdOf(s.list, id)))
      == AfterAsks(s, ids[r..], busyFds, calls, sel)
  {
    assert ids[r..][0] == ids[r] && ids[r..][1..] == ids[r + 1..];
  }

  const NO_SELECTION: Selection := Selection(false, {}, {})

  /** aio_poll: the reported events; unless that was enough, who has work; and if anyone has, what select found. */
  ghost function AfterPoll(s: State, world: World, callbacks: Callbacks): (State, bool)
    decreases CallbacksSize(callbacks), 7, 0
  {
    var (s1, calls1, reported) := AfterVisits(s, Reported, Ids(s.list), callbacks);
    var progress := reported || world.bottomHalves;
    if progress && !(world.blocking && !world.bottomHalves) then (s1, true)
    else AfterSelect(s1, world, calls1, progress)
  }

  ghost function AfterSelect(s: State, world: World, calls: Callbacks, progress: bool): (State, bool)
    decreases CallbacksSize(calls), 6, 0
  {
    var (s1, calls1, sel) := AfterAsks(s.(walking := s.walking + 1), Ids(s.list), world.busy, calls, NO_SELECTION);
    var s2 := s1.(walking := s.walking);
    if !sel.busy then (s2, progress)
    else
      var mode := Selected(sel.readable * world.readable, sel.writable * world.writable);
      if mode.readable + mode.writable == {} then (s2, true)
      else (AfterVisits(s2, mode, Ids(s2.list), calls1).0, true)
  }

  lemma SelectIs(s: State, world: World, calls: Callbacks, progress: bool, s1: State, left: Callbacks, sel: Selection,
                 s2: State)
    requires s1.walking == s.walking
    requires (s1.(walking := s.walking + 1), left, sel)
      == AfterAsks(s.(walking := s.walking + 1), Ids(s.list), world.busy, calls, NO_SELECTION)
    requires var mode := Selected(sel.readable * world.readable, sel.writable * world.writable);
      s2 == if !sel.busy || mode.readable + mode.writable == {} then s1
            else AfterVisits(s1, mode, Ids(s1.list), left).0
    ensures AfterSelect(s, world, calls, progress) == (s2, progress || sel.busy)
  {
    assert s1.(walking := s.walking + 1).(walking := s.walking) == s1;
  }

  function Then(a: Script, b: Script): Script { if a.Return? then b else Do(a.action, Then(a.rest, b)) }

  /** A script takes its actions in order, all of them. */
  lemma {:induction false} ThenIs(s: State, a: Script, b: Script)
    ensures AfterScript(s, Then(a, b)) == AfterScript(AfterScript(s, a), b)
    decreases a
  {
    if a.Do? {
      assert Then(a, b).action == a.action && Then(a, b).rest == Then(a.rest, b);
      ThenIs(AfterAction(s, a.action), a.rest, b);
    }
  }

  // ----- what a poll selects for, and whom it calls then -----

  /** What scripts clear they set. */
  lemma ActionClears(a: Action)
    ensures ActionTouch(a).clears <= ActionTouch(a).sets
    decreases ActionSize(a)
  {
    if a.Walk? {
      CallbacksClear(a.callbacks);
    }
  }

  lemma {:induction false} ScriptClears(s: Script)
    ensures ScriptTouch(s).clears <= ScriptTouch(s).sets
    decreases ScriptSize(s)
  {
    if s.Do? {
      ActionClears(s.action);
      ScriptClears(s.rest);
    }
  }

  lemma {:induction false} CallbacksClear(c: Callbacks)
    ensures CallbacksTouch(c).clears <= CallbacksTouch(c).sets
    decreases CallbacksSize(c)
  {
    if c.Call? {
      ScriptClears(c.script);
      CallbacksClear(c.others);
    }
  }

  /** The handler has no work: io_flush is set and says so. */
  predicate Idle(h: Handler, busyFds: set<int>) { h.hasFlush && h.fd !in busyFds }

  /** A handler that is live and stays as it is. */
  predicate Steady(h: Handler, t: Touch) { !h.deleted && h.fd !in t.sets }

  /** What is selected for on behalf of a steady handler: its callbacks, unless it is idle. */
  ghost predicate AskedAs(h: Handler, busyFds: set<int>, sel: Selection, t: Touch) {
    Steady(h, t) ==>
      && (h.hasFlush && h.fd in busyFds ==> sel.busy)
      && (h.fd in sel.readable <==> h.hasRead && !Idle(h, busyFds))
      && (h.fd in sel.writable <==> h.hasWrite && !Idle(h, busyFds))
  }

  /** Someone may have work: a handler with io_flush, or one that scripts set. */
  ghost predicate MayBeBusy(list: seq<Handler>, busyFds: set<int>, t: Touch) {
    exists h :: h in list && h.fd in busyFds && !h.deleted && (h.hasFlush || h.fd in t.sets)
  }

  /** Someone has work whatever the scripts do. */
  ghost predicate IsBusy(list: seq<Handler>, busyFds: set<int>, t: Touch) {
    exists h :: h in list && h.fd in busyFds && Steady(h, t) && h.hasFlush
  }

  /** The first `r` handlers have been asked. */
  ghost predicate AskedUpTo(start: seq<Handler>, r: nat, busyFds: set<int>, sel: Selection, t: Touch) {
    && r <= |start| && (forall k :: 0 <= k < r ==> AskedAs(start[k], busyFds, sel, t))
    && (sel.busy ==> MayBeBusy(start, busyFds, t))
    && (forall fd :: fd in sel.readable || fd in sel.writable ==> AskedFor(start, r, fd))
  }

  lemma AskedNone(start: seq<Handler>, busyFds: set<int>, t: Touch)
    ensures AskedUpTo(start, 0, busyFds, NO_SELECTION, t)
  {
  }

  ghost predicate AskedFor(start: seq<Handler>, r: nat, fd: int)
    requires r <= |start|
  {
    exists k :: 0 <= k < r && start[k].fd == fd && !start[k].deleted
  }

  lemma AskedForMore(start: seq<Handler>, r: nat, fd: int)
    requires r < |start| && (AskedFor(start, r, fd) || (start[r].fd == fd && !start[r].deleted))
    ensures AskedFor(start, r + 1, fd)
  {
    if AskedFor(start, r, fd) {
      var k :| 0 <= k < r && start[k].fd == fd && !start[k].deleted;
    } else {
      assert start[r].fd == fd;
    }
  }

  lemma OneLive(start: seq<Handler>, j: nat, k: nat)
    requires Falling(start) && j < |start| && k < |start| && j != k && start[j].fd == start[k].fd
    ensures start[j].deleted || start[k].deleted
  {
    assert j < k ==> Before(start, j, k);
    assert k < j ==> Before(start, k, j);
  }

  lemma AskedKept(start: seq<Handler>, r: nat, k: nat, busyFds: set<int>, sel: Selection, t: Touch, cur: Handler,
                  now: Handler)
    requires Falling(start) && r < |start| && k < r && AskedAs(start[k], busyFds, sel, t)
    requires Later(start[r], cur, t) && Later(cur, now, t)
    ensures AskedAs(start[k], busyFds, sel.Add(AnswerOf(cur, now, busyFds), cur.fd), t)
  {
    if start[k].fd == start[r].fd {
      OneLive(start, k, r);
    }
  }

  lemma AskedOwn(start: seq<Handler>, r: nat, busyFds: set<int>, sel: Selection, t: Touch, cur: Handler, now: Handler)
    requires Falling(start) && r < |start| && AskedUpTo(start, r, busyFds, sel, t)
    requires Later(start[r], cur, t) && Later(cur, now, t)
    ensures AskedAs(start[r], busyFds, sel.Add(AnswerOf(cur, now, busyFds), cur.fd), t)
  {
    if Steady(start[r], t) && (start[r].fd in sel.readable || start[r].fd in sel.writable) {
      var k :| 0 <= k < r && start[k].fd == start[r].fd && !start[k].deleted;
      OneLive(start, k, r);
    }
  }

  lemma AskedNext(start: seq<Handler>, r: nat, busyFds: set<int>, sel: Selection, t: Touch, cur: Handler, now: Handler)
    requires Falling(start) && r < |start| && AskedUpTo(start, r, busyFds, sel, t)
    requires Later(start[r], cur, t) && Later(cur, now, t)
    ensures AskedUpTo(start, r + 1, busyFds, sel.Add(AnswerOf(cur, now, busyFds), cur.fd), t)
  {
    var answer := AnswerOf(cur, now, busyFds);
    var sel' := sel.Add(answer, cur.fd);
    forall k | 0 <= k < r + 1 ensures AskedAs(start[k], busyFds, sel', t) {
      if k < r {
        AskedKept(start, r, k, busyFds, sel, t, cur, now);
      } else {
        AskedOwn(start, r, busyFds, sel, t, cur, now);
      }
    }
    if answer.busy {
      assert start[r] in start && !start[r].deleted && (start[r].hasFlush || start[r].fd in t.sets);
    }
    forall fd | fd in sel'.readable || fd in sel'.writable ensures AskedFor(start, r + 1, fd) {
      AskedForMore(start, r, fd);
    }
  }

  lemma AnsweredLater(a: seq<Handler>, b: seq<Handler>, u: Touch, t: Touch, id: nat)
    requires Grown(a, b, u) && u.Within(t) && Falling(b) && id in Ids(a)
    ensures id in Ids(b) && Later(Get(a, id), Get(b, id), t)
  {
    GrownWider(a, b, u, t);
    GrownAllLater(a, b, t);
    assert LaterAt(a, b, t, id);
  }

  /** Select finds the handler ready for reading, or for writing, and it is selected for. */
  predicate ReadReady(h: Handler, world: World) { h.hasRead && h.fd in world.readable && !Idle(h, world.busy) }

  predicate WriteReady(h: Handler, world: World) { h.hasWrite && h.fd in world.writable && !Idle(h, world.busy) }

  /** What the last part of a poll leaves of a steady handler.  If it gets to dispatch, a ready callback is called,
      exactly once if no script polls; others are not called unless a script polls. */
  ghost predicate SelectedAs(h: Handler, h': Handler, world: World, t: Touch, dispatches: bool) {
    && h'.readCalls >= h.readCalls && h'.writeCalls >= h.writeCalls
    && (dispatches && ReadReady(h, world) ==> h'.readCalls > h.readCalls)
    && (dispatches && WriteReady(h, world) ==> h'.writeCalls > h.writeCalls)
    && (!t.walks ==> h'.readCalls == h.readCalls + if dispatches && ReadReady(h, world) then 1 else 0)
    && (!t.walks ==> h'.writeCalls == h.writeCalls + if dispatches && WriteReady(h, world) then 1 else 0)
  }

  ghost predicate AllSelected(list: seq<Handler>, list': seq<Handler>, world: World, t: Touch, dispatches: bool) {
    forall h :: h in list && Steady(h, t) ==>
      h.id in Ids(list') && SelectedAs(h, Get(list', h.id), world, t, dispatches)
  }

  /** Nobody has work. */
  lemma SelectedNone(a: seq<Handler>, b: seq<Handler>, world: World, t: Touch)
    requires Falling(a) && Falling(b) && Grown(a, b, t)
    ensures AllSelected(a, b, world, t, false)
  {
    GrownAllLater(a, b, t);
    forall h | h in a && Steady(h, t) ensures h.id in Ids(b) && SelectedAs(h, Get(b, h.id), world, t, false) {
      GetMember(a, h);
      assert LaterAt(a, b, t, h.id);
    }
  }

  /** What select returned is dispatched. */
  lemma SelectedOne(a: seq<Handler>, b: seq<Handler>, c: seq<Handler>, m: nat, world: World, sel: Selection, t: Touch,
                    u: Touch, outermost: bool, h: Handler)
    requires Falling(a) && Falling(b) && Grown(a, b, t) && AskedUpTo(a, |a|, world.busy, sel, t)
    requires var mode := Selected(sel.readable * world.readable, sel.writable * world.writable);
      Walked(mode, b, m, c, u, outermost)
    requires u.Within(t) && u.clears <= u.sets && h in a && Steady(h, t)
    ensures h.id in Ids(c) && SelectedAs(h, Get(c, h.id), world, t, true)
  {
    var mode := Selected(sel.readable * world.readable, sel.writable * world.writable);
    var k :| 0 <= k < |a| && a[k] == h;
    assert AskedAs(a[k], world.busy, sel, t);
    GrownIndex(a, b, t, k);
    var now := b[|b| - |a| + k];
    assert now in b && VisitedAt(mode, now, c, u, outermost);
    assert ReadDue(mode, now) <==> ReadReady(h, world);
    assert WriteDue(mode, now) <==> WriteReady(h, world);
  }

  /** Nothing that was selected for is ready. */
  lemma SelectedEmpty(a: seq<Handler>, b: seq<Handler>, world: World, sel: Selection, t: Touch)
    requires Falling(a) && Falling(b) && Grown(a, b, t) && AskedUpTo(a, |a|, world.busy, sel, t)
    requires sel.readable * world.readable + sel.writable * world.writable == {}
    ensures AllSelected(a, b, world, t, true)
  {
    SelectedNone(a, b, world, t);
    forall h | h in a && Steady(h, t) ensures SelectedAs(h, Get(b, h.id), world, t, true) {
      var k :| 0 <= k < |a| && a[k] == h;
      assert AskedAs(a[k], world.busy, sel, t);
      assert h.fd !in sel.readable * world.readable + sel.writable * world.writable;
    }
  }

  lemma SelectedAll(a: seq<Handler>, b: seq<Handler>, c: seq<Handler>, m: nat, world: World, sel: Selection, t: Touch,
                    u: Touch, outermost: bool)
    requires Falling(a) && Falling(b) && Grown(a, b, t) && AskedUpTo(a, |a|, world.busy, sel, t)
    requires var mode := Selected(sel.readable * world.readable, sel.writable * world.writable);
      Walked(mode, b, m, c, u, outermost)
    requires u.Within(t) && u.clears <= u.sets
    ensures AllSelected(a, c, world, t, true)
  {
    forall h | h in a && Steady(h, t) ensures h.id in Ids(c) && SelectedAs(h, Get(c, h.id), world, t, true) {
      SelectedOne(a, b, c, m, world, sel, t, u, outermost, h);
    }
  }

  /** The last part of a poll as a whole; `busy` is whether a handler with work was found. */
  ghost predicate SelectedWith(list: seq<Handler>, list': seq<Handler>, world: World, t: Touch, progress: bool,
                               progress': bool, busy: bool) {
    && (IsBusy(list, world.busy, t) ==> busy) && (busy ==> MayBeBusy(list, world.busy, t))
    && AllSelected(list, list', world, t, busy) && progress' == (progress || busy)
  }

  lemma SelectedIs(list: seq<Handler>, list': seq<Handler>, world: World, t: Touch, progress: bool, progress': bool,
                   sel: Selection)
    requires AskedUpTo(list, |list|, world.busy, sel, t) && AllSelected(list, list', world, t, sel.busy)
    requires progress' == (progress || sel.busy)
    ensures SelectedWith(list, list', world, t, progress, progress', sel.busy)
  {
    if IsBusy(list, world.busy, t) {
      BusyIsSeen(list, world.busy, sel, t);
    }
  }

  lemma BusyIsSeen(list: seq<Handler>, busyFds: set<int>, sel: Selection, t: Touch)
    requires AskedUpTo(list, |list|, busyFds, sel, t) && IsBusy(list, busyFds, t)
    ensures sel.busy
  {
    var h :| h in list && h.fd in busyFds && Steady(h, t) && h.hasFlush;
    var k :| 0 <= k < |list| && list[k] == h;
    assert AskedAs(list[k], busyFds, sel, t);
  }

  function Times(b: bool): nat { if b then 1 else 0 }

  /** Both walks of a poll together: the reported events, and, if the poll gets to dispatch them, those that select
      found. */
  ghost predicate CalledInPoll(h: Handler, h': Handler, world: World, t: Touch, dispatches: bool) {
    && (ReadDue(Reported, h) || (dispatches && ReadReady(h, world)) ==> h'.readCalls > h.readCalls)
    && (WriteDue(Reported, h) || (dispatches && WriteReady(h, world)) ==> h'.writeCalls > h.writeCalls)
    && (!t.walks ==>
      h'.readCalls == h.readCalls + Times(ReadDue(Reported, h)) + Times(dispatches && ReadReady(h, world)))
    && (!t.walks ==>
      h'.writeCalls == h.writeCalls + Times(WriteDue(Reported, h)) + Times(dispatches && WriteReady(h, world)))
  }

  ghost predicate AllCalled(list: seq<Handler>, list': seq<Handler>, world: World, t: Touch, dispatches: bool) {
    forall h :: h in list && Steady(h, t) ==>
      h.id in Ids(list') && CalledInPoll(h, Get(list', h.id), world, t, dispatches)
  }

  /** The poll does not stop after the reported events. */
  ghost predicate GoesOn(list: seq<Handler>, world: World) {
    !(AnyDue(Reported, list) || world.bottomHalves) || (world.blocking && !world.bottomHalves)
  }

  ghost predicate PolledWith(list: seq<Handler>, list': seq<Handler>, world: World, t: Touch, progress: bool,
                             busy: bool) {
    && (IsBusy(list, world.busy, t) ==> busy) && AllCalled(list, list', world, t, busy)
    && progress == (AnyDue(Reported, list) || world.bottomHalves || busy)
  }

  /** A steady handler after the reported events. */
  lemma SteadyStays(a: seq<Handler>, n: nat, b: seq<Handler>, t: Touch, outermost: bool, h: Handler)
    requires Walked(Reported, a, n, b, t, outermost) && t.clears <= t.sets && h in a && Steady(h, t)
    ensures h.id in Ids(b) && CalledAs(Reported, h, Get(b, h.id), t)
    ensures var now := Get(b, h.id);
      && now.id == h.id && now.fd == h.fd && !now.deleted && now.hasRead == h.hasRead && now.hasWrite == h.hasWrite
      && now.hasFlush == h.hasFlush && now.readCalls >= h.readCalls && now.writeCalls >= h.writeCalls
  {
    assert VisitedAt(Reported, h, b, t, outermost);
  }

  lemma CalledReported(a: seq<Handler>, n: nat, b: seq<Handler>, world: World, t: Touch, outermost: bool)
    requires Walked(Reported, a, n, b, t, outermost) && t.clears <= t.sets
    ensures AllCalled(a, b, world, t, false)
  {
    forall h | h in a && Steady(h, t) ensures h.id in Ids(b) && CalledInPoll(h, Get(b, h.id), world, t, false) {
      SteadyStays(a, n, b, t, outermost, h);
    }
  }

  lemma CalledBoth(a: seq<Handler>, n: nat, b: seq<Handler>, c: seq<Handler>, world: World, u: Touch, t: Touch,
                   outermost: bool, dispatches: bool)
    requires Walked(Reported, a, n, b, t, outermost) && t.clears <= t.sets && u.Within(t)
    requires AllSelected(b, c, world, u, dispatches)
    ensures AllCalled(a, c, world, t, dispatches)
  {
    forall h | h in a && Steady(h, t) ensures h.id in Ids(c) && CalledInPoll(h, Get(c, h.id), world, t, dispatches) {
      SteadyStays(a, n, b, t, outermost, h);
      var now := Get(b, h.id);
      assert now in b && Steady(now, u) && SelectedAs(now, Get(c, h.id), world, u, dispatches);
    }
  }

  lemma StillBusy(a: seq<Handler>, n: nat, b: seq<Handler>, busyFds: set<int>, u: Touch, t: Touch, outermost: bool)
    requires Walked(Reported, a, n, b, t, outermost) && t.clears <= t.sets && u.Within(t) && IsBusy(a, busyFds, t)
    ensures IsBusy(b, busyFds, u)
  {
    var h :| h in a && h.fd in busyFds && Steady(h, t) && h.hasFlush;
    SteadyStays(a, n, b, t, outermost, h);
    assert Get(b, h.id) in b;
  }

  lemma PollIs(a: seq<Handler>, n: nat, b: seq<Handler>, c: seq<Handler>, world: World, u: Touch, t: Touch,
               outermost: bool, before: bool, progress: bool)
    requires Walked(Reported, a, n, b, t, outermost) && t.clears <= t.sets && u.Within(t)
    requires before == (AnyDue(Reported, a) || world.bottomHalves)
    requires exists busy :: SelectedWith(b, c, world, u, before, progress, busy)
    ensures exists busy :: PolledWith(a, c, world, t, progress, busy)
  {
    var busy :| SelectedWith(b, c, world, u, before, progress, busy);
    CalledBoth(a, n, b, c, world, u, t, outermost, busy);
    if IsBusy(a, world.busy, t) {
      StillBusy(a, n, b, world.busy, u, t, outermost);
    }
    assert PolledWith(a, c, world, t, progress, busy);
  }

  // ----- the context -----

  class AioContext {
    var list: seq<Handler>
    var walking: nat
    var nextId: nat
    /** The callbacks called so far, nested ones included. */
    ghost var called: seq<Script>

    ghost predicate Valid() reads this {
      Falling(list) && forall h :: h in list ==> HandlerOk(h, nextId)
    }

    ghost function Now(): State reads this { State(list, walking, nextId) }

    constructor ()
      ensures Valid() && list == [] && walking == 0
    {
      list, walking, nextId, called := [], 0, 0, [];
    }

    /** aio_set_fd_handler.  While a walk is at a handler nothing is freed. */
    method SetFdHandler(fd: int, read: bool, write: bool, flush: bool)
      requires Valid()
      modifies `list, `nextId
      ensures Valid() && nextId == old(nextId) + 1 && OnlyNew(Ids(old(list)), Ids(list), old(nextId))
      ensures list == Edited(old(list), old(nextId), walking > 0, fd, read, write, flush)
      ensures walking > 0 ==> Grown(old(list), list, ActionTouch(SetHandler(fd, read, write, flush)))
      ensures forall g :: g != fd ==> Live(list, g) == old(Live(list, g))
      ensures var live := Live(list, fd);
        if !read && !write then live == None
        else live.Some? && live.value.hasRead == read && live.value.hasWrite == write && live.value.hasFlush == flush
    {
      EditedOk(list, nextId, walking > 0, fd, read, write, flush);
      EditedNumbers(list, nextId, walking > 0, fd, read, write, flush);
      forall g ensures g != fd ==> Live(Edited(list, nextId, walking > 0, fd, read, write, flush), g) == Live(list, g) {
        EditedLive(list, nextId, walking > 0, fd, read, write, flush, g);
      }
      EditedLive(list, nextId, walking > 0, fd, read, write, flush, fd);
      var k := Find(list, fd);
      if !read && !write {
        if k.Some? {
          if walking > 0 {
            list := list[k.value := list[k.value].(deleted := true, readable := false, writable := false)];
          } else {
            list := Without(list, k.value);
          }
        }
      } else {
        if k.None? {
          list := [Handler(nextId, fd, read, write, flush, false, false, false, 0, 0)] + list;
        } else {
          list := list[k.value := list[k.value].(hasRead := read, hasWrite := write, hasFlush := flush)];
        }
      }
      nextId := nextId + 1;
    }

    /** One action of a callback. */
    method Act(action: Action)
      requires Valid() && walking > 0
      modifies this
      ensures Valid() && walking == old(walking) && nextId >= old(nextId) && Grown(old(list), list, ActionTouch(action))
      ensures OnlyNew(Ids(old(list)), Ids(list), old(nextId)) && Now() == AfterAction(old(Now()), action)
      ensures old(called) <= called && (action.SetHandler? ==> called == old(called))
      ensures action.Walk? ==> Polled(old(list), list, CallbacksTouch(action.callbacks), false)
      ensures action.SetHandler? ==>
        var live := Live(list, action.fd);
        if !action.read && !action.write then live == None
        else live.Some? && live.value.hasRead == action.read && live.value.hasWrite == action.write
      decreases ActionSize(action), 1
    {
      match action
      case SetHandler(fd, read, write, flush) => SetFdHandler(fd, read, write, flush);
      case Walk(world, callbacks) =>
        var _ := Poll(world, callbacks);
    }

    /** Run a callback: its actions in order. */
    method Perform(script: Script)
      requires Valid() && walking > 0
      modifies this
      ensures Valid() && walking == old(walking) && nextId >= old(nextId) && Grown(old(list), list, ScriptTouch(script))
      ensures OnlyNew(Ids(old(list)), Ids(list), old(nextId)) && Now() == AfterScript(old(Now()), script)
      ensures old(called) + [script] <= called
      decreases ScriptSize(script), 2
    {
      ghost var first, n, t := list, nextId, ScriptTouch(script);
      called := called + [script];
      GrownSame(list, t);
      var rest := script;
      while rest.Do?
        invariant Valid() && walking == old(walking) && nextId >= n && Grown(first, list, t)
        invariant OnlyNew(Ids(first), Ids(list), n) && ScriptTouch(rest).Within(t)
        invariant AfterScript(Now(), rest) == AfterScript(old(Now()), script)
        invariant old(called) + [script] <= called && ScriptSize(rest) <= ScriptSize(script)
        decreases rest
      {
        ghost var before, m := list, nextId;
        Act(rest.action);
        GrownWider(before, list, ActionTouch(rest.action), t);
        GrownTwice(first, before, list, t);
        NewTwice(Ids(first), Ids(before), Ids(list), n, m);
        rest := rest.rest;
      }
    }

    /** Call one callback, with the next script. */
    method Callback(calls: Callbacks) returns (left: Callbacks)
      requires Valid() && walking > 0
      modifies this
      ensures Valid() && walking == old(walking) && nextId >= old(nextId)
      ensures CallbacksSize(left) <= CallbacksSize(calls) && CallbacksTouch(left).Within(CallbacksTouch(calls))
      ensures Grown(old(list), list, CallbacksTouch(calls)) && OnlyNew(Ids(old(list)), Ids(list), old(nextId))
      ensures (Now(), left) == AfterCall(old(Now()), calls)
      ensures old(called) + [if calls.Call? then calls.script else Return] <= called
      decreases CallbacksSize(calls), 3
    {
      left := if calls.Call? then calls.others else calls;
      var script := if calls.Call? then calls.script else Return;
      ghost var first := list;
      Perform(script);
      GrownWider(first, list, ScriptTouch(script), CallbacksTouch(calls));
    }

    /** Replace a handler, as the walk that is at it does. */
    method Update(h: Handler, ghost t: Touch)
      requires Valid() && h.id in Ids(list) && h.fd == Get(list, h.id).fd && (Get(list, h.id).deleted ==> h.deleted)
      requires HandlerOk(h, nextId)
      modifies `list
      ensures Valid() && list == Put(old(list), h) && h.id in Ids(list) && Get(list, h.id) == h
      ensures Through(old(list), nextId, list, t, h.id)
    {
      ThroughUpdate(list, nextId, h, t);
      list := Put(list, h);
    }

    /** Call a callback of the handler the walk is at: everything stays through it. */
    method CallAt(id: nat, calls: Callbacks, ghost t: Touch) returns (left: Callbacks)
      requires Valid() && walking > 0 && id in Ids(list) && CallbacksTouch(calls).Within(t)
      modifies this
      ensures Valid() && walking == old(walking) && nextId >= old(nextId) && old(called) <= called
      ensures CallbacksSize(left) <= CallbacksSize(calls) && CallbacksTouch(left).Within(t)
      ensures (Now(), left) == AfterCall(old(Now()), calls)
      ensures Through(old(list), old(nextId), list, t, id)
      ensures id in Ids(list) && Later(old(Get(list, id)), Get(list, id), t)
      decreases CallbacksSize(calls), 4
    {
      ghost var first, n := list, nextId;
      left := Callback(calls);
      ThroughGrown(first, n, list, CallbacksTouch(calls), t, id);
    }

    /** io_read, if it is due, after the report is taken. */
    method DispatchRead(mode: Mode, id: nat, calls: Callbacks, ghost t: Touch) returns (left: Callbacks)
      requires Valid() && walking > 0 && id in Ids(list) && CallbacksTouch(calls).Within(t)
      modifies this
      ensures Valid() && walking == old(walking) && nextId >= old(nextId) && old(called) <= called
      ensures CallbacksSize(left) <= CallbacksSize(calls) && CallbacksTouch(left).Within(t)
      ensures Through(old(list), old(nextId), list, t, id) && id in Ids(list)
      ensures var h := old(Get(list, id)); var s1 := old(Now()).(list := Put(old(list), AtRead(mode, h)));
        if ReadDue(mode, h) then (Now(), left) == AfterCall(s1, calls) && Later(AtRead(mode, h), Get(list, id), t)
        else Now() == s1 && left == calls && Get(list, id) == AtRead(mode, h)
      decreases CallbacksSize(calls), 5
    {
      ghost var first, n := list, nextId;
      var h := list[IndexOf(list, id)];
      assert h in list;
      Update(AtRead(mode, h), t);
      left := calls;
      if ReadDue(mode, h) {
        ghost var second := list;
        left := CallAt(id, calls, t);
        ThroughTwice(first, n, second, n, list, t, id);
      }
    }

    /** What a walk does at one handler.  The handler is still there after each callback, and what is due is
        called.  In a walk over what the main loop had reported, io_write is called even if io_read has just
        deleted the handler; in a walk over what select returned it is not. */
    method Dispatch(mode: Mode, id: nat, calls: Callbacks, ghost t: Touch) returns (progress: bool, left: Callbacks)
      requires Valid() && walking > 0 && id in Ids(list) && CallbacksTouch(calls).Within(t)
      modifies this
      ensures Valid() && walking == old(walking) && nextId >= old(nextId) && old(called) <= called
      ensures CallbacksSize(left) <= CallbacksSize(calls) && CallbacksTouch(left).Within(t)
      ensures Through(old(list), old(nextId), list, t, id)
      ensures id in Ids(list) && Dispatched(mode, old(Get(list, id)), Get(list, id), t)
      ensures progress <==> Due(mode, old(Get(list, id)))
      ensures !progress ==> list == Put(old(list), AtRead(mode, old(Get(list, id))))
      ensures (Now(), left, progress) == AfterDispatch(old(Now()), mode, id, calls)
      decreases CallbacksSize(calls), 6
    {
      ghost var first, n := list, nextId;
      var h := list[IndexOf(list, id)];
      assert h in list;
      left := DispatchRead(mode, id, calls, t);
      ghost var second, m, now := list, nextId, Get(list, id);
      var written;
      written, left := DispatchWrite(mode, h, id, left, t);
      ThroughTwice(first, n, second, m, list, t, id);
      OwnDispatched(mode, h, now, Get(list, id), t);
      progress := ReadDue(mode, h) || written;
    }

    /** io_write, if it is due after io_read. */
    method DispatchWrite(mode: Mode, h: Handler, id: nat, calls: Callbacks, ghost t: Touch)
      returns (written: bool, left: Callbacks)
      requires Valid() && walking > 0 && id in Ids(list) && CallbacksTouch(calls).Within(t)
      modifies this
      ensures Valid() && walking == old(walking) && nextId >= old(nextId) && old(called) <= called
      ensures CallbacksSize(left) <= CallbacksSize(calls) && CallbacksTouch(left).Within(t)
      ensures Through(old(list), old(nextId), list, t, id) && id in Ids(list)
      ensures written <==> WritesAfter(mode, h, old(Get(list, id)))
      ensures var now := old(Get(list, id)); var s1 := old(Now()).(list := Put(old(list), AtWrite(now)));
        if written then (Now(), left) == AfterCall(s1, calls) && Later(AtWrite(now), Get(list, id), t)
        else Now() == old(Now()) && left == calls
      decreases CallbacksSize(calls), 5
    {
      ghost var first, n := list, nextId;
      var now := list[IndexOf(list, id)];
      written, left := WritesAfter(mode, h, now), calls;
      ThroughSame(list, n, t, id);
      if written {
        assert now in list;
        Update(AtWrite(now), t);
        ghost var second := list;
        left := CallAt(id, calls, t);
        ThroughTwice(first, n, second, n, list, t, id);
      }
    }

    /** Leave a handler: read the next one, let go of the lock, and free the handler if it is deleted and
        no other walk is at work. */
    method Leave(id: nat, ghost todo: seq<Handler>) returns (next: Option<nat>)
      requires Valid() && walking > 0 && Ahead(todo, list) && todo != [] && todo[0].id == id
      modifies `walking, `list
      ensures Valid() && walking == old(walking) - 1 && (walking > 0 ==> list == old(list))
      ensures next == At(todo, 1) && Ahead(todo[1..], list)
      ensures id in Ids(old(list)) && (id in Ids(list) <==> !(walking == 0 && Get(old(list), id).deleted))
      ensures forall x :: x in Ids(list) ==> x in Ids(old(list)) && Get(list, x) == Get(old(list), x)
      ensures forall x :: x in Ids(old(list)) && x != id ==> x in Ids(list)
      ensures list == old(list) || list == Without(old(list), IndexOf(old(list), id))
      ensures Now() == AfterLeave(old(Now()), id)
    {
      AheadIndex(todo, list, 0);
      NextIs(todo, list, 0);
      AheadTail(todo, list);
      var k := IndexOf(list, id);
      next := At(list, k + 1);
      walking := walking - 1;
      if walking == 0 && list[k].deleted {
        FallingWithout(list, k);
        WithoutNumbers(list, k);
        list := Without(list, k);
      }
    }

    /** Dispatch, under the lock. */
    method DispatchLocked(mode: Mode, id: nat, calls: Callbacks, ghost t: Touch, ghost s: State)
      returns (progress: bool, left: Callbacks)
      requires Valid() && id in Ids(list) && CallbacksTouch(calls).Within(t) && s == Now()
      modifies this
      ensures Valid() && walking == s.walking + 1 && nextId >= s.nextId && old(called) <= called
      ensures CallbacksSize(left) <= CallbacksSize(calls) && CallbacksTouch(left).Within(t)
      ensures Through(s.list, s.nextId, list, t, id)
      ensures id in Ids(list) && Dispatched(mode, Get(s.list, id), Get(list, id), t)
      ensures progress <==> Due(mode, Get(s.list, id))
      ensures !progress ==> list == Put(s.list, AtRead(mode, Get(s.list, id)))
      ensures AfterDispatch(s.(walking := s.walking + 1), mode, id, calls) == (Now(), left, progress)
      decreases CallbacksSize(calls), 7
    {
      walking := walking + 1;
      assert Now() == s.(walking := s.walking + 1);
      progress, left := Dispatch(mode, id, calls, t);
    }

    /** One step of a dispatching walk. */
    method Step(mode: Mode, id: nat, calls: Callbacks, ghost t: Touch, ghost todo: seq<Handler>, ghost s: State)
      returns (progress: bool, left: Callbacks, next: Option<nat>, ghost s1: State)
      requires Valid() && Ahead(todo, list) && todo != [] && todo[0].id == id && CallbacksTouch(calls).Within(t)
      requires s == Now()
      modifies this
      ensures Valid() && walking == s.walking && nextId >= s.nextId && old(called) <= called
      ensures CallbacksSize(left) <= CallbacksSize(calls) && CallbacksTouch(left).Within(t)
      ensures next == At(todo, 1) && Ahead(todo[1..], list) && id in Ids(s.list)
      ensures Stepped(mode, s.list, s.nextId, list, t, id, walking == 0)
      ensures progress <==> Due(mode, Get(s.list, id))
      ensures !progress ==> OnlyTaken(s.list, list, AtRead(mode, Get(s.list, id)))
      ensures AfterDispatch(s.(walking := s.walking + 1), mode, id, calls) == (s1, left, progress)
      ensures Now() == AfterLeave(s1, id)
      decreases CallbacksSize(calls), 8
    {
      AheadIndex(todo, list, 0);
      progress, left := DispatchLocked(mode, id, calls, t, s);
      s1 := Now();
      AheadThrough(todo, s.list, s.nextId, list, t, id);
      next := Leave(id, todo);
      StepIs(mode, s.list, s.nextId, s1.list, list, t, id, walking == 0);
    }

    /** A dispatching walk.  It is at every handler that was in the list when it started, and does what visiting
        a snapshot of the list does.  A nested one frees nothing; an outermost one frees every handler that was
        deleted at its start, and no live one unless a callback clears its descriptor.  There is progress
        exactly if something was due. */
    method WalkHandlers(mode: Mode, calls: Callbacks) returns (progress: bool, left: Callbacks)
      requires Valid()
      modifies this
      ensures Valid() && walking == old(walking) && nextId >= old(nextId) && old(called) <= called
      ensures CallbacksSize(left) <= CallbacksSize(calls) && CallbacksTouch(left).Within(CallbacksTouch(calls))
      ensures Walked(mode, old(list), old(nextId), list, CallbacksTouch(calls), walking == 0)
      ensures progress <==> AnyDue(mode, old(list))
      ensures (Now(), left, progress) == AfterVisits(old(Now()), mode, Ids(old(list)), calls)
      decreases CallbacksSize(calls), 10
    {
      ghost var start, n, t, r := list, nextId, CallbacksTouch(calls), 0;
      WalkBegins(mode, start, Now(), t, walking == 0);
      progress, left := false, calls;
      assert start[0..] == start && Ids(start)[0..] == Ids(start) && list[0..] == list;
      var cursor := At(list, 0);
      while cursor.Some?
        invariant Valid() && walking == old(walking) && nextId >= n && old(called) <= called
        invariant CallbacksSize(left) <= CallbacksSize(calls) && CallbacksTouch(left).Within(t)
        invariant MidWalk(mode, start, n, r, Now(), t, walking == 0) && cursor == At(start, r)
        invariant if progress then AnyDue(mode, start) else Quiet(mode, start, r, list)
        invariant StillToCome(old(Now()), mode, Ids(start), calls, Now(), r, left, progress)
        decreases |start| - r
      {
        assert start[r] in start;
        var busy;
        busy, left, cursor := NextStep(mode, cursor.value, left, start, n, t, r, old(Now()), calls, progress);
        progress := progress || busy;
        r := r + 1;
      }
      WalkEnds(mode, start, n, Now(), t, walking == 0);
      assert Ids(start)[r..] == [];
    }

    /** One turn of that loop. */
    method NextStep(mode: Mode, id: nat, calls: Callbacks, ghost start: seq<Handler>, ghost n: nat, ghost t: Touch,
                    ghost r: nat, ghost s0: State, ghost calls0: Callbacks, ghost progress: bool)
      returns (busy: bool, left: Callbacks, next: Option<nat>)
      requires Valid() && r < |start| && id == start[r].id && CallbacksTouch(calls).Within(t)
      requires MidWalk(mode, start, n, r, Now(), t, walking == 0) && Falling(start)
      requires forall h :: h in start ==> h.id < n
      requires StillToCome(s0, mode, Ids(start), calls0, Now(), r, calls, progress)
      modifies this
      ensures Valid() && walking == old(walking) && nextId >= old(nextId) && old(called) <= called
      ensures CallbacksSize(left) <= CallbacksSize(calls) && CallbacksTouch(left).Within(t) && next == At(start, r + 1)
      ensures MidWalk(mode, start, n, r + 1, Now(), t, walking == 0)
      ensures StillToCome(s0, mode, Ids(start), calls0, Now(), r + 1, left, progress || busy)
      ensures Quiet(mode, start, r, old(list)) ==>
        (busy <==> Due(mode, start[r])) && (!busy ==> Quiet(mode, start, r + 1, list))
      decreases CallbacksSize(calls), 9
    {
      ghost var s, quiet := Now(), Quiet(mode, start, r, list);
      ghost var todo := start[r..];
      assert todo[0] == start[r] && todo[1..] == start[r + 1..] && Ids(start)[r] == id;
      ghost var s1;
      busy, left, next, s1 := Step(mode, id, calls, t, todo, s);
      VisitStep(s0, mode, Ids(start), calls0, s, r, calls, progress, id, s1, left, busy);
      WalkStep(mode, start, n, r, s, Now(), t, walking == 0);
      if quiet {
        QuietAt(mode, start, r, s.list);
        if !busy {
          QuietStep(mode, start, r, s.list, list, AtRead(mode, start[r]));
        }
      }
    }

    /** Ask one handler whether it has work; it is selected for unless its io_flush says it has none. */
    method Ask(id: nat, busyFds: set<int>, calls: Callbacks)
      returns (answer: Answer, left: Callbacks, next: Option<nat>)
      requires Valid() && walking > 0 && id in Ids(list)
      modifies this
      ensures Valid() && walking == old(walking) && nextId >= old(nextId) && old(called) <= called
      ensures CallbacksSize(left) <= CallbacksSize(calls) && CallbacksTouch(left).Within(CallbacksTouch(calls))
      ensures Grown(old(list), list, CallbacksTouch(calls)) && OnlyNew(Ids(old(list)), Ids(list), old(nextId))
      ensures id in Ids(list) && next == At(list, IndexOf(list, id) + 1)
      ensures answer == AnswerOf(old(Get(list, id)), Get(list, id), busyFds)
      ensures (Now(), left, answer) == AfterAsk(old(Now()), id, busyFds, calls)
      decreases CallbacksSize(calls), 4
    {
      ghost var first := list;
      var h := list[IndexOf(list, id)];
      left := calls;
      GrownSame(list, CallbacksTouch(calls));
      if !h.deleted && h.hasFlush {
        left := Callback(calls);
      }
      GrownIndex(first, list, CallbacksTouch(calls), IndexOf(first, id));
      var k := IndexOf(list, id);
      answer := AnswerOf(h, list[k], busyFds);
      next := At(list, k + 1);
    }

    /** The walk of aio_poll that asks each handler whether it has work, and collects what to select for.
        It holds the lock throughout. */
    method Collect(busyFds: set<int>, calls: Callbacks) returns (sel: Selection, left: Callbacks)
      requires Valid() && walking > 0
      modifies this
      ensures Valid() && walking == old(walking) && nextId >= old(nextId) && old(called) <= called
      ensures CallbacksSize(left) <= CallbacksSize(calls) && CallbacksTouch(left).Within(CallbacksTouch(calls))
      ensures Grown(old(list), list, CallbacksTouch(calls)) && OnlyNew(Ids(old(list)), Ids(list), old(nextId))
      ensures AskedUpTo(old(list), |old(list)|, busyFds, sel, CallbacksTouch(calls))
      ensures (Now(), left, sel) == AfterAsks(old(Now()), Ids(old(list)), busyFds, calls, NO_SELECTION)
      decreases CallbacksSize(calls), 6
    {
      ghost var start, n, t, r, seen := list, nextId, CallbacksTouch(calls), 0, called;
      GrownSame(list, t);
      sel, left := NO_SELECTION, calls;
      ghost var end := AfterAsks(Now(), Ids(start), busyFds, calls, NO_SELECTION);
      assert Ids(start)[0..] == Ids(start);
      AskedNone(start, busyFds, t);
      var cursor := At(list, 0);
      while cursor.Some?
        invariant Valid() && walking == old(walking) && nextId >= n && seen <= called
        invariant CallbacksSize(left) <= CallbacksSize(calls) && CallbacksTouch(left).Within(t)
        invariant Grown(start, list, t) && OnlyNew(Ids(start), Ids(list), n)
        invariant r <= |start| && cursor == At(start, r) && AskedUpTo(start, r, busyFds, sel, t)
        invariant AfterAsks(Now(), Ids(start)[r..], busyFds, left, sel) == end
        decreases |start| - r
      {
        sel, left, cursor := NextAsk(cursor.value, busyFds, left, sel, start, n, t, r);
        r := r + 1;
      }
      assert r == |start|;
      AsksDone(Now(), Ids(start), busyFds, left, sel);
    }

    /** One turn of that loop. */
    method NextAsk(id: nat, busyFds: set<int>, calls: Callbacks, sel: Selection, ghost start: seq<Handler>,
                   ghost n: nat, ghost t: Touch, ghost r: nat)
      returns (sel': Selection, left: Callbacks, next: Option<nat>)
      requires Valid() && walking > 0 && r < |start| && id == start[r].id && CallbacksTouch(calls).Within(t)
      requires Grown(start, list, t) && OnlyNew(Ids(start), Ids(list), n) && nextId >= n
      requires Falling(start) && AskedUpTo(start, r, busyFds, sel, t)
      modifies this
      ensures Valid() && walking == old(walking) && nextId >= old(nextId) && old(called) <= called
      ensures CallbacksSize(left) <= CallbacksSize(calls) && CallbacksTouch(left).Within(t)
      ensures Grown(start, list, t) && OnlyNew(Ids(start), Ids(list), n) && next == At(start, r + 1)
      ensures AskedUpTo(start, r + 1, busyFds, sel', t)
      ensures AfterAsks(Now(), Ids(start)[r + 1..], busyFds, left, sel')
        == AfterAsks(old(Now()), Ids(start)[r..], busyFds, calls, sel)
      decreases CallbacksSize(calls), 5
    {
      ghost var before, m, s := list, nextId, Now();
      GrownIndex(start, list, t, r);
      ghost var cur := Get(list, id);
      var fd := list[IndexOf(list, id)].fd;
      var answer;
      answer, left, next := Ask(id, busyFds, calls);
      AskedOn(start, n, before, m, list, CallbacksTouch(calls), t, r);
      AnsweredLater(before, list, CallbacksTouch(calls), t, id);
      AskedNext(start, r, busyFds, sel, t, cur, Get(list, id));
      sel' := sel.Add(answer, fd);
      AsksStep(s, Ids(start), r, busyFds, calls, sel, id, Now(), left, answer);
    }

    /** The last part of aio_poll: ask for work, and dispatch what select returns. */
    method Select(world: World, calls: Callbacks, progress: bool) returns (progress': bool)
      requires Valid()
      modifies this
      ensures Valid() && walking == old(walking) && nextId >= old(nextId) && old(called) <= called
      ensures Followed(old(list), old(nextId), list, CallbacksTouch(calls), walking == 0)
      ensures exists busy :: SelectedWith(old(list), list, world, CallbacksTouch(calls), progress, progress', busy)
      ensures (Now(), progress') == AfterSelect(old(Now()), world, calls, progress)
      decreases CallbacksSize(calls), 12
    {
      ghost var s0, t := Now(), CallbacksTouch(calls);
      var sel, left := CollectLocked(world.busy, calls);
      progress' := progress || sel.busy;
      ghost var s1 := Now();
      CollectedFollows(s0.list, s0.nextId, list, t, walking == 0);
      if sel.busy {
        DispatchSelected(world, sel, left, s0, t);
      } else {
        SelectedNone(s0.list, list, world, t);
      }
      SelectedIs(s0.list, list, world, t, progress, progress', sel);
      SelectIs(s0, world, calls, progress, s1, left, sel, Now());
    }

    /** The walk over what select returned, if it returned anything. */
    method DispatchSelected(world: World, sel: Selection, calls: Callbacks, ghost s0: State, ghost t: Touch)
      requires Valid() && CallbacksTouch(calls).Within(t) && Falling(s0.list) && s0.nextId <= nextId
      requires forall h :: h in s0.list ==> h.id < s0.nextId
      requires Grown(s0.list, list, t) && Followed(s0.list, s0.nextId, list, t, walking == 0)
      requires AskedUpTo(s0.list, |s0.list|, world.busy, sel, t)
      modifies this
      ensures Valid() && walking == old(walking) && nextId >= old(nextId) && old(called) <= called
      ensures Followed(s0.list, s0.nextId, list, t, walking == 0) && AllSelected(s0.list, list, world, t, true)
      ensures var mode := Selected(sel.readable * world.readable, sel.writable * world.writable);
        Now() == if mode.readable + mode.writable == {} then old(Now())
                 else AfterVisits(old(Now()), mode, Ids(old(list)), calls).0
      decreases CallbacksSize(calls), 11
    {
      ghost var s1, u := Now(), CallbacksTouch(calls);
      var mode := Selected(sel.readable * world.readable, sel.writable * world.writable);
      if mode.readable + mode.writable != {} {
        CallbacksClear(calls);
        var more, left := WalkHandlers(mode, calls);
        WalkedFollows(mode, s0.list, s0.nextId, s1.list, s1.nextId, list, u, t, walking == 0);
        SelectedAll(s0.list, s1.list, list, s1.nextId, world, sel, t, u, walking == 0);
      } else {
        SelectedEmpty(s0.list, list, world, sel, t);
      }
    }

    method CollectLocked(busyFds: set<int>, calls: Callbacks) returns (sel: Selection, left: Callbacks)
      requires Valid()
      modifies this
      ensures Valid() && walking == old(walking) && nextId >= old(nextId) && old(called) <= called
      ensures CallbacksSize(left) <= CallbacksSize(calls) && CallbacksTouch(left).Within(CallbacksTouch(calls))
      ensures Grown(old(list), list, CallbacksTouch(calls)) && OnlyNew(Ids(old(list)), Ids(list), old(nextId))
      ensures AskedUpTo(old(list), |old(list)|, busyFds, sel, CallbacksTouch(calls))
      ensures (Now().(walking := walking + 1), left, sel)
        == AfterAsks(old(Now()).(walking := walking + 1), Ids(old(list)), busyFds, calls, NO_SELECTION)
      decreases CallbacksSize(calls), 7
    {
      ghost var s0 := Now();
      walking := walking + 1;
      assert Now() == s0.(walking := s0.walking + 1);
      sel, left := Collect(busyFds, calls);
      walking := walking - 1;
    }

    /** aio_poll, after the bottom halves.  Every reported event of a handler that no script touches has had its
        callback called, and no report is left.  A nested poll frees nothing; an outermost one frees what was
        deleted before it began, and no live handler unless a callback clears its descriptor. */
    method Poll(world: World, callbacks: Callbacks) returns (progress: bool)
      requires Valid()
      modifies this
      ensures Valid() && walking == old(walking) && nextId >= old(nextId) && old(called) <= called
      ensures Polled(old(list), list, CallbacksTouch(callbacks), walking == 0)
      ensures OnlyNew(Ids(old(list)), Ids(list), old(nextId))
      ensures walking > 0 ==> Grown(old(list), list, CallbacksTouch(callbacks).Walking())
      ensures world.bottomHalves || AnyDue(Reported, old(list)) ==> progress
      ensures !GoesOn(old(list), world) ==> AllCalled(old(list), list, world, CallbacksTouch(callbacks), false)
      ensures GoesOn(old(list), world) ==>
        exists busy :: PolledWith(old(list), list, world, CallbacksTouch(callbacks), progress, busy)
      ensures (Now(), progress) == AfterPoll(old(Now()), world, callbacks)
      decreases CallbacksSize(callbacks), 13
    {
      ghost var s0, t := Now(), CallbacksTouch(callbacks);
      var left;
      progress, left := WalkHandlers(Reported, callbacks);
      progress := progress || world.bottomHalves;
      ghost var s1, before := Now(), progress;
      WalkedIsPolled(s0.list, s0.nextId, list, t, walking == 0);
      CallbacksClear(callbacks);
      if progress && !(world.blocking && !world.bottomHalves) {
        CalledReported(s0.list, s0.nextId, list, world, t, walking == 0);
        return;
      }
      ghost var u := CallbacksTouch(left);
      progress := Select(world, left, progress);
      FollowedPolled(s0.list, s0.nextId, s1.list, s1.nextId, list, u, t, walking == 0);
      PollIs(s0.list, s0.nextId, s1.list, list, world, u, t, walking == 0, before, progress);
    }
  }
}
