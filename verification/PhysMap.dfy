/**
  The radix tree from guest pages to sections (exec.c).

  Nodes live in a growing array and refer to each other by index.  A ghost label records, for
  every node, its level and the first page below it; the labels keep apart what different
  nodes decide.
 */
module PhysMaps {

  const L2_SIZE: nat := 1024
  const NODE_NIL: nat := 32767

  /** The section every page starts in. */
  const UNASSIGNED: nat := 0

  /** Pages below one entry of a node at the given level. */
  function Step(level: nat): (s: nat)
    ensures s > 0
  {
    if level == 0 then 1 else L2_SIZE * Step(level - 1)
  }

  /** (page >> (level * L2_BITS)) & (L2_SIZE - 1) */
  function Digit(page: nat, level: nat): (d: nat)
    ensures d < L2_SIZE
  {
    (page / Step(level)) % L2_SIZE
  }

  lemma MulMono(a: int, b: int, s: int)
    requires a <= b && s >= 0
    ensures a * s <= b * s
  {
  }

  lemma DivBounds(x: nat, s: nat, i: nat)
    requires s > 0 && i * s <= x < (i + 1) * s
    ensures x / s == i
  {
    var q := x / s;
    assert q * s <= x < q * s + s;
    if q < i {
      MulMono(q + 1, i, s);
    } else if q > i {
      MulMono(i + 1, q, s);
    }
  }

  /** Below a node whose first page is `base`, entry `i` covers Step(level) pages. */
  lemma DigitIs(base: nat, level: nat, i: nat, p: nat)
    requires base % Step(level + 1) == 0 && i < L2_SIZE
    requires base + i * Step(level) <= p < base + (i + 1) * Step(level)
    ensures Digit(p, level) == i
  {
    var s := Step(level);
    var q := base / Step(level + 1);
    assert base == (L2_SIZE * s) * q;
    assert base == (L2_SIZE * q) * s by { assert (L2_SIZE * s) * q == (L2_SIZE * q) * s; }
    assert (L2_SIZE * q + i) * s == base + i * s;
    assert (L2_SIZE * q + i + 1) * s == base + (i + 1) * s;
    DivBounds(p, s, L2_SIZE * q + i);
  }

  /** Every page below the node is below exactly the entry its digit names. */
  lemma DigitCovers(base: nat, level: nat, p: nat)
    requires base % Step(level + 1) == 0
    requires base <= p < base + Step(level + 1)
    ensures base + Digit(p, level) * Step(level) <= p < base + (Digit(p, level) + 1) * Step(level)
  {
    var s := Step(level);
    var i := (p - base) / s;
    assert p - base == s * i + (p - base) % s;
    assert i * s <= p - base < (i + 1) * s;
    if i >= L2_SIZE {
      MulMono(L2_SIZE, i, s);
    }
    DigitIs(base, level, i, p);
  }

  // ----- nodes -----

  datatype Entry = Entry(isLeaf: bool, ptr: nat)

  type Node = seq<Entry>

  /** Where a node stands: its level, and the first page below it. */
  datatype Label = Label(level: nat, base: nat)

  predicate Below(l: Label, p: nat) { l.base <= p < l.base + Step(l.level + 1) }

  /** phys_page_find from entry `e`, `h` levels above the pages. */
  function Find(nodes: seq<Node>, e: Entry, h: nat, p: nat): nat
    decreases h
  {
    if h == 0 || e.isLeaf then e.ptr
    else if e.ptr >= |nodes| || |nodes[e.ptr]| != L2_SIZE then UNASSIGNED
    else Find(nodes, nodes[e.ptr][Digit(p, h - 1)], h - 1, p)
  }

  /** Page `p` can be set below `e`: it is not inside a leaf that covers more than one page. */
  ghost predicate Settable(nodes: seq<Node>, e: Entry, h: nat, p: nat)
    decreases h
  {
    h == 0 ||
    (!e.isLeaf &&
     (e.ptr >= |nodes| || |nodes[e.ptr]| != L2_SIZE || Settable(nodes, nodes[e.ptr][Digit(p, h - 1)], h - 1, p)))
  }

  /** An entry that covers the Step(h) pages from `base` on.  Only single pages are explicitly
      unassigned. */
  ghost predicate EntryOk(info: seq<Label>, e: Entry, h: nat, base: nat) {
    && (h == 0 ==> e.isLeaf)
    && (h > 0 && e.isLeaf ==> e.ptr != UNASSIGNED)
    && (!e.isLeaf && e.ptr != NODE_NIL ==> e.ptr < |info| && info[e.ptr] == Label(h - 1, base))
  }

  ghost predicate NodeOk(info: seq<Label>, node: Node, l: Label) {
    && |node| == L2_SIZE
    && l.base % Step(l.level + 1) == 0
    && (forall i :: 0 <= i < L2_SIZE ==> EntryOk(info, node[i], l.level, l.base + i * Step(l.level)))
  }

  ghost predicate TreeOk(nodes: seq<Node>, info: seq<Label>) {
    && |nodes| == |info| <= NODE_NIL
    && forall n {:trigger nodes[n]} :: 0 <= n < |nodes| ==> NodeOk(info, nodes[n], info[n])
  }

  /** Below height `h`, the two trees decide page `p` alike. */
  ghost predicate Agree(nodes: seq<Node>, nodes': seq<Node>, info: seq<Label>, h: nat, p: nat) {
    && |nodes| == |info| <= |nodes'|
    && (forall n :: 0 <= n < |nodes| && info[n].level < h && Below(info[n], p) ==>
      |nodes[n]| == L2_SIZE == |nodes'[n]| && nodes'[n][Digit(p, info[n].level)] == nodes[n][Digit(p, info[n].level)])
  }

  /** A lookup only reads the nodes below it that cover the page. */
  lemma {:induction false} FindFrame(nodes: seq<Node>, nodes': seq<Node>, info: seq<Label>, e: Entry, h: nat,
                                     base: nat, p: nat)
    requires TreeOk(nodes, info) && |nodes'| <= NODE_NIL && EntryOk(info, e, h, base) && base <= p < base + Step(h)
    requires Agree(nodes, nodes', info, h, p)
    ensures Find(nodes', e, h, p) == Find(nodes, e, h, p)
    ensures Settable(nodes', e, h, p) == Settable(nodes, e, h, p)
    decreases h
  {
    if h > 0 && !e.isLeaf && e.ptr != NODE_NIL {
      var n := e.ptr;
      var l := info[n];
      assert NodeOk(info, nodes[n], l);
      var i := Digit(p, h - 1);
      DigitCovers(l.base, l.level, p);
      assert Below(l, p);
      assert (i + 1) * Step(h - 1) == i * Step(h - 1) + Step(h - 1);
      assert nodes'[n][i] == nodes[n][i];
      FindFrame(nodes, nodes', info, nodes[n][i], h - 1, l.base + i * Step(h - 1), p);
    }
  }

  /** A page that no section was set for is not inside a large leaf. */
  lemma {:induction false} UnassignedSettable(nodes: seq<Node>, info: seq<Label>, e: Entry, h: nat, base: nat, p: nat)
    requires TreeOk(nodes, info) && EntryOk(info, e, h, base) && base <= p < base + Step(h)
    requires Find(nodes, e, h, p) == UNASSIGNED
    ensures Settable(nodes, e, h, p)
    decreases h
  {
    if h > 0 && e.ptr != NODE_NIL {
      var n := e.ptr;
      var l := info[n];
      assert NodeOk(info, nodes[n], l);
      var i := Digit(p, h - 1);
      DigitCovers(l.base, l.level, p);
      assert (i + 1) * Step(h - 1) == i * Step(h - 1) + Step(h - 1);
      UnassignedSettable(nodes, info, nodes[n][i], h - 1, l.base + i * Step(h - 1), p);
    }
  }

  /** One level down: the entry that the page's digit names covers the page, and decides it alike. */
  lemma Descend(nodes: seq<Node>, info: seq<Label>, e: Entry, h: nat, base: nat, p: nat)
    requires TreeOk(nodes, info) && EntryOk(info, e, h, base) && base <= p < base + Step(h)
    requires h > 0 && !e.isLeaf && e.ptr != NODE_NIL
    ensures e.ptr < |nodes| && |nodes[e.ptr]| == L2_SIZE
    ensures var next, start := nodes[e.ptr][Digit(p, h - 1)], base + Digit(p, h - 1) * Step(h - 1);
      && EntryOk(info, next, h - 1, start) && start <= p < start + Step(h - 1)
      && Find(nodes, next, h - 1, p) == Find(nodes, e, h, p)
  {
    assert NodeOk(info, nodes[e.ptr], info[e.ptr]);
    DigitCovers(base, h - 1, p);
    EntryStart(base, h - 1, Digit(p, h - 1));
  }

  // ----- overwriting one entry -----

  /** Writing a node leaves the nodes of lower levels alone. */
  lemma WriteAgrees(nodes: seq<Node>, info: seq<Label>, n: nat, i: nat, x: Entry, p: nat)
    requires TreeOk(nodes, info) && n < |nodes| && i < |nodes[n]|
    ensures Agree(nodes, nodes[n := nodes[n][i := x]], info, info[n].level, p)
  {
    var nodes' := nodes[n := nodes[n][i := x]];
    forall m | 0 <= m < |nodes| && info[m].level < info[n].level && Below(info[m], p)
      ensures |nodes[m]| == L2_SIZE == |nodes'[m]| && nodes'[m] == nodes[m]
    {
      assert NodeOk(info, nodes[m], info[m]);
    }
  }

  /** Writing entry `i` of node `n` redirects exactly the pages below that entry. */
  lemma WriteEntry(nodes: seq<Node>, info: seq<Label>, n: nat, i: nat, x: Entry, p: nat)
    requires TreeOk(nodes, info) && n < |nodes| && i < L2_SIZE
    requires EntryOk(info, x, info[n].level, info[n].base + i * Step(info[n].level))
    requires Below(info[n], p)
    ensures |nodes[n]| == L2_SIZE
    ensures var nodes' := nodes[n := nodes[n][i := x]];
      var l := info[n];
      if l.base + i * Step(l.level) <= p < l.base + (i + 1) * Step(l.level) then
        Find(nodes', Entry(false, n), l.level + 1, p) == Find(nodes, x, l.level, p)
      else
        && Find(nodes', Entry(false, n), l.level + 1, p) == Find(nodes, Entry(false, n), l.level + 1, p)
        && Settable(nodes', Entry(false, n), l.level + 1, p) == Settable(nodes, Entry(false, n), l.level + 1, p)
  {
    var l := info[n];
    assert NodeOk(info, nodes[n], l);
    DigitCovers(l.base, l.level, p);
    if l.base + i * Step(l.level) <= p < l.base + (i + 1) * Step(l.level) {
      DigitIs(l.base, l.level, i, p);
      WriteInside(nodes, info, n, x, p);
    } else {
      WriteOutside(nodes, info, n, i, x, p);
    }
  }

  lemma WriteInside(nodes: seq<Node>, info: seq<Label>, n: nat, x: Entry, p: nat)
    requires TreeOk(nodes, info) && n < |nodes| && Below(info[n], p) && |nodes[n]| == L2_SIZE
    requires EntryOk(info, x, info[n].level, info[n].base + Digit(p, info[n].level) * Step(info[n].level))
    ensures Find(nodes[n := nodes[n][Digit(p, info[n].level) := x]], Entry(false, n), info[n].level + 1, p)
      == Find(nodes, x, info[n].level, p)
  {
    var l, d := info[n], Digit(p, info[n].level);
    assert NodeOk(info, nodes[n], l);
    EntryStart(l.base, l.level, d);
    DigitCovers(l.base, l.level, p);
    WriteAgrees(nodes, info, n, d, x, p);
    FindFrame(nodes, nodes[n := nodes[n][d := x]], info, x, l.level, l.base + d * Step(l.level), p);
  }

  lemma WriteOutside(nodes: seq<Node>, info: seq<Label>, n: nat, i: nat, x: Entry, p: nat)
    requires TreeOk(nodes, info) && n < |nodes| && Below(info[n], p) && |nodes[n]| == L2_SIZE
    requires i < L2_SIZE && i != Digit(p, info[n].level)
    ensures var nodes', h := nodes[n := nodes[n][i := x]], info[n].level + 1;
      && Find(nodes', Entry(false, n), h, p) == Find(nodes, Entry(false, n), h, p)
      && Settable(nodes', Entry(false, n), h, p) == Settable(nodes, Entry(false, n), h, p)
  {
    var l, d := info[n], Digit(p, info[n].level);
    assert NodeOk(info, nodes[n], l);
    EntryStart(l.base, l.level, d);
    DigitCovers(l.base, l.level, p);
    WriteAgrees(nodes, info, n, i, x, p);
    FindFrame(nodes, nodes[n := nodes[n][i := x]], info, nodes[n][d], l.level, l.base + d * Step(l.level), p);
  }

  // ----- the effect of one call -----

  /** How far a call that starts at `index` with `nb` pages gets below an entry. */
  function Reach(index: nat, nb: nat, base: nat, h: nat): nat {
    if index + nb <= base + Step(h) then index + nb else base + Step(h)
  }

  /** The new tree maps the pages in [from, to) to `leaf` and the others below the entry as before. */
  ghost predicate SetBelow(nodes: seq<Node>, e: Entry, nodes': seq<Node>, e': Entry, h: nat, base: nat, from: nat,
                           to: nat, leaf: nat) {
    forall p: nat :: base <= p < base + Step(h) ==>
      Find(nodes', e', h, p) == if from <= p < to then leaf else Find(nodes, e, h, p)
  }

  ghost predicate SettableOn(nodes: seq<Node>, e: Entry, h: nat, from: nat, to: nat) {
    forall p: nat :: from <= p < to ==> Settable(nodes, e, h, p)
  }

  /** Nothing is set below `e`. */
  ghost predicate Empty(nodes: seq<Node>, e: Entry, h: nat) {
    forall p: nat :: Find(nodes, e, h, p) == UNASSIGNED && Settable(nodes, e, h, p)
  }

  /** Nodes at or above level `h`, and all decisions outside [base, base + Step(h)), are kept;
      labels are never changed. */
  ghost predicate Kept(nodes: seq<Node>, info: seq<Label>, nodes': seq<Node>, info': seq<Label>, h: nat, base: nat) {
    && |nodes| == |info| <= |info'| == |nodes'| && info <= info'
    && (forall n :: 0 <= n < |nodes| && info[n].level >= h ==> nodes'[n] == nodes[n])
    && (forall p: nat, k: nat :: !(base <= p < base + Step(h)) ==> Agree(nodes, nodes', info, k, p))
  }

  /** The most nodes one call may allocate below an entry of height `h`: one per level along a
      range that touches an end of the entry, two per level otherwise. */
  function NodeBound(index: nat, nb: nat, base: nat, h: nat): nat {
    if h == 0 then 0
    else if index == base || index + nb >= base + Step(h) then h
    else 2 * h - 1
  }

  lemma KeptTrans(a: seq<Node>, ia: seq<Label>, b: seq<Node>, ib: seq<Label>, c: seq<Node>, ic: seq<Label>, h: nat,
                  base: nat)
    requires Kept(a, ia, b, ib, h, base) && Kept(b, ib, c, ic, h, base)
    ensures Kept(a, ia, c, ic, h, base)
  {
    forall p: nat, k: nat | !(base <= p < base + Step(h)) ensures Agree(a, c, ia, k, p) {
      assert Agree(a, b, ia, k, p) && Agree(b, c, ib, k, p);
    }
  }

  /** Putting an updated child `x` back into entry `i` of its node. */
  lemma ChildTreeOk(nodes: seq<Node>, info: seq<Label>, n: nat, i: nat, x: Entry)
    requires TreeOk(nodes, info) && n < |nodes| && i < L2_SIZE && |nodes[n]| == L2_SIZE
    requires EntryOk(info, x, info[n].level, info[n].base + i * Step(info[n].level))
    ensures TreeOk(nodes[n := nodes[n][i := x]], info)
  {
    var nodes' := nodes[n := nodes[n][i := x]];
    forall m | 0 <= m < |nodes'| ensures NodeOk(info, nodes'[m], info[m]) {
      assert NodeOk(info, nodes[m], info[m]);
    }
  }

  lemma ChildRange(l: Label, i: nat, p: nat)
    requires i < L2_SIZE && l.base + i * Step(l.level) <= p < l.base + (i + 1) * Step(l.level)
    ensures Below(l, p)
  {
    MulMono(i + 1, L2_SIZE, Step(l.level));
  }

  lemma ChildKept(nodes: seq<Node>, info: seq<Label>, nodes1: seq<Node>, info1: seq<Label>, n: nat, i: nat, x: Entry)
    requires TreeOk(nodes, info) && TreeOk(nodes1, info1) && n < |nodes| && i < L2_SIZE
    requires Kept(nodes, info, nodes1, info1, info[n].level, info[n].base + i * Step(info[n].level))
    requires |nodes1[n]| == L2_SIZE
    ensures Kept(nodes, info, nodes1[n := nodes1[n][i := x]], info1, info[n].level + 1, info[n].base)
  {
    var l := info[n];
    var nodes2 := nodes1[n := nodes1[n][i := x]];
    assert info1[n] == l;
    assert (i + 1) * Step(l.level) == i * Step(l.level) + Step(l.level);
    forall p: nat, k: nat | !(l.base <= p < l.base + Step(l.level + 1)) ensures Agree(nodes, nodes2, info, k, p) {
      if l.base + i * Step(l.level) <= p < l.base + (i + 1) * Step(l.level) { ChildRange(l, i, p); }
      assert Agree(nodes, nodes1, info, k, p);
    }
  }

  lemma ChildSet(nodes: seq<Node>, info: seq<Label>, nodes1: seq<Node>, info1: seq<Label>, n: nat, i: nat, x: Entry,
                 from: nat, to: nat, leaf: nat, p: nat)
    requires TreeOk(nodes, info) && TreeOk(nodes1, info1) && n < |nodes| && i < L2_SIZE && Below(info[n], p)
    requires var l := info[n];
      var cbase := l.base + i * Step(l.level);
      && Kept(nodes, info, nodes1, info1, l.level, cbase)
      && EntryOk(info1, x, l.level, cbase)
      && cbase <= from <= to <= cbase + Step(l.level)
      && |nodes[n]| == L2_SIZE == |nodes1[n]|
      && SetBelow(nodes, nodes[n][i], nodes1, x, l.level, cbase, from, to, leaf)
    ensures var nodes2 := nodes1[n := nodes1[n][i := x]];
      && Find(nodes2, Entry(false, n), info[n].level + 1, p)
        == (if from <= p < to then leaf else Find(nodes, Entry(false, n), info[n].level + 1, p))
      && (p >= info[n].base + (i + 1) * Step(info[n].level) ==>
        Settable(nodes2, Entry(false, n), info[n].level + 1, p)
          == Settable(nodes, Entry(false, n), info[n].level + 1, p))
  {
    var l := info[n];
    var cbase := l.base + i * Step(l.level);
    assert info1[n] == l && nodes1[n] == nodes[n];
    assert (i + 1) * Step(l.level) == i * Step(l.level) + Step(l.level);
    WriteEntry(nodes1, info1, n, i, x, p);
    if cbase <= p < cbase + Step(l.level) {
      DigitIs(l.base, l.level, i, p);
    } else {
      assert Agree(nodes, nodes1, info, l.level + 1, p);
      FindFrame(nodes, nodes1, info, Entry(false, n), l.level + 1, l.base, p);
    }
  }

  ghost predicate SameSettable(nodes: seq<Node>, nodes': seq<Node>, e: Entry, h: nat, from: nat, to: nat) {
    forall p: nat :: from <= p < to ==> Settable(nodes', e, h, p) == Settable(nodes, e, h, p)
  }

  /** Nodes allocated for one entry: none when the range covers it. */
  function EntryBound(index: nat, nb: nat, base: nat, h: nat): nat {
    if index == base && nb >= Step(h) then 0 else NodeBound(index, nb, base, h)
  }

  /** Entry boundaries are multiples of the step, and conversely. */
  lemma Boundary(l: Label, i: nat, index: nat)
    requires l.base % Step(l.level + 1) == 0 && i < L2_SIZE
    requires l.base + i * Step(l.level) <= index < l.base + (i + 1) * Step(l.level)
    ensures (l.base + i * Step(l.level)) % Step(l.level) == 0
    ensures index % Step(l.level) == 0 <==> index == l.base + i * Step(l.level)
  {
    var s := Step(l.level);
    var q := l.base / Step(l.level + 1);
    assert l.base == (L2_SIZE * s) * q;
    var m := L2_SIZE * q + i;
    assert l.base + i * s == m * s;
    assert index < (m + 1) * s;
    DivBounds(index, s, m);
    DivBounds(m * s, s, m);
    assert index == s * m + index % s;
    assert m * s == s * m + (m * s) % s;
  }

  lemma ChildSettable(nodes: seq<Node>, info: seq<Label>, n: nat, i: nat, from: nat, to: nat)
    requires TreeOk(nodes, info) && n < |nodes| && i < L2_SIZE && |nodes[n]| == L2_SIZE
    requires var l := info[n]; l.base + i * Step(l.level) <= from && to <= l.base + (i + 1) * Step(l.level)
    requires SettableOn(nodes, Entry(false, n), info[n].level + 1, from, to)
    ensures SettableOn(nodes, nodes[n][i], info[n].level, from, to)
  {
    var l := info[n];
    var h := l.level + 1;
    assert NodeOk(info, nodes[n], l);
    forall p: nat | from <= p < to ensures Settable(nodes, nodes[n][i], l.level, p) {
      assert Settable(nodes, Entry(false, n), h, p);
      DigitIs(l.base, l.level, i, p);
    }
  }

  /** All effects of one loop iteration, from the effect on the child entry. */
  lemma ChildDone(nodes: seq<Node>, info: seq<Label>, nodes1: seq<Node>, info1: seq<Label>, n: nat, i: nat, x: Entry,
                  from: nat, to: nat, leaf: nat)
    requires TreeOk(nodes, info) && TreeOk(nodes1, info1) && n < |nodes| && i < L2_SIZE
    requires var l := info[n];
      var cbase := l.base + i * Step(l.level);
      && Kept(nodes, info, nodes1, info1, l.level, cbase)
      && EntryOk(info1, x, l.level, cbase)
      && cbase <= from <= to <= cbase + Step(l.level)
      && |nodes[n]| == L2_SIZE == |nodes1[n]|
      && SetBelow(nodes, nodes[n][i], nodes1, x, l.level, cbase, from, to, leaf)
    ensures var l := info[n];
      var nodes2 := nodes1[n := nodes1[n][i := x]];
      && TreeOk(nodes2, info1)
      && Kept(nodes, info, nodes2, info1, l.level + 1, l.base)
      && SetBelow(nodes, Entry(false, n), nodes2, Entry(false, n), l.level + 1, l.base, from, to, leaf)
      && SameSettable(nodes, nodes2, Entry(false, n), l.level + 1,
                      l.base + (i + 1) * Step(l.level), l.base + Step(l.level + 1))
  {
    var l := info[n];
    var h := l.level + 1;
    var nodes2 := nodes1[n := nodes1[n][i := x]];
    ChildTreeOk(nodes1, info1, n, i, x);
    ChildKept(nodes, info, nodes1, info1, n, i, x);
    forall p: nat | l.base <= p < l.base + Step(h)
      ensures Find(nodes2, Entry(false, n), h, p) == if from <= p < to then leaf else Find(nodes, Entry(false, n), h, p)
      ensures p >= l.base + (i + 1) * Step(l.level) ==>
        Settable(nodes2, Entry(false, n), h, p) == Settable(nodes, Entry(false, n), h, p)
    {
      ChildSet(nodes, info, nodes1, info1, n, i, x, from, to, leaf, p);
    }
  }

  /** Taking the existing node, or a fresh one, changes no page. */
  lemma AfterNode(nodes: seq<Node>, info: seq<Label>, nodes': seq<Node>, info': seq<Label>, lp: Entry, n: nat, h: nat,
                  base: nat, index: nat, leaf: nat)
    requires h > 0 && TreeOk(nodes, info) && TreeOk(nodes', info') && EntryOk(info, lp, h, base) && !lp.isLeaf
    requires if lp.ptr == NODE_NIL
      then
        && n == |nodes| < |nodes'| && nodes'[..n] == nodes
        && info' == info + [Label(h - 1, base)] && Empty(nodes', Entry(false, n), h)
      else n == lp.ptr && nodes' == nodes && info' == info
    ensures n < |nodes'| && info'[n] == Label(h - 1, base)
    ensures Kept(nodes, info, nodes', info', h, base)
    ensures SetBelow(nodes, lp, nodes', Entry(false, n), h, base, index, index, leaf)
    ensures forall p: nat :: Settable(nodes, lp, h, p) ==> Settable(nodes', Entry(false, n), h, p)
  {
    assert forall m :: 0 <= m < |nodes| ==> nodes'[m] == nodes[m];
    forall p: nat, k: nat ensures Agree(nodes, nodes', info, k, p) {
      forall m | 0 <= m < |nodes| ensures |nodes[m]| == L2_SIZE {
        assert NodeOk(info, nodes[m], info[m]);
      }
    }
  }

  lemma NotLeaf(nodes: seq<Node>, e: Entry, h: nat, from: nat, to: nat)
    requires SettableOn(nodes, e, h, from, to) && from < to && h > 0
    ensures !e.isLeaf
  {
    assert Settable(nodes, e, h, from);
  }

  /** Nothing is set on the way to `b`, so what is set from there on is all. */
  lemma SetVia(a: seq<Node>, ia: seq<Label>, e: Entry, b: seq<Node>, ib: seq<Label>, e': Entry,
               c: seq<Node>, ic: seq<Label>, h: nat, base: nat, from: nat, to: nat, leaf: nat)
    requires Kept(a, ia, b, ib, h, base) && Kept(b, ib, c, ic, h, base)
    requires SetBelow(a, e, b, e', h, base, from, from, leaf) && SetBelow(b, e', c, e', h, base, from, to, leaf)
    ensures Kept(a, ia, c, ic, h, base) && SetBelow(a, e, c, e', h, base, from, to, leaf)
  {
    KeptTrans(a, ia, b, ib, c, ic, h, base);
  }

  lemma EntryStart(base: nat, level: nat, i: nat)
    requires i < L2_SIZE
    ensures base + (i + 1) * Step(level) == base + i * Step(level) + Step(level) <= base + Step(level + 1)
  {
    MulMono(i + 1, L2_SIZE, Step(level));
  }

  lemma LoopStep(a: seq<Node>, ia: seq<Label>, b: seq<Node>, ib: seq<Label>, c: seq<Node>, ic: seq<Label>, lp: Entry,
                 h: nat, base: nat, from: nat, mid: nat, to: nat, end: nat, leaf: nat, next: nat, nb: nat)
    requires from <= mid <= to && (nb != 0 ==> to == next) && end <= base + Step(h)
    requires Kept(a, ia, b, ib, h, base) && Kept(b, ib, c, ic, h, base)
    requires SetBelow(a, lp, b, lp, h, base, from, mid, leaf) && SetBelow(b, lp, c, lp, h, base, mid, to, leaf)
    requires SettableOn(b, lp, h, mid, end) && SameSettable(b, c, lp, h, next, base + Step(h))
    ensures Kept(a, ia, c, ic, h, base)
    ensures SetBelow(a, lp, c, lp, h, base, from, to, leaf)
    ensures nb != 0 ==> SettableOn(c, lp, h, to, end)
  {
    KeptTrans(a, ia, b, ib, c, ic, h, base);
  }

  // ----- the arithmetic of the loop -----

  /** The loop is about to look at entry `i`; it started at entry `i0`. */
  ghost predicate Progress(base: nat, level: nat, index0: nat, nb0: nat, i0: nat, i: nat, index: nat) {
    && i0 <= i <= L2_SIZE && i0 < L2_SIZE
    && base + i0 * Step(level) <= index0 < base + (i0 + 1) * Step(level)
    && (if i == i0 then index == index0 else index == Reach(index0, nb0, base + (i - 1) * Step(level), level))
    && index0 <= index <= index0 + nb0
  }

  lemma ProgressStep(base: nat, level: nat, index0: nat, nb0: nat, i0: nat, i: nat, index: nat, nb: nat)
    requires Progress(base, level, index0, nb0, i0, i, index) && i < L2_SIZE
    requires index + nb == index0 + nb0 && nb > 0
    ensures base + i * Step(level) <= index < base + (i + 1) * Step(level)
    ensures i > i0 ==> index == base + i * Step(level)
    ensures base + (i + 1) * Step(level) <= base + Step(level + 1)
    ensures Progress(base, level, index0, nb0, i0, i + 1, Reach(index, nb, base + i * Step(level), level))
    ensures Reach(index, nb, base + i * Step(level), level) <= Reach(index0, nb0, base, level + 1)
  {
    EntryStart(base, level, i);
    if i > i0 {
      EntryStart(base, level, i - 1);
      MulMono(i0 + 1, i, Step(level));
    }
  }

  lemma ProgressEnd(base: nat, level: nat, index0: nat, nb0: nat, i0: nat, i: nat, index: nat)
    requires Progress(base, level, index0, nb0, i0, i, index)
    requires index == index0 + nb0 || i == L2_SIZE
    ensures index == Reach(index0, nb0, base, level + 1)
  {
    if i == L2_SIZE {
      EntryStart(base, level, i - 1);
    } else if i > i0 {
      EntryStart(base, level, i - 1);
    } else {
      EntryStart(base, level, i0);
    }
  }

  /** Nodes that may have been allocated while pages remain. */
  function SoFar(base: nat, level: nat, index0: nat, i0: nat, i: nat): nat {
    1 + if index0 != base + i0 * Step(level) && i > i0 then level else 0
  }

  lemma CountStep(base: nat, level: nat, index0: nat, nb0: nat, i0: nat, i: nat, index: nat, nb: nat)
    requires Progress(base, level, index0, nb0, i0, i, index) && i < L2_SIZE
    requires index + nb == index0 + nb0 && nb > 0
    ensures var cbase := base + i * Step(level);
      && SoFar(base, level, index0, i0, i) + EntryBound(index, nb, cbase, level)
          <= NodeBound(index0, nb0, base, level + 1)
      && (Reach(index, nb, cbase, level) < index0 + nb0 ==>
        SoFar(base, level, index0, i0, i) + EntryBound(index, nb, cbase, level)
          <= SoFar(base, level, index0, i0, i + 1))
  {
    ProgressStep(base, level, index0, nb0, i0, i, index, nb);
    EntryStart(base, level, i);
    if index0 == base {
      if i0 > 0 { MulMono(1, i0, Step(level)); }
    }
  }

  /** At most `bound` nodes are added; giving up means that all nodes are in use and another one was needed. */
  predicate Counted(ok: bool, before: nat, after: nat, bound: int) {
    if ok then after <= before + bound else after == NODE_NIL < before + bound
  }

  class PhysMap {
    const levels: nat
    var root: Entry
    var nodes: seq<Node>
    var capacity: nat
    ghost var info: seq<Label>

    ghost predicate Valid()
      reads this
    {
      levels > 0 && TreeOk(nodes, info) && EntryOk(info, root, levels, 0) && |nodes| <= capacity
    }

    constructor (levels: nat)
      requires levels > 0
      ensures Valid() && this.levels == levels && nodes == [] && root == Entry(false, NODE_NIL)
      ensures forall p: nat :: Map(p) == UNASSIGNED
    {
      this.levels := levels;
      root := Entry(false, NODE_NIL);
      nodes := [];
      capacity := 0;
      info := [];
    }

    /** phys_map_node_reserve */
    method Reserve(count: nat)
      modifies this`capacity
      requires |nodes| <= capacity
      ensures |nodes| + count <= capacity && old(capacity) <= capacity
      ensures if |nodes| + count <= old(capacity) then capacity == old(capacity)
        else capacity >= 16 && capacity >= 2 * old(capacity) && capacity in {16, 2 * old(capacity), |nodes| + count}
    {
      if |nodes| + count > capacity {
        capacity := if capacity * 2 >= 16 then capacity * 2 else 16;
        capacity := if capacity >= |nodes| + count then capacity else |nodes| + count;
      }
    }

    /** phys_map_node_alloc, followed by the filling of a bottom-level node with leaves.  The source aborts when
        the next number is the one that stands for no node. */
    method NodeAlloc(level: nat, ghost base: nat) returns (ok: bool, ret: nat)
      requires TreeOk(nodes, info) && |nodes| < capacity && |nodes| <= NODE_NIL
      requires base % Step(level + 1) == 0
      modifies this`nodes, this`info
      ensures ok <==> old(|nodes|) < NODE_NIL
      ensures !ok ==> |nodes| == NODE_NIL == old(|nodes|)
      ensures ok ==> TreeOk(nodes, info) && ret == |old(nodes)| && |nodes| == ret + 1
      ensures ok ==> nodes[..ret] == old(nodes) && info == old(info) + [Label(level, base)]
      ensures ok ==> Empty(nodes, Entry(false, ret), level + 1)
    {
      ok, ret := |nodes| != NODE_NIL, |nodes|;
      if !ok {
        return;
      }
      var fill := if level == 0 then Entry(true, UNASSIGNED) else Entry(false, NODE_NIL);
      var node := seq(L2_SIZE, i => fill);
      ghost var nodes0, info0 := nodes, info;
      nodes := nodes + [node];
      info := info + [Label(level, base)];
      forall n | 0 <= n < |nodes| ensures NodeOk(info, nodes[n], info[n]) {
        if n < ret {
          assert nodes[n] == nodes0[n] && NodeOk(info0, nodes0[n], info0[n]);
        }
      }
      var h := level + 1;
      forall p: nat
        ensures Find(nodes, Entry(false, ret), h, p) == UNASSIGNED && Settable(nodes, Entry(false, ret), h, p)
      {
        assert nodes[ret][Digit(p, level)] == fill;
        assert Find(nodes, fill, level, p) == UNASSIGNED && Settable(nodes, fill, level, p);
      }
    }

    /** One iteration of the loop in phys_page_set_level: entry `i` of node `n`. */
    method SetEntry(n: nat, i: nat, index0: nat, nb0: nat, leaf: nat, level: nat, ghost base: nat)
      returns (ok: bool, index: nat, nb: nat)
      requires TreeOk(nodes, info) && n < |nodes| && info[n] == Label(level, base) && i < L2_SIZE && nb0 > 0
      requires leaf != UNASSIGNED
      requires base + i * Step(level) <= index0 < base + (i + 1) * Step(level)
      requires SettableOn(nodes, Entry(false, n), level + 1, index0, Reach(index0, nb0, base + i * Step(level), level))
      requires |nodes| + EntryBound(index0, nb0, base + i * Step(level), level) <= capacity
      modifies this`nodes, this`info
      ensures ok ==> index == Reach(index0, nb0, base + i * Step(level), level) && nb == nb0 - (index - index0)
      ensures ok ==> TreeOk(nodes, info)
      ensures ok ==>
        SetBelow(old(nodes), Entry(false, n), nodes, Entry(false, n), level + 1, base, index0, index, leaf)
      ensures ok ==> SameSettable(old(nodes), nodes, Entry(false, n), level + 1,
                                  base + (i + 1) * Step(level), base + Step(level + 1))
      ensures ok ==> Kept(old(nodes), old(info), nodes, info, level + 1, base)
      ensures Counted(ok, old(|nodes|), |nodes|, EntryBound(index0, nb0, base + i * Step(level), level))
      decreases level, 0
    {
      ghost var cbase := base + i * Step(level);
      ghost var nodes0, info0 := nodes, info;
      assert NodeOk(info, nodes[n], info[n]);
      assert (i + 1) * Step(level) == i * Step(level) + Step(level);
      Boundary(info[n], i, index0);
      var x;
      ok := true;
      if index0 % Step(level) == 0 && nb0 >= Step(level) {
        x := Entry(true, leaf);
        index, nb := index0 + Step(level), nb0 - Step(level);
      } else {
        ChildSettable(nodes, info, n, i, index0, Reach(index0, nb0, cbase, level));
        ok, x, index, nb := SetLevel(nodes[n][i], index0, nb0, leaf, level - 1, cbase);
        if !ok {
          return;
        }
      }
      assert NodeOk(info, nodes[n], info[n]);
      ChildDone(nodes0, info0, nodes, info, n, i, x, index0, index, leaf);
      nodes := nodes[n := nodes[n][i := x]];
    }

    /** The node below `lp`, allocated if need be. */
    method EnsureNode(lp: Entry, level: nat, ghost base: nat, ghost index: nat, ghost to: nat, ghost leaf: nat)
      returns (ok: bool, n: nat)
      requires TreeOk(nodes, info) && EntryOk(info, lp, level + 1, base) && base % Step(level + 1) == 0
      requires |nodes| < capacity && index < to
      requires SettableOn(nodes, lp, level + 1, index, to)
      modifies this`nodes, this`info
      ensures Counted(ok, old(|nodes|), |nodes|, 1)
      ensures ok ==> TreeOk(nodes, info) && n < |nodes| && info[n] == Label(level, base)
      ensures ok ==> Kept(old(nodes), old(info), nodes, info, level + 1, base)
      ensures ok ==> SetBelow(old(nodes), lp, nodes, Entry(false, n), level + 1, base, index, index, leaf)
      ensures ok ==> SettableOn(nodes, Entry(false, n), level + 1, index, to)
    {
      NotLeaf(nodes, lp, level + 1, index, to);
      ghost var nodes0, info0 := nodes, info;
      if lp.ptr == NODE_NIL {
        ok, n := NodeAlloc(level, base);
        if !ok {
          return;
        }
      } else {
        ok, n := true, lp.ptr;
      }
      AfterNode(nodes0, info0, nodes, info, lp, n, level + 1, base, index, leaf);
    }

    /** phys_page_set_level */
    method SetLevel(lp: Entry, index0: nat, nb0: nat, leaf: nat, level: nat, ghost base: nat)
      returns (ok: bool, lp': Entry, index: nat, nb: nat)
      requires TreeOk(nodes, info) && EntryOk(info, lp, level + 1, base) && base % Step(level + 1) == 0 && nb0 > 0
      requires leaf != UNASSIGNED
      requires base <= index0 < base + Step(level + 1)
      requires SettableOn(nodes, lp, level + 1, index0, Reach(index0, nb0, base, level + 1))
      requires |nodes| + NodeBound(index0, nb0, base, level + 1) <= capacity
      modifies this`nodes, this`info
      ensures ok ==> index == Reach(index0, nb0, base, level + 1) && nb == nb0 - (index - index0)
      ensures ok ==> TreeOk(nodes, info) && EntryOk(info, lp', level + 1, base) && !lp'.isLeaf
      ensures ok ==> SetBelow(old(nodes), lp, nodes, lp', level + 1, base, index0, index, leaf)
      ensures ok ==> Kept(old(nodes), old(info), nodes, info, level + 1, base)
      ensures Counted(ok, old(|nodes|), |nodes|, NodeBound(index0, nb0, base, level + 1))
      decreases level, 3
    {
      ghost var nodes0, info0 := nodes, info;
      ghost var h := level + 1;
      ghost var to := Reach(index0, nb0, base, h);
      var n;
      ok, n := EnsureNode(lp, level, base, index0, to, leaf);
      if !ok {
        return false, lp, index0, nb0;
      }
      ghost var nodes1, info1 := nodes, info;
      lp' := Entry(false, n);
      ok, index, nb := SetEntries(n, index0, nb0, leaf, level, base);
      if !ok {
        return;
      }
      SetVia(nodes0, info0, lp, nodes1, info1, lp', nodes, info, h, base, index0, index, leaf);
    }

    /** The loop of phys_page_set_level has dealt with the entries before `i`. */
    ghost predicate EntriesDone(nodes0: seq<Node>, info0: seq<Label>, n: nat, leaf: nat, level: nat, base: nat,
                                index0: nat, nb0: nat, i0: nat, i: nat, index: nat, nb: nat)
      reads this
    {
      var h, lp := level + 1, Entry(false, n);
      && i <= L2_SIZE && index + nb == index0 + nb0 && Progress(base, level, index0, nb0, i0, i, index)
      && TreeOk(nodes, info) && n < |nodes| && info[n] == Label(level, base)
      && Kept(nodes0, info0, nodes, info, h, base)
      && SetBelow(nodes0, lp, nodes, lp, h, base, index0, index, leaf)
      && (nb != 0 ==> SettableOn(nodes, lp, h, index, Reach(index0, nb0, base, h)))
      && (nb != 0 ==> |nodes| < |nodes0| + SoFar(base, level, index0, i0, i))
      && |nodes| < |nodes0| + NodeBound(index0, nb0, base, h)
    }

    /** One turn of that loop. */
    method NextEntry(n: nat, leaf: nat, level: nat, i: nat, index: nat, nb: nat, ghost base: nat,
                     ghost nodes0: seq<Node>, ghost info0: seq<Label>, ghost index0: nat, ghost nb0: nat, ghost i0: nat)
      returns (ok: bool, index': nat, nb': nat)
      requires leaf != UNASSIGNED && nb > 0 && i < L2_SIZE
      requires EntriesDone(nodes0, info0, n, leaf, level, base, index0, nb0, i0, i, index, nb)
      requires |nodes0| + NodeBound(index0, nb0, base, level + 1) <= capacity + 1
      modifies this`nodes, this`info
      ensures ok ==> EntriesDone(nodes0, info0, n, leaf, level, base, index0, nb0, i0, i + 1, index', nb')
      ensures !ok ==> |nodes| == NODE_NIL < |nodes0| + NodeBound(index0, nb0, base, level + 1) - 1
      decreases level, 1
    {
      ghost var h, lp := level + 1, Entry(false, n);
      ProgressStep(base, level, index0, nb0, i0, i, index, nb);
      CountStep(base, level, index0, nb0, i0, i, index, nb);
      ghost var nodes1, info1 := nodes, info;
      ok, index', nb' := SetEntry(n, i, index, nb, leaf, level, base);
      if !ok {
        return;
      }
      LoopStep(nodes0, info0, nodes1, info1, nodes, info, lp, h, base, index0,
               index, index', Reach(index0, nb0, base, h), leaf, base + (i + 1) * Step(level), nb');
    }

    /** The loop of phys_page_set_level over the entries of node `n`. */
    method SetEntries(n: nat, index0: nat, nb0: nat, leaf: nat, level: nat, ghost base: nat)
      returns (ok: bool, index: nat, nb: nat)
      requires TreeOk(nodes, info) && n < |nodes| && info[n] == Label(level, base) && nb0 > 0 && leaf != UNASSIGNED
      requires base <= index0 < base + Step(level + 1)
      requires SettableOn(nodes, Entry(false, n), level + 1, index0, Reach(index0, nb0, base, level + 1))
      requires |nodes| + NodeBound(index0, nb0, base, level + 1) <= capacity + 1
      modifies this`nodes, this`info
      ensures ok ==> index == Reach(index0, nb0, base, level + 1) && nb == nb0 - (index - index0)
      ensures ok ==> TreeOk(nodes, info) && n < |nodes| && info[n] == Label(level, base)
      ensures ok ==>
        SetBelow(old(nodes), Entry(false, n), nodes, Entry(false, n), level + 1, base, index0, index, leaf)
      ensures ok ==> Kept(old(nodes), old(info), nodes, info, level + 1, base)
      ensures Counted(ok, old(|nodes|), |nodes|, NodeBound(index0, nb0, base, level + 1) - 1)
      decreases level, 2
    {
      ghost var nodes0, info0 := nodes, info;
      assert NodeOk(info, nodes[n], info[n]);
      ok, index, nb := true, index0, nb0;
      var i: nat := Digit(index0, level);
      DigitCovers(base, level, index0);
      ghost var i0 := i;
      while nb != 0 && i < L2_SIZE
        invariant EntriesDone(nodes0, info0, n, leaf, level, base, index0, nb0, i0, i, index, nb)
      {
        ok, index, nb := NextEntry(n, leaf, level, i, index, nb, base, nodes0, info0, index0, nb0, i0);
        if !ok {
          return;
        }
        i := i + 1;
      }
      ProgressEnd(base, level, index0, nb0, i0, i, index);
    }

    /** The section of a page. */
    ghost function Map(p: nat): nat
      reads this
    {
      Find(nodes, root, levels, p)
    }

    /** phys_page_set: a point update of the page map.  At most 2 * levels - 1 nodes are
        allocated, so the 3 * levels reserved up front are enough and the node array does not
        move while the recursion holds pointers into it.  It gives up only when there is no node left. */
    method PageSet(index: nat, nb: nat, leaf: nat) returns (ok: bool)
      requires Valid() && nb > 0 && index + nb <= Step(levels) && leaf != UNASSIGNED
      requires SettableOn(nodes, root, levels, index, index + nb)
      modifies this
      ensures ok ==> Valid()
      ensures ok ==>
        forall p: nat :: p < Step(levels) ==> Map(p) == if index <= p < index + nb then leaf else old(Map(p))
      ensures Counted(ok, old(|nodes|), |nodes|, 2 * levels - 1)
    {
      Reserve(3 * levels);
      ghost var nodes0, root0 := nodes, root;
      var lp, i, n;
      ok, lp, i, n := SetLevel(root, index, nb, leaf, levels - 1, 0);
      if !ok {
        return;
      }
      assert SetBelow(nodes0, root0, nodes, lp, levels, 0, index, index + nb, leaf);
      root := lp;
    }

    lemma FreeIsSettable(from: nat, to: nat)
      requires Valid() && to <= Step(levels)
      requires forall p: nat :: from <= p < to ==> Map(p) == UNASSIGNED
      ensures SettableOn(nodes, root, levels, from, to)
    {
      forall p: nat | from <= p < to ensures Settable(nodes, root, levels, p) {
        assert Map(p) == UNASSIGNED;
        UnassignedSettable(nodes, info, root, levels, 0, p);
      }
    }

    /** phys_page_find: the loop walks down one entry per level. */
    method PageFind(index: nat) returns (section: nat)
      requires Valid() && index < Step(levels)
      ensures section == Map(index)
    {
      var lp := root;
      var i := levels;
      ghost var base: nat := 0;
      while i > 0 && !lp.isLeaf
        invariant 0 <= i <= levels
        invariant EntryOk(info, lp, i, base) && base <= index < base + Step(i)
        invariant Find(nodes, lp, i, index) == Map(index)
      {
        if lp.ptr == NODE_NIL {
          return UNASSIGNED;
        }
        Descend(nodes, info, lp, i, base, index);
        base := base + Digit(index, i - 1) * Step(i - 1);
        lp := nodes[lp.ptr][Digit(index, i - 1)];
        i := i - 1;
      }
      section := lp.ptr;
    }

    /** destroy_all_mappings and mem_begin: forget every page. */
    method Reset()
      requires Valid()
      modifies this
      ensures Valid() && root == Entry(false, NODE_NIL) && nodes == []
      ensures forall p: nat :: Map(p) == UNASSIGNED
    {
      nodes, info := [], [];
      root := Entry(false, NODE_NIL);
    }
  }
}
