/** Trees laid out in the node pool, and what such a pool looks like. */
module GkPool {
  import opened GkSyntax

  /** Operator nodes are allocated after their operands, every other node before its children. */
  predicate After(t: Tree) {
    t.kind == NBinop || t.kind == NUnop
  }

  /** The index of the root of t when its nodes start at lo. */
  function Root(t: Tree, lo: nat): (i: nat)
    ensures lo <= i < lo + Size(t)
  {
    if After(t) then lo + Sizes(t.children) else lo
  }

  function Roots(ts: seq<Tree>, lo: nat): (ids: seq<nat>)
    ensures |ids| == |ts|
  {
    if ts == [] then [] else [Root(ts[0], lo)] + Roots(ts[1..], lo + Size(ts[0]))
  }

  function NodeOf(t: Tree, children: seq<nat>): Node {
    Node(t.kind, t.intVal, t.text, t.op, children)
  }

  /** The nodes of t, in the order the parser allocates them. */
  function Layout(t: Tree, lo: nat): (ns: seq<Node>)
    ensures |ns| == Size(t)
  {
    if After(t) then Layouts(t.children, lo) + [NodeOf(t, Roots(t.children, lo))]
    else [NodeOf(t, Roots(t.children, lo + 1))] + Layouts(t.children, lo + 1)
  }

  function Layouts(ts: seq<Tree>, lo: nat): (ns: seq<Node>)
    ensures |ns| == Sizes(ts)
  {
    if ts == [] then [] else Layout(ts[0], lo) + Layouts(ts[1..], lo + Size(ts[0]))
  }

  lemma {:induction false} LayoutsSnoc(ts: seq<Tree>, t: Tree, lo: nat)
    ensures Layouts(ts + [t], lo) == Layouts(ts, lo) + Layout(t, lo + Sizes(ts))
    ensures Roots(ts + [t], lo) == Roots(ts, lo) + [Root(t, lo + Sizes(ts))]
  {
    hide Layout, Root, Size;
    if ts == [] {
      assert ts + [t] == [t] && [t][1..] == [];
    } else {
      assert (ts + [t])[1..] == ts[1..] + [t];
      LayoutsSnoc(ts[1..], t, lo + Size(ts[0]));
    }
  }

  // ----- how the parser's steps build a layout -----

  lemma LayoutLeaf(t: Tree, lo: nat)
    requires t.children == []
    ensures Layout(t, lo) == [NodeOf(t, [])] && Root(t, lo) == lo && Size(t) == 1
  {
  }

  /** An operator node goes after its operands. */
  lemma LayoutBinop(op: Kind, l: Tree, r: Tree, lo: nat)
    ensures Layout(Binop(op, l, r), lo) == Layout(l, lo) + Layout(r, lo + Size(l))
                                          + [NodeOf(Binop(op, l, r), [Root(l, lo), Root(r, lo + Size(l))])]
    ensures Root(Binop(op, l, r), lo) == lo + Size(l) + Size(r)
    ensures Size(Binop(op, l, r)) == 1 + Size(l) + Size(r)
  {
    LayoutPair(l, r, lo);
  }

  lemma LayoutUnop(op: Kind, e: Tree, lo: nat)
    ensures Layout(Unop(op, e), lo) == Layout(e, lo) + [NodeOf(Unop(op, e), [Root(e, lo)])]
    ensures Root(Unop(op, e), lo) == lo + Size(e) && Size(Unop(op, e)) == 1 + Size(e)
  {
    hide Layout;
    LayoutOne(e, lo);
    UnopForm(op, e, lo);
  }

  lemma UnopForm(op: Kind, e: Tree, lo: nat)
    ensures Layout(Unop(op, e), lo) == Layouts([e], lo) + [NodeOf(Unop(op, e), Roots([e], lo))]
  {
    hide Layouts, Roots, Sizes;
  }

  lemma LayoutOne(e: Tree, lo: nat)
    ensures Layouts([e], lo) == Layout(e, lo) && Roots([e], lo) == [Root(e, lo)] && Sizes([e]) == Size(e)
  {
    hide Layout, Root, Size;
    assert [e][1..] == [];
  }

  lemma LayoutPair(l: Tree, r: Tree, lo: nat)
    ensures Layouts([l, r], lo) == Layout(l, lo) + Layout(r, lo + Size(l)) && Sizes([l, r]) == Size(l) + Size(r)
    ensures Roots([l, r], lo) == [Root(l, lo), Root(r, lo + Size(l))]
  {
    hide Layout, Root, Size;
    LayoutOne(r, lo + Size(l));
    assert [l, r][1..] == [r];
  }

  /** Storing the children of a node that was allocated before them. */
  lemma StoreChildren(before: seq<Node>, t: Tree, ts: seq<Tree>, us: seq<Tree>)
    requires !After(t)
    ensures var lo := |before|;
            var pool := before + [NodeOf(t, Roots(ts, lo + 1))] + Layouts(us, lo + 1);
            pool[lo := pool[lo].(children := Roots(us, lo + 1))] == before + Layout(t.(children := us), lo)
  {
    hide Layouts, Roots, Sizes;
  }

  /** Appending one more child. */
  lemma AddChild(before: seq<Node>, t: Tree, c: Tree)
    requires !After(t)
    ensures var lo, at := |before|, |before| + Size(t);
            var pool := before + Layout(t, lo) + Layout(c, at);
            pool[lo := pool[lo].(children := pool[lo].children + [Root(c, at)])]
            == before + Layout(t.(children := t.children + [c]), lo)
    ensures (before + Layout(t, |before|))[|before|].children == Roots(t.children, |before| + 1)
    ensures Size(t.(children := t.children + [c])) == Size(t) + Size(c)
  {
    hide Layouts, Roots, Sizes;
    var lo := |before|;
    var us := t.children + [c];
    LayoutsSnoc(t.children, c, lo + 1);
    SizesSnoc(t.children, c);
    StoreChildren(before, t, t.children, us);
    assert before + Layout(t, lo) + Layout(c, lo + Size(t))
        == before + [NodeOf(t, Roots(t.children, lo + 1))] + Layouts(us, lo + 1);
  }

  /** Storing both children of a node at once. */
  lemma StorePair(before: seq<Node>, t: Tree, a: Tree, b: Tree)
    requires !After(t) && t.children == []
    ensures var lo := |before|;
            var pool := before + Layout(t, lo) + Layout(a, lo + 1) + Layout(b, lo + 1 + Size(a));
            pool[lo := pool[lo].(children := [Root(a, lo + 1), Root(b, lo + 1 + Size(a))])]
            == before + Layout(t.(children := [a, b]), lo)
    ensures Size(t.(children := [a, b])) == 1 + Size(a) + Size(b)
  {
    hide Layouts, Roots, Sizes, Layout;
    var lo := |before|;
    LayoutPair(a, b, lo + 1);
    LayoutLeaf(t, lo);
    StoreChildren(before, t, [], [a, b]);
    RootsNone(lo + 1);
    assert before + Layout(t, lo) + Layout(a, lo + 1) + Layout(b, lo + 1 + Size(a))
        == before + [NodeOf(t, [])] + Layouts([a, b], lo + 1);
  }

  /** Storing the only child of a node. */
  lemma StoreOne(before: seq<Node>, t: Tree, a: Tree)
    requires !After(t) && t.children == []
    ensures var lo := |before|;
            var pool := before + Layout(t, lo) + Layout(a, lo + 1);
            pool[lo := pool[lo].(children := [Root(a, lo + 1)])] == before + Layout(t.(children := [a]), lo)
    ensures Size(t.(children := [a])) == 1 + Size(a)
  {
    hide Layouts, Roots, Sizes, Layout;
    var lo := |before|;
    LayoutOne(a, lo + 1);
    LayoutLeaf(t, lo);
    StoreChildren(before, t, [], [a]);
    RootsNone(lo + 1);
  }

  lemma RootsNone(lo: nat)
    ensures Roots([], lo) == []
  {
  }

  // ----- the pool holds a finite tree -----

  /** Following the indices from i unfolds to exactly t. */
  predicate Represents(pool: seq<Node>, i: nat, t: Tree)
    decreases t
  {
    i < |pool| && pool[i] == NodeOf(t, pool[i].children) && AllRepresent(pool, pool[i].children, t.children)
  }

  predicate AllRepresent(pool: seq<Node>, ids: seq<nat>, ts: seq<Tree>)
    decreases ts
  {
    |ids| == |ts| && (ts == [] || (Represents(pool, ids[0], ts[0]) && AllRepresent(pool, ids[1..], ts[1..])))
  }

  /** ns stands in the pool at lo. */
  predicate Holds(pool: seq<Node>, lo: nat, ns: seq<Node>) {
    lo + |ns| <= |pool| && pool[lo..lo + |ns|] == ns
  }

  lemma HoldsSplit(pool: seq<Node>, lo: nat, a: seq<Node>, b: seq<Node>)
    requires Holds(pool, lo, a + b)
    ensures Holds(pool, lo, a) && Holds(pool, lo + |a|, b)
  {
    var s := pool[lo..lo + |a + b|];
    assert s[..|a|] == a && s[|a|..] == b;
    assert pool[lo..lo + |a|] == s[..|a|] && pool[lo + |a|..lo + |a| + |b|] == s[|a|..];
  }

  lemma {:induction false} LayoutRepresents(pool: seq<Node>, lo: nat, t: Tree)
    requires Holds(pool, lo, Layout(t, lo))
    ensures Represents(pool, Root(t, lo), t)
    decreases t, 1
  {
    hide Roots, Layouts, AllRepresent, Sizes, Holds;
    var ts := t.children;
    var from := if After(t) then lo else lo + 1;
    var node := [NodeOf(t, Roots(ts, from))];
    if After(t) {
      HoldsSplit(pool, lo, Layouts(ts, lo), node);
    } else {
      HoldsSplit(pool, lo, node, Layouts(ts, lo + 1));
    }
    HoldsOne(pool, Root(t, lo), node[0]);
    LayoutsRepresent(pool, from, ts);
  }

  lemma HoldsOne(pool: seq<Node>, i: nat, n: Node)
    requires Holds(pool, i, [n])
    ensures i < |pool| && pool[i] == n
  {
    assert pool[i..i + 1][0] == n;
  }

  lemma {:induction false} LayoutsRepresent(pool: seq<Node>, lo: nat, ts: seq<Tree>)
    requires Holds(pool, lo, Layouts(ts, lo))
    ensures AllRepresent(pool, Roots(ts, lo), ts)
    decreases ts, 0
  {
    hide Layout, Represents, Root, Size, Holds;
    if ts != [] {
      HoldsSplit(pool, lo, Layout(ts[0], lo), Layouts(ts[1..], lo + Size(ts[0])));
      LayoutRepresents(pool, lo, ts[0]);
      LayoutsRepresent(pool, lo + Size(ts[0]), ts[1..]);
      assert Roots(ts, lo)[1..] == Roots(ts[1..], lo + Size(ts[0]));
    }
  }

  /** A pool index stands for one tree at most. */
  lemma {:induction false} RepresentsOne(pool: seq<Node>, i: nat, t: Tree, u: Tree)
    requires Represents(pool, i, t) && Represents(pool, i, u)
    ensures t == u
    decreases t, 1
  {
    hide AllRepresent;
    AllRepresentOne(pool, pool[i].children, t.children, u.children);
  }

  lemma {:induction false} AllRepresentOne(pool: seq<Node>, ids: seq<nat>, ts: seq<Tree>, us: seq<Tree>)
    requires AllRepresent(pool, ids, ts) && AllRepresent(pool, ids, us)
    ensures ts == us
    decreases ts, 0
  {
    hide Represents;
    if ts != [] {
      RepresentsOne(pool, ids[0], ts[0], us[0]);
      AllRepresentOne(pool, ids[1..], ts[1..], us[1..]);
      assert ts == [ts[0]] + ts[1..] && us == [us[0]] + us[1..];
    }
  }

  // ----- no sharing -----

  /** All the child indices in some nodes. */
  function Kids(ns: seq<Node>): multiset<nat> {
    if ns == [] then multiset{} else multiset(ns[0].children) + Kids(ns[1..])
  }

  /** The indices from lo up to hi, each once. */
  function Range(lo: nat, hi: nat): (m: multiset<nat>)
    requires lo <= hi
    ensures forall i: nat :: m[i] == if lo <= i < hi then 1 else 0
    decreases hi - lo
  {
    if lo == hi then multiset{} else multiset{lo} + Range(lo + 1, hi)
  }

  lemma RangeSplit(lo: nat, mid: nat, hi: nat)
    requires lo <= mid <= hi
    ensures Range(lo, hi) == Range(lo, mid) + Range(mid, hi)
  {
  }

  lemma {:induction false} KidsAppend(a: seq<Node>, b: seq<Node>)
    ensures Kids(a + b) == Kids(a) + Kids(b)
  {
    if a == [] {
      assert a + b == b;
    } else {
      assert (a + b)[1..] == a[1..] + b;
      KidsAppend(a[1..], b);
    }
  }

  lemma KidsOne(n: Node)
    ensures Kids([n]) == multiset(n.children)
  {
    assert [n][1..] == [];
  }

  /** Every index of the tree's stretch of the pool is the root or the child of exactly one node, exactly once. */
  lemma {:induction false} EachIndexOnce(t: Tree, lo: nat)
    ensures Kids(Layout(t, lo)) + multiset{Root(t, lo)} == Range(lo, lo + Size(t))
    decreases t, 1
  {
    hide Roots, Layouts, Sizes, Kids, Range;
    var ts := t.children;
    var from := if After(t) then lo else lo + 1;
    var node := NodeOf(t, Roots(ts, from));
    KidsOne(node);
    EachOfAll(ts, from);
    RangeSplit(lo, Root(t, lo), lo + Size(t));
    if After(t) {
      KidsAppend(Layouts(ts, lo), [node]);
      RangeOne(Root(t, lo));
    } else {
      KidsAppend([node], Layouts(ts, lo + 1));
      RangeSplit(lo, lo + 1, lo + Size(t));
      RangeOne(lo);
    }
  }

  lemma RangeOne(lo: nat)
    ensures Range(lo, lo + 1) == multiset{lo}
  {
  }

  lemma {:induction false} EachOfAll(ts: seq<Tree>, lo: nat)
    ensures Kids(Layouts(ts, lo)) + multiset(Roots(ts, lo)) == Range(lo, lo + Sizes(ts))
    decreases ts, 0
  {
    hide Layout, Root, Size, Kids, Range, Layouts, Roots, Sizes;
    LayoutsForm(ts, lo);
    if ts == [] {
      KidsNone();
      RangeNone(lo);
    } else {
      var mid := lo + Size(ts[0]);
      KidsAppend(Layout(ts[0], lo), Layouts(ts[1..], mid));
      EachIndexOnce(ts[0], lo);
      EachOfAll(ts[1..], mid);
      RangeSplit(lo, mid, lo + Sizes(ts));
    }
  }

  lemma LayoutsForm(ts: seq<Tree>, lo: nat)
    ensures ts == [] ==> Layouts(ts, lo) == [] && Roots(ts, lo) == [] && Sizes(ts) == 0
    ensures ts != [] ==> Layouts(ts, lo) == Layout(ts[0], lo) + Layouts(ts[1..], lo + Size(ts[0]))
    ensures ts != [] ==> Roots(ts, lo) == [Root(ts[0], lo)] + Roots(ts[1..], lo + Size(ts[0]))
    ensures ts != [] ==> Sizes(ts) == Size(ts[0]) + Sizes(ts[1..])
  {
  }

  lemma KidsNone()
    ensures Kids([]) == multiset{}
  {
  }

  lemma RangeNone(lo: nat)
    ensures Range(lo, lo) == multiset{}
  {
  }
}
