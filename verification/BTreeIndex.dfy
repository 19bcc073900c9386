// The index object over the nodes: btree_insert, btree_search, btree_delete, btree_update and btree_range_scan,
// each tied to the value-level operation on the tree the nodes represent.
module BTreeIndex {
  import opened BTreeModel
  import opened BTreeHistory
  import opened BTree
  import opened Common

  // ---------------------------------------------------------------------------
  // The leaf a key belongs to
  // ---------------------------------------------------------------------------

  /** The leaf find_leaf reaches, as a value and as a node. */
  ghost function LeafOf(t: Tree, k: Key, h: nat, order: nat): (r: Tree)
    requires Shaped(t, h, order)
    ensures r.Leaf? && Shaped(r, 0, order)
    decreases t
  {
    if t.Leaf? then t else LeafOf(t.kids[ChildIndex(t.keys, k)], k, h - 1, order)
  }

  ghost function PutLeaf(t: Tree, k: Key, leaf: Tree, h: nat, order: nat): Tree
    requires Shaped(t, h, order)
    decreases t
  {
    if t.Leaf? then leaf else
      var i := ChildIndex(t.keys, k);
      Inner(t.keys, t.kids[i := PutLeaf(t.kids[i], k, leaf, h - 1, order)])
  }

  /** Search, delete and update act on that one leaf and leave the rest of the tree alone. */
  lemma {:induction false} ActsOnLeaf(t: Tree, k: Key, v: RecordPtr, h: nat, order: nat)
    requires Shaped(t, h, order)
    ensures var leaf := LeafOf(t, k, h, order);
            && Lookup(t, k, h, order) == Lookup(leaf, k, 0, order)
            && Delete(t, k, h, order) == PutLeaf(t, k, Delete(leaf, k, 0, order), h, order)
            && Update(t, k, v, h, order) == PutLeaf(t, k, Update(leaf, k, v, 0, order), h, order)
    decreases t
  {
    if t.Inner? {
      ActsOnLeaf(t.kids[ChildIndex(t.keys, k)], k, v, h - 1, order);
    }
  }

  /** Shape `s` has the outline of tree `t`. */
  ghost predicate Matches(s: Shape, t: Tree)
    decreases s
  {
    match s
    case LeafS(_) => t.Leaf?
    case InnerS(_, kids) => t.Inner? && |kids| == |t.kids| && forall i :: 0 <= i < |kids| ==> Matches(kids[i], t.kids[i])
  }

  lemma {:induction false} RepMatches(s: Shape, t: Tree, order: nat)
    requires Rep(s, t, order)
    ensures Matches(s, t)
    decreases s
  {
    if s.InnerS? {
      forall i | 0 <= i < |s.kids| ensures Matches(s.kids[i], t.kids[i]) {
        RepMatches(s.kids[i], t.kids[i], order);
      }
    }
  }

  ghost function LeafAt(s: Shape, t: Tree, k: Key, h: nat, order: nat): Node
    requires Matches(s, t) && Shaped(t, h, order)
    decreases s
  {
    match s
    case LeafS(n) => n
    case InnerS(_, kids) => var i := ChildIndex(t.keys, k); LeafAt(kids[i], t.kids[i], k, h - 1, order)
  }

  lemma {:induction false} LeafAtIn(s: Shape, t: Tree, k: Key, h: nat, order: nat)
    requires Matches(s, t) && Shaped(t, h, order)
    ensures Own(LeafAt(s, t, k, h, order)) <= Objs(s)
    decreases s
  {
    if s.InnerS? {
      var i := ChildIndex(t.keys, k);
      KidIn(s.kids, i);
      LeafAtIn(s.kids[i], t.kids[i], k, h - 1, order);
    }
  }

  /** The nodes off the path to the leaf of `k`, and the inner nodes on it, represent `t`. */
  ghost predicate RepAround(s: Shape, t: Tree, k: Key, h: nat, order: nat)
    requires Matches(s, t) && Shaped(t, h, order) && Separate(s)
    reads Objs(s) - Own(LeafAt(s, t, k, h, order))
    decreases s
  {
    match s
    case LeafS(_) => true
    case InnerS(n, kids) =>
      var i := ChildIndex(t.keys, k);
      KidObjs(kids);
      LeafAtIn(kids[i], t.kids[i], k, h - 1, order);
      && NodeRep(n, false, t.keys, order)
      && n.children.Length == order + 1 && |t.kids| == |t.keys| + 1 == |kids|
      && n.children[..|kids|] == Roots(kids)
      && (forall j :: 0 <= j < |kids| && j != i ==> Rep(kids[j], t.kids[j], order))
      && RepAround(kids[i], t.kids[i], k, h - 1, order)
  }

  lemma {:induction false} OpenAtLeaf(s: Shape, t: Tree, k: Key, h: nat, order: nat)
    requires Rep(s, t, order) && Shaped(t, h, order) && Separate(s) && Matches(s, t)
    ensures RepAround(s, t, k, h, order)
    ensures Rep(LeafS(LeafAt(s, t, k, h, order)), LeafOf(t, k, h, order), order)
    decreases s
  {
    if s.InnerS? {
      var i := ChildIndex(t.keys, k);
      OpenAtLeaf(s.kids[i], t.kids[i], k, h - 1, order);
    }
  }

  lemma {:induction false} CloseAtLeaf(s: Shape, t: Tree, k: Key, leaf: Tree, h: nat, order: nat)
    requires Matches(s, t) && Shaped(t, h, order) && Separate(s) && RepAround(s, t, k, h, order)
    requires Rep(LeafS(LeafAt(s, t, k, h, order)), leaf, order)
    ensures Rep(s, PutLeaf(t, k, leaf, h, order), order)
    decreases s
  {
    if s.InnerS? {
      var i := ChildIndex(t.keys, k);
      CloseAtLeaf(s.kids[i], t.kids[i], k, leaf, h - 1, order);
      KidsRepReplace(s.kids, t.kids, order, i, s.kids[i], PutLeaf(t.kids[i], k, leaf, h - 1, order));
      assert s.kids[i := s.kids[i]] == s.kids;
    }
  }

  lemma ChildRep(n: Node, kids: seq<Shape>, t: Tree, order: nat, i: nat)
    requires Rep(InnerS(n, kids), t, order) && i < |kids|
    ensures t.Inner? && |t.kids| == |kids| && Rep(kids[i], t.kids[i], order)
    ensures i < n.children.Length && n.children[i] == kids[i].n
  {
    assert n.children[i] == n.children[..|kids|][i] == Roots(kids)[i];
  }

  lemma OnPath(n: Node, kids: seq<Shape>, t: Tree, k: Key, lo: int, hi: int, h: nat, order: nat)
    requires Matches(InnerS(n, kids), t) && Valid(t, lo, hi, h, order)
    ensures var i := ChildIndex(t.keys, k);
            && |kids| == |t.kids| == |t.keys| + 1 && h > 0 && Matches(kids[i], t.kids[i])
            && Valid(t.kids[i], Low(t.keys, i, lo), High(t.keys, i, hi), h - 1, order)
            && LeafAt(InnerS(n, kids), t, k, h, order) == LeafAt(kids[i], t.kids[i], k, h - 1, order)
            && Objs(kids[i]) <= Objs(InnerS(n, kids))
  {
    KidIn(kids, ChildIndex(t.keys, k));
  }

  /** The search for `k` has come down to node `n`. */
  ghost predicate Visiting(n: Node, s: Shape, t: Tree, k: Key, lo: int, hi: int, h: nat, order: nat, all: set<object>)
    reads Objs(s)
  {
    s.n == n && Rep(s, t, order) && Matches(s, t) && Valid(t, lo, hi, h, order) && Objs(s) <= all
  }

  /** One step of find_leaf. */
  method Descend(n: Node, k: Key, order: nat, ghost s: Shape, ghost t: Tree, ghost lo: int, ghost hi: int, ghost h: nat,
                 ghost all: set<object>)
    returns (child: Node, ghost i: nat)
    requires Visiting(n, s, t, k, lo, hi, h, order, all) && !n.isLeaf
    ensures s.InnerS? && t.Inner? && i == ChildIndex(t.keys, k) && i < |t.kids| == |s.kids| == |t.keys| + 1 && h > 0
    ensures Visiting(child, s.kids[i], t.kids[i], k, Low(t.keys, i, lo), High(t.keys, i, hi), h - 1, order, all) == true
    ensures LeafAt(s, t, k, h, order) == LeafAt(s.kids[i], t.kids[i], k, h - 1, order)
  {
    var pos := KeyLowerBound(n, k);
    if pos < n.numKeys && n.keys[pos] == k {
      pos := pos + 1;
    }
    ChildRep(n, s.kids, t, order, pos);
    OnPath(n, s.kids, t, k, lo, hi, h, order);
    child, i := n.children[pos], pos;
  }

  /** find_leaf */
  method FindLeaf(root: Node, k: Key, order: nat, ghost s: Shape, ghost t: Tree, ghost h: nat, ghost all: set<object>)
    returns (leaf: Node)
    requires Visiting(root, s, t, k, 0, KEY_LIMIT, h, order, all)
    ensures leaf == LeafAt(s, t, k, h, order)
  {
    leaf := root;
    ghost var s', t', h', lo, hi := s, t, h, 0, KEY_LIMIT;
    while !leaf.isLeaf
      invariant Visiting(leaf, s', t', k, lo, hi, h', order, all) == true
      invariant LeafAt(s, t, k, h, order) == LeafAt(s', t', k, h', order)
      decreases t'
    {
      ghost var i;
      leaf, i := Descend(leaf, k, order, s', t', lo, hi, h', all);
      lo, hi := Low(t'.keys, i, lo), High(t'.keys, i, hi);
      s', t', h' := s'.kids[i], t'.kids[i], h' - 1;
    }
  }

  // ---------------------------------------------------------------------------
  // The leaf chain
  // ---------------------------------------------------------------------------

  lemma {:induction false} LeavesIn(s: Shape)
    ensures forall n :: n in Leaves(s) ==> n in Objs(s)
    decreases s, 1
  {
    if s.InnerS? {
      LeavesAllIn(s.kids);
    }
  }

  lemma {:induction false} LeavesAllIn(ss: seq<Shape>)
    ensures forall n :: n in LeavesAll(ss) ==> n in ObjsAll(ss)
    decreases ss, 0
  {
    if ss != [] {
      LeavesIn(ss[0]);
      LeavesAllIn(ss[1..]);
    }
  }

  lemma DistinctAppend(a: seq<Node>, b: seq<Node>)
    requires Distinct(a) && Distinct(b) && forall n :: n in a ==> n !in b
    ensures Distinct(a + b)
  {
    forall i, j | 0 <= i < j < |a + b| ensures (a + b)[i] != (a + b)[j] {
      if i < |a| <= j {
        assert (a + b)[i] == a[i] && (a + b)[j] == b[j - |a|];
        assert a[i] in a && b[j - |a|] in b;
      }
    }
  }

  lemma {:induction false} LeavesDistinct(s: Shape)
    requires Separate(s)
    ensures Distinct(Leaves(s))
    decreases s, 1
  {
    if s.InnerS? {
      LeavesAllDistinct(s.kids);
    }
  }

  lemma {:induction false} LeavesAllDistinct(ss: seq<Shape>)
    requires Apart(ss) && forall i :: 0 <= i < |ss| ==> Separate(ss[i])
    ensures Distinct(LeavesAll(ss))
    decreases ss, 0
  {
    if ss != [] {
      LeavesDistinct(ss[0]);
      LeavesIn(ss[0]);
      var rest := ss[1..];
      assert forall i :: 0 <= i < |rest| ==> rest[i] == ss[i + 1];
      LeavesAllDistinct(rest);
      ObjsAllApart(rest, Objs(ss[0]));
      LeavesAllIn(rest);
      DistinctAppend(Leaves(ss[0]), LeavesAll(rest));
    }
  }

  ghost function After(ls: seq<Node>, i: nat): Node?
    requires i < |ls|
  {
    if i + 1 < |ls| then ls[i + 1] else null
  }

  /** Following `next` from the first leaf visits `ls` in order and then ends. */
  ghost predicate Linked(next: map<Node, Node?>, ls: seq<Node>) {
    forall i :: 0 <= i < |ls| ==> ls[i] in next && next[ls[i]] == After(ls, i)
  }

  /** How `next` changes when a new leaf goes in behind `leaf`, as far as the leaves `ls` are concerned. */
  ghost predicate Spliced(before: map<Node, Node?>, now: map<Node, Node?>, ls: seq<Node>, leaf: Node, added: Option<Node>) {
    && leaf in before
    && (forall n :: n in ls ==> n in before && n in now)
    && match added
       case None => forall n :: n in ls ==> now[n] == before[n]
       case Some(x) => && x !in ls && x in now && now[x] == before[leaf]
                       && forall n :: n in ls ==> now[n] == if n == leaf then x else before[n]
  }

  lemma LinkedInsert(before: map<Node, Node?>, now: map<Node, Node?>, ls: seq<Node>, at: nat, x: Node, i: nat)
    requires at < |ls| && Linked(before, ls) && Distinct(ls) && Spliced(before, now, ls, ls[at], Some(x))
    requires i <= |ls|
    ensures var ls' := InsertAt(ls, at + 1, x);
            ls'[i] in now && now[ls'[i]] == After(ls', i)
  {
    var ls' := InsertAt(ls, at + 1, x);
    InsertAtPoint(ls, at + 1, x, i);
    if i + 1 < |ls'| {
      InsertAtPoint(ls, at + 1, x, i + 1);
    }
    assert i < at ==> ls[i] in ls && ls[i] != ls[at];
    assert i > at + 1 ==> ls[i - 1] in ls && ls[at] != ls[i - 1];
  }

  lemma LinkedGrown(before: map<Node, Node?>, now: map<Node, Node?>, ls: seq<Node>, at: nat, added: Option<Node>)
    requires at < |ls| && Linked(before, ls) && Distinct(ls) && Spliced(before, now, ls, ls[at], added)
    ensures Linked(now, GrownLeaves(ls, at, added))
  {
    if added.None? {
      forall i | 0 <= i < |ls| ensures ls[i] in now && now[ls[i]] == before[ls[i]] {
        assert ls[i] in ls;
      }
      assert Linked(now, ls);
    } else {
      var ls' := GrownLeaves(ls, at, added);
      forall i | 0 <= i < |ls'|
        ensures ls'[i] in now && now[ls'[i]] == After(ls', i)
      {
        LinkedInsert(before, now, ls, at, added.value, i);
      }
      assert Linked(now, ls');
    }
  }

  /** The chain condition over the heap: every leaf of `s` points to the next one, the last to nothing. */
  ghost predicate Chained(s: Shape)
    reads Objs(s)
  {
    LeavesIn(s);
    var ls := Leaves(s);
    forall i :: 0 <= i < |ls| ==> ls[i].next == After(ls, i)
  }

  lemma ChainedNext(s: Shape, all: set<object>)
    requires Objs(s) <= all
    ensures Chained(s) <==> Linked(NextOf(all), Leaves(s))
    ensures forall n :: n in Leaves(s) ==> n in NextOf(all)
  {
    LeavesIn(s);
    var ls, m := Leaves(s), NextOf(all);
    forall i | 0 <= i < |ls| ensures ls[i] in m && m[ls[i]] == ls[i].next {
      assert ls[i] in ls;
    }
  }

  // ---------------------------------------------------------------------------
  // A new root
  // ---------------------------------------------------------------------------

  lemma PairObjs(n: Node, s1: Shape, s2: Shape)
    requires Separate(s1) && Separate(s2) && Objs(s1) !! Objs(s2)
    requires Own(n) !! Objs(s1) && Own(n) !! Objs(s2)
    ensures Separate(InnerS(n, [s1, s2]))
    ensures Objs(InnerS(n, [s1, s2])) == Own(n) + (Objs(s1) + Objs(s2))
    ensures Leaves(InnerS(n, [s1, s2])) == Leaves(s1) + Leaves(s2)
  {
    var kids := [s1, s2];
    PairTail(s1, s2);
    OneObjs(s2);
    assert ObjsAll(kids) == Objs(s1) + Objs(s2) && LeavesAll(kids) == Leaves(s1) + Leaves(s2);
    assert Apart(kids) && Separate(InnerS(n, kids));
  }

  lemma PairTail(s1: Shape, s2: Shape)
    ensures [s1, s2][0] == s1 && [s1, s2][1..] == [s2]
  {
  }

  lemma OneObjs(s: Shape)
    ensures ObjsAll([s]) == Objs(s) && LeavesAll([s]) == Leaves(s)
  {
    OneTail(s);
  }

  method NewRoot(left: Node, p: Key, right: Node, order: nat, ghost s1: Shape, ghost s2: Shape,
                 ghost t1: Tree, ghost t2: Tree, ghost all: set<object>)
    returns (top: Node)
    requires s1.n == left && s2.n == right && Rep(s1, t1, order) && Rep(s2, t2, order) && order >= 3
    requires Objs(s1) <= all && Objs(s2) <= all
    ensures fresh(Own(top)) && Rep(InnerS(top, [s1, s2]), Inner([p], [t1, t2]), order)
  {
    top := new Node(order, false);
    top.keys[0] := p;
    top.children[0] := left;
    top.children[1] := right;
    top.numKeys := 1;
    assert top.children[..2] == [left, right] == Roots([s1, s2]);
    FoldInner(top, [s1, s2], [p], [t1, t2], order);
  }

  /** The tree at the root after an insertion with outcome `r` into `t`. */
  ghost function Rooted(r: InsertResult, t: Tree): Tree {
    match r
    case Duplicate => t
    case Done(t') => t'
    case Split(l, p, q) => Inner([p], [l, q])
  }

  /** The nodes of `s`, all in `all`, represent `t`, and the leaf chain runs through them in order. */
  ghost predicate Holds(root: Node, s: Shape, t: Tree, order: nat, all: set<object>)
    reads all
  {
    root == s.n && Objs(s) <= all && Separate(s) && Rep(s, t, order) && Chained(s)
  }

  /** The new root, if the old one split. */
  method Settled(root: Node, split: SplitOutcome, order: nat, ghost r: InsertResult, ghost s: Shape, ghost t: Tree,
                 ghost s1: Shape, ghost s2: Shape, ghost area: set<object>)
    returns (root': Node, ghost s': Shape, ghost area': set<object>)
    requires s.n == root && Outcome(r, r.Duplicate?, split, s, t, s1, s2, order) && order >= 3
    requires Objs(s1) <= area && (split.DidSplit? ==> Objs(s2) <= area)
    ensures root' == s'.n && Objs(s') <= area' && Separate(s') && Rep(s', Rooted(r, t), order)
    ensures Leaves(s') == Leaves(s1) + (if split.DidSplit? then Leaves(s2) else [])
    ensures forall o :: o in area' ==> o in area || fresh(o)
  {
    if split.DidSplit? {
      root' := NewRoot(root, split.promoted, split.right, order, s1, s2, r.left, r.right, area);
      s' := InnerS(root', [s1, s2]);
      area' := area + Own(root');
      PairObjs(root', s1, s2);
    } else {
      root', s', area' := root, s1, area;
      assert Leaves(s1) + [] == Leaves(s1);
    }
  }

  method InsertAtRoot(root: Node, k: Key, v: RecordPtr, order: nat, ghost s: Shape, ghost t: Tree, ghost h: nat,
                      ghost all: set<object>)
    returns (duplicate: bool, root': Node, ghost s': Shape, ghost area: set<object>)
    requires Holds(root, s, t, order, all) && Valid(t, 0, KEY_LIMIT, h, order) && InKeyRange(k) && order >= 3
    modifies Objs(s)
    ensures var r := Insert(t, k, v, h, order);
            duplicate == r.Duplicate? && Holds(root', s', Rooted(r, t), order, area) == true
    ensures forall o :: o in area ==> o in all || fresh(o)
  {
    ghost var before, ls := NextOf(all), Leaves(s);
    ChainedNext(s, all);
    LeavesDistinct(s);
    ghost var r := Insert(t, k, v, h, order);
    var split;
    ghost var s1, s2, at, added;
    duplicate, split, s1, s2, area, at, added := InsertRecursive(root, k, v, order, s, t, 0, KEY_LIMIT, h, all);
    root', s', area := Settled(root, split, order, r, s, t, s1, s2, area);
    Relinks(s, s', all, area, before, at, added);
  }

  /** The chain survives an insertion that put at most one new leaf into it. */
  lemma Relinks(s: Shape, s': Shape, all: set<object>, area: set<object>, before: map<Node, Node?>,
                at: nat, added: Option<Node>)
    requires at < |Leaves(s)| && Linked(before, Leaves(s)) && Distinct(Leaves(s))
    requires Objs(s) <= all && Objs(s') <= area
    requires Relinked(before, NextOf(all), Leaves(s)[at], added)
    requires Leaves(s') == GrownLeaves(Leaves(s), at, added)
    requires added.Some? ==> added.value !in all
    ensures Chained(s')
  {
    var ls, ls' := Leaves(s), Leaves(s');
    LeavesIn(s);
    LeavesIn(s');
    assert added.Some? ==> ls'[at + 1] == added.value;
    forall n | n in ls ensures n in ls' {
      var i :| 0 <= i < |ls| && ls[i] == n;
      assert ls'[if added.Some? && i > at then i + 1 else i] == n;
    }
    var now := NextOf(area);
    if added.Some? {
      var x := added.value;
      assert x !in ls;
      assert x in ls' && x in area;
      assert now[x] == x.next;
      assert now[x] == before[ls[at]];
      forall n | n in ls ensures now[n] == if n == ls[at] then x else before[n] {
        assert NextOf(all)[n] == n.next;
      }
    }
    assert Spliced(before, NextOf(area), ls, ls[at], added);
    LinkedGrown(before, NextOf(area), ls, at, added);
    ChainedNext(s', area);
  }

  // ---------------------------------------------------------------------------
  // Deletion and update in one leaf
  // ---------------------------------------------------------------------------

  /** key_find_exact */
  method FindExact(leaf: Node, k: Key) returns (pos: int)
    requires leaf.numKeys <= leaf.keys.Length && Ascending(leaf.keys[..leaf.numKeys])
    ensures var ks := leaf.keys[..leaf.numKeys]; var p := LowerBound(ks, k);
            pos == if p < |ks| && ks[p] == k then p else -1
  {
    var p := KeyLowerBound(leaf, k);
    if p < leaf.numKeys && leaf.keys[p] == k {
      return p;
    }
    return -1;
  }

  lemma {:induction false} LeafOfValid(t: Tree, k: Key, lo: int, hi: int, h: nat, order: nat)
    requires Valid(t, lo, hi, h, order)
    ensures Ascending(LeafOf(t, k, h, order).keys)
    decreases t
  {
    if t.Inner? {
      var i := ChildIndex(t.keys, k);
      LeafOfValid(t.kids[i], k, Low(t.keys, i, lo), High(t.keys, i, hi), h - 1, order);
    }
  }

  method DeleteFromLeaf(leaf: Node, k: Key, order: nat, ghost t: Tree) returns (found: bool)
    requires t.Leaf? && Rep(LeafS(leaf), t, order) && Ascending(t.keys) && Shaped(t, 0, order)
    modifies Own(leaf)
    ensures found == Lookup(t, k, 0, order).Some? && leaf.next == old(leaf.next)
    ensures Rep(LeafS(leaf), Delete(t, k, 0, order), order)
  {
    var pos := FindExact(leaf, k);
    if pos < 0 {
      return false;
    }
    ShiftOut(leaf.keys, leaf.numKeys, pos);
    ShiftOut(leaf.values, leaf.numKeys, pos);
    leaf.numKeys := leaf.numKeys - 1;
    return true;
  }

  method UpdateLeaf(leaf: Node, k: Key, v: RecordPtr, order: nat, ghost t: Tree) returns (found: bool)
    requires t.Leaf? && Rep(LeafS(leaf), t, order) && Ascending(t.keys) && Shaped(t, 0, order)
    modifies Own(leaf)
    ensures found == Lookup(t, k, 0, order).Some? && leaf.next == old(leaf.next)
    ensures Rep(LeafS(leaf), Update(t, k, v, 0, order), order)
  {
    var pos := FindExact(leaf, k);
    if pos < 0 {
      return false;
    }
    leaf.values[pos] := v;
    return true;
  }

  /** What holds at the leaf a search for `k` ends in. */
  lemma Arrived(s: Shape, t: Tree, k: Key, h: nat, order: nat)
    requires Rep(s, t, order) && Valid(t, 0, KEY_LIMIT, h, order) && Matches(s, t)
    requires Separate(s)
    ensures var leaf, n := LeafOf(t, k, h, order), LeafAt(s, t, k, h, order);
            && Rep(LeafS(n), leaf, order) && Ascending(leaf.keys) && Own(n) <= Objs(s)
            && RepAround(s, t, k, h, order)
  {
    OpenAtLeaf(s, t, k, h, order);
    LeafOfValid(t, k, 0, KEY_LIMIT, h, order);
    LeafAtIn(s, t, k, h, order);
  }

  method DeleteAtRoot(root: Node, k: Key, order: nat, ghost s: Shape, ghost t: Tree, ghost h: nat, ghost all: set<object>)
    returns (found: bool)
    requires Holds(root, s, t, order, all) && Valid(t, 0, KEY_LIMIT, h, order)
    modifies Objs(s)
    ensures found == Lookup(t, k, h, order).Some?
    ensures Holds(root, s, Delete(t, k, h, order), order, all) == true
  {
    RepMatches(s, t, order);
    Arrived(s, t, k, h, order);
    ActsOnLeaf(t, k, RecordPtr(0, 0), h, order);
    ChainedNext(s, all);
    var leaf := FindLeaf(root, k, order, s, t, h, all);
    found := DeleteFromLeaf(leaf, k, order, LeafOf(t, k, h, order));
    CloseAtLeaf(s, t, k, Delete(LeafOf(t, k, h, order), k, 0, order), h, order);
    assert NextOf(all) == old(NextOf(all));
    ChainedNext(s, all);
  }

  method UpdateAtRoot(root: Node, k: Key, v: RecordPtr, order: nat, ghost s: Shape, ghost t: Tree, ghost h: nat,
                      ghost all: set<object>)
    returns (found: bool)
    requires Holds(root, s, t, order, all) && Valid(t, 0, KEY_LIMIT, h, order)
    modifies Objs(s)
    ensures found == Lookup(t, k, h, order).Some?
    ensures Holds(root, s, Update(t, k, v, h, order), order, all) == true
  {
    RepMatches(s, t, order);
    Arrived(s, t, k, h, order);
    ActsOnLeaf(t, k, v, h, order);
    ChainedNext(s, all);
    var leaf := FindLeaf(root, k, order, s, t, h, all);
    found := UpdateLeaf(leaf, k, v, order, LeafOf(t, k, h, order));
    CloseAtLeaf(s, t, k, Update(LeafOf(t, k, h, order), k, v, 0, order), h, order);
    assert NextOf(all) == old(NextOf(all));
    ChainedNext(s, all);
  }

  // ---------------------------------------------------------------------------
  // Range scan over the leaf chain
  // ---------------------------------------------------------------------------

  /** The leaves of `t` from left to right, emptied ones included. */
  ghost function LeafTrees(t: Tree): seq<Tree>
    decreases t
  {
    match t
    case Leaf(_, _) => [t]
    case Inner(_, kids) => AllLeafTrees(kids)
  }

  ghost function AllLeafTrees(ts: seq<Tree>): seq<Tree>
    decreases ts
  {
    if ts == [] then [] else LeafTrees(ts[0]) + AllLeafTrees(ts[1..])
  }

  lemma {:induction false} LeafTreesEntries(t: Tree)
    ensures Flat(LeafTrees(t)) == Entries(t)
    decreases t, 1
  {
    match t
    case Leaf(_, _) => FlatOne(t);
    case Inner(_, kids) => AllLeafTreesEntries(kids);
  }

  lemma {:induction false} AllLeafTreesEntries(ts: seq<Tree>)
    ensures Flat(AllLeafTrees(ts)) == Flat(ts)
    decreases ts, 0
  {
    if ts != [] {
      LeafTreesEntries(ts[0]);
      AllLeafTreesEntries(ts[1..]);
      FlatAppend(LeafTrees(ts[0]), AllLeafTrees(ts[1..]));
    }
  }

  lemma {:induction false} AllLeafTreesAppend(a: seq<Tree>, b: seq<Tree>)
    ensures AllLeafTrees(a + b) == AllLeafTrees(a) + AllLeafTrees(b)
    decreases |a|
  {
    if a == [] {
      assert a + b == b;
    } else {
      AllLeafTreesAppend(a[1..], b);
      assert (a + b)[1..] == a[1..] + b;
      AppendAssoc(LeafTrees(a[0]), AllLeafTrees(a[1..]), AllLeafTrees(b));
    }
  }

  /** Leaf nodes `ls` hold the leaves `ts`, one by one. */
  ghost predicate LeavesHold(ls: seq<Node>, ts: seq<Tree>, order: nat, all: set<object>)
    reads all
  {
    |ls| == |ts| && forall i :: 0 <= i < |ls| ==> Own(ls[i]) <= all && Rep(LeafS(ls[i]), ts[i], order)
  }

  lemma {:induction false} RepLeaves(s: Shape, t: Tree, order: nat, all: set<object>)
    requires Rep(s, t, order) && Objs(s) <= all
    ensures LeavesHold(Leaves(s), LeafTrees(t), order, all)
    decreases s, 1
  {
    if s.InnerS? {
      KidObjs(s.kids);
      RepAllLeaves(s.kids, t.kids, order, all);
    }
  }

  lemma {:induction false} RepAllLeaves(ss: seq<Shape>, ts: seq<Tree>, order: nat, all: set<object>)
    requires |ss| == |ts| && forall i :: 0 <= i < |ss| ==> Rep(ss[i], ts[i], order) && Objs(ss[i]) <= all
    ensures LeavesHold(LeavesAll(ss), AllLeafTrees(ts), order, all)
    decreases ss, 0
  {
    if ss != [] {
      RepLeaves(ss[0], ts[0], order, all);
      RepAllLeaves(ss[1..], ts[1..], order, all);
    }
  }

  /** Where among the leaves find_leaf arrives. */
  ghost function LeafRank(t: Tree, k: Key, h: nat, order: nat): nat
    requires Shaped(t, h, order)
    decreases t
  {
    if t.Leaf? then 0 else
      var i := ChildIndex(t.keys, k);
      |AllLeafTrees(t.kids[..i])| + LeafRank(t.kids[i], k, h - 1, order)
  }

  lemma {:induction false} SameLeafCount(s: Shape, t: Tree)
    requires Matches(s, t)
    ensures |Leaves(s)| == |LeafTrees(t)|
    decreases s, 1
  {
    if s.InnerS? {
      SameLeafCounts(s.kids, t.kids);
    }
  }

  lemma {:induction false} SameLeafCounts(ss: seq<Shape>, ts: seq<Tree>)
    requires |ss| == |ts| && forall i :: 0 <= i < |ss| ==> Matches(ss[i], ts[i])
    ensures |LeavesAll(ss)| == |AllLeafTrees(ts)|
    decreases ss, 0
  {
    if ss != [] {
      SameLeafCount(ss[0], ts[0]);
      SameLeafCounts(ss[1..], ts[1..]);
    }
  }

  lemma {:induction false} LeafAtRank(s: Shape, t: Tree, k: Key, h: nat, order: nat)
    requires Matches(s, t) && Shaped(t, h, order)
    ensures var r := LeafRank(t, k, h, order); r < |Leaves(s)| && Leaves(s)[r] == LeafAt(s, t, k, h, order)
    decreases s
  {
    if s.InnerS? {
      var i := ChildIndex(t.keys, k);
      LeafAtRank(s.kids[i], t.kids[i], k, h - 1, order);
      SameLeafCounts(s.kids[..i], t.kids[..i]);
      LeavesReplace(s.kids, i, []);
    }
  }

  lemma OneLeafTree(t: Tree)
    ensures AllLeafTrees([t]) == LeafTrees(t)
  {
    assert [t][1..] == [];
  }

  lemma AllLeafTreesAround(a: seq<Tree>, x: Tree, b: seq<Tree>)
    ensures AllLeafTrees(a + [x] + b) == AllLeafTrees(a) + LeafTrees(x) + AllLeafTrees(b)
  {
    AllLeafTreesAppend(a + [x], b);
    AllLeafTreesAppend(a, [x]);
    OneLeafTree(x);
  }

  lemma TakePrefix<T>(a: seq<T>, m: seq<T>, b: seq<T>, r: nat)
    requires r <= |m|
    ensures (a + m + b)[..|a| + r] == a + m[..r]
  {
  }

  /** Everything in the leaves before the one find_leaf picks is below the key. */
  lemma {:induction false} BeforeRank(t: Tree, k: Key, lo: int, hi: int, h: nat, order: nat)
    requires Valid(t, lo, hi, h, order) && lo <= k < hi
    ensures var r := LeafRank(t, k, h, order); r < |LeafTrees(t)| && AllBelow(Flat(LeafTrees(t)[..r]), k)
    decreases t
  {
    if t.Inner? {
      ChildOwnsKey(t.keys, k, lo, hi);
      var i := ChildIndex(t.keys, k);
      BeforeRank(t.kids[i], k, Low(t.keys, i, lo), High(t.keys, i, hi), h - 1, order);
      var r, a, m := LeafRank(t.kids[i], k, h - 1, order), AllLeafTrees(t.kids[..i]), LeafTrees(t.kids[i]);
      SplitAround(t.kids, i);
      AllLeafTreesAround(t.kids[..i], t.kids[i], t.kids[i + 1..]);
      TakePrefix(a, m, AllLeafTrees(t.kids[i + 1..]), r);
      FlatAppend(a, m[..r]);
      AllLeafTreesEntries(t.kids[..i]);
      AroundChild(t, i, k, lo, hi);
    }
  }

  lemma {:induction false} InRangeSkip(a: seq<Entry>, b: seq<Entry>, low: Key, high: Key, max: nat)
    requires AllBelow(a, low)
    ensures InRange(a + b, low, high, max) == InRange(b, low, high, max)
    decreases |a|
  {
    if a == [] {
      assert a + b == b;
    } else {
      assert (a + b)[1..] == a[1..] + b;
      InRangeSkip(a[1..], b, low, high, max);
    }
  }

  lemma {:induction false} InRangeAbove(es: seq<Entry>, low: Key, high: Key, max: nat)
    requires AllAbove(es, high)
    ensures InRange(es, low, high, max) == []
    decreases |es|
  {
    if es != [] && max > 0 {
      InRangeAbove(es[1..], low, high, max);
    }
  }

  lemma {:induction false} InRangeEmpty(es: seq<Entry>, low: Key, high: Key, max: nat)
    requires low > high
    ensures InRange(es, low, high, max) == []
    decreases |es|
  {
    if es != [] && max > 0 {
      InRangeEmpty(es[1..], low, high, max);
    }
  }

  /** The entries of leaf `j` and of those after it. */
  ghost function FlatFrom(ts: seq<Tree>, j: nat): seq<Entry>
    decreases |ts| - j
  {
    if j >= |ts| then [] else Entries(ts[j]) + FlatFrom(ts, j + 1)
  }

  lemma {:induction false} FlatFromIs(ts: seq<Tree>, j: nat)
    requires j <= |ts|
    ensures FlatFrom(ts, j) == Flat(ts[j..])
    decreases |ts| - j
  {
    if j < |ts| {
      FlatFromIs(ts, j + 1);
      assert ts[j..][1..] == ts[j + 1..];
    }
  }

  /** What a scan that stands at entry `i` of leaf `j` has still ahead of it. */
  ghost function Ahead(ts: seq<Tree>, j: nat, i: nat): seq<Entry>
    requires j < |ts| && i <= |Entries(ts[j])|
  {
    Entries(ts[j])[i..] + FlatFrom(ts, j + 1)
  }

  lemma AheadSorted(ts: seq<Tree>, j: nat, i: nat)
    requires SortedEntries(Flat(ts)) && j < |ts| && i <= |Entries(ts[j])|
    ensures SortedEntries(Ahead(ts, j, i))
  {
    FlatSplit(ts, j);
    FlatFromIs(ts, j + 1);
    var a, e, b := Flat(ts[..j]), Entries(ts[j]), Flat(ts[j + 1..]);
    assert Ahead(ts, j, i) == (a + e + b)[|a| + i..];
  }

  lemma AheadStarts(ts: seq<Tree>, j: nat)
    requires j < |ts|
    ensures FlatFrom(ts, j) == Ahead(ts, j, 0)
    ensures Ahead(ts, j, |Entries(ts[j])|) == FlatFrom(ts, j + 1)
  {
  }

  lemma AheadStep(ts: seq<Tree>, j: nat, i: nat)
    requires j < |ts| && i < |Entries(ts[j])|
    ensures Ahead(ts, j, i) == [Entries(ts[j])[i]] + Ahead(ts, j, i + 1)
  {
  }

  /** A scan that wants `want` in all has `got` its first values and stands before leaf `at` of the chain. */
  ghost predicate Scanning(got: seq<RecordPtr>, at: nat, low: Key, high: Key, max: nat, ts: seq<Tree>, want: seq<RecordPtr>) {
    && at <= |ts|
    && |got| <= max && got + InRange(FlatFrom(ts, at), low, high, max - |got|) == want
  }

  /** The same inside leaf `j`, before its entry `i`. */
  ghost predicate Inside(got: seq<RecordPtr>, j: nat, i: nat, low: Key, high: Key, max: nat, ts: seq<Tree>, want: seq<RecordPtr>) {
    && j < |ts| && i <= |Entries(ts[j])|
    && |got| <= max && got + InRange(Ahead(ts, j, i), low, high, max - |got|) == want
  }

  /** One entry of the scan. */
  lemma ScanStep(got: seq<RecordPtr>, j: nat, i: nat, low: Key, high: Key, max: nat, ts: seq<Tree>, want: seq<RecordPtr>)
    requires Inside(got, j, i, low, high, max, ts, want) && i < |Entries(ts[j])| && |got| < max && SortedEntries(Flat(ts))
    ensures var e := Entries(ts[j])[i];
            if e.0 > high then got == want
            else Inside(if e.0 >= low then got + [e.1] else got, j, i + 1, low, high, max, ts, want)
  {
    var e, left := Entries(ts[j])[i], max - |got|;
    AheadStep(ts, j, i);
    AheadSorted(ts, j, i);
    assert Ahead(ts, j, i)[1..] == Ahead(ts, j, i + 1);
    assert Ahead(ts, j, i)[0] == e;
    assert forall m :: 0 < m < |Ahead(ts, j, i)| ==> Ahead(ts, j, i)[0].0 < Ahead(ts, j, i)[m].0;
    if e.0 > high {
      InRangeAbove(Ahead(ts, j, i), low, high, left);
      assert got + [] == got;
    } else if e.0 >= low {
      AppendAssoc(got, [e.1], InRange(Ahead(ts, j, i + 1), low, high, left - 1));
    }
  }

  lemma EnterLeaf(got: seq<RecordPtr>, j: nat, low: Key, high: Key, max: nat, ts: seq<Tree>, want: seq<RecordPtr>)
    requires Scanning(got, j, low, high, max, ts, want) && j < |ts|
    ensures Inside(got, j, 0, low, high, max, ts, want)
  {
    AheadStarts(ts, j);
  }

  lemma LeaveLeaf(got: seq<RecordPtr>, j: nat, i: nat, low: Key, high: Key, max: nat, ts: seq<Tree>, want: seq<RecordPtr>)
    requires Inside(got, j, i, low, high, max, ts, want)
    requires i == |Entries(ts[j])| || |got| == max
    ensures Scanning(got, j + 1, low, high, max, ts, want)
  {
    AheadStarts(ts, j);
  }

  lemma LeafEntry(leaf: Node, t: Tree, order: nat, i: nat)
    requires t.Leaf? && Rep(LeafS(leaf), t, order) && i < leaf.numKeys
    ensures i < |Entries(t)| == leaf.numKeys <= leaf.keys.Length == leaf.values.Length
    ensures Entries(t)[i] == (leaf.keys[i], leaf.values[i])
  {
    assert leaf.keys[..leaf.numKeys][i] == leaf.keys[i] && leaf.values[..leaf.numKeys][i] == leaf.values[i];
  }

  /** The scan over one leaf. It is `over` once a key beyond `high` shows that nothing more can follow. */
  method ScanLeaf(leaf: Node, low: Key, high: Key, results: array<RecordPtr>, from: nat, max: nat, order: nat,
                  ghost ts: seq<Tree>, ghost j: nat, ghost want: seq<RecordPtr>)
    returns (count: nat, over: bool)
    requires j < |ts| && ts[j].Leaf? && Rep(LeafS(leaf), ts[j], order) && SortedEntries(Flat(ts))
    requires results !in Own(leaf) && from <= max <= results.Length
    requires Scanning(results[..from], j, low, high, max, ts, want)
    modifies results
    ensures from <= count <= max
    ensures if over then results[..count] == want else Scanning(results[..count], j + 1, low, high, max, ts, want)
  {
    count, over := from, false;
    var i := 0;
    EnterLeaf(results[..count], j, low, high, max, ts, want);
    while i < leaf.numKeys && count < max
      invariant 0 <= i <= leaf.numKeys == |Entries(ts[j])| && from <= count <= max
      invariant Rep(LeafS(leaf), ts[j], order) == true
      invariant Inside(results[..count], j, i, low, high, max, ts, want) == true
    {
      LeafEntry(leaf, ts[j], order, i);
      ScanStep(results[..count], j, i, low, high, max, ts, want);
      if leaf.keys[i] > high {
        return count, true;
      }
      if leaf.keys[i] >= low {
        ghost var got := results[..count];
        results[count] := leaf.values[i];
        count := count + 1;
        assert results[..count] == got + [leaf.values[i]];
      }
      i := i + 1;
    }
    LeaveLeaf(results[..count], j, i, low, high, max, ts, want);
  }

  /** The leaf chain `ls` is linked up and holds the leaves `ts`. */
  ghost predicate ChainHeld(ls: seq<Node>, ts: seq<Tree>, order: nat, all: set<object>)
    reads all
  {
    LeavesHold(ls, ts, order, all) && SortedEntries(Flat(ts)) && Linked(NextOf(all), ls)
  }

  lemma HeldLeaf(ls: seq<Node>, ts: seq<Tree>, order: nat, all: set<object>, i: nat)
    requires ChainHeld(ls, ts, order, all) && i < |ls|
    ensures |ls| == |ts| && ts[i].Leaf? && Rep(LeafS(ls[i]), ts[i], order) && Own(ls[i]) <= all
    ensures ls[i].next == After(ls, i) && SortedEntries(Flat(ts))
  {
    assert NextOf(all)[ls[i]] == ls[i].next;
  }

  lemma ScanOver(got: seq<RecordPtr>, at: nat, low: Key, high: Key, max: nat, ts: seq<Tree>, want: seq<RecordPtr>)
    requires Scanning(got, at, low, high, max, ts, want)
    requires at == |ts| || |got| == max
    ensures got == want
  {
    assert got + [] == got;
  }

  /** The whole chain walk, from leaf `j` on. */
  method ScanChain(first: Node, low: Key, high: Key, results: array<RecordPtr>, max: nat, order: nat,
                   ghost ls: seq<Node>, ghost ts: seq<Tree>, ghost j: nat, ghost all: set<object>, ghost want: seq<RecordPtr>)
    returns (count: nat)
    requires ChainHeld(ls, ts, order, all) == true && |ls| == |ts| && Scanning([], j, low, high, max, ts, want)
    requires j < |ls| && first == ls[j]
    requires results !in all && max <= results.Length
    modifies results
    ensures count <= max && results[..count] == want
  {
    count := 0;
    ghost var at := j;
    var leaf: Node? := first;
    while leaf != null && count < max
      invariant count <= max && at <= |ls| && leaf == if at < |ls| then ls[at] else null
      invariant ChainHeld(ls, ts, order, all) == true
      invariant Scanning(results[..count], at, low, high, max, ts, want) == true
      decreases |ls| - at
    {
      HeldLeaf(ls, ts, order, all, at);
      var next, over := leaf.next, false;
      count, over := ScanLeaf(leaf, low, high, results, count, max, order, ts, at, want);
      if over {
        return;
      }
      leaf, at := next, at + 1;
    }
    ScanOver(results[..count], at, low, high, max, ts, want);
  }

  lemma LeafChain(root: Node, s: Shape, t: Tree, h: nat, order: nat, all: set<object>)
    requires Holds(root, s, t, order, all) && Valid(t, 0, KEY_LIMIT, h, order)
    ensures ChainHeld(Leaves(s), LeafTrees(t), order, all)
  {
    RepLeaves(s, t, order, all);
    ChainedNext(s, all);
    EntriesSorted(t, 0, KEY_LIMIT);
    LeafTreesEntries(t);
  }

  /** A scan may start at the leaf find_leaf picks for `low`. */
  lemma ScanStart(s: Shape, t: Tree, low: Key, high: Key, max: nat, h: nat, order: nat)
    returns (j: nat)
    requires Matches(s, t) && Valid(t, 0, KEY_LIMIT, h, order) && InKeyRange(low)
    ensures j < |Leaves(s)| == |LeafTrees(t)| && Leaves(s)[j] == LeafAt(s, t, low, h, order)
    ensures Scanning([], j, low, high, max, LeafTrees(t), InRange(Entries(t), low, high, max))
  {
    SameLeafCount(s, t);
    LeafAtRank(s, t, low, h, order);
    j := LeafRank(t, low, h, order);
    FromRank(t, low, high, max, h, order);
    var rest := InRange(FlatFrom(LeafTrees(t), j), low, high, max);
    assert [] + rest == rest;
  }

  lemma FromRank(t: Tree, low: Key, high: Key, max: nat, h: nat, order: nat)
    requires Valid(t, 0, KEY_LIMIT, h, order) && InKeyRange(low)
    ensures var j := LeafRank(t, low, h, order);
            && j <= |LeafTrees(t)|
            && InRange(FlatFrom(LeafTrees(t), j), low, high, max) == InRange(Entries(t), low, high, max)
  {
    BeforeRank(t, low, 0, KEY_LIMIT, h, order);
    LeafTreesEntries(t);
    var j, ts := LeafRank(t, low, h, order), LeafTrees(t);
    FlatFromIs(ts, j);
    FlatAppend(ts[..j], ts[j..]);
    assert ts == ts[..j] + ts[j..];
    InRangeSkip(Flat(ts[..j]), Flat(ts[j..]), low, high, max);
  }

  // ---------------------------------------------------------------------------
  // The index
  // ---------------------------------------------------------------------------

  /** What the nodes need to know of an insertion at the root. */
  lemma InsertKeepsValid(ix: Index, k: Key, v: RecordPtr, r: InsertResult, order: nat)
    requires ValidIndex(ix, order) && InKeyRange(k) && r == BTreeModel.Insert(ix.root, k, v, ix.height, order)
    ensures InsertRoot(ix, k, v, order) == GrowRoot(ix, r) && GrowRoot(ix, r).Some? == !r.Duplicate?
    ensures !r.Duplicate? ==> var ix' := GrowRoot(ix, r).value;
              ValidIndex(ix', order) == true && ix'.root == Rooted(r, ix.root) && ix'.size == (ix.size + 1) % KEY_LIMIT
    ensures r.Duplicate? ==> Rooted(r, ix.root) == ix.root
    ensures r.Duplicate? <==> k in Contents(ix)
    ensures !r.Duplicate? ==> Contents(GrowRoot(ix, r).value) == Contents(ix)[k := v]
  {
    InsertRootSound(ix, k, v, order);
  }

  class IndexTree {
    var root: Node
    const order: nat
    var size: int
    var dirty: bool

    /** The nodes under the root, the objects they may use, and the index they represent. */
    ghost var shape: Shape
    ghost var area: set<object>
    ghost var view: Index

    ghost predicate Valid()
      reads this, area
    {
      && this !in area
      && ValidIndex(view, order) == true && size == view.size
      && Holds(root, shape, view.root, order, area) == true
    }

    /** btree_create: an empty leaf. */
    constructor (order: nat)
      requires order >= 3
      ensures Valid() && fresh(area) && this.order == order && view == EmptyIndex && dirty
    {
      var leaf := new Node(order, true);
      this.order := order;
      root := leaf;
      size := 0;
      dirty := true;
      shape := LeafS(leaf);
      area := Own(leaf);
      view := EmptyIndex;
    }

    /** The object btree_open sets up once the nodes are read and linked. */
    constructor Loaded(order: nat, size: int, root: Node, ghost shape: Shape, ghost view: Index, ghost area: set<object>)
      requires ValidIndex(view, order) && size == view.size && Holds(root, shape, view.root, order, area)
      ensures Valid() && this.order == order && this.view == view && this.area == area && !dirty
    {
      this.order, this.size, this.root, dirty := order, size, root, false;
      this.shape, this.area, this.view := shape, area, view;
    }

    /** The part of btree_insert that touches nodes. */
    method InsertNodes(k: Key, v: RecordPtr, ghost r: InsertResult) returns (duplicate: bool)
      requires Valid() && InKeyRange(k) && r == BTreeModel.Insert(view.root, k, v, view.height, order)
      modifies this`root, this`shape, this`area, area
      ensures duplicate == r.Duplicate? && this !in area
      ensures Holds(root, shape, Rooted(r, view.root), order, area) == true
      ensures forall o :: o in area ==> o in old(area) || fresh(o)
    {
      var root';
      ghost var s', area';
      duplicate, root', s', area' := InsertAtRoot(root, k, v, order, shape, view.root, view.height, area);
      root, shape, area := root', s', area';
    }

    /** btree_insert */
    method Insert(k: Key, v: RecordPtr) returns (ok: bool)
      requires Valid() && InKeyRange(k)
      modifies this, area
      ensures Valid()
      ensures forall o :: o in area ==> o in old(area) || fresh(o)
      ensures var r := InsertRoot(old(view), k, v, order);
              ok == r.Some? && view == (if ok then r.value else old(view)) && dirty == (ok || old(dirty))
      ensures ok == (k !in Contents(old(view))) && Contents(view) == if ok then Contents(old(view))[k := v] else Contents(old(view))
    {
      ghost var r := BTreeModel.Insert(view.root, k, v, view.height, order);
      InsertKeepsValid(view, k, v, r, order);
      var duplicate := InsertNodes(k, v, r);
      if duplicate {
        return false;
      }
      size, dirty, view := (size + 1) % KEY_LIMIT, true, GrowRoot(view, r).value;
      return true;
    }

    /** btree_search */
    method Search(k: Key) returns (result: Option<RecordPtr>)
      requires Valid() && InKeyRange(k)
      ensures result == Lookup(view.root, k, view.height, order)
      ensures result == if k in Contents(view) then Some(Contents(view)[k]) else None
    {
      SearchRootSound(view, k, order);
      RepMatches(shape, view.root, order);
      Arrived(shape, view.root, k, view.height, order);
      ActsOnLeaf(view.root, k, RecordPtr(0, 0), view.height, order);
      var leaf := FindLeaf(root, k, order, shape, view.root, view.height, area);
      var pos := FindExact(leaf, k);
      if pos < 0 {
        return None;
      }
      return Some(leaf.values[pos]);
    }

    /** btree_range_scan */
    method RangeScan(low: Key, high: Key, results: array<RecordPtr>, max: int) returns (count: nat)
      requires Valid() && InKeyRange(low) && InKeyRange(high)
      requires results !in area && max <= results.Length
      modifies results
      ensures count <= results.Length
      ensures results[..count] == InRange(Entries(view.root), low, high, if max <= 0 then 0 else max)
      ensures ListsRange(Contents(view), low, high, if max <= 0 then 0 else max, results[..count])
    {
      ghost var want := InRange(Entries(view.root), low, high, if max <= 0 then 0 else max);
      ghost var keys := RangeMeans(view, low, high, if max <= 0 then 0 else max, order);
      if max <= 0 {
        return 0;
      }
      if low > high {
        InRangeEmpty(Entries(view.root), low, high, max);
        return 0;
      }
      RepMatches(shape, view.root, order);
      LeafChain(root, shape, view.root, view.height, order, area);
      ghost var j := ScanStart(shape, view.root, low, high, max, view.height, order);
      var leaf := FindLeaf(root, low, order, shape, view.root, view.height, area);
      count := ScanChain(leaf, low, high, results, max, order, Leaves(shape), LeafTrees(view.root), j, area, want);
    }

    /** btree_delete */
    method Delete(k: Key) returns (ok: bool)
      requires Valid() && InKeyRange(k)
      modifies this, area
      ensures Valid() && area == old(area)
      ensures var r := DeleteRoot(old(view), k, order);
              ok == r.Some? && view == (if ok then r.value else old(view)) && dirty == (ok || old(dirty))
      ensures ok == (k in Contents(old(view))) && Contents(view) == if ok then Contents(old(view)) - {k} else Contents(old(view))
    {
      DeleteRootSound(view, k, order);
      ok := DeleteAtRoot(root, k, order, shape, view.root, view.height, area);
      if ok {
        size := (size - 1) % KEY_LIMIT;
        dirty := true;
        view := DeleteRoot(view, k, order).value;
      } else {
        DeleteMissing(view.root, k, view.height, order);
      }
    }

    /** btree_update */
    method Update(k: Key, v: RecordPtr) returns (ok: bool)
      requires Valid() && InKeyRange(k)
      modifies this, area
      ensures Valid() && area == old(area)
      ensures var r := UpdateRoot(old(view), k, v, order);
              ok == r.Some? && view == (if ok then r.value else old(view)) && dirty == (ok || old(dirty))
      ensures ok == (k in Contents(old(view))) && Contents(view) == if ok then Contents(old(view))[k := v] else Contents(old(view))
    {
      UpdateRootSound(view, k, v, order);
      ok := UpdateAtRoot(root, k, v, order, shape, view.root, view.height, area);
      if ok {
        dirty := true;
        view := UpdateRoot(view, k, v, order).value;
      } else {
        UpdateMissing(view.root, k, v, view.height, order);
      }
    }
  }

  lemma {:induction false} DeleteMissing(t: Tree, k: Key, h: nat, order: nat)
    requires Shaped(t, h, order) && Lookup(t, k, h, order).None?
    ensures BTreeModel.Delete(t, k, h, order) == t
    decreases t
  {
    if t.Inner? {
      var i := ChildIndex(t.keys, k);
      DeleteMissing(t.kids[i], k, h - 1, order);
      assert t.kids[i := t.kids[i]] == t.kids;
    }
  }

  lemma {:induction false} UpdateMissing(t: Tree, k: Key, v: RecordPtr, h: nat, order: nat)
    requires Shaped(t, h, order) && Lookup(t, k, h, order).None?
    ensures BTreeModel.Update(t, k, v, h, order) == t
    decreases t
  {
    if t.Inner? {
      var i := ChildIndex(t.keys, k);
      UpdateMissing(t.kids[i], k, v, h - 1, order);
      assert t.kids[i := t.kids[i]] == t.kids;
    }
  }
}
