// The B+ tree as btree.c builds it: nodes with fixed arrays, shifted and split in place, leaves chained by `next`.
module BTree {
  import opened BTreeModel
  import opened BTreeHistory
  import opened Common

  class Node {
    const isLeaf: bool
    var numKeys: nat
    const keys: array<Key>
    const values: array<RecordPtr>
    const children: array<Node?>
    var next: Node?

    /** node_create: room for one key, and one child, more than a node at rest may hold. */
    constructor (order: nat, isLeaf: bool)
      ensures this.isLeaf == isLeaf && numKeys == 0 && next == null
      ensures fresh(keys) && fresh(values) && fresh(children)
      ensures keys.Length == order
      ensures isLeaf ==> values.Length == order
      ensures !isLeaf ==> children.Length == order + 1
    {
      this.isLeaf := isLeaf;
      numKeys := 0;
      next := null;
      keys := new Key[order](_ => 0);
      values := new RecordPtr[if isLeaf then order else 0](_ => RecordPtr(0, 0));
      children := new Node?[if isLeaf then 0 else order + 1](_ => null);
    }
  }

  // ---------------------------------------------------------------------------
  // Ghost view: which nodes make up a subtree, and which tree they represent
  // ---------------------------------------------------------------------------

  datatype Shape = LeafS(n: Node) | InnerS(n: Node, kids: seq<Shape>)

  /** The union of btree_node: values in a leaf, child pointers elsewhere. */
  ghost function Payload(n: Node): object {
    if n.isLeaf then n.values else n.children
  }

  ghost function Own(n: Node): set<object> {
    {n, n.keys, Payload(n)}
  }

  ghost function Objs(s: Shape): set<object>
    decreases s
  {
    match s
    case LeafS(n) => Own(n)
    case InnerS(n, kids) => Own(n) + ObjsAll(kids)
  }

  ghost function ObjsAll(ss: seq<Shape>): set<object>
    decreases ss
  {
    if ss == [] then {} else Objs(ss[0]) + ObjsAll(ss[1..])
  }

  lemma {:induction false} KidObjs(kids: seq<Shape>)
    ensures forall j :: 0 <= j < |kids| ==> Objs(kids[j]) <= ObjsAll(kids)
    decreases |kids|
  {
    if kids != [] {
      KidObjs(kids[1..]);
      forall j | 0 < j < |kids| ensures Objs(kids[j]) <= ObjsAll(kids) {
        assert kids[j] == kids[1..][j - 1];
      }
    }
  }

  lemma KidIn(kids: seq<Shape>, i: nat)
    requires i < |kids|
    ensures Objs(kids[i]) <= ObjsAll(kids)
  {
    KidObjs(kids);
  }

  lemma {:induction false} ObjsAppend(a: seq<Shape>, b: seq<Shape>)
    ensures ObjsAll(a + b) == ObjsAll(a) + ObjsAll(b)
    decreases |a|
  {
    if a == [] {
      assert a + b == b;
    } else {
      ObjsAppend(a[1..], b);
      assert (a + b)[1..] == a[1..] + b;
    }
  }

  lemma {:induction false} ObjsAllWithin(ss: seq<Shape>, bound: set<object>)
    requires forall j :: 0 <= j < |ss| ==> Objs(ss[j]) <= bound
    ensures ObjsAll(ss) <= bound
    decreases |ss|
  {
    if ss != [] {
      ObjsAllWithin(ss[1..], bound);
    }
  }

  lemma {:induction false} ObjsAllApart(ss: seq<Shape>, other: set<object>)
    requires forall j :: 0 <= j < |ss| ==> Objs(ss[j]) !! other
    ensures ObjsAll(ss) !! other
    decreases |ss|
  {
    if ss != [] {
      ObjsAllApart(ss[1..], other);
    }
  }

  /** No object is shared between two places of the subtree. */
  ghost predicate Separate(s: Shape)
    decreases s
  {
    match s
    case LeafS(n) => true
    case InnerS(n, kids) =>
      && (forall i :: 0 <= i < |kids| ==> Separate(kids[i]) && Own(n) !! Objs(kids[i]))
      && Apart(kids)
  }

  ghost predicate Apart(kids: seq<Shape>) {
    forall i, j :: 0 <= i < j < |kids| ==> Objs(kids[i]) !! Objs(kids[j])
  }

  ghost predicate NodeRep(n: Node, leaf: bool, keys: seq<Key>, order: nat)
    reads Own(n)
  {
    && n.isLeaf == leaf
    && n.keys.Length == order && |keys| <= order
    && n.numKeys == |keys| && n.keys[..|keys|] == keys
    && n.keys as object != Payload(n)
  }

  ghost function Roots(ss: seq<Shape>): (r: seq<Node?>)
    ensures |r| == |ss|
    ensures forall i :: 0 <= i < |r| ==> r[i] == ss[i].n
  {
    seq(|ss|, i requires 0 <= i < |ss| => ss[i].n)
  }

  /** The objects of `s` hold exactly the tree `t`. */
  ghost predicate Rep(s: Shape, t: Tree, order: nat)
    reads Objs(s)
    decreases s
  {
    match s
    case LeafS(n) =>
      && t.Leaf? && NodeRep(n, true, t.keys, order)
      && n.values.Length == order && |t.vals| == |t.keys| && n.values[..|t.vals|] == t.vals
    case InnerS(n, kids) =>
      KidObjs(kids);
      && t.Inner? && NodeRep(n, false, t.keys, order)
      && n.children.Length == order + 1 && |t.kids| == |t.keys| + 1 == |kids|
      && n.children[..|kids|] == Roots(kids)
      && forall i :: 0 <= i < |kids| ==> Rep(kids[i], t.kids[i], order)
  }

  ghost predicate KidsRep(kids: seq<Shape>, ts: seq<Tree>, order: nat)
    reads ObjsAll(kids)
  {
    KidObjs(kids);
    |kids| == |ts| && forall i :: 0 <= i < |kids| ==> Rep(kids[i], ts[i], order)
  }

  lemma FoldInner(n: Node, kids: seq<Shape>, keys: seq<Key>, ts: seq<Tree>, order: nat)
    requires NodeRep(n, false, keys, order) && n.children.Length == order + 1
    requires |kids| == |keys| + 1 && n.children[..|kids|] == Roots(kids)
    requires KidsRep(kids, ts, order)
    ensures Rep(InnerS(n, kids), Inner(keys, ts), order)
  {
  }

  lemma KidsRepSlice(kids: seq<Shape>, ts: seq<Tree>, order: nat, a: nat, b: nat)
    requires KidsRep(kids, ts, order) && a <= b <= |kids|
    ensures KidsRep(kids[a..b], ts[a..b], order) && Roots(kids[a..b]) == Roots(kids)[a..b]
  {
  }

  ghost function Leaves(s: Shape): seq<Node>
    decreases s
  {
    match s
    case LeafS(n) => [n]
    case InnerS(_, kids) => LeavesAll(kids)
  }

  ghost function LeavesAll(ss: seq<Shape>): seq<Node>
    decreases ss
  {
    if ss == [] then [] else Leaves(ss[0]) + LeavesAll(ss[1..])
  }

  // ---------------------------------------------------------------------------
  // Array helpers
  // ---------------------------------------------------------------------------

  /** key_lower_bound: binary search finds the lower bound. */
  method KeyLowerBound(n: Node, target: Key) returns (lo: nat)
    requires n.numKeys <= n.keys.Length && Ascending(n.keys[..n.numKeys])
    ensures lo == LowerBound(n.keys[..n.numKeys], target)
  {
    lo := 0;
    var hi := n.numKeys;
    ghost var ks := n.keys[..n.numKeys];
    while lo < hi
      invariant 0 <= lo <= hi <= n.numKeys
      invariant forall i :: 0 <= i < lo ==> ks[i] < target
      invariant forall i :: hi <= i < |ks| ==> target <= ks[i]
    {
      var mid := (lo + hi) / 2;
      assert n.keys[mid] == ks[mid];
      if n.keys[mid] < target {
        lo := mid + 1;
      } else {
        hi := mid;
      }
    }
    LowerBoundUnique(ks, target, lo);
  }

  /** Shifts a[pos..n] right by one and stores x at pos. */
  method ShiftIn<T>(a: array<T>, n: nat, pos: nat, x: T)
    requires pos <= n < a.Length
    modifies a
    ensures a[..n + 1] == InsertAt(old(a[..n]), pos, x)
  {
    var i := n;
    while i > pos
      invariant pos <= i <= n
      invariant forall j :: 0 <= j <= i && j < n ==> a[j] == old(a[j])
      invariant forall j :: i < j <= n ==> a[j] == old(a[j - 1])
    {
      a[i] := a[i - 1];
      i := i - 1;
    }
    a[pos] := x;
  }

  /** Shifts a[pos + 1..n] left by one. */
  method ShiftOut<T>(a: array<T>, n: nat, pos: nat)
    requires pos < n <= a.Length
    modifies a
    ensures a[..n - 1] == RemoveAt(old(a[..n]), pos)
  {
    var i := pos;
    while i < n - 1
      invariant pos <= i <= n - 1
      invariant forall j :: 0 <= j < i ==> a[j] == if j < pos then old(a[j]) else old(a[j + 1])
      invariant forall j :: i <= j < n ==> a[j] == old(a[j])
    {
      a[i] := a[i + 1];
      i := i + 1;
    }
  }

  /** memcpy of src[from..n] to the front of dst. */
  method CopyTail<T>(src: array<T>, from: nat, n: nat, dst: array<T>)
    requires from <= n <= src.Length && n - from <= dst.Length && src != dst
    modifies dst
    ensures dst[..n - from] == old(src[from..n])
  {
    var i := 0;
    while i < n - from
      invariant 0 <= i <= n - from
      invariant forall j :: 0 <= j < i ==> dst[j] == src[from + j]
    {
      dst[i] := src[from + i];
      i := i + 1;
    }
  }

  // ---------------------------------------------------------------------------
  // Insertion in place
  // ---------------------------------------------------------------------------

  datatype SplitOutcome = NoSplit | DidSplit(promoted: Key, right: Node)

  method SplitLeafInPlace(n: Node, order: nat, ghost t: Tree) returns (promoted: Key, right: Node)
    requires t.Leaf? && Rep(LeafS(n), t, order) && |t.keys| >= 2
    modifies Own(n)
    ensures fresh(Own(right))
    ensures var r := SplitLeaf(t);
            promoted == r.promoted && Rep(LeafS(n), r.left, order) && Rep(LeafS(right), r.right, order)
    ensures n.next == right && right.next == old(n.next)
  {
    var total := n.numKeys;
    var mid := total / 2;
    right := new Node(order, true);
    CopyTail(n.keys, mid, total, right.keys);
    CopyTail(n.values, mid, total, right.values);
    right.numKeys := total - mid;
    n.numKeys := mid;
    right.next := n.next;
    n.next := right;
    promoted := right.keys[0];
    assert right.keys[..total - mid] == t.keys[mid..];
    assert n.keys[..mid] == t.keys[..mid] && n.values[..mid] == t.vals[..mid];
  }

  method InsertIntoLeaf(n: Node, k: Key, v: RecordPtr, order: nat, ghost t: Tree)
    returns (duplicate: bool, split: SplitOutcome)
    requires t.Leaf? && Rep(LeafS(n), t, order) && Ascending(t.keys) && |t.keys| + 2 <= order && order >= 3
    modifies Own(n)
    ensures var r := LeafInsert(t, k, v, order);
            && duplicate == r.Duplicate?
            && (r.Duplicate? ==> split.NoSplit? && Rep(LeafS(n), t, order) && n.next == old(n.next))
            && (r.Done? ==> split.NoSplit? && Rep(LeafS(n), r.tree, order) && n.next == old(n.next))
            && (r.Split? ==> split.DidSplit? && split.promoted == r.promoted && fresh(Own(split.right))
                             && Rep(LeafS(n), r.left, order) && Rep(LeafS(split.right), r.right, order)
                             && n.next == split.right && split.right.next == old(n.next))
  {
    var pos := KeyLowerBound(n, k);
    if pos < n.numKeys && n.keys[pos] == k {
      return true, NoSplit;
    }
    ShiftIn(n.keys, n.numKeys, pos, k);
    ShiftIn(n.values, n.numKeys, pos, v);
    n.numKeys := n.numKeys + 1;
    ghost var full := Leaf(InsertAt(t.keys, pos, k), InsertAt(t.vals, pos, v));
    assert Rep(LeafS(n), full, order);
    if n.numKeys >= order - 1 {
      var p, right := SplitLeafInPlace(n, order, full);
      return false, DidSplit(p, right);
    }
    return false, NoSplit;
  }

  /** The array work of split_internal, without regard to what the children hold. */
  method MoveUpperHalf(n: Node, order: nat) returns (promoted: Key, right: Node)
    requires 2 <= n.numKeys < order && n.keys.Length == order && n.children.Length == order + 1
    requires NodeRep(n, false, n.keys[..n.numKeys], order)
    modifies Own(n)
    ensures fresh(Own(right)) && right.children.Length == order + 1 && n.next == old(n.next)
    ensures var total, mid := old(n.numKeys), old(n.numKeys) / 2;
            && promoted == old(n.keys[mid])
            && NodeRep(n, false, old(n.keys[..mid]), order)
            && NodeRep(right, false, old(n.keys[mid + 1..total]), order)
            && n.children[..mid + 1] == old(n.children[..mid + 1])
            && right.children[..total - mid] == old(n.children[mid + 1..total + 1])
  {
    var total := n.numKeys;
    var mid := total / 2;
    right := new Node(order, false);
    promoted := n.keys[mid];
    CopyTail(n.keys, mid + 1, total, right.keys);
    CopyTail(n.children, mid + 1, total + 1, right.children);
    right.numKeys := total - mid - 1;
    n.numKeys := mid;
  }

  // Every method below gets a set `all` that covers the subtree it works on: what lies in `all` but outside the
  // method's frame keeps its meaning.

  method SplitInnerInPlace(n: Node, order: nat, ghost kids: seq<Shape>, ghost t: Tree, ghost all: set<object>)
    returns (promoted: Key, right: Node)
    requires t.Inner? && Rep(InnerS(n, kids), t, order) && 2 <= |t.keys| < order
    requires forall i :: 0 <= i < |kids| ==> Own(n) !! Objs(kids[i]) && Objs(kids[i]) <= all
    modifies Own(n)
    ensures fresh(Own(right)) && n.next == old(n.next)
    ensures var r, mid := SplitInner(t), |t.keys| / 2;
            && promoted == r.promoted
            && Rep(InnerS(n, kids[..mid + 1]), r.left, order)
            && Rep(InnerS(right, kids[mid + 1..]), r.right, order)
  {
    ghost var mid, count := |t.keys| / 2, |t.keys| + 1;
    assert KidsRep(kids, t.kids, order) == true;
    promoted, right := MoveUpperHalf(n, order);
    assert KidsRep(kids, t.kids, order) == true;
    FoldSlice(n, kids, t.keys[..mid], t.kids, order, 0, mid + 1);
    SliceTo(kids, mid + 1);
    SliceTo(t.kids, mid + 1);
    FoldSlice(right, kids, t.keys[mid + 1..], t.kids, order, mid + 1, count);
    SliceFrom(kids, mid + 1, count);
    SliceFrom(t.kids, mid + 1, count);
  }

  /** A node whose children are some of those in `kids`, in order. */
  lemma FoldSlice(n: Node, kids: seq<Shape>, keys: seq<Key>, ts: seq<Tree>, order: nat, a: nat, b: nat)
    requires KidsRep(kids, ts, order) == true && a <= b <= |kids| == |ts| && b - a == |keys| + 1 && |keys| < order
    requires NodeRep(n, false, keys, order) && n.children.Length == order + 1 && n.children[..b - a] == Roots(kids)[a..b]
    ensures Rep(InnerS(n, kids[a..b]), Inner(keys, ts[a..b]), order) == true
  {
    KidsRepSlice(kids, ts, order, a, b);
    FoldInner(n, kids[a..b], keys, ts[a..b], order);
  }

  /** The array work of taking in a new separator and the child right of it. */
  method TakeIn(n: Node, pos: nat, p: Key, right: Node, order: nat)
    requires n.numKeys + 1 < order == n.keys.Length && pos <= n.numKeys && n.children.Length == order + 1
    requires NodeRep(n, false, n.keys[..n.numKeys], order)
    modifies Own(n)
    ensures n.numKeys == old(n.numKeys) + 1 && n.next == old(n.next)
    ensures NodeRep(n, false, InsertAt(old(n.keys[..n.numKeys]), pos, p), order)
    ensures n.children[..n.numKeys + 1] == InsertAt(old(n.children[..n.numKeys + 1]), pos + 1, right)
  {
    ShiftIn(n.keys, n.numKeys, pos, p);
    ShiftIn(n.children, n.numKeys + 1, pos + 1, right);
    n.numKeys := n.numKeys + 1;
  }

  lemma KidsRepInsert(kids: seq<Shape>, ts: seq<Tree>, order: nat, i: nat, s: Shape, q: Tree)
    requires KidsRep(kids, ts, order) && i <= |kids| && Rep(s, q, order)
    ensures KidsRep(InsertAt(kids, i, s), InsertAt(ts, i, q), order)
    ensures Roots(InsertAt(kids, i, s)) == InsertAt(Roots(kids), i, s.n)
  {
  }

  method WidenInPlace(n: Node, pos: nat, p: Key, right: Node, order: nat,
                      ghost kids: seq<Shape>, ghost t: Tree, ghost s2: Shape, ghost q: Tree, ghost all: set<object>)
    requires t.Inner? && Rep(InnerS(n, kids), t, order) && |t.keys| + 2 <= order && pos <= |t.keys|
    requires Separate(InnerS(n, kids)) && Objs(InnerS(n, kids)) <= all
    requires s2.n == right && Rep(s2, q, order) && Own(n) !! Objs(s2) && Objs(s2) <= all
    modifies Own(n)
    ensures n.next == old(n.next)
    ensures Rep(InnerS(n, InsertAt(kids, pos + 1, s2)), Inner(InsertAt(t.keys, pos, p), InsertAt(t.kids, pos + 1, q)), order)
  {
    KidObjs(kids);
    assert KidsRep(kids, t.kids, order);
    TakeIn(n, pos, p, right, order);
    KidsRepInsert(kids, t.kids, order, pos + 1, s2, q);
    FoldInner(n, InsertAt(kids, pos + 1, s2), InsertAt(t.keys, pos, p), InsertAt(t.kids, pos + 1, q), order);
  }

  // ---------------------------------------------------------------------------
  // Separation and leaf order of rebuilt subtrees
  // ---------------------------------------------------------------------------

  lemma SeparateReplace(n: Node, kids: seq<Shape>, i: nat, c: Shape, area: set<object>)
    requires Separate(InnerS(n, kids)) && i < |kids| && Separate(c)
    requires Objs(c) <= area && KeepsOut(n, kids, i, area)
    ensures Separate(InnerS(n, kids[i := c]))
  {
    KidObjs(kids);
  }

  lemma ObjsReplace(n: Node, kids: seq<Shape>, i: nat, c: Shape)
    requires i < |kids|
    ensures Objs(InnerS(n, kids[i := c])) <= Objs(InnerS(n, kids)) + Objs(c)
  {
    KidObjs(kids);
    ObjsAllWithin(kids[i := c], Objs(InnerS(n, kids)) + Objs(c));
  }

  lemma ObjsInsert(n: Node, kids: seq<Shape>, i: nat, c: Shape)
    requires i <= |kids|
    ensures Objs(InnerS(n, InsertAt(kids, i, c))) == Objs(InnerS(n, kids)) + Objs(c)
  {
    ObjsAppend(kids[..i] + [c], kids[i..]);
    ObjsAppend(kids[..i], [c]);
    ObjsAppend(kids[..i], kids[i..]);
    assert kids == kids[..i] + kids[i..];
    assert [c][1..] == [];
  }

  lemma SeparateInsert(n: Node, kids: seq<Shape>, i: nat, c: Shape)
    requires Separate(InnerS(n, kids)) && i <= |kids| && Separate(c)
    requires Objs(InnerS(n, kids)) !! Objs(c)
    ensures Separate(InnerS(n, InsertAt(kids, i, c)))
  {
    KidObjs(kids);
    ApartInsert(kids, i, c);
  }

  lemma ApartInsert(kids: seq<Shape>, i: nat, c: Shape)
    requires Apart(kids) && i <= |kids|
    requires forall j :: 0 <= j < |kids| ==> Objs(kids[j]) !! Objs(c)
    ensures Apart(InsertAt(kids, i, c))
  {
    var ks := InsertAt(kids, i, c);
    assert forall j :: 0 <= j < |ks| ==> ks[j] == if j < i then kids[j] else if j == i then c else kids[j - 1];
    forall a, b | 0 <= a < b < |ks| ensures Objs(ks[a]) !! Objs(ks[b]) {
      if a == i {
        assert ks[b] == kids[b - 1];
      } else if b == i {
        assert ks[a] == kids[a];
      } else {
        var a', b' := if a < i then a else a - 1, if b < i then b else b - 1;
        assert ks[a] == kids[a'] && ks[b] == kids[b'] && a' < b';
      }
    }
  }

  lemma SeparateHalves(n: Node, right: Node, kids: seq<Shape>, m: nat)
    requires Separate(InnerS(n, kids)) && m <= |kids|
    requires Own(right) !! Objs(InnerS(n, kids))
    ensures Separate(InnerS(n, kids[..m])) && Separate(InnerS(right, kids[m..]))
  {
    KidObjs(kids);
    forall j | 0 <= j < |kids| - m ensures kids[m..][j] == kids[m + j] {}
  }

  lemma HalvesApart(n: Node, right: Node, kids: seq<Shape>, m: nat)
    requires Separate(InnerS(n, kids)) && m <= |kids|
    requires Own(right) !! Objs(InnerS(n, kids))
    ensures Objs(InnerS(n, kids[..m])) !! Objs(InnerS(right, kids[m..]))
  {
    KidObjs(kids);
    forall i | 0 <= i < m ensures Objs(kids[..m][i]) !! Objs(InnerS(right, kids[m..])) {
      forall j | 0 <= j < |kids| - m ensures Objs(kids[m..][j]) !! Objs(kids[..m][i]) {
        assert kids[..m][i] == kids[i] && kids[m..][j] == kids[m + j];
      }
      ObjsAllApart(kids[m..], Objs(kids[..m][i]));
    }
    ObjsAllApart(kids[..m], Objs(InnerS(right, kids[m..])));
    ObjsAllApart(kids[m..], Own(n));
  }

  lemma ObjsHalves(n: Node, right: Node, kids: seq<Shape>, m: nat)
    requires m <= |kids|
    ensures Objs(InnerS(n, kids[..m])) <= Objs(InnerS(n, kids))
    ensures Objs(InnerS(right, kids[m..])) <= Objs(InnerS(n, kids)) + Own(right)
  {
    ObjsAppend(kids[..m], kids[m..]);
    assert kids == kids[..m] + kids[m..];
  }

  lemma {:induction false} LeavesAppend(a: seq<Shape>, b: seq<Shape>)
    ensures LeavesAll(a + b) == LeavesAll(a) + LeavesAll(b)
    decreases |a|
  {
    if a == [] {
      assert a + b == b;
    } else {
      LeavesAppend(a[1..], b);
      assert (a + b)[1..] == a[1..] + b;
      AppendAssoc(Leaves(a[0]), LeavesAll(a[1..]), LeavesAll(b));
    }
  }

  lemma LeavesReplace(ss: seq<Shape>, i: nat, us: seq<Shape>)
    requires i < |ss|
    ensures LeavesAll(ss[..i] + us + ss[i + 1..]) == LeavesAll(ss[..i]) + LeavesAll(us) + LeavesAll(ss[i + 1..])
    ensures LeavesAll(ss) == LeavesAll(ss[..i]) + Leaves(ss[i]) + LeavesAll(ss[i + 1..])
  {
    LeavesAppend(ss[..i] + us, ss[i + 1..]);
    LeavesAppend(ss[..i], us);
    LeavesAppend(ss[..i] + [ss[i]], ss[i + 1..]);
    LeavesAppend(ss[..i], [ss[i]]);
    assert [ss[i]][1..] == [];
    assert ss == ss[..i] + [ss[i]] + ss[i + 1..];
  }

  // ---------------------------------------------------------------------------
  // insert_recursive
  // ---------------------------------------------------------------------------

  /** The leaf sequence after an insertion: the same, or with one new leaf right after leaf `at`. */
  ghost function GrownLeaves(ls: seq<Node>, at: nat, added: Option<Node>): seq<Node>
    requires at < |ls|
  {
    match added
    case None => ls
    case Some(x) => InsertAt(ls, at + 1, x)
  }

  lemma GrownLocal(a: seq<Node>, m: seq<Node>, b: seq<Node>, at: nat, added: Option<Node>)
    requires at < |m|
    ensures GrownLeaves(a + m + b, |a| + at, added) == a + GrownLeaves(m, at, added) + b
    ensures (a + m + b)[|a| + at] == m[at]
  {
    if added.Some? {
      InsertAtMiddle(a, m, b, at + 1, added.value);
    }
  }

  /** The nodes hold what the value-level insertion `r` of `t` says. */
  ghost predicate Outcome(r: InsertResult, duplicate: bool, split: SplitOutcome,
                          s: Shape, t: Tree, s1: Shape, s2: Shape, order: nat)
    reads Objs(s), Objs(s1), Objs(s2)
  {
    && s1.n == s.n && Separate(s1)
    && match r
       case Duplicate => duplicate && split.NoSplit? && s1 == s && Rep(s, t, order)
       case Done(t') => !duplicate && split.NoSplit? && Rep(s1, t', order)
       case Split(l, p, q) =>
         && !duplicate && split == DidSplit(p, s2.n)
         && Rep(s1, l, order) && Rep(s2, q, order) && Separate(s2) && Objs(s1) !! Objs(s2)
  }

  ghost predicate LeavesGrown(s: Shape, split: SplitOutcome, s1: Shape, s2: Shape, at: nat, added: Option<Node>) {
    && at < |Leaves(s)|
    && GrownLeaves(Leaves(s), at, added) == Leaves(s1) + (if split.DidSplit? then Leaves(s2) else [])
  }

  ghost function NextOf(all: set<object>): map<Node, Node?>
    reads all
  {
    map o: Node | o in all :: o.next
  }

  /** Going from `before` to `now`, no `next` pointer moves, except that a new leaf is linked in behind `leaf`. */
  ghost predicate Relinked(before: map<Node, Node?>, now: map<Node, Node?>, leaf: Node, added: Option<Node>)
    reads if added.Some? then {added.value} else {}
  {
    && leaf in before
    && match added
       case None => now == before
       case Some(x) => now == before[leaf := x] && x.next == before[leaf]
  }

  method InsertAtLeaf(n: Node, k: Key, v: RecordPtr, order: nat, ghost t: Tree, ghost all: set<object>)
    returns (duplicate: bool, split: SplitOutcome, ghost s1: Shape, ghost s2: Shape, ghost area: set<object>,
             ghost at: nat, ghost added: Option<Node>)
    requires Rep(LeafS(n), t, order) && Own(n) <= all
    requires Ascending(t.keys) && |t.keys| + 2 <= order && order >= 3
    modifies Own(n)
    ensures Outcome(LeafInsert(t, k, v, order), duplicate, split, LeafS(n), t, s1, s2, order)
    ensures Objs(s1) <= area && (split.DidSplit? ==> Objs(s2) <= area)
    ensures forall o :: o in area ==> o in Own(n) || fresh(o)
    ensures LeavesGrown(LeafS(n), split, s1, s2, at, added) && Relinked(old(NextOf(all)), NextOf(all), Leaves(LeafS(n))[at], added)
    ensures added.Some? ==> fresh(added.value)
  {
    duplicate, split := InsertIntoLeaf(n, k, v, order, t);
    s1, s2, area, at, added := LeafS(n), LeafS(n), Own(n), 0, None;
    if split.DidSplit? {
      s2 := LeafS(split.right);
      area := Own(n) + Own(split.right);
      added := Some(split.right);
    }
  }

  ghost function Full(t: Tree, i: nat, p: Key, q: Tree): Tree
    requires t.Inner? && i <= |t.keys| && i < |t.kids|
  {
    Inner(InsertAt(t.keys, i, p), InsertAt(t.kids, i + 1, q))
  }

  ghost function Settle(t: Tree, order: nat): InsertResult
    requires t.Inner? && |t.kids| == |t.keys| + 1 && order >= 3
  {
    if |t.keys| >= order - 1 then SplitInner(t) else Done(t)
  }

  method SplitFull(n: Node, order: nat, ghost kids: seq<Shape>, ghost t: Tree, ghost all: set<object>)
    returns (split: SplitOutcome, ghost s1: Shape, ghost s2: Shape, ghost news: set<object>)
    requires t.Inner? && Rep(InnerS(n, kids), t, order) && Separate(InnerS(n, kids)) && 2 <= |t.keys| < order
    requires Objs(InnerS(n, kids)) <= all
    modifies Own(n)
    ensures split.DidSplit? && Outcome(SplitInner(t), false, split, InnerS(n, kids), t, s1, s2, order)
    ensures fresh(news) && Objs(s1) <= all + news && Objs(s2) <= all + news
    ensures Leaves(s1) + Leaves(s2) == LeavesAll(kids)
    ensures n.next == old(n.next)
  {
    KidObjs(kids);
    ghost var m := |t.keys| / 2 + 1;
    var up, half := SplitInnerInPlace(n, order, kids, t, all);
    split, s1, s2 := DidSplit(up, half), InnerS(n, kids[..m]), InnerS(half, kids[m..]);
    news := Own(half);
    Halved(n, half, kids, m);
  }

  lemma Halved(n: Node, right: Node, kids: seq<Shape>, m: nat)
    requires Separate(InnerS(n, kids)) && m <= |kids|
    requires Own(right) !! Objs(InnerS(n, kids))
    ensures var s1, s2 := InnerS(n, kids[..m]), InnerS(right, kids[m..]);
            && Separate(s1) && Separate(s2) && Objs(s1) !! Objs(s2)
            && Objs(s1) <= Objs(InnerS(n, kids)) && Objs(s2) <= Objs(InnerS(n, kids)) + Own(right)
            && Leaves(s1) + Leaves(s2) == LeavesAll(kids)
  {
    var s1, s2 := InnerS(n, kids[..m]), InnerS(right, kids[m..]);
    assert Separate(s1) && Separate(s2) by { SeparateHalves(n, right, kids, m); }
    assert Objs(s1) !! Objs(s2) by { HalvesApart(n, right, kids, m); }
    ObjsHalves(n, right, kids, m);
    LeavesAppend(kids[..m], kids[m..]);
    assert kids == kids[..m] + kids[m..];
  }

  lemma Widened(n: Node, kids: seq<Shape>, i: nat, c: Shape)
    requires Separate(InnerS(n, kids)) && i <= |kids| && Separate(c)
    requires Objs(InnerS(n, kids)) !! Objs(c)
    ensures var s := InnerS(n, InsertAt(kids, i, c));
            && Separate(s) && Objs(s) == Objs(InnerS(n, kids)) + Objs(c)
            && Leaves(s) == LeavesAll(kids[..i]) + Leaves(c) + LeavesAll(kids[i..])
  {
    SeparateInsert(n, kids, i, c);
    ObjsInsert(n, kids, i, c);
    LeavesInsert(kids, i, c);
  }

  lemma LeavesInsert(kids: seq<Shape>, i: nat, c: Shape)
    requires i <= |kids|
    ensures LeavesAll(InsertAt(kids, i, c)) == LeavesAll(kids[..i]) + Leaves(c) + LeavesAll(kids[i..])
  {
    LeavesAppend(kids[..i] + [c], kids[i..]);
    LeavesAppend(kids[..i], [c]);
    assert [c][1..] == [];
  }

  method WidenSeparately(n: Node, p: Key, right: Node, order: nat, ghost i: nat, ghost kids: seq<Shape>, ghost t: Tree,
                         ghost c2: Shape, ghost q: Tree, ghost all: set<object>)
    returns (ghost ks: seq<Shape>)
    requires t.Inner? && Rep(InnerS(n, kids), t, order) && Separate(InnerS(n, kids))
    requires Ascending(t.keys) && LowerBound(t.keys, p) == i && |t.keys| + 2 <= order
    requires c2.n == right && Rep(c2, q, order) && Separate(c2) && Objs(InnerS(n, kids)) !! Objs(c2)
    requires Objs(InnerS(n, kids)) + Objs(c2) <= all
    modifies Own(n)
    ensures n.next == old(n.next)
    ensures Rep(InnerS(n, ks), Full(t, i, p, q), order) && Separate(InnerS(n, ks)) && Objs(InnerS(n, ks)) <= all
    ensures Leaves(InnerS(n, ks)) == LeavesAll(kids[..i + 1]) + Leaves(c2) + LeavesAll(kids[i + 1..])
  {
    var pos := KeyLowerBound(n, p);
    WidenInPlace(n, pos, p, right, order, kids, t, c2, q, all);
    ks := InsertAt(kids, i + 1, c2);
    Widened(n, kids, i + 1, c2);
  }

  /** The rest of insert_recursive at a node whose child `i` has split into itself and `right`. */
  method AbsorbSplit(n: Node, p: Key, right: Node, order: nat, ghost i: nat, ghost kids: seq<Shape>, ghost t: Tree,
                     ghost c2: Shape, ghost q: Tree, ghost all: set<object>)
    returns (split: SplitOutcome, ghost s1: Shape, ghost s2: Shape, ghost news: set<object>)
    requires t.Inner? && Rep(InnerS(n, kids), t, order) && Separate(InnerS(n, kids))
    requires Ascending(t.keys) && LowerBound(t.keys, p) == i && |t.keys| + 2 <= order && order >= 3
    requires c2.n == right && Rep(c2, q, order) && Separate(c2) && Objs(InnerS(n, kids)) !! Objs(c2)
    requires Objs(InnerS(n, kids)) + Objs(c2) <= all
    modifies Own(n)
    ensures Outcome(Settle(Full(t, i, p, q), order), false, split, InnerS(n, kids), t, s1, s2, order)
    ensures fresh(news) && Objs(s1) <= all + news && (split.DidSplit? ==> Objs(s2) <= all + news)
    ensures Leaves(s1) + (if split.DidSplit? then Leaves(s2) else [])
         == LeavesAll(kids[..i + 1]) + Leaves(c2) + LeavesAll(kids[i + 1..])
    ensures n.next == old(n.next)
  {
    ghost var full := Full(t, i, p, q);
    ghost var ks := WidenSeparately(n, p, right, order, i, kids, t, c2, q, all);
    if n.numKeys >= order - 1 {
      split, s1, s2, news := SplitFull(n, order, ks, full, all);
    } else {
      split, s1, s2, news := NoSplit, InnerS(n, ks), c2, {};
      assert Leaves(s1) + [] == Leaves(s1);
    }
  }

  /** What child `i` represents after the insertion into it, the half that stayed in place if it split. */
  ghost function Kept(r: InsertResult, before: Tree): Tree {
    match r
    case Duplicate => before
    case Done(t) => t
    case Split(l, _, _) => l
  }

  lemma KidsRepReplace(kids: seq<Shape>, ts: seq<Tree>, order: nat, i: nat, c: Shape, t: Tree)
    requires |kids| == |ts| && i < |kids| && c.n == kids[i].n && Rep(c, t, order)
    requires forall j :: 0 <= j < |kids| && j != i ==> Rep(kids[j], ts[j], order)
    ensures KidsRep(kids[i := c], ts[i := t], order) && Roots(kids[i := c]) == Roots(kids)
  {
  }

  /** What an internal node knows of child `i` and of its siblings. */
  lemma SiblingFacts(n: Node, i: nat, kids: seq<Shape>, t: Tree, lo: int, hi: int, h: nat, order: nat, all: set<object>)
    requires t.Inner? && |kids| == |t.kids| && i < |kids|
    requires Separate(InnerS(n, kids)) && Objs(InnerS(n, kids)) <= all && Valid(t, lo, hi, h, order)
    ensures Separate(kids[i]) && Objs(kids[i]) <= all && Own(n) !! Objs(kids[i])
    ensures forall j :: 0 <= j < |kids| && j != i ==> Objs(kids[j]) !! Objs(kids[i]) && Objs(kids[j]) <= all
    ensures h > 0 && |t.kids| == |t.keys| + 1 && Valid(t.kids[i], Low(t.keys, i, lo), High(t.keys, i, hi), h - 1, order)
  {
    KidObjs(kids);
  }

  method InsertIntoChild(n: Node, i: nat, k: Key, v: RecordPtr, order: nat, ghost kids: seq<Shape>, ghost t: Tree,
                         ghost lo: int, ghost hi: int, ghost h: nat, ghost all: set<object>)
    returns (duplicate: bool, split: SplitOutcome, ghost c1: Shape, ghost c2: Shape, ghost area: set<object>,
             ghost at: nat, ghost added: Option<Node>)
    requires t.Inner? && Rep(InnerS(n, kids), t, order) && Separate(InnerS(n, kids)) && Objs(InnerS(n, kids)) <= all
    requires Valid(t, lo, hi, h, order) && i < |kids| && order >= 3
    requires Low(t.keys, i, lo) <= k < High(t.keys, i, hi)
    modifies Objs(kids[i])
    ensures var r := Insert(t.kids[i], k, v, h - 1, order);
            && Outcome(r, duplicate, split, kids[i], t.kids[i], c1, c2, order) == true
            && Rep(InnerS(n, kids[i := c1]), Inner(t.keys, t.kids[i := Kept(r, t.kids[i])]), order)
    ensures Objs(c1) <= area && (split.DidSplit? ==> Objs(c2) <= area)
    ensures forall o :: o in area ==> o in Objs(kids[i]) || fresh(o)
    ensures LeavesGrown(kids[i], split, c1, c2, at, added) && Relinked(old(NextOf(all)), NextOf(all), Leaves(kids[i])[at], added)
    ensures added.Some? ==> fresh(added.value)
    decreases t, 0
  {
    ghost var r := Insert(t.kids[i], k, v, h - 1, order);
    SiblingFacts(n, i, kids, t, lo, hi, h, order, all);
    duplicate, split, c1, c2, area, at, added :=
      InsertRecursive(n.children[i], k, v, order, kids[i], t.kids[i], Low(t.keys, i, lo), High(t.keys, i, hi), h - 1, all);
    KidsRepReplace(kids, t.kids, order, i, c1, Kept(r, t.kids[i]));
    FoldInner(n, kids[i := c1], t.keys, t.kids[i := Kept(r, t.kids[i])], order);
  }

  /** Of the node's objects, `area` holds only those of child `i`. */
  ghost predicate KeepsOut(n: Node, kids: seq<Shape>, i: nat, area: set<object>)
    requires i < |kids|
  {
    forall o :: o in area && o in Objs(InnerS(n, kids)) ==> o in Objs(kids[i])
  }

  /** The two halves of a split child stay apart from the rest of the node. */
  lemma SiblingsApart(n: Node, kids: seq<Shape>, i: nat, c1: Shape, c2: Shape, area: set<object>)
    requires Separate(InnerS(n, kids)) && i < |kids| && KeepsOut(n, kids, i, area)
    requires Objs(c1) <= area && Objs(c2) <= area && Objs(c1) !! Objs(c2)
    ensures Objs(InnerS(n, kids[i := c1])) !! Objs(c2)
  {
    KidObjs(kids);
    var ks := kids[i := c1];
    forall j | 0 <= j < |ks| ensures Objs(ks[j]) !! Objs(c2) {
      if j != i {
        assert Objs(kids[j]) !! Objs(kids[i]);
      }
    }
    ObjsAllApart(ks, Objs(c2));
  }

  lemma LeavesOfPair(kids: seq<Shape>, i: nat, c1: Shape, more: seq<Node>)
    requires i < |kids|
    ensures LeavesAll(kids[i := c1][..i + 1]) + more + LeavesAll(kids[i := c1][i + 1..])
         == LeavesAll(kids[..i]) + (Leaves(c1) + more) + LeavesAll(kids[i + 1..])
  {
    assert kids[i := c1][..i + 1] == kids[..i] + [c1];
    assert kids[i := c1][i + 1..] == kids[i + 1..];
    LeavesAppend(kids[..i], [c1]);
    assert [c1][1..] == [];
  }

  lemma LeavesGrownAround(kids: seq<Shape>, i: nat, c1: Shape, tail: seq<Node>, at: nat, added: Option<Node>)
    requires i < |kids| && at < |Leaves(kids[i])|
    requires GrownLeaves(Leaves(kids[i]), at, added) == Leaves(c1) + tail
    ensures var base, ls := |LeavesAll(kids[..i])|, LeavesAll(kids);
            && base + at < |ls| && ls[base + at] == Leaves(kids[i])[at]
            && GrownLeaves(ls, base + at, added) == LeavesAll(kids[..i]) + (Leaves(c1) + tail) + LeavesAll(kids[i + 1..])
  {
    LeavesReplace(kids, i, [c1]);
    GrownLocal(LeavesAll(kids[..i]), Leaves(kids[i]), LeavesAll(kids[i + 1..]), at, added);
  }

  lemma LeavesOfOne(kids: seq<Shape>, i: nat, c1: Shape)
    requires i < |kids|
    ensures LeavesAll(kids[i := c1]) == LeavesAll(kids[..i]) + (Leaves(c1) + []) + LeavesAll(kids[i + 1..])
  {
    assert kids[i := c1] == kids[..i] + [c1] + kids[i + 1..];
    LeavesReplace(kids, i, [c1]);
    assert [c1][1..] == [];
    assert Leaves(c1) + [] == Leaves(c1);
  }

  /** Child `i` has split into `c1`, still in place, and `c2` with the new node `right` on top. */
  method FinishSplit(n: Node, p: Key, right: Node, order: nat, ghost i: nat, ghost kids: seq<Shape>, ghost t: Tree,
                     ghost c1: Shape, ghost c2: Shape, ghost q: Tree, ghost area: set<object>)
    returns (split: SplitOutcome, ghost s1: Shape, ghost s2: Shape, ghost area': set<object>)
    requires Separate(InnerS(n, kids)) && i < |kids| && KeepsOut(n, kids, i, area)
    requires t.Inner? && Rep(InnerS(n, kids[i := c1]), t, order)
    requires Ascending(t.keys) && LowerBound(t.keys, p) == i && |t.keys| + 2 <= order && order >= 3
    requires c2.n == right && Rep(c2, q, order) && Separate(c1) && Separate(c2) && Objs(c1) !! Objs(c2)
    requires Objs(c1) <= area && Objs(c2) <= area
    modifies Own(n)
    ensures Outcome(Settle(Full(t, i, p, q), order), false, split, InnerS(n, kids[i := c1]), t, s1, s2, order) == true
    ensures Objs(s1) <= area' && (split.DidSplit? ==> Objs(s2) <= area')
    ensures forall o :: o in area' ==> o in Objs(InnerS(n, kids)) || o in area || fresh(o)
    ensures Leaves(s1) + (if split.DidSplit? then Leaves(s2) else [])
         == LeavesAll(kids[..i]) + (Leaves(c1) + Leaves(c2)) + LeavesAll(kids[i + 1..])
    ensures forall o: Node :: old(allocated(o)) ==> o.next == old(o.next)
  {
    ghost var s, more := InnerS(n, kids), {};
    SeparateReplace(n, kids, i, c1, area);
    ObjsReplace(n, kids, i, c1);
    SiblingsApart(n, kids, i, c1, c2, area);
    LeavesOfPair(kids, i, c1, Leaves(c2));
    split, s1, s2, more := AbsorbSplit(n, p, right, order, i, kids[i := c1], t, c2, q, Objs(s) + area);
    area' := Objs(s) + area + more;
  }

  lemma SplitLandsAtChild(t: Tree, i: nat, k: Key, v: RecordPtr, lo: int, hi: int, h: nat, order: nat)
    requires t.Inner? && Valid(t, lo, hi, h, order) && i < |t.kids| && order >= 3
    requires Low(t.keys, i, lo) <= k < High(t.keys, i, hi)
    ensures var r := Insert(t.kids[i], k, v, h - 1, order); r.Split? ==> LowerBound(t.keys, r.promoted) == i
  {
    InsertSound(t.kids[i], k, v, Low(t.keys, i, lo), High(t.keys, i, hi), h - 1, order);
    var r := Insert(t.kids[i], k, v, h - 1, order);
    if r.Split? {
      PromotedPosition(t.keys, i, r.promoted, lo, hi);
    }
  }

  lemma WholeLeaves(n: Node, i: nat, kids: seq<Shape>, c1: Shape, c2: Shape, childAt: nat, added: Option<Node>)
    requires i < |kids| && LeavesGrown(kids[i], NoSplit, c1, c2, childAt, added)
    ensures var s := InnerS(n, kids);
            LeavesGrown(s, NoSplit, InnerS(n, kids[i := c1]), s, |LeavesAll(kids[..i])| + childAt, added)
  {
    LeavesGrownAround(kids, i, c1, [], childAt, added);
    LeavesOfOne(kids, i, c1);
    assert LeavesAll(kids[i := c1]) + [] == LeavesAll(kids[i := c1]);
  }

  lemma LeafPosition(kids: seq<Shape>, i: nat, at: nat)
    requires i < |kids| && at < |Leaves(kids[i])|
    ensures var base := |LeavesAll(kids[..i])|;
            base + at < |LeavesAll(kids)| && LeavesAll(kids)[base + at] == Leaves(kids[i])[at]
  {
    LeavesReplace(kids, i, []);
  }

  /** Child `i` took the key, or refused it, without splitting: the node is done. */
  lemma FinishWhole(n: Node, order: nat, i: nat, kids: seq<Shape>, t: Tree, r: InsertResult, c1: Shape, c2: Shape,
                    area: set<object>, childAt: nat, added: Option<Node>)
    requires Separate(InnerS(n, kids)) && i < |kids| && KeepsOut(n, kids, i, area) && order >= 3
    requires t.Inner? && |t.kids| == |t.keys| + 1 == |kids| && !r.Split?
    requires Rep(InnerS(n, kids[i := c1]), Inner(t.keys, t.kids[i := Kept(r, t.kids[i])]), order)
    requires Separate(c1) && (r.Duplicate? ==> c1 == kids[i]) && Objs(c1) <= area
    requires LeavesGrown(kids[i], NoSplit, c1, c2, childAt, added)
    ensures var s := InnerS(n, kids);
            Outcome(Absorb(t, i, r, order), r.Duplicate?, NoSplit, s, t, InnerS(n, kids[i := c1]), s, order) == true
    ensures forall o :: o in Objs(InnerS(n, kids[i := c1])) ==> o in Objs(InnerS(n, kids)) || o in area
    ensures var s := InnerS(n, kids);
            LeavesGrown(s, NoSplit, InnerS(n, kids[i := c1]), s, |LeavesAll(kids[..i])| + childAt, added)
  {
    SeparateReplace(n, kids, i, c1, area);
    ObjsReplace(n, kids, i, c1);
    WholeLeaves(n, i, kids, c1, c2, childAt, added);
    if r.Duplicate? {
      assert kids[i := c1] == kids && t.kids[i := t.kids[i]] == t.kids;
    }
  }

  /** Child `i` has split: the node takes in the new half, and may split in turn. */
  method FinishAbsorb(n: Node, i: nat, childSplit: SplitOutcome, order: nat, ghost kids: seq<Shape>, ghost t: Tree,
                      ghost r: InsertResult, ghost c1: Shape, ghost c2: Shape, ghost area: set<object>,
                      ghost childAt: nat, ghost added: Option<Node>, ghost all: set<object>)
    returns (split: SplitOutcome, ghost s1: Shape, ghost s2: Shape, ghost area': set<object>)
    requires Separate(InnerS(n, kids)) && i < |kids| && KeepsOut(n, kids, i, area)
    requires t.Inner? && |t.kids| == |t.keys| + 1 == |kids| && Ascending(t.keys) && |t.keys| + 2 <= order && order >= 3
    requires r.Split? && LowerBound(t.keys, r.promoted) == i
    requires Rep(InnerS(n, kids[i := c1]), Inner(t.keys, t.kids[i := r.left]), order)
    requires childSplit == DidSplit(r.promoted, c2.n) && Rep(c2, r.right, order)
    requires Separate(c1) && Separate(c2) && Objs(c1) !! Objs(c2)
    requires Objs(c1) <= area && Objs(c2) <= area
    requires LeavesGrown(kids[i], childSplit, c1, c2, childAt, added)
    modifies Own(n)
    ensures Outcome(Absorb(t, i, r, order), false, split, InnerS(n, kids), t, s1, s2, order) == true
    ensures Objs(s1) <= area' && (split.DidSplit? ==> Objs(s2) <= area')
    ensures forall o :: o in area' ==> o in Objs(InnerS(n, kids)) || o in area || fresh(o)
    ensures LeavesGrown(InnerS(n, kids), split, s1, s2, |LeavesAll(kids[..i])| + childAt, added)
    ensures NextOf(all) == old(NextOf(all)) && (added.Some? ==> added.value.next == old(added.value.next))
  {
    LeavesGrownAround(kids, i, c1, Leaves(c2), childAt, added);
    split, s1, s2, area' := FinishSplit(n, childSplit.promoted, childSplit.right, order, i, kids,
                                        Inner(t.keys, t.kids[i := r.left]), c1, c2, r.right, area);
  }

  lemma HasSplit(r: InsertResult, split: SplitOutcome, s: Shape, t: Tree, s1: Shape, s2: Shape, order: nat)
    requires Outcome(r, r.Duplicate?, split, s, t, s1, s2, order) == true && split.DidSplit?
    ensures r.Split? && split == DidSplit(r.promoted, s2.n) && Rep(s2, r.right, order) == true && Kept(r, t) == r.left
    ensures Separate(s1) && Separate(s2) && Objs(s1) !! Objs(s2)
  {
  }

  lemma ConcludeWhole(n: Node, i: nat, order: nat, kids: seq<Shape>, t: Tree, r: InsertResult, c1: Shape, c2: Shape, area: set<object>,
                      childAt: nat, added: Option<Node>, all: set<object>, before: map<Node, Node?>)
    requires Separate(InnerS(n, kids)) && i < |kids| && KeepsOut(n, kids, i, area)
    requires t.Inner? && |t.kids| == |t.keys| + 1 == |kids| && order >= 3
    requires Rep(InnerS(n, kids[i := c1]), Inner(t.keys, t.kids[i := Kept(r, t.kids[i])]), order)
    requires Outcome(r, r.Duplicate?, NoSplit, kids[i], t.kids[i], c1, c2, order) == true && Objs(c1) <= area
    requires LeavesGrown(kids[i], NoSplit, c1, c2, childAt, added)
    requires Relinked(before, NextOf(all), Leaves(kids[i])[childAt], added)
    ensures var s, s1, at := InnerS(n, kids), InnerS(n, kids[i := c1]), |LeavesAll(kids[..i])| + childAt;
            && Outcome(Absorb(t, i, r, order), r.Duplicate?, NoSplit, s, t, s1, s, order) == true
            && (forall o :: o in Objs(s1) ==> o in Objs(s) || o in area)
            && LeavesGrown(s, NoSplit, s1, s, at, added) && Relinked(before, NextOf(all), Leaves(s)[at], added)
  {
    LeafPosition(kids, i, childAt);
    FinishWhole(n, order, i, kids, t, r, c1, c2, area, childAt, added);
  }

  /** What an internal node does with the outcome of the insertion into child `i`. */
  method Conclude(n: Node, i: nat, childSplit: SplitOutcome, order: nat, ghost kids: seq<Shape>, ghost t: Tree,
                  ghost r: InsertResult, ghost c1: Shape, ghost c2: Shape, ghost area: set<object>,
                  ghost childAt: nat, ghost added: Option<Node>, ghost all: set<object>, ghost before: map<Node, Node?>)
    returns (split: SplitOutcome, ghost s1: Shape, ghost s2: Shape, ghost area': set<object>, ghost at: nat)
    requires Separate(InnerS(n, kids)) && i < |kids| && KeepsOut(n, kids, i, area)
    requires t.Inner? && |t.kids| == |t.keys| + 1 == |kids| && Ascending(t.keys) && |t.keys| + 2 <= order && order >= 3
    requires r.Split? ==> LowerBound(t.keys, r.promoted) == i
    requires Rep(InnerS(n, kids[i := c1]), Inner(t.keys, t.kids[i := Kept(r, t.kids[i])]), order)
    requires Outcome(r, r.Duplicate?, childSplit, kids[i], t.kids[i], c1, c2, order) == true
    requires Objs(c1) <= area && (r.Split? ==> Objs(c2) <= area)
    requires LeavesGrown(kids[i], childSplit, c1, c2, childAt, added)
    requires Relinked(before, NextOf(all), Leaves(kids[i])[childAt], added)
    modifies Own(n)
    ensures Outcome(Absorb(t, i, r, order), r.Duplicate?, split, InnerS(n, kids), t, s1, s2, order) == true
    ensures Objs(s1) <= area' && (split.DidSplit? ==> Objs(s2) <= area')
    ensures forall o :: o in area' ==> o in Objs(InnerS(n, kids)) || o in area || fresh(o)
    ensures LeavesGrown(InnerS(n, kids), split, s1, s2, at, added)
    ensures Relinked(before, NextOf(all), Leaves(InnerS(n, kids))[at], added)
  {
    at := |LeavesAll(kids[..i])| + childAt;
    if childSplit.NoSplit? {
      ConcludeWhole(n, i, order, kids, t, r, c1, c2, area, childAt, added, all, before);
      split, s1, s2 := NoSplit, InnerS(n, kids[i := c1]), InnerS(n, kids);
      area' := Objs(s1);
    } else {
      LeafPosition(kids, i, childAt);
      HasSplit(r, childSplit, kids[i], t.kids[i], c1, c2, order);
      split, s1, s2, area' := FinishAbsorb(n, i, childSplit, order, kids, t, r, c1, c2, area, childAt, added, all);
    }
  }

  /** The internal-node case of insert_recursive, for the child index it computed. */
  method InsertBelow(n: Node, i: nat, k: Key, v: RecordPtr, order: nat, ghost kids: seq<Shape>, ghost t: Tree,
                     ghost lo: int, ghost hi: int, ghost h: nat, ghost all: set<object>)
    returns (duplicate: bool, split: SplitOutcome, ghost s1: Shape, ghost s2: Shape, ghost area: set<object>,
             ghost at: nat, ghost added: Option<Node>)
    requires t.Inner? && Rep(InnerS(n, kids), t, order) && Separate(InnerS(n, kids)) && Objs(InnerS(n, kids)) <= all
    requires Valid(t, lo, hi, h, order) && i < |kids| && order >= 3
    requires Low(t.keys, i, lo) <= k < High(t.keys, i, hi)
    modifies Objs(InnerS(n, kids))
    ensures Outcome(Absorb(t, i, Insert(t.kids[i], k, v, h - 1, order), order), duplicate, split,
                    InnerS(n, kids), t, s1, s2, order) == true
    ensures Objs(s1) <= area && (split.DidSplit? ==> Objs(s2) <= area)
    ensures forall o :: o in area ==> o in Objs(InnerS(n, kids)) || fresh(o)
    ensures LeavesGrown(InnerS(n, kids), split, s1, s2, at, added)
    ensures Relinked(old(NextOf(all)), NextOf(all), Leaves(InnerS(n, kids))[at], added)
    ensures added.Some? ==> fresh(added.value)
    decreases t, 1
  {
    ghost var r := Insert(t.kids[i], k, v, h - 1, order);
    KidIn(kids, i);
    SplitLandsAtChild(t, i, k, v, lo, hi, h, order);
    ghost var c1, c2, childArea, childAt;
    duplicate, split, c1, c2, childArea, childAt, added := InsertIntoChild(n, i, k, v, order, kids, t, lo, hi, h, all);
    split, s1, s2, area, at :=
      Conclude(n, i, split, order, kids, t, r, c1, c2, childArea, childAt, added, all, old(NextOf(all)));
  }

  /** insert_recursive */
  method InsertRecursive(n: Node, k: Key, v: RecordPtr, order: nat, ghost s: Shape, ghost t: Tree,
                         ghost lo: int, ghost hi: int, ghost h: nat, ghost all: set<object>)
    returns (duplicate: bool, split: SplitOutcome, ghost s1: Shape, ghost s2: Shape, ghost area: set<object>,
             ghost at: nat, ghost added: Option<Node>)
    requires s.n == n && Rep(s, t, order) && Separate(s) && Objs(s) <= all
    requires Valid(t, lo, hi, h, order) && lo <= k < hi && order >= 3
    modifies Objs(s)
    ensures Outcome(Insert(t, k, v, h, order), duplicate, split, s, t, s1, s2, order) == true
    ensures Objs(s1) <= area && (split.DidSplit? ==> Objs(s2) <= area)
    ensures forall o :: o in area ==> o in Objs(s) || fresh(o)
    ensures LeavesGrown(s, split, s1, s2, at, added) && Relinked(old(NextOf(all)), NextOf(all), Leaves(s)[at], added)
    ensures added.Some? ==> fresh(added.value)
    decreases t, 2
  {
    if n.isLeaf {
      duplicate, split, s1, s2, area, at, added := InsertAtLeaf(n, k, v, order, t, all);
    } else {
      var i := KeyLowerBound(n, k);
      if i < n.numKeys && n.keys[i] == k {
        i := i + 1;
      }
      ChildOwnsKey(t.keys, k, lo, hi);
      duplicate, split, s1, s2, area, at, added := InsertBelow(n, i, k, v, order, s.kids, t, lo, hi, h, all);
    }
  }
}
