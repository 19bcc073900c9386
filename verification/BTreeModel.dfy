// The B+ tree of server/storage/btree.c as a value: what every operation does to a tree, and why the result
// is a sorted map. The in-place version in BTree.dfy is proved against these functions.
module BTreeModel {
  import opened Common

  const KEY_LIMIT := 0x1_0000_0000

  type Key = int

  datatype RecordPtr = RecordPtr(pageId: int, slotId: int)
  type Entry = (Key, RecordPtr)

  datatype Tree =
    | Leaf(keys: seq<Key>, vals: seq<RecordPtr>)
    | Inner(keys: seq<Key>, kids: seq<Tree>)

  // ---------------------------------------------------------------------------
  // Sorted key arrays
  // ---------------------------------------------------------------------------

  ghost predicate Ascending(ks: seq<Key>) {
    forall i, j :: 0 <= i < j < |ks| ==> ks[i] < ks[j]
  }

  /** The first index whose key is at least `x`. */
  function LowerBound(ks: seq<Key>, x: Key): (i: nat)
    ensures i <= |ks|
    ensures forall j :: 0 <= j < i ==> ks[j] < x
    ensures i < |ks| ==> x <= ks[i]
  {
    if ks == [] || x <= ks[0] then 0 else
      var r := LowerBound(ks[1..], x);
      assert forall j :: 0 < j < 1 + r ==> ks[j] == ks[1..][j - 1];
      1 + r
  }

  lemma LowerBoundUnique(ks: seq<Key>, x: Key, i: nat)
    requires i <= |ks|
    requires forall j :: 0 <= j < i ==> ks[j] < x
    requires forall j :: i <= j < |ks| ==> x <= ks[j]
    ensures LowerBound(ks, x) == i
  {
    var r := LowerBound(ks, x);
    if r < |ks| {
      assert x <= ks[r];
    }
    if i < |ks| {
      assert x <= ks[i];
    }
  }

  /** The child an internal node sends `x` to: right of an equal separator. */
  function ChildIndex(ks: seq<Key>, x: Key): (i: nat)
    ensures i <= |ks|
  {
    var i := LowerBound(ks, x);
    if i < |ks| && ks[i] == x then i + 1 else i
  }

  function InsertAt<T>(s: seq<T>, i: nat, x: T): (r: seq<T>)
    requires i <= |s|
    ensures |r| == |s| + 1
  {
    s[..i] + [x] + s[i..]
  }

  lemma InsertAtPoint<T>(s: seq<T>, p: nat, x: T, j: nat)
    requires p <= |s| && j <= |s|
    ensures InsertAt(s, p, x)[j] == if j < p then s[j] else if j == p then x else s[j - 1]
  {
  }

  function RemoveAt<T>(s: seq<T>, i: nat): (r: seq<T>)
    requires i < |s|
    ensures |r| == |s| - 1
  {
    s[..i] + s[i + 1..]
  }

  // ---------------------------------------------------------------------------
  // Well-formed trees
  // ---------------------------------------------------------------------------

  function Low(ks: seq<Key>, i: nat, lo: int): int
    requires i <= |ks|
  {
    if i == 0 then lo else ks[i - 1]
  }

  function High(ks: seq<Key>, i: nat, hi: int): int
    requires i <= |ks|
  {
    if i == |ks| then hi else ks[i]
  }

  /** Array sizes fit together and every node is at most `order - 2` keys full, all leaves at depth `h`. */
  ghost predicate Shaped(t: Tree, h: nat, order: nat)
    decreases t
  {
    && |t.keys| + 2 <= order
    && match t
       case Leaf(keys, vals) => h == 0 && |keys| == |vals|
       case Inner(keys, kids) =>
         && h > 0 && |kids| == |keys| + 1
         && forall i :: 0 <= i < |kids| ==> Shaped(kids[i], h - 1, order)
  }

  /** Keys lie in [lo, hi); separators lie strictly inside (lo, hi), ascend, and bound the children beside them. */
  ghost predicate Ordered(t: Tree, lo: int, hi: int)
    decreases t
  {
    && Ascending(t.keys)
    && match t
       case Leaf(keys, vals) => forall i :: 0 <= i < |keys| ==> lo <= keys[i] < hi
       case Inner(keys, kids) =>
         && |kids| == |keys| + 1
         && (forall i :: 0 <= i < |keys| ==> lo < keys[i] < hi)
         && forall i :: 0 <= i < |kids| ==> Ordered(kids[i], Low(keys, i, lo), High(keys, i, hi))
  }

  ghost predicate Valid(t: Tree, lo: int, hi: int, h: nat, order: nat) {
    Shaped(t, h, order) && Ordered(t, lo, hi)
  }

  // ---------------------------------------------------------------------------
  // Contents
  // ---------------------------------------------------------------------------

  function Zip(keys: seq<Key>, vals: seq<RecordPtr>): (r: seq<Entry>)
    requires |keys| == |vals|
    ensures |r| == |keys|
    ensures forall i :: 0 <= i < |r| ==> r[i] == (keys[i], vals[i])
  {
    seq(|keys|, i requires 0 <= i < |keys| => (keys[i], vals[i]))
  }

  /** All key-value pairs from left to right. */
  ghost function Entries(t: Tree): seq<Entry>
    decreases t
  {
    match t
    case Leaf(keys, vals) => if |keys| == |vals| then Zip(keys, vals) else []
    case Inner(_, kids) => Flat(kids)
  }

  ghost function Flat(ts: seq<Tree>): seq<Entry>
    decreases ts
  {
    if ts == [] then [] else Entries(ts[0]) + Flat(ts[1..])
  }

  ghost predicate SortedEntries(es: seq<Entry>) {
    forall i, j :: 0 <= i < j < |es| ==> es[i].0 < es[j].0
  }

  ghost predicate Within(es: seq<Entry>, lo: int, hi: int) {
    forall i :: 0 <= i < |es| ==> lo <= es[i].0 < hi
  }

  ghost function ToMap(es: seq<Entry>): map<Key, RecordPtr> {
    if es == [] then map[] else ToMap(es[1..])[es[0].0 := es[0].1]
  }

  /** How many leading entries have a key below `k`. */
  ghost function Rank(es: seq<Entry>, k: Key): (p: nat)
    ensures p <= |es|
    ensures forall j :: 0 <= j < p ==> es[j].0 < k
    ensures p < |es| ==> k <= es[p].0
  {
    if es == [] || k <= es[0].0 then 0 else
      var r := Rank(es[1..], k);
      assert forall j :: 0 < j < 1 + r ==> es[j] == es[1..][j - 1];
      1 + r
  }

  ghost predicate HasKey(es: seq<Entry>, k: Key) {
    exists i :: 0 <= i < |es| && es[i].0 == k
  }

  ghost predicate AllBelow(es: seq<Entry>, k: Key) {
    forall i :: 0 <= i < |es| ==> es[i].0 < k
  }

  ghost predicate AllAbove(es: seq<Entry>, k: Key) {
    forall i :: 0 <= i < |es| ==> k < es[i].0
  }

  ghost function InsertSorted(es: seq<Entry>, k: Key, v: RecordPtr): seq<Entry> {
    InsertAt(es, Rank(es, k), (k, v))
  }

  // ---------------------------------------------------------------------------
  // Flattening lemmas
  // ---------------------------------------------------------------------------

  lemma {:induction false} FlatAppend(a: seq<Tree>, b: seq<Tree>)
    ensures Flat(a + b) == Flat(a) + Flat(b)
    decreases |a|
  {
    if a == [] {
      AppendNothing(b);
      AppendNothing(Flat(b));
    } else {
      FlatAppend(a[1..], b);
      TailAppend(a, b);
      AppendAssoc(Entries(a[0]), Flat(a[1..]), Flat(b));
    }
  }

  lemma FlatSplit(ts: seq<Tree>, i: nat)
    requires i < |ts|
    ensures Flat(ts) == Flat(ts[..i]) + Entries(ts[i]) + Flat(ts[i + 1..])
  {
    var a, b := ts[..i], ts[i..];
    FlatAppend(a, b);
    SplitAt(ts, i);
    DropHead(ts, i);
    AppendAssoc(Flat(a), Entries(ts[i]), Flat(b[1..]));
  }

  /** Replacing child `i` by one tree, or by two neighbours, replaces just its stretch of entries. */
  lemma FlatReplace(ts: seq<Tree>, i: nat, us: seq<Tree>)
    requires i < |ts|
    ensures Flat(ts[..i] + us + ts[i + 1..]) == Flat(ts[..i]) + Flat(us) + Flat(ts[i + 1..])
  {
    FlatAppend(ts[..i] + us, ts[i + 1..]);
    FlatAppend(ts[..i], us);
  }

  lemma FlatOne(t: Tree)
    ensures Flat([t]) == Entries(t)
  {
    OneTail(t);
    AppendNothing(Entries(t));
  }

  lemma FlatTwo(l: Tree, r: Tree)
    ensures Flat([l, r]) == Entries(l) + Entries(r)
  {
    assert [l, r] == [l] + [r];
    FlatAppend([l], [r]);
    FlatOne(l);
    FlatOne(r);
  }

  lemma SortedAppend(a: seq<Entry>, b: seq<Entry>, lo: int, mid: int, hi: int)
    requires lo <= mid <= hi
    requires SortedEntries(a) && SortedEntries(b) && Within(a, lo, mid) && Within(b, mid, hi)
    ensures SortedEntries(a + b) && Within(a + b, lo, hi)
  {
  }

  /** The entries of an ordered tree are sorted and stay within the tree's bounds. */
  lemma {:induction false} EntriesSorted(t: Tree, lo: int, hi: int)
    requires Ordered(t, lo, hi) && lo <= hi
    ensures SortedEntries(Entries(t)) && Within(Entries(t), lo, hi)
    decreases t, |t.keys| + 3
  {
    match t
    case Leaf(keys, vals) =>
    case Inner(keys, kids) =>
      FlatPrefixSorted(t, lo, hi, |kids|);
      assert kids[..|kids|] == kids;
  }

  /** The entries of the first `n` children are sorted and below the next separator. */
  lemma {:induction false} FlatPrefixSorted(t: Tree, lo: int, hi: int, n: nat)
    requires t.Inner? && Ordered(t, lo, hi) && lo <= hi
    requires n <= |t.kids|
    ensures SortedEntries(Flat(t.kids[..n]))
    ensures Within(Flat(t.kids[..n]), lo, if n == 0 then lo else High(t.keys, n - 1, hi))
    decreases t, n
  {
    if n > 0 {
      FlatPrefixSorted(t, lo, hi, n - 1);
      EntriesSorted(t.kids[n - 1], Low(t.keys, n - 1, lo), High(t.keys, n - 1, hi));
      assert t.kids[..n] == t.kids[..n - 1] + [t.kids[n - 1]];
      FlatAppend(t.kids[..n - 1], [t.kids[n - 1]]);
      FlatOne(t.kids[n - 1]);
      SortedAppend(Flat(t.kids[..n - 1]), Entries(t.kids[n - 1]), lo, Low(t.keys, n - 1, lo), High(t.keys, n - 1, hi));
    }
  }

  /** The entries right of child `i` are at least separator `i`. */
  lemma {:induction false} FlatSuffixAbove(t: Tree, lo: int, hi: int, n: nat)
    requires t.Inner? && Ordered(t, lo, hi) && lo <= hi
    requires n <= |t.kids|
    ensures Within(Flat(t.kids[n..]), if n == |t.kids| then hi else Low(t.keys, n, lo), hi)
    decreases |t.kids| - n
  {
    if n < |t.kids| {
      FlatSuffixAbove(t, lo, hi, n + 1);
      EntriesSorted(t.kids[n], Low(t.keys, n, lo), High(t.keys, n, hi));
      assert t.kids[n..][1..] == t.kids[n + 1..];
    }
  }

  // ---------------------------------------------------------------------------
  // Sorted insertion is local
  // ---------------------------------------------------------------------------

  lemma {:induction false} RankAppend(a: seq<Entry>, b: seq<Entry>, k: Key)
    requires AllBelow(a, k)
    ensures Rank(a + b, k) == |a| + Rank(b, k)
    decreases |a|
  {
    if a == [] {
      assert a + b == b;
    } else {
      assert (a + b)[1..] == a[1..] + b;
      RankAppend(a[1..], b, k);
    }
  }

  lemma {:induction false} RankCut(a: seq<Entry>, b: seq<Entry>, k: Key)
    requires AllAbove(b, k)
    ensures Rank(a + b, k) == Rank(a, k)
    decreases |a|
  {
    if a == [] {
      assert a + b == b;
    } else {
      assert (a + b)[1..] == a[1..] + b;
      RankCut(a[1..], b, k);
    }
  }

  lemma HasKeyLocal(a: seq<Entry>, m: seq<Entry>, b: seq<Entry>, k: Key)
    requires AllBelow(a, k) && AllAbove(b, k)
    ensures HasKey(a + m + b, k) <==> HasKey(m, k)
  {
    var s := a + m + b;
    if HasKey(m, k) {
      var i :| 0 <= i < |m| && m[i].0 == k;
      assert s[|a| + i] == m[i];
    }
    if HasKey(s, k) {
      var i :| 0 <= i < |s| && s[i].0 == k;
      assert forall j :: 0 <= j < |a| ==> s[j] == a[j];
      assert forall j :: 0 <= j < |b| ==> s[|a| + |m| + j] == b[j];
      assert forall j :: |a| + |m| <= j < |s| ==> s[j] == b[j - |a| - |m|];
      assert s[i] == m[i - |a|];
    }
  }

  lemma InsertSortedLocal(a: seq<Entry>, m: seq<Entry>, b: seq<Entry>, k: Key, v: RecordPtr)
    requires AllBelow(a, k) && AllAbove(b, k)
    ensures InsertSorted(a + m + b, k, v) == a + InsertSorted(m, k, v) + b
  {
    AppendAssoc(a, m, b);
    RankAppend(a, m + b, k);
    RankCut(m, b, k);
    InsertAtMiddle(a, m, b, Rank(m, k), (k, v));
  }

  lemma InsertAtMiddle<T>(a: seq<T>, m: seq<T>, b: seq<T>, p: nat, x: T)
    requires p <= |m|
    ensures InsertAt(a + m + b, |a| + p, x) == a + InsertAt(m, p, x) + b
  {
    var s := a + m + b;
    assert s[..|a| + p] == a + m[..p];
    assert s[|a| + p..] == m[p..] + b;
  }

  // ---------------------------------------------------------------------------
  // Insertion: the splits and the recursive descent of btree.c
  // ---------------------------------------------------------------------------

  datatype InsertResult =
    | Duplicate
    | Done(tree: Tree)
    | Split(left: Tree, promoted: Key, right: Tree)

  /** split_leaf: the upper half moves right, its first key is copied up. */
  function SplitLeaf(t: Tree): InsertResult
    requires t.Leaf? && |t.keys| == |t.vals| && |t.keys| >= 2
  {
    var mid := |t.keys| / 2;
    Split(Leaf(t.keys[..mid], t.vals[..mid]), t.keys[mid], Leaf(t.keys[mid..], t.vals[mid..]))
  }

  /** split_internal: the middle key moves up and stays in neither half. */
  function SplitInner(t: Tree): InsertResult
    requires t.Inner? && |t.kids| == |t.keys| + 1 && |t.keys| >= 2
  {
    var mid := |t.keys| / 2;
    Split(Inner(t.keys[..mid], t.kids[..mid + 1]), t.keys[mid], Inner(t.keys[mid + 1..], t.kids[mid + 1..]))
  }

  function LeafInsert(t: Tree, k: Key, v: RecordPtr, order: nat): InsertResult
    requires t.Leaf? && |t.keys| == |t.vals| && order >= 3
  {
    var pos := LowerBound(t.keys, k);
    if pos < |t.keys| && t.keys[pos] == k then Duplicate else
      var full := Leaf(InsertAt(t.keys, pos, k), InsertAt(t.vals, pos, v));
      if |full.keys| >= order - 1 then SplitLeaf(full) else Done(full)
  }

  /** What an internal node does once child `i` has been inserted into. */
  function Absorb(t: Tree, i: nat, r: InsertResult, order: nat): InsertResult
    requires t.Inner? && |t.kids| == |t.keys| + 1 && i < |t.kids| && order >= 3
  {
    match r
    case Duplicate => Duplicate
    case Done(kid) => Done(Inner(t.keys, t.kids[i := kid]))
    case Split(left, promoted, right) =>
      var pos := LowerBound(t.keys, promoted);
      var kids := t.kids[i := left];
      var full := Inner(InsertAt(t.keys, pos, promoted), InsertAt(kids, pos + 1, right));
      if |full.keys| >= order - 1 then SplitInner(full) else Done(full)
  }

  /** insert_recursive */
  function Insert(t: Tree, k: Key, v: RecordPtr, h: nat, order: nat): InsertResult
    requires Shaped(t, h, order) && order >= 3
    decreases t
  {
    match t
    case Leaf(_, _) => LeafInsert(t, k, v, order)
    case Inner(keys, kids) =>
      var i := ChildIndex(keys, k);
      Absorb(t, i, Insert(kids[i], k, v, h - 1, order), order)
  }

  /** What a result must look like for a subtree that owned [lo, hi) at height `h` and held `es`. */
  ghost predicate Inserted(r: InsertResult, es: seq<Entry>, k: Key, v: RecordPtr,
                           lo: int, hi: int, h: nat, order: nat)
  {
    match r
    case Duplicate => HasKey(es, k)
    case Done(t) =>
      && !HasKey(es, k) && Valid(t, lo, hi, h, order)
      && Entries(t) == InsertSorted(es, k, v)
    case Split(l, p, q) =>
      && !HasKey(es, k) && lo < p < hi
      && Valid(l, lo, p, h, order) && Valid(q, p, hi, h, order)
      && Entries(l) + Entries(q) == InsertSorted(es, k, v)
  }

  lemma {:induction false} RankZip(keys: seq<Key>, vals: seq<RecordPtr>, k: Key)
    requires |keys| == |vals|
    ensures Rank(Zip(keys, vals), k) == LowerBound(keys, k)
    decreases |keys|
  {
    if keys != [] {
      assert Zip(keys, vals)[1..] == Zip(keys[1..], vals[1..]);
      RankZip(keys[1..], vals[1..], k);
    }
  }

  lemma LeafHasKey(t: Tree, k: Key)
    requires t.Leaf? && |t.keys| == |t.vals| && Ascending(t.keys)
    ensures HasKey(Entries(t), k) <==> (var p := LowerBound(t.keys, k); p < |t.keys| && t.keys[p] == k)
  {
    var p := LowerBound(t.keys, k);
    if p < |t.keys| && t.keys[p] == k {
      assert Entries(t)[p].0 == k;
    }
  }

  lemma SplitLeafSound(t: Tree, lo: int, hi: int, order: nat)
    requires t.Leaf? && |t.keys| == |t.vals| && 2 <= |t.keys| < order && Ordered(t, lo, hi)
    ensures var r := SplitLeaf(t);
            lo < r.promoted < hi && Valid(r.left, lo, r.promoted, 0, order)
            && Valid(r.right, r.promoted, hi, 0, order)
            && Entries(r.left) + Entries(r.right) == Entries(t)
  {
    var r := SplitLeaf(t);
    assert t.keys[0] < t.keys[|t.keys| / 2];
    assert Entries(r.left) + Entries(r.right) == Entries(t);
  }

  lemma LeafFilled(t: Tree, k: Key, v: RecordPtr, lo: int, hi: int)
    requires t.Leaf? && |t.keys| == |t.vals| && Ordered(t, lo, hi) && lo <= k < hi
    requires !HasKey(Entries(t), k)
    ensures var pos := LowerBound(t.keys, k);
            var full := Leaf(InsertAt(t.keys, pos, k), InsertAt(t.vals, pos, v));
            Ordered(full, lo, hi) && Entries(full) == InsertSorted(Entries(t), k, v)
  {
    LeafHasKey(t, k);
    var pos := LowerBound(t.keys, k);
    RankZip(t.keys, t.vals, k);
    assert pos < |t.keys| ==> k < t.keys[pos];
    InsertAscending(t.keys, pos, k);
    ZipInsert(t.keys, t.vals, pos, k, v);
  }

  lemma InsertAscending(ks: seq<Key>, pos: nat, k: Key)
    requires Ascending(ks) && pos <= |ks|
    requires pos > 0 ==> ks[pos - 1] < k
    requires pos < |ks| ==> k < ks[pos]
    ensures Ascending(InsertAt(ks, pos, k))
    ensures forall j :: 0 <= j < |ks| + 1 ==>
              InsertAt(ks, pos, k)[j] == if j < pos then ks[j] else if j == pos then k else ks[j - 1]
  {
  }

  lemma ZipInsert(ks: seq<Key>, vs: seq<RecordPtr>, pos: nat, k: Key, v: RecordPtr)
    requires |ks| == |vs| && pos <= |ks|
    ensures Zip(InsertAt(ks, pos, k), InsertAt(vs, pos, v)) == InsertAt(Zip(ks, vs), pos, (k, v))
  {
  }

  lemma LeafInsertSound(t: Tree, k: Key, v: RecordPtr, lo: int, hi: int, order: nat)
    requires t.Leaf? && Valid(t, lo, hi, 0, order) && lo <= k < hi && order >= 3
    ensures Inserted(LeafInsert(t, k, v, order), Entries(t), k, v, lo, hi, 0, order)
  {
    LeafHasKey(t, k);
    if !HasKey(Entries(t), k) {
      var pos := LowerBound(t.keys, k);
      var full := Leaf(InsertAt(t.keys, pos, k), InsertAt(t.vals, pos, v));
      LeafFilled(t, k, v, lo, hi);
      if |full.keys| >= order - 1 {
        SplitLeafSound(full, lo, hi, order);
      }
    }
  }

  /** The promoted key's lower bound in the parent is the index of the child that was descended into. */
  lemma PromotedPosition(keys: seq<Key>, i: nat, p: Key, lo: int, hi: int)
    requires Ascending(keys) && i <= |keys|
    requires Low(keys, i, lo) < p < High(keys, i, hi)
    ensures LowerBound(keys, p) == i
  {
    assert i > 0 ==> forall j :: 0 <= j < i - 1 ==> keys[j] < keys[i - 1];
    assert forall j :: 0 <= j < i ==> keys[j] < p;
  }

  lemma ChildOwnsKey(keys: seq<Key>, k: Key, lo: int, hi: int)
    requires Ascending(keys) && lo <= k < hi
    ensures var i := ChildIndex(keys, k); Low(keys, i, lo) <= k < High(keys, i, hi)
  {
    var i := LowerBound(keys, k);
    if i < |keys| && keys[i] == k && i + 1 < |keys| {
      assert keys[i] < keys[i + 1];
    }
  }

  /** An internal node whose child `i` was replaced by two children around `p`. */
  function Widen(t: Tree, i: nat, l: Tree, p: Key, q: Tree): Tree
    requires t.Inner? && |t.kids| == |t.keys| + 1 && i < |t.kids|
  {
    Inner(InsertAt(t.keys, i, p), InsertAt(t.kids[i := l], i + 1, q))
  }

  lemma WidenKeys(t: Tree, i: nat, l: Tree, p: Key, q: Tree, lo: int, hi: int)
    requires t.Inner? && Ordered(t, lo, hi) && i < |t.kids|
    requires Low(t.keys, i, lo) < p < High(t.keys, i, hi)
    ensures var w := Widen(t, i, l, p, q);
            Ascending(w.keys) && (forall j :: 0 <= j < |w.keys| ==> lo < w.keys[j] < hi)
            && |w.kids| == |w.keys| + 1
            && forall j :: 0 <= j < |w.keys| ==> w.keys[j] == if j < i then t.keys[j] else if j == i then p else t.keys[j - 1]
  {
    InsertAscending(t.keys, i, p);
  }

  /** Each child of the widened node still lies between the separators beside it. */
  lemma WidenKid(t: Tree, i: nat, l: Tree, p: Key, q: Tree, lo: int, hi: int, h: nat, order: nat, j: nat)
    requires t.Inner? && Valid(t, lo, hi, h, order) && i < |t.kids|
    requires Low(t.keys, i, lo) < p < High(t.keys, i, hi)
    requires Valid(l, Low(t.keys, i, lo), p, h - 1, order) && Valid(q, p, High(t.keys, i, hi), h - 1, order)
    requires j <= |t.kids|
    ensures var w := Widen(t, i, l, p, q);
            |w.kids| == |w.keys| + 1 == |t.kids| + 1
            && Valid(w.kids[j], Low(w.keys, j, lo), High(w.keys, j, hi), h - 1, order)
  {
    WidenKeys(t, i, l, p, q, lo, hi);
    var w := Widen(t, i, l, p, q);
    if j < i {
      assert w.kids[j] == t.kids[j];
    } else if j == i {
      assert w.kids[j] == l;
    } else if j == i + 1 {
      assert w.kids[j] == q;
    } else {
      assert w.kids[j] == t.kids[j - 1];
      assert Valid(t.kids[j - 1], Low(t.keys, j - 1, lo), High(t.keys, j - 1, hi), h - 1, order);
    }
  }

  lemma WidenSound(t: Tree, i: nat, l: Tree, p: Key, q: Tree, lo: int, hi: int, h: nat, order: nat)
    requires t.Inner? && Valid(t, lo, hi, h, order) && i < |t.kids|
    requires Low(t.keys, i, lo) < p < High(t.keys, i, hi)
    requires Valid(l, Low(t.keys, i, lo), p, h - 1, order) && Valid(q, p, High(t.keys, i, hi), h - 1, order)
    ensures Ordered(Widen(t, i, l, p, q), lo, hi)
    ensures forall j :: 0 <= j < |Widen(t, i, l, p, q).kids| ==> Shaped(Widen(t, i, l, p, q).kids[j], h - 1, order)
  {
    WidenKeys(t, i, l, p, q, lo, hi);
    var w := Widen(t, i, l, p, q);
    forall j | 0 <= j < |w.kids|
      ensures Valid(w.kids[j], Low(w.keys, j, lo), High(w.keys, j, hi), h - 1, order)
    {
      WidenKid(t, i, l, p, q, lo, hi, h, order, j);
    }
  }

  /** The children in a stretch of an internal node form an internal node of their own. */
  lemma SliceOrdered(t: Tree, lo: int, hi: int, a: nat, b: nat)
    requires t.Inner? && Ordered(t, lo, hi) && a <= b <= |t.keys|
    ensures Ordered(Inner(t.keys[a..b], t.kids[a..b + 1]), Low(t.keys, a, lo), High(t.keys, b, hi))
  {
    var s := Inner(t.keys[a..b], t.kids[a..b + 1]);
    var lo', hi' := Low(t.keys, a, lo), High(t.keys, b, hi);
    forall j | 0 <= j < |s.kids|
      ensures Ordered(s.kids[j], Low(s.keys, j, lo'), High(s.keys, j, hi'))
    {
      assert Ordered(t.kids[a + j], Low(t.keys, a + j, lo), High(t.keys, a + j, hi));
    }
  }

  lemma SplitInnerSound(t: Tree, lo: int, hi: int, h: nat, order: nat)
    requires t.Inner? && 2 <= |t.keys| < order && Ordered(t, lo, hi) && h > 0
    requires forall j :: 0 <= j < |t.kids| ==> Shaped(t.kids[j], h - 1, order)
    ensures var r := SplitInner(t);
            lo < r.promoted < hi && Valid(r.left, lo, r.promoted, h, order)
            && Valid(r.right, r.promoted, hi, h, order)
            && Entries(r.left) + Entries(r.right) == Entries(t)
  {
    SplitInnerOrdered(t, lo, hi);
    var r := SplitInner(t);
    assert Shaped(r.left, h, order) && Shaped(r.right, h, order);
    FlatAppend(r.left.kids, r.right.kids);
    SplitAt(t.kids, |t.keys| / 2 + 1);
  }

  lemma LeftOrdered(t: Tree, lo: int, hi: int, b: nat)
    requires t.Inner? && Ordered(t, lo, hi) && b <= |t.keys|
    ensures Ordered(Inner(t.keys[..b], t.kids[..b + 1]), lo, High(t.keys, b, hi)) == true
  {
    SliceOrdered(t, lo, hi, 0, b);
    SliceTo(t.keys, b);
    SliceTo(t.kids, b + 1);
  }

  lemma RightOrdered(t: Tree, lo: int, hi: int, a: nat)
    requires t.Inner? && Ordered(t, lo, hi) && a <= |t.keys|
    ensures Ordered(Inner(t.keys[a..], t.kids[a..]), Low(t.keys, a, lo), hi) == true
  {
    SliceOrdered(t, lo, hi, a, |t.keys|);
    SliceFrom(t.keys, a, |t.keys|);
    SliceFrom(t.kids, a, |t.keys| + 1);
  }

  lemma SplitInnerOrdered(t: Tree, lo: int, hi: int)
    requires t.Inner? && 2 <= |t.keys| && Ordered(t, lo, hi)
    ensures var r := SplitInner(t);
            lo < r.promoted < hi && Ordered(r.left, lo, r.promoted) == true && Ordered(r.right, r.promoted, hi) == true
  {
    var mid := |t.keys| / 2;
    LeftOrdered(t, lo, hi, mid);
    RightOrdered(t, lo, hi, mid + 1);
  }

  /** Around child `i`, everything to the left is below `k` and everything to the right above it. */
  lemma AroundChild(t: Tree, i: nat, k: Key, lo: int, hi: int)
    requires t.Inner? && Ordered(t, lo, hi) && i < |t.kids| && lo <= hi
    requires Low(t.keys, i, lo) <= k < High(t.keys, i, hi)
    ensures AllBelow(Flat(t.kids[..i]), k) && AllAbove(Flat(t.kids[i + 1..]), k)
    ensures Entries(t) == Flat(t.kids[..i]) + Entries(t.kids[i]) + Flat(t.kids[i + 1..])
  {
    FlatPrefixSorted(t, lo, hi, i);
    FlatSuffixAbove(t, lo, hi, i + 1);
    FlatSplit(t.kids, i);
  }

  lemma ReplaceSound(t: Tree, i: nat, kid: Tree, lo: int, hi: int, h: nat, order: nat)
    requires t.Inner? && Valid(t, lo, hi, h, order) && i < |t.kids|
    requires Valid(kid, Low(t.keys, i, lo), High(t.keys, i, hi), h - 1, order)
    ensures Valid(Inner(t.keys, t.kids[i := kid]), lo, hi, h, order)
    ensures Flat(t.kids[i := kid]) == Flat(t.kids[..i]) + Entries(kid) + Flat(t.kids[i + 1..])
  {
    UpdateIs(t.kids, i, kid);
    FlatReplace(t.kids, i, [kid]);
    FlatOne(kid);
  }

  lemma WidenEntries(t: Tree, i: nat, l: Tree, p: Key, q: Tree)
    requires t.Inner? && |t.kids| == |t.keys| + 1 && i < |t.kids|
    ensures Entries(Widen(t, i, l, p, q)) == Flat(t.kids[..i]) + (Entries(l) + Entries(q)) + Flat(t.kids[i + 1..])
  {
    assert Widen(t, i, l, p, q).kids == t.kids[..i] + [l, q] + t.kids[i + 1..];
    FlatReplace(t.kids, i, [l, q]);
    FlatTwo(l, q);
  }

  lemma AbsorbSound(t: Tree, i: nat, r: InsertResult, k: Key, v: RecordPtr, lo: int, hi: int, h: nat, order: nat)
    requires t.Inner? && Valid(t, lo, hi, h, order) && i < |t.kids| && order >= 3 && lo <= hi
    requires Low(t.keys, i, lo) <= k < High(t.keys, i, hi)
    requires Inserted(r, Entries(t.kids[i]), k, v, Low(t.keys, i, lo), High(t.keys, i, hi), h - 1, order)
    ensures Inserted(Absorb(t, i, r, order), Entries(t), k, v, lo, hi, h, order)
  {
    AroundChild(t, i, k, lo, hi);
    InsertSortedLocal(Flat(t.kids[..i]), Entries(t.kids[i]), Flat(t.kids[i + 1..]), k, v);
    HasKeyLocal(Flat(t.kids[..i]), Entries(t.kids[i]), Flat(t.kids[i + 1..]), k);
    match r
    case Duplicate =>
    case Done(kid) => ReplaceSound(t, i, kid, lo, hi, h, order);
    case Split(l, p, q) => AbsorbSplitSound(t, i, l, p, q, lo, hi, h, order);
  }

  /** A node that is fine as it is, or the two fine halves of a split one, with these entries. */
  ghost predicate Settled(r: InsertResult, es: seq<Entry>, lo: int, hi: int, h: nat, order: nat) {
    match r
    case Duplicate => false
    case Done(t) => Valid(t, lo, hi, h, order) && Entries(t) == es
    case Split(l, p, q) => lo < p < hi && Valid(l, lo, p, h, order) && Valid(q, p, hi, h, order) && Entries(l) + Entries(q) == es
  }

  lemma AbsorbSplitSound(t: Tree, i: nat, l: Tree, p: Key, q: Tree, lo: int, hi: int, h: nat, order: nat)
    requires t.Inner? && Valid(t, lo, hi, h, order) && i < |t.kids| && order >= 3
    requires Low(t.keys, i, lo) < p < High(t.keys, i, hi)
    requires Valid(l, Low(t.keys, i, lo), p, h - 1, order) && Valid(q, p, High(t.keys, i, hi), h - 1, order)
    ensures Settled(Absorb(t, i, Split(l, p, q), order), Flat(t.kids[..i]) + (Entries(l) + Entries(q)) + Flat(t.kids[i + 1..]), lo, hi, h, order) == true
  {
    PromotedPosition(t.keys, i, p, lo, hi);
    var w := Widen(t, i, l, p, q);
    WidenSound(t, i, l, p, q, lo, hi, h, order);
    WidenEntries(t, i, l, p, q);
    SettledWide(w, lo, hi, h, order);
  }

  lemma SettledWide(w: Tree, lo: int, hi: int, h: nat, order: nat)
    requires w.Inner? && order >= 3 && 1 <= |w.keys| < order && |w.kids| == |w.keys| + 1 && Ordered(w, lo, hi) && h > 0
    requires forall j :: 0 <= j < |w.kids| ==> Shaped(w.kids[j], h - 1, order)
    ensures |w.keys| >= order - 1 ==> Settled(SplitInner(w), Entries(w), lo, hi, h, order) == true
    ensures |w.keys| < order - 1 ==> Settled(Done(w), Entries(w), lo, hi, h, order) == true
  {
    if |w.keys| >= order - 1 {
      SplitInnerSound(w, lo, hi, h, order);
    }
  }

  /** Insertion below any node: the outcome depends on the map alone, and the tree stays a valid B+ tree. */
  lemma {:induction false} InsertSound(t: Tree, k: Key, v: RecordPtr, lo: int, hi: int, h: nat, order: nat)
    requires Valid(t, lo, hi, h, order) && lo <= k < hi && order >= 3
    ensures Inserted(Insert(t, k, v, h, order), Entries(t), k, v, lo, hi, h, order)
    decreases t
  {
    match t
    case Leaf(_, _) => LeafInsertSound(t, k, v, lo, hi, order);
    case Inner(keys, kids) =>
      ChildOwnsKey(keys, k, lo, hi);
      var i := ChildIndex(keys, k);
      InsertSound(kids[i], k, v, Low(keys, i, lo), High(keys, i, hi), h - 1, order);
      InsertBelowSound(t, k, v, i, lo, hi, h, order);
  }

  lemma InsertBelowSound(t: Tree, k: Key, v: RecordPtr, i: nat, lo: int, hi: int, h: nat, order: nat)
    requires t.Inner? && Valid(t, lo, hi, h, order) && order >= 3 && lo <= hi && i == ChildIndex(t.keys, k) && i < |t.kids|
    requires Low(t.keys, i, lo) <= k < High(t.keys, i, hi) && Shaped(t.kids[i], h - 1, order)
    requires Inserted(Insert(t.kids[i], k, v, h - 1, order), Entries(t.kids[i]), k, v, Low(t.keys, i, lo), High(t.keys, i, hi), h - 1, order)
    ensures Inserted(Insert(t, k, v, h, order), Entries(t), k, v, lo, hi, h, order)
  {
    AbsorbSound(t, i, Insert(t.kids[i], k, v, h - 1, order), k, v, lo, hi, h, order);
  }

  // ---------------------------------------------------------------------------
  // Search, lazy delete, update
  // ---------------------------------------------------------------------------

  /** find_leaf followed by key_find_exact */
  function Lookup(t: Tree, k: Key, h: nat, order: nat): Option<RecordPtr>
    requires Shaped(t, h, order)
    decreases t
  {
    match t
    case Leaf(keys, vals) =>
      var p := LowerBound(keys, k);
      if p < |keys| && keys[p] == k then Some(vals[p]) else None
    case Inner(keys, kids) => Lookup(kids[ChildIndex(keys, k)], k, h - 1, order)
  }

  /** Lazy deletion: the pair leaves its leaf, separators and leaf stay. */
  function Delete(t: Tree, k: Key, h: nat, order: nat): (r: Tree)
    requires Shaped(t, h, order)
    ensures r.Leaf? == t.Leaf?
    decreases t
  {
    match t
    case Leaf(keys, vals) =>
      var p := LowerBound(keys, k);
      if p < |keys| && keys[p] == k then Leaf(RemoveAt(keys, p), RemoveAt(vals, p)) else t
    case Inner(keys, kids) =>
      var i := ChildIndex(keys, k);
      Inner(keys, kids[i := Delete(kids[i], k, h - 1, order)])
  }

  function Update(t: Tree, k: Key, v: RecordPtr, h: nat, order: nat): (r: Tree)
    requires Shaped(t, h, order)
    ensures r.Leaf? == t.Leaf?
    decreases t
  {
    match t
    case Leaf(keys, vals) =>
      var p := LowerBound(keys, k);
      if p < |keys| && keys[p] == k then Leaf(keys, vals[p := v]) else t
    case Inner(keys, kids) =>
      var i := ChildIndex(keys, k);
      Inner(keys, kids[i := Update(kids[i], k, v, h - 1, order)])
  }

  ghost function Find(es: seq<Entry>, k: Key): Option<RecordPtr> {
    var p := Rank(es, k);
    if p < |es| && es[p].0 == k then Some(es[p].1) else None
  }

  ghost function RemoveKey(es: seq<Entry>, k: Key): seq<Entry> {
    if Find(es, k).Some? then RemoveAt(es, Rank(es, k)) else es
  }

  ghost function SetKey(es: seq<Entry>, k: Key, v: RecordPtr): seq<Entry> {
    if Find(es, k).Some? then es[Rank(es, k) := (k, v)] else es
  }

  lemma RankLocal(a: seq<Entry>, m: seq<Entry>, b: seq<Entry>, k: Key)
    requires AllBelow(a, k) && AllAbove(b, k)
    ensures Rank(a + m + b, k) == |a| + Rank(m, k)
    ensures Find(a + m + b, k) == Find(m, k)
  {
    AppendAssoc(a, m, b);
    RankAppend(a, m + b, k);
    RankCut(m, b, k);
    var p := Rank(m, k);
    if p < |m| {
      assert (a + m + b)[|a| + p] == m[p];
    } else if b != [] {
      assert (a + m + b)[|a| + p] == b[0];
    }
  }

  lemma RemoveKeyLocal(a: seq<Entry>, m: seq<Entry>, b: seq<Entry>, k: Key)
    requires AllBelow(a, k) && AllAbove(b, k)
    ensures RemoveKey(a + m + b, k) == a + RemoveKey(m, k) + b
  {
    RankLocal(a, m, b, k);
    if Find(m, k).Some? {
      RemoveAtMiddle(a, m, b, Rank(m, k));
    }
  }

  lemma RemoveAtMiddle<T>(a: seq<T>, m: seq<T>, b: seq<T>, p: nat)
    requires p < |m|
    ensures RemoveAt(a + m + b, |a| + p) == a + RemoveAt(m, p) + b
  {
    var s := a + m + b;
    assert s[..|a| + p] == a + m[..p];
    assert s[|a| + p + 1..] == m[p + 1..] + b;
  }

  lemma SetKeyLocal(a: seq<Entry>, m: seq<Entry>, b: seq<Entry>, k: Key, v: RecordPtr)
    requires AllBelow(a, k) && AllAbove(b, k)
    ensures SetKey(a + m + b, k, v) == a + SetKey(m, k, v) + b
  {
    RankLocal(a, m, b, k);
  }

  lemma LeafFind(t: Tree, k: Key)
    requires t.Leaf? && |t.keys| == |t.vals|
    ensures Find(Entries(t), k) == (var p := LowerBound(t.keys, k);
                                    if p < |t.keys| && t.keys[p] == k then Some(t.vals[p]) else None)
    ensures Rank(Entries(t), k) == LowerBound(t.keys, k)
  {
    RankZip(t.keys, t.vals, k);
  }

  lemma {:induction false} LookupSound(t: Tree, k: Key, lo: int, hi: int, h: nat, order: nat)
    requires Valid(t, lo, hi, h, order) && lo <= k < hi
    ensures Lookup(t, k, h, order) == Find(Entries(t), k)
    decreases t
  {
    match t
    case Leaf(_, _) => LeafFind(t, k);
    case Inner(keys, kids) =>
      ChildOwnsKey(keys, k, lo, hi);
      var i := ChildIndex(keys, k);
      LookupSound(kids[i], k, Low(keys, i, lo), High(keys, i, hi), h - 1, order);
      AroundChild(t, i, k, lo, hi);
      RankLocal(Flat(kids[..i]), Entries(kids[i]), Flat(kids[i + 1..]), k);
  }

  lemma LeafDeleteSound(t: Tree, k: Key, lo: int, hi: int, order: nat)
    requires t.Leaf? && Valid(t, lo, hi, 0, order)
    ensures Valid(Delete(t, k, 0, order), lo, hi, 0, order)
    ensures Entries(Delete(t, k, 0, order)) == RemoveKey(Entries(t), k)
  {
    LeafFind(t, k);
    var p := LowerBound(t.keys, k);
    if p < |t.keys| && t.keys[p] == k {
      RemoveAscending(t.keys, p);
      ZipRemove(t.keys, t.vals, p);
    }
  }

  lemma RemoveAscending(ks: seq<Key>, p: nat)
    requires Ascending(ks) && p < |ks|
    ensures Ascending(RemoveAt(ks, p))
    ensures forall j :: 0 <= j < |ks| - 1 ==> RemoveAt(ks, p)[j] == if j < p then ks[j] else ks[j + 1]
  {
  }

  lemma ZipRemove(ks: seq<Key>, vs: seq<RecordPtr>, p: nat)
    requires |ks| == |vs| && p < |ks|
    ensures Zip(RemoveAt(ks, p), RemoveAt(vs, p)) == RemoveAt(Zip(ks, vs), p)
  {
  }

  /** Deleting leaves stale separators behind, yet the tree stays valid and its map loses just `k`. */
  lemma {:induction false} DeleteSound(t: Tree, k: Key, lo: int, hi: int, h: nat, order: nat)
    requires Valid(t, lo, hi, h, order) && lo <= k < hi
    ensures Valid(Delete(t, k, h, order), lo, hi, h, order)
    ensures Entries(Delete(t, k, h, order)) == RemoveKey(Entries(t), k)
    decreases t
  {
    match t
    case Leaf(_, _) => LeafDeleteSound(t, k, lo, hi, order);
    case Inner(keys, kids) =>
      ChildOwnsKey(keys, k, lo, hi);
      var i := ChildIndex(keys, k);
      DeleteSound(kids[i], k, Low(keys, i, lo), High(keys, i, hi), h - 1, order);
      DeleteBelow(t, k, i, Delete(kids[i], k, h - 1, order), lo, hi, h, order);
  }

  /** A delete in child `i` is a delete in the whole tree. */
  lemma DeleteBelow(t: Tree, k: Key, i: nat, kid: Tree, lo: int, hi: int, h: nat, order: nat)
    requires t.Inner? && Valid(t, lo, hi, h, order) && i < |t.kids| && lo <= hi
    requires Low(t.keys, i, lo) <= k < High(t.keys, i, hi)
    requires Valid(kid, Low(t.keys, i, lo), High(t.keys, i, hi), h - 1, order)
    requires Entries(kid) == RemoveKey(Entries(t.kids[i]), k)
    ensures Valid(Inner(t.keys, t.kids[i := kid]), lo, hi, h, order)
    ensures Entries(Inner(t.keys, t.kids[i := kid])) == RemoveKey(Entries(t), k)
  {
    AroundChild(t, i, k, lo, hi);
    RemoveKeyLocal(Flat(t.kids[..i]), Entries(t.kids[i]), Flat(t.kids[i + 1..]), k);
    ReplaceSound(t, i, kid, lo, hi, h, order);
  }

  lemma LeafUpdateSound(t: Tree, k: Key, v: RecordPtr, lo: int, hi: int, order: nat)
    requires t.Leaf? && Valid(t, lo, hi, 0, order)
    ensures Valid(Update(t, k, v, 0, order), lo, hi, 0, order)
    ensures Entries(Update(t, k, v, 0, order)) == SetKey(Entries(t), k, v)
  {
    LeafFind(t, k);
    var p := LowerBound(t.keys, k);
    if p < |t.keys| && t.keys[p] == k {
      assert Entries(Update(t, k, v, 0, order)) == Entries(t)[p := (k, v)];
    }
  }

  lemma {:induction false} UpdateSound(t: Tree, k: Key, v: RecordPtr, lo: int, hi: int, h: nat, order: nat)
    requires Valid(t, lo, hi, h, order) && lo <= k < hi
    ensures Valid(Update(t, k, v, h, order), lo, hi, h, order)
    ensures Entries(Update(t, k, v, h, order)) == SetKey(Entries(t), k, v)
    decreases t
  {
    match t
    case Leaf(_, _) => LeafUpdateSound(t, k, v, lo, hi, order);
    case Inner(keys, kids) =>
      ChildOwnsKey(keys, k, lo, hi);
      var i := ChildIndex(keys, k);
      UpdateSound(kids[i], k, v, Low(keys, i, lo), High(keys, i, hi), h - 1, order);
      UpdateBelow(t, k, v, i, Update(kids[i], k, v, h - 1, order), lo, hi, h, order);
  }

  /** An update in child `i` is an update in the whole tree. */
  lemma UpdateBelow(t: Tree, k: Key, v: RecordPtr, i: nat, kid: Tree, lo: int, hi: int, h: nat, order: nat)
    requires t.Inner? && Valid(t, lo, hi, h, order) && i < |t.kids| && lo <= hi
    requires Low(t.keys, i, lo) <= k < High(t.keys, i, hi)
    requires Valid(kid, Low(t.keys, i, lo), High(t.keys, i, hi), h - 1, order)
    requires Entries(kid) == SetKey(Entries(t.kids[i]), k, v)
    ensures Valid(Inner(t.keys, t.kids[i := kid]), lo, hi, h, order)
    ensures Entries(Inner(t.keys, t.kids[i := kid])) == SetKey(Entries(t), k, v)
  {
    AroundChild(t, i, k, lo, hi);
    SetKeyLocal(Flat(t.kids[..i]), Entries(t.kids[i]), Flat(t.kids[i + 1..]), k, v);
    ReplaceSound(t, i, kid, lo, hi, h, order);
  }
}
